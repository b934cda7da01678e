/**
 What the schema of the child's control payload demands, in terms of JSON values, and what its
 codes mean: app/codex_process_executor_wsl.py, `codex_child_control_schema_diagnostic`.
 */
module ChildMeaning {
  import opened Bytes
  import opened JsonValues
  import opened FrameCodec
  import opened ChildSchema
  import Jsonl
  import JsonlMeaning

  // ------------------------------------------------------------------- values in words

  /** Sixty-four lower-case hexadecimal digits. */
  ghost predicate IsHash(v: Json) {
    exists text :: v == JStr(text) && |text| == 64 && forall c :: c in text ==> c in "0123456789abcdef"
  }

  lemma HashIff(v: Json)
    ensures IsDigest(v) <==> IsHash(v)
  {
    if IsDigest(v) {
      forall c | c in v.text ensures c in "0123456789abcdef" {
        var i :| 0 <= i < |v.text| && v.text[i] == c;
        HexDigits(c);
      }
      assert v == JStr(v.text);
    }
    if IsHash(v) {
      forall i | 0 <= i < |v.text| ensures '0' <= v.text[i] <= '9' || 'a' <= v.text[i] <= 'f' {
        assert v.text[i] in v.text;
        HexDigits(v.text[i]);
      }
    }
  }

  lemma HexDigits(c: char)
    ensures '0' <= c <= '9' || 'a' <= c <= 'f' <==> c in "0123456789abcdef"
  {
  }

  ghost predicate IsNat(v: Json) {
    exists n: nat :: v == JInt(n)
  }

  lemma NatIff(v: Json)
    ensures IsCount(v) <==> IsNat(v)
  {
    if IsCount(v) {
      assert v == JInt(v.number);
    }
  }

  /** One of the six groups of fields with a type of their own. */
  ghost predicate IsTyped(p: map<string, Json>) {
    && (forall k :: k in BOOLEANS ==> Get(p, k) == JBool(true) || Get(p, k) == JBool(false))
    && (forall k :: k in COUNTERS ==> IsNat(Get(p, k)))
    && (forall k :: k in FLAGS ==> Get(p, k) == JInt(0) || Get(p, k) == JInt(1))
    && (forall k :: k in DIGESTS ==> IsHash(Get(p, k)))
    && (forall k :: k in OPTIONAL_DIGESTS ==> Get(p, k) == JNull || IsHash(Get(p, k)))
  }

  lemma Groups(k: string)
    ensures k in BOOLEANS ==> KindOf(k) == Boolean
    ensures k in COUNTERS ==> KindOf(k) == Counter
    ensures k in FLAGS ==> KindOf(k) == Flag
  {
  }

  lemma DigestGroups(k: string)
    ensures k in DIGESTS ==> KindOf(k) == Digest
    ensures k in OPTIONAL_DIGESTS ==> KindOf(k) == OptionalDigest
  {
  }

  lemma GroupOf(k: string)
    ensures KindOf(k) == Counter ==> k in COUNTERS
    ensures KindOf(k) == Boolean ==> k in BOOLEANS
    ensures KindOf(k) == Flag ==> k in FLAGS
    ensures KindOf(k) == Digest ==> k in DIGESTS
    ensures KindOf(k) == OptionalDigest ==> k in OPTIONAL_DIGESTS
  {
  }

  lemma GroupsAreFields(k: string)
    ensures k in BOOLEANS || k in COUNTERS || k in FLAGS || k in DIGESTS || k in OPTIONAL_DIGESTS ==> k in FIELDS
  {
  }

  lemma TypedAt(p: map<string, Json>, k: string)
    requires HasSimpleTypes(p)
    ensures k in BOOLEANS ==> Get(p, k) == JBool(true) || Get(p, k) == JBool(false)
    ensures k in COUNTERS ==> IsNat(Get(p, k))
    ensures k in FLAGS ==> Get(p, k) == JInt(0) || Get(p, k) == JInt(1)
    ensures k in DIGESTS ==> IsHash(Get(p, k))
    ensures k in OPTIONAL_DIGESTS ==> Get(p, k) == JNull || IsHash(Get(p, k))
  {
    hide KindOf, HasSimpleTypes, IsNat, IsHash, IsDigest, Get, IsCount;
    Groups(k);
    DigestGroups(k);
    GroupsAreFields(k);
    HashIff(Get(p, k));
    NatIff(Get(p, k));
    if k in FIELDS {
      KindAt(p, k);
    }
  }

  lemma KindFromTypes(p: map<string, Json>, k: string)
    requires IsTyped(p)
    ensures HasKind(KindOf(k), Get(p, k))
  {
    hide KindOf, IsNat, IsHash, IsDigest, Get, IsCount;
    GroupOf(k);
    HashIff(Get(p, k));
    NatIff(Get(p, k));
  }

  lemma TypedIff(p: map<string, Json>)
    ensures HasSimpleTypes(p) <==> IsTyped(p)
  {
    hide KindOf, HasKind, IsNat, IsHash, Get, BOOLEANS, COUNTERS, FLAGS, DIGESTS, OPTIONAL_DIGESTS, FIELDS;
    if HasSimpleTypes(p) {
      forall k { TypedAt(p, k); }
    }
    if IsTyped(p) {
      forall k { KindFromTypes(p, k); }
    }
  }

  // ------------------------------------------------------------------ structured fields

  ghost predicate IsHashList(v: Json) {
    v.JArr? && forall item :: item in v.items ==> IsHash(item)
  }

  ghost predicate IsNatList(v: Json) {
    v.JArr? && forall item :: item in v.items ==> IsNat(item)
  }

  /** A list of strings out of a few. */
  predicate IsWordList(v: Json, words: seq<string>) {
    v.JArr? && forall item :: item in v.items ==> item.JStr? && item.text in words
  }

  lemma ListsIff(items: seq<Json>)
    ensures AllDigests(items) <==> IsHashList(JArr(items))
    ensures AllCounts(items) <==> IsNatList(JArr(items))
  {
    hide IsHash, IsNat, IsDigest, IsCount;
    forall item ensures IsDigest(item) <==> IsHash(item) {
      HashIff(item);
    }
    forall item ensures IsCount(item) <==> IsNat(item) {
      NatIff(item);
    }
    assert forall i :: 0 <= i < |items| ==> items[i] in items;
  }

  lemma WordsIff(items: seq<Json>, words: set<string>, list: seq<string>)
    requires forall w :: w in words <==> w in list
    ensures AllWords(items, words) <==> IsWordList(JArr(items), list)
  {
    assert forall i :: 0 <= i < |items| ==> items[i] in items;
  }

  /** The shape of the request's input, counted and hashed. */
  ghost predicate IsShape(v: Json) {
    && v.JObj?
    && v.fields.Keys == {"item_count", "item_type_ids", "role_ids", "content_type_ids", "item_key_presence_masks",
                         "content_counts", "text_byte_counts", "text_sha256s", "shape_hash"}
    && IsNat(v.fields["item_count"]) && IsHash(v.fields["shape_hash"]) && IsHashList(v.fields["text_sha256s"])
    && IsWordList(v.fields["item_type_ids"], ["message", "developer", "user", "unknown", "input_text"])
    && IsWordList(v.fields["role_ids"], ["message", "developer", "user", "unknown", "input_text"])
    && IsWordList(v.fields["content_type_ids"], ["message", "developer", "user", "unknown", "input_text"])
    && IsNatList(v.fields["item_key_presence_masks"]) && IsNatList(v.fields["content_counts"])
    && IsNatList(v.fields["text_byte_counts"])
  }

  lemma ShapeFieldsIff(k: string)
    ensures k in SHAPE_FIELDS <==>
              k in {"item_count", "item_type_ids", "role_ids", "content_type_ids", "item_key_presence_masks",
                    "content_counts", "text_byte_counts", "text_sha256s", "shape_hash"}
  {
  }

  lemma ShapeIff(v: Json)
    ensures IsInputShape(v) <==> v == JNull || IsShape(v)
  {
    forall k { ShapeFieldsIff(k); }
    if v.JObj? {
      assert SHAPE_FIELDS == {"item_count", "item_type_ids", "role_ids", "content_type_ids", "item_key_presence_masks",
                              "content_counts", "text_byte_counts", "text_sha256s", "shape_hash"};
      if v.fields.Keys == SHAPE_FIELDS {
        ShapeValues(v.fields);
      }
    }
    hide IsNat, IsHash, IsHashList, IsNatList, IsWordList, AllWords, AllCounts, AllDigests, IsDigest, IsCount;
  }

  lemma ShapeValues(f: map<string, Json>)
    requires f.Keys == SHAPE_FIELDS
    ensures IsCount(f["item_count"]) <==> IsNat(f["item_count"])
    ensures IsDigest(f["shape_hash"]) <==> IsHash(f["shape_hash"])
    ensures f["text_sha256s"].JArr? && AllDigests(f["text_sha256s"].items) <==> IsHashList(f["text_sha256s"])
    ensures forall k :: k in SHAPE_NAMES ==> (f[k].JArr? && AllWords(f[k].items, SHAPE_WORDS) <==>
              IsWordList(f[k], ["message", "developer", "user", "unknown", "input_text"]))
    ensures forall k :: k in SHAPE_COUNTS ==> (f[k].JArr? && AllCounts(f[k].items) <==> IsNatList(f[k]))
  {
    hide IsNat, IsHash, IsHashList, IsNatList, IsWordList, AllWords, AllCounts, AllDigests, IsDigest, IsCount;
    NatIff(f["item_count"]);
    HashIff(f["shape_hash"]);
    forall items ensures (AllDigests(items) <==> IsHashList(JArr(items))) && (AllCounts(items) <==> IsNatList(JArr(items))) {
      ListsIff(items);
    }
    forall items
      ensures AllWords(items, SHAPE_WORDS) <==> IsWordList(JArr(items), ["message", "developer", "user", "unknown", "input_text"])
    {
      ShapeWords();
      WordsIff(items, SHAPE_WORDS, ["message", "developer", "user", "unknown", "input_text"]);
    }
    NotLists();
  }

  lemma ShapeWords()
    ensures forall w :: w in SHAPE_WORDS <==> w in ["message", "developer", "user", "unknown", "input_text"]
  {
  }

  lemma NotLists()
    ensures forall v :: IsHashList(v) || IsNatList(v) || IsWordList(v, ["message", "developer", "user", "unknown", "input_text"]) ==> v.JArr?
  {
  }

  ghost predicate IsExit(v: Json) {
    v == JNull || exists n :: v == JInt(n) && -256 < n < 256
  }

  lemma ExitIff(v: Json)
    ensures IsExitCode(v) <==> IsExit(v)
  {
    if v.JInt? {
      assert v == JInt(v.number);
    }
  }

  /** The fields that are objects, lists, an exit code, or nothing. */
  ghost predicate IsStructured(p: map<string, Json>) {
    && (Get(p, "input_shape") == JNull || IsShape(Get(p, "input_shape")))
    && (Get(p, "usage") == JNull || JsonlMeaning.IsUsage(Get(p, "usage")))
    && IsExit(Get(p, "codex_exit_code"))
    && Get(p, "process_counts") == JObj(map["codex_cli" := JInt(if Get(p, "spawn_confirmed") == JBool(true) then 1 else 0)])
    && IsWordList(Get(p, "event_types"),
                  ["thread.started", "turn.started", "item.started", "item.updated", "item.completed", "turn.completed",
                   "turn.failed", "error"])
    && Get(p, "event_counts").JObj? && (forall k :: k in Get(p, "event_counts").fields ==> IsNat(Get(p, "event_counts").fields[k]))
  }

  lemma TypeWords()
    ensures forall w :: w in Jsonl.EVENT_TYPES <==>
              w in ["thread.started", "turn.started", "item.started", "item.updated", "item.completed", "turn.completed",
                    "turn.failed", "error"]
  {
  }

  lemma ProcessIff(v: Json, spawned: bool)
    ensures IsProcessCounts(v, spawned) <==> v == JObj(map["codex_cli" := JInt(if spawned then 1 else 0)])
  {
    if IsProcessCounts(v, spawned) {
      assert v.fields == map["codex_cli" := JInt(if spawned then 1 else 0)];
    }
  }

  /** The counts of events, but for their keys, which the recount decides. */
  lemma EventsIff(types: Json, counts: Json)
    ensures IsEvents(types, counts) <==>
              && IsWordList(types, ["thread.started", "turn.started", "item.started", "item.updated", "item.completed",
                                    "turn.completed", "turn.failed", "error"])
              && counts.JObj? && forall k :: k in counts.fields ==> k in Jsonl.EVENT_TYPES && IsNat(counts.fields[k])
  {
    TypeWords();
    if types.JArr? {
      WordsIff(types.items, Jsonl.EVENT_TYPES, ["thread.started", "turn.started", "item.started", "item.updated",
                                                "item.completed", "turn.completed", "turn.failed", "error"]);
    }
    if counts.JObj? {
      forall k | k in counts.fields ensures IsCount(counts.fields[k]) <==> IsNat(counts.fields[k]) {
        NatIff(counts.fields[k]);
      }
    }
    hide IsNat, IsCount, AllWords;
  }

  /** Some words, how often each occurs, and the digest of both. */
  ghost predicate IsRecount(cfg: Config, types: Json, counts: Json, hash: Json) {
    exists words: seq<string>, recount: map<string, nat> ::
      && types == JArr(seq(|words|, i requires 0 <= i < |words| => JStr(words[i])))
      && counts == JObj(map k | k in recount :: JInt(recount[k]))
      && Jsonl.IsHistogram(recount, words)
      && (match cfg.digest(JObj(map["event_types" := types, "event_counts" := counts]))
          case None => false
          case Some(text) => hash == JStr(text))
  }

  lemma RecountIff(cfg: Config, p: map<string, Json>)
    requires IsEvents(Get(p, "event_types"), Get(p, "event_counts"))
    ensures EventsDiagnosis(cfg, p) == Valid <==>
              IsRecount(cfg, Get(p, "event_types"), Get(p, "event_counts"), Get(p, "event_sequence_hash"))
  {
    var types, counts, hash := Get(p, "event_types"), Get(p, "event_counts"), Get(p, "event_sequence_hash");
    var words := Words(types.items);
    var observed := Observed(words);
    ObservedIsHistogram(words);
    assert types == JArr(seq(|words|, i requires 0 <= i < |words| => JStr(words[i])));
    hide Jsonl.IsHistogram, Observed, IsEvents;
    if EventsDiagnosis(cfg, p) == Valid {
      assert counts == JObj(map k | k in observed :: JInt(observed[k]));
    }
    if IsRecount(cfg, types, counts, hash) {
      var ws: seq<string>, recount: map<string, nat> :|
        && types == JArr(seq(|ws|, i requires 0 <= i < |ws| => JStr(ws[i])))
        && counts == JObj(map k | k in recount :: JInt(recount[k])) && Jsonl.IsHistogram(recount, ws);
      assert forall i :: 0 <= i < |ws| ==> types.items[i] == JStr(ws[i]);
      assert ws == words;
      SameHistogram(observed, recount, words);
    }
  }

  /** A name out of some, or nothing where that is allowed. */
  ghost predicate IsOneOf(v: Json, names: set<string>, orNone: bool) {
    (exists name :: name in names && v == JStr(name)) || (orNone && v == JNull)
  }

  lemma LookUpIff(v: Json, names: set<string>, orNone: bool)
    ensures LookUp(v, names, orNone) == Valid <==> IsOneOf(v, names, orNone)
    ensures LookUp(v, names, orNone) == Raises <==> v.JArr? || v.JObj?
    ensures LookUp(v, names, orNone) in {Valid, Raises, Invalid("bad_enum_fields")}
  {
    if v.JStr? {
      assert v == JStr(v.text);
    }
  }

  ghost predicate IsNamed(cfg: Config, p: map<string, Json>) {
    && Get(p, "schema_version") == JStr("2")
    && IsOneOf(Get(p, "stage"), cfg.stages, false)
    && IsOneOf(Get(p, "error_code"), cfg.errorCodes, true)
    && IsOneOf(Get(p, "stderr_category"), cfg.stderrCategories, true)
    && IsOneOf(Get(p, "strict_http_reject_reason"), cfg.rejectReasons, true)
  }

  lemma NamedIff(cfg: Config, p: map<string, Json>)
    ensures NamesDiagnosis(cfg, p) == Valid <==> IsNamed(cfg, p)
    ensures NamesDiagnosis(cfg, p) in {Valid, Raises, Invalid("bad_enum_fields")}
    ensures NamesDiagnosis(cfg, p) == Raises ==> exists k :: k in NAMES && (Get(p, k).JArr? || Get(p, k).JObj?)
  {
    hide LookUp, IsOneOf, Get;
    LookUpIff(Get(p, "stage"), cfg.stages, false);
    LookUpIff(Get(p, "error_code"), cfg.errorCodes, true);
    LookUpIff(Get(p, "stderr_category"), cfg.stderrCategories, true);
    LookUpIff(Get(p, "strict_http_reject_reason"), cfg.rejectReasons, true);
    assert "stage" in NAMES && "error_code" in NAMES && "stderr_category" in NAMES && "strict_http_reject_reason" in NAMES;
  }

  lemma StructuredIff(p: map<string, Json>)
    ensures HasStructuredTypes(p) ==> IsStructured(p)
    ensures IsStructured(p) && (forall k :: k in Get(p, "event_counts").fields ==> k in Jsonl.EVENT_TYPES) ==> HasStructuredTypes(p)
  {
    hide Get, IsInputShape, IsShape, IsProcessCounts, IsExitCode, IsExit, IsEvents, Jsonl.IsValidUsage, JsonlMeaning.IsUsage, IsWordList;
    ShapeIff(Get(p, "input_shape"));
    ProcessIff(Get(p, "process_counts"), Get(p, "spawn_confirmed") == JBool(true));
    ExitIff(Get(p, "codex_exit_code"));
    EventsIff(Get(p, "event_types"), Get(p, "event_counts"));
    JsonlMeaning.UsageIff(Get(p, "usage"));
    NullIsNoUsage();
  }

  lemma NullIsNoUsage()
    ensures IsInputShape(JNull) && !Jsonl.IsValidUsage(JNull)
  {
  }

  // ------------------------------------------------------------------- relations of fields

  /** The request was seen, validated and accepted, then answered, and octets were sent exactly if it was answered. */
  ghost predicate IsRequest(p: map<string, Json>) {
    && Get(p, "accepted_post") == Get(p, "request_validated")
    && (Get(p, "response_sent") == JInt(1) ==> Get(p, "accepted_post") == JInt(1))
    && (Get(p, "request_validated") == JInt(1) ==> Get(p, "request_seen") == JInt(1))
    && (Get(p, "response_byte_count") != JInt(0) <==> Get(p, "response_sent") == JInt(1))
  }

  /** There is output exactly with an agent message, and a match says of which file and how many. */
  ghost predicate IsReport(p: map<string, Json>) {
    && (Get(p, "agent_message_count") != JInt(0) <==> Get(p, "output_byte_count") != JInt(0))
    && (Get(p, "agent_message_count") != JInt(0) <==> Get(p, "output_sha256") != JNull)
    && (Get(p, "last_message_regular") == JBool(true) ==> Get(p, "last_message_exists") == JBool(true))
    && Get(p, "last_message_match") == Get(p, "last_message_marker_match")
    && (Get(p, "last_message_match") == JBool(true) ==>
          Get(p, "last_message_regular") == JBool(true) && Get(p, "last_message_sha256") != JNull)
    && (Get(p, "marker_match") == JBool(true) ==>
          && Get(p, "agent_message_count") == JInt(1) && Get(p, "last_message_match") == JBool(true)
          && Get(p, "output_sha256") == Get(p, "last_message_sha256"))
  }

  lemma RequestIff(p: map<string, Json>)
    requires HasSimpleTypes(p)
    ensures IsRequestConsistent(p) <==> IsRequest(p)
  {
    RequestReported(p);
    NumberAt(p, "request_seen");
    NumberAt(p, "request_validated");
    NumberAt(p, "accepted_post");
    NumberAt(p, "response_sent");
    NumberAt(p, "response_byte_count");
    hide HasSimpleTypes, NumberOf, Get, IsRequestConsistent;
  }

  lemma ReportIff(p: map<string, Json>)
    requires HasSimpleTypes(p)
    ensures IsMessageConsistent(p) <==> IsReport(p)
  {
    MessageReported(p);
    NumberAt(p, "agent_message_count");
    NumberAt(p, "output_byte_count");
    TruthAt(p, "last_message_match");
    TruthAt(p, "last_message_marker_match");
    hide HasSimpleTypes, NumberOf, Get, IsMessageConsistent;
  }

  lemma NumberAt(p: map<string, Json>, k: string)
    requires HasSimpleTypes(p) && (k in FLAGS || k in COUNTERS)
    ensures NumberOf(p, k) >= 0 && Get(p, k) == JInt(NumberOf(p, k))
    ensures k in FLAGS ==> NumberOf(p, k) <= 1
  {
    TypedAt(p, k);
    hide HasSimpleTypes, Get;
  }

  lemma TruthAt(p: map<string, Json>, k: string)
    requires HasSimpleTypes(p) && k in BOOLEANS
    ensures Get(p, k) == JBool(IsTrue(p, k))
  {
    TypedAt(p, k);
    hide HasSimpleTypes, Get;
  }

  // ---------------------------------------------------------------------- whole payloads

  lemma RecountedTypes(cfg: Config, p: map<string, Json>)
    requires IsStructured(p) && IsRecount(cfg, Get(p, "event_types"), Get(p, "event_counts"), Get(p, "event_sequence_hash"))
    ensures Get(p, "event_counts").JObj? && forall k :: k in Get(p, "event_counts").fields ==> k in Jsonl.EVENT_TYPES
  {
    hide Get, IsShape, IsExit, JsonlMeaning.IsUsage, IsWordList, Jsonl.EVENT_TYPES, IsNat, Jsonl.IsHistogram;
    TypesOfRecount(cfg, Get(p, "event_types"), Get(p, "event_counts"), Get(p, "event_sequence_hash"));
  }

  /** The recount only has the listed types. */
  lemma TypesOfRecount(cfg: Config, types: Json, counts: Json, hash: Json)
    requires IsWordList(types, ["thread.started", "turn.started", "item.started", "item.updated", "item.completed",
                                "turn.completed", "turn.failed", "error"])
    requires counts.JObj? && IsRecount(cfg, types, counts, hash)
    ensures forall k :: k in counts.fields ==> k in Jsonl.EVENT_TYPES
  {
    hide Jsonl.IsHistogram, Jsonl.EVENT_TYPES;
    var words: seq<string>, recount: map<string, nat> :|
      && types == JArr(seq(|words|, i requires 0 <= i < |words| => JStr(words[i])))
      && counts == JObj(map k | k in recount :: JInt(recount[k])) && Jsonl.IsHistogram(recount, words);
    assert forall i :: 0 <= i < |words| ==> types.items[i] in types.items;
    forall k | k in counts.fields ensures k in Jsonl.EVENT_TYPES {
      Recounted(recount, words, k);
      var i :| 0 <= i < |words| && words[i] == k;
      assert types.items[i] == JStr(k);
      TypeWords();
    }
  }

  lemma Recounted(recount: map<string, nat>, words: seq<string>, k: string)
    requires Jsonl.IsHistogram(recount, words) && k in recount
    ensures k in words
  {
    assert Jsonl.CountOf(recount, k) == Jsonl.Occurrences(words, k);
    Occurs(words, k);
  }

  lemma {:induction false} Occurs(words: seq<string>, k: string)
    ensures Jsonl.Occurrences(words, k) > 0 ==> k in words
  {
    if words != [] {
      Occurs(words[..|words| - 1], k);
    }
  }

  /** What a payload must be like, with all the fields of the schema, types, names, digests and relations. */
  ghost predicate IsPayload(cfg: Config, v: Json) {
    && v.JObj? && v.fields.Keys == FIELDS
    && IsTyped(v.fields) && IsStructured(v.fields) && IsNamed(cfg, v.fields)
    && Get(v.fields, "implementation_hash") == JStr(cfg.implementation)
    && IsRecount(cfg, Get(v.fields, "event_types"), Get(v.fields, "event_counts"), Get(v.fields, "event_sequence_hash"))
    && IsRequest(v.fields) && IsReport(v.fields)
  }

  /** What each answer but Valid says of the value. */
  ghost predicate IsDiagnosis(cfg: Config, v: Json, d: Diagnosis) {
    if !v.JObj? then d == Invalid("bad_type_fields")
    else if exists k :: k in FIELDS && k !in v.fields then d == Invalid("missing_fields")
    else if exists k :: k in v.fields && k !in FIELDS then d == Invalid("extra_fields")
    else if !IsTyped(v.fields) || !IsStructured(v.fields) || !(Get(v.fields, "event_counts").fields.Keys <= Jsonl.EVENT_TYPES) then
      d == Invalid("bad_type_fields")
    else if !IsNamed(cfg, v.fields) then
      || d == Invalid("bad_enum_fields")
      || (d == Raises && exists k :: k in NAMES && (Get(v.fields, k).JArr? || Get(v.fields, k).JObj?))
    else if Get(v.fields, "implementation_hash") != JStr(cfg.implementation) then d == Invalid("hash_mismatch")
    else if cfg.digest(EventsOf(v.fields)) == None then d == Raises
    else if !IsRecount(cfg, Get(v.fields, "event_types"), Get(v.fields, "event_counts"), Get(v.fields, "event_sequence_hash")) then
      d == Invalid("hash_mismatch")
    else !(IsRequest(v.fields) && IsReport(v.fields)) && d == Invalid("bad_type_fields")
  }

  /** The diagnosis names the first kind of thing that is wrong. */
  lemma DiagnosisIsTrue(cfg: Config, v: Json)
    requires Diagnose(cfg, v) != Valid
    ensures IsDiagnosis(cfg, v, Diagnose(cfg, v))
  {
    hide HasSimpleTypes, HasStructuredTypes, NamesDiagnosis, IsEvents, IsRequestConsistent, IsMessageConsistent,
         IsTyped, IsStructured, IsNamed, IsRecount, IsRequest, IsReport, Get, EventsOf, KindOf;
    if v.JObj? {
      var p := v.fields;
      TypedIff(p);
      StructuredIff(p);
      NamedIff(cfg, p);
      if HasTypes(p) {
        EventsTyped(p);
        ListedTypes(p);
        RecountIff(cfg, p);
        RequestIff(p);
        ReportIff(p);
      }
    }
  }

  lemma ListedTypes(p: map<string, Json>)
    requires IsEvents(Get(p, "event_types"), Get(p, "event_counts"))
    ensures Get(p, "event_counts").JObj? && Get(p, "event_counts").fields.Keys <= Jsonl.EVENT_TYPES
  {
    hide IsCount;
  }

  lemma ValidIsPayload(cfg: Config, v: Json)
    requires Diagnose(cfg, v) == Valid
    ensures IsPayload(cfg, v)
  {
    hide HasSimpleTypes, HasStructuredTypes, NamesDiagnosis, IsEvents, IsRequestConsistent, IsMessageConsistent,
         IsTyped, IsStructured, IsNamed, IsRecount, IsRequest, IsReport, Get, EventsOf, KindOf, EventsDiagnosis;
    var p := v.fields;
    TypedIff(p);
    StructuredIff(p);
    NamedIff(cfg, p);
    EventsTyped(p);
    RecountIff(cfg, p);
    RequestIff(p);
    ReportIff(p);
  }

  lemma InvalidIsNone(cfg: Config, v: Json)
    requires Diagnose(cfg, v) != Valid
    ensures !IsPayload(cfg, v)
  {
    hide HasSimpleTypes, HasStructuredTypes, NamesDiagnosis, IsEvents, IsRequestConsistent, IsMessageConsistent,
         IsTyped, IsStructured, IsNamed, IsRecount, IsRequest, IsReport, Get, EventsOf, KindOf, EventsDiagnosis, Diagnose,
         FIELDS, Jsonl.EVENT_TYPES;
    DiagnosisIsTrue(cfg, v);
    if IsPayload(cfg, v) {
      RecountedTypes(cfg, v.fields);
      RecountIsHashed(cfg, v.fields);
    }
  }

  lemma RecountIsHashed(cfg: Config, p: map<string, Json>)
    requires IsRecount(cfg, Get(p, "event_types"), Get(p, "event_counts"), Get(p, "event_sequence_hash"))
    ensures cfg.digest(EventsOf(p)).Some?
  {
    hide Jsonl.IsHistogram, Get;
  }

  /** The diagnostic finds nothing wrong exactly with such payloads. */
  lemma ValidIff(cfg: Config, v: Json)
    ensures Diagnose(cfg, v) == Valid <==> IsPayload(cfg, v)
  {
    hide Diagnose, IsPayload;
    if Diagnose(cfg, v) == Valid {
      ValidIsPayload(cfg, v);
    } else {
      InvalidIsNone(cfg, v);
    }
  }
}
