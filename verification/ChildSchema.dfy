/**
 The schema of the child's control payload: app/codex_process_executor_wsl.py,
 `codex_child_control_schema_diagnostic` and `_input_shape_valid`.
 */
module ChildSchema {
  import opened Bytes
  import opened JsonValues
  import opened FrameCodec
  import CanonicalJson
  import Jsonl

  const VERSION := "2"

  const BOOLEANS: set<string> := {
    "spawn_confirmed", "cleanup_ok", "last_message_exists", "last_message_regular", "last_message_match",
    "last_message_marker_match", "marker_match", "eof_stdout_drained", "eof_stderr_drained", "readers_joined"}
  const COUNTERS: set<string> := {
    "tool_event_count", "agent_message_count", "output_byte_count", "stderr_byte_count", "last_message_size",
    "response_byte_count", "request_header_count", "request_body_bytes", "removed_count", "post_filter_count"}
  const FLAGS: set<string> := {"request_seen", "request_validated", "response_sent", "accepted_post"}
  const DIGESTS: set<string> := {
    "event_sequence_hash", "stdout_sha256", "stderr_sha256", "response_sha256", "request_body_sha256",
    "implementation_hash"}
  const OPTIONAL_DIGESTS: set<string> := {"output_sha256", "last_message_sha256", "request_json_keyset_hash"}
  const NAMES: set<string> := {"stage", "error_code", "stderr_category", "strict_http_reject_reason"}
  const OTHERS: set<string> := {
    "schema_version", "process_counts", "codex_exit_code", "event_types", "event_counts", "usage", "input_shape"}

  /** Required, but looked at by no test. */
  const UNCHECKED: set<string> := {"request_hash", "sensitive_headers_removed"}

  const FIELDS: set<string> := BOOLEANS + COUNTERS + FLAGS + DIGESTS + OPTIONAL_DIGESTS + NAMES + OTHERS + UNCHECKED

  const SHAPE_NAMES: set<string> := {"item_type_ids", "role_ids", "content_type_ids"}
  const SHAPE_COUNTS: set<string> := {"item_key_presence_masks", "content_counts", "text_byte_counts"}
  const SHAPE_FIELDS: set<string> := SHAPE_NAMES + SHAPE_COUNTS + {"item_count", "text_sha256s", "shape_hash"}
  const SHAPE_WORDS: set<string> := {"message", "developer", "user", "unknown", "input_text"}

  /**
   The sealed names, the expected implementation hash, and the hex digest of a value's canonical
   JSON, None where canonical_json raises.
   */
  datatype Config = Config(stages: set<string>, errorCodes: set<string>, stderrCategories: set<string>,
                           rejectReasons: set<string>, implementation: string, digest: Json -> Option<string>)

  /** The group of a field; every field is in one. */
  datatype Kind = Structured | Name | Digest | OptionalDigest | Flag | Counter | Boolean | Unchecked

  function KindOf(field: string): (kind: Kind) {
    if field in OTHERS then Structured
    else if field in NAMES then Name
    else if field in DIGESTS then Digest
    else if field in OPTIONAL_DIGESTS then OptionalDigest
    else if field in FLAGS then Flag
    else if field in COUNTERS then Counter
    else if field in BOOLEANS then Boolean
    else Unchecked
  }

  // ------------------------------------------------------------------------ value kinds

  predicate IsHexDigest(s: string) {
    |s| == 64 && forall i :: 0 <= i < |s| ==> '0' <= s[i] <= '9' || 'a' <= s[i] <= 'f'
  }

  predicate IsDigest(v: Json) {
    v.JStr? && IsHexDigest(v.text)
  }

  predicate IsCount(v: Json) {
    v.JInt? && v.number >= 0
  }

  predicate IsFlag(v: Json) {
    v.JInt? && v.number in {0, 1}
  }

  predicate AllCounts(items: seq<Json>) {
    forall i :: 0 <= i < |items| ==> IsCount(items[i])
  }

  predicate AllWords(items: seq<Json>, words: set<string>) {
    forall i :: 0 <= i < |items| ==> items[i].JStr? && items[i].text in words
  }

  predicate AllDigests(items: seq<Json>) {
    forall i :: 0 <= i < |items| ==> IsDigest(items[i])
  }

  predicate IsInputShape(v: Json) {
    v.JNull? ||
    (v.JObj? && v.fields.Keys == SHAPE_FIELDS
     && IsCount(v.fields["item_count"])
     && (forall k :: k in SHAPE_NAMES ==> v.fields[k].JArr? && AllWords(v.fields[k].items, SHAPE_WORDS))
     && (forall k :: k in SHAPE_COUNTS ==> v.fields[k].JArr? && AllCounts(v.fields[k].items))
     && v.fields["text_sha256s"].JArr? && AllDigests(v.fields["text_sha256s"].items)
     && IsDigest(v.fields["shape_hash"]))
  }

  predicate IsProcessCounts(v: Json, spawned: bool) {
    && v.JObj? && v.fields.Keys == {"codex_cli"}
    && v.fields["codex_cli"] == JInt(if spawned then 1 else 0)
  }

  predicate IsExitCode(v: Json) {
    v.JNull? || (v.JInt? && -255 <= v.number <= 255)
  }

  predicate IsEvents(types: Json, counts: Json) {
    && types.JArr? && AllWords(types.items, Jsonl.EVENT_TYPES)
    && counts.JObj? && forall k :: k in counts.fields ==> k in Jsonl.EVENT_TYPES && IsCount(counts.fields[k])
  }

  // ---------------------------------------------------------------------------- the tests

  /** An object with all the fields of the schema and no other. */
  predicate IsComplete(p: map<string, Json>) {
    p.Keys == FIELDS
  }

  /** The type tests of the groups. */
  predicate HasKind(kind: Kind, v: Json) {
    match kind
    case Boolean => v.JBool?
    case Counter => IsCount(v)
    case Flag => IsFlag(v)
    case Digest => IsDigest(v)
    case OptionalDigest => v.JNull? || IsDigest(v)
    case _ => true
  }

  predicate HasSimpleTypes(p: map<string, Json>) {
    forall k :: k in FIELDS ==> HasKind(KindOf(k), Get(p, k))
  }

  predicate HasStructuredTypes(p: map<string, Json>) {
    && IsInputShape(Get(p, "input_shape"))
    && IsProcessCounts(Get(p, "process_counts"), Get(p, "spawn_confirmed") == JBool(true))
    && IsExitCode(Get(p, "codex_exit_code"))
    && IsEvents(Get(p, "event_types"), Get(p, "event_counts"))
    && (Get(p, "usage").JNull? || Jsonl.IsValidUsage(Get(p, "usage")))
  }

  predicate HasTypes(p: map<string, Json>) {
    HasSimpleTypes(p) && HasStructuredTypes(p)
  }

  /** The outcome of looking a value up in a set of names, which may also hold None. */
  function LookUp(v: Json, names: set<string>, orNone: bool): (d: Diagnosis) {
    if Jsonl.IsUnhashable(v) then Raises
    else if (v.JStr? && v.text in names) || (orNone && v.JNull?) then Valid
    else Invalid("bad_enum_fields")
  }

  function NamesDiagnosis(cfg: Config, p: map<string, Json>): (d: Diagnosis) {
    if Get(p, "schema_version") != JStr(VERSION) then Invalid("bad_enum_fields")
    else if LookUp(Get(p, "stage"), cfg.stages, false) != Valid then LookUp(Get(p, "stage"), cfg.stages, false)
    else if LookUp(Get(p, "error_code"), cfg.errorCodes, true) != Valid then LookUp(Get(p, "error_code"), cfg.errorCodes, true)
    else if LookUp(Get(p, "stderr_category"), cfg.stderrCategories, true) != Valid then
      LookUp(Get(p, "stderr_category"), cfg.stderrCategories, true)
    else LookUp(Get(p, "strict_http_reject_reason"), cfg.rejectReasons, true)
  }

  function Words(items: seq<Json>): (words: seq<string>)
    requires AllWords(items, Jsonl.EVENT_TYPES)
  {
    seq(|items|, i requires 0 <= i < |items| => items[i].text)
  }

  /** The counts the diagnostic makes itself. */
  function Observed(words: seq<string>): (counts: map<string, nat>) {
    if words == [] then map[]
    else
      var before, last := Observed(words[..|words| - 1]), words[|words| - 1];
      before[last := Jsonl.CountOf(before, last) + 1]
  }

  /** The object whose digest is the event sequence hash. */
  function EventsOf(p: map<string, Json>): (events: Json) {
    JObj(map["event_types" := Get(p, "event_types"), "event_counts" := Get(p, "event_counts")])
  }

  /** The recount and the event sequence hash; canonical_json may raise for counts that are too long. */
  function EventsDiagnosis(cfg: Config, p: map<string, Json>): (d: Diagnosis)
    requires IsEvents(Get(p, "event_types"), Get(p, "event_counts"))
  {
    var observed := Observed(Words(Get(p, "event_types").items));
    match cfg.digest(EventsOf(p))
    case None => Raises
    case Some(hash) =>
      if Get(p, "event_counts").fields == (map k | k in observed :: JInt(observed[k]))
         && Get(p, "event_sequence_hash") == JStr(hash)
      then Valid
      else Invalid("hash_mismatch")
  }

  predicate IsTrue(p: map<string, Json>, field: string) {
    Get(p, field) == JBool(true)
  }

  function NumberOf(p: map<string, Json>, field: string): (n: int) {
    if Get(p, field).JInt? then Get(p, field).number else 0
  }

  predicate IsRequestConsistent(p: map<string, Json>) {
    && NumberOf(p, "accepted_post") == NumberOf(p, "request_validated")
    && NumberOf(p, "response_sent") <= NumberOf(p, "accepted_post")
    && NumberOf(p, "request_validated") <= NumberOf(p, "request_seen")
    && (NumberOf(p, "response_sent") == 0 ==> NumberOf(p, "response_byte_count") == 0)
    && (NumberOf(p, "response_sent") == 1 ==> NumberOf(p, "response_byte_count") > 0)
  }

  predicate IsMessageConsistent(p: map<string, Json>) {
    && (IsTrue(p, "last_message_regular") ==> IsTrue(p, "last_message_exists"))
    && (IsTrue(p, "last_message_match") <==> IsTrue(p, "last_message_marker_match"))
    && (IsTrue(p, "last_message_match") ==>
          && IsTrue(p, "last_message_exists") && IsTrue(p, "last_message_regular")
          && Get(p, "last_message_sha256") != JNull)
    && (NumberOf(p, "agent_message_count") == 0 ==>
          NumberOf(p, "output_byte_count") == 0 && Get(p, "output_sha256") == JNull)
    && (NumberOf(p, "agent_message_count") > 0 ==>
          NumberOf(p, "output_byte_count") > 0 && Get(p, "output_sha256") != JNull)
    && (IsTrue(p, "marker_match") ==>
          && NumberOf(p, "agent_message_count") == 1 && IsTrue(p, "last_message_match")
          && Get(p, "output_sha256") != JNull && Get(p, "output_sha256") == Get(p, "last_message_sha256"))
  }

  /** The request's way: seen, validated and accepted, answered, and octets sent exactly if answered. */
  lemma RequestReported(p: map<string, Json>)
    requires HasSimpleTypes(p)
    ensures var seen, validated, accepted, sent, octets := NumberOf(p, "request_seen"), NumberOf(p, "request_validated"),
              NumberOf(p, "accepted_post"), NumberOf(p, "response_sent"), NumberOf(p, "response_byte_count");
            IsRequestConsistent(p) <==>
              && accepted == validated
              && (sent == 1 ==> accepted == 1) && (validated == 1 ==> seen == 1)
              && (octets > 0 <==> sent == 1)
  {
    FlagAt(p, "request_seen");
    FlagAt(p, "request_validated");
    FlagAt(p, "accepted_post");
    FlagAt(p, "response_sent");
    CountAt(p, "response_byte_count");
    hide HasSimpleTypes, NumberOf;
  }

  lemma FlagAt(p: map<string, Json>, k: string)
    requires HasSimpleTypes(p) && k in FLAGS
    ensures NumberOf(p, k) == 0 || NumberOf(p, k) == 1
  {
    hide KindOf, HasSimpleTypes;
    FlagKind(k);
    NumberField(k);
    KindAt(p, k);
  }

  lemma NumberField(k: string)
    requires k in FLAGS || k in COUNTERS
    ensures k in FIELDS
  {
  }

  lemma FlagKind(k: string)
    requires k in FLAGS
    ensures KindOf(k) == Flag
  {
  }

  lemma CountAt(p: map<string, Json>, k: string)
    requires HasSimpleTypes(p) && k in COUNTERS
    ensures NumberOf(p, k) >= 0
  {
    hide KindOf, HasSimpleTypes;
    CountKind(k);
    NumberField(k);
    KindAt(p, k);
  }

  lemma CountKind(k: string)
    requires k in COUNTERS
    ensures KindOf(k) == Counter
  {
  }

  /** The message: output is there exactly with an agent message, and a match says of which file and how many. */
  lemma MessageReported(p: map<string, Json>)
    requires HasSimpleTypes(p)
    ensures var messages, octets, output, last := NumberOf(p, "agent_message_count"), NumberOf(p, "output_byte_count"),
              Get(p, "output_sha256"), Get(p, "last_message_sha256");
            IsMessageConsistent(p) <==>
              && (messages > 0 <==> octets > 0) && (messages > 0 <==> output != JNull)
              && (IsTrue(p, "last_message_regular") ==> IsTrue(p, "last_message_exists"))
              && (IsTrue(p, "last_message_match") <==> IsTrue(p, "last_message_marker_match"))
              && (IsTrue(p, "last_message_match") ==> IsTrue(p, "last_message_regular") && last != JNull)
              && (IsTrue(p, "marker_match") ==> messages == 1 && IsTrue(p, "last_message_match") && output == last)
  {
    CountAt(p, "agent_message_count");
    CountAt(p, "output_byte_count");
    hide HasSimpleTypes, NumberOf, IsTrue, Get;
  }

  lemma EventsTyped(p: map<string, Json>)
    requires HasTypes(p)
    ensures IsEvents(Get(p, "event_types"), Get(p, "event_counts"))
  {
  }

  function DiagnoseFields(cfg: Config, p: map<string, Json>): (d: Diagnosis) {
    if !HasTypes(p) then Invalid("bad_type_fields")
    else
      EventsTyped(p);
      hide HasTypes, NamesDiagnosis, IsEvents;
      if NamesDiagnosis(cfg, p) != Valid then NamesDiagnosis(cfg, p)
      else if Get(p, "implementation_hash") != JStr(cfg.implementation) then Invalid("hash_mismatch")
      else if EventsDiagnosis(cfg, p) != Valid then EventsDiagnosis(cfg, p)
      else if !IsRequestConsistent(p) || !IsMessageConsistent(p) then Invalid("bad_type_fields")
      else Valid
  }

  function Diagnose(cfg: Config, v: Json): (d: Diagnosis) {
    if !v.JObj? then Invalid("bad_type_fields")
    else if !(FIELDS <= v.fields.Keys) then Invalid("missing_fields")
    else if !(v.fields.Keys <= FIELDS) then Invalid("extra_fields")
    else DiagnoseFields(cfg, v.fields)
  }

  lemma ValidParts(cfg: Config, v: Json)
    requires Diagnose(cfg, v) == Valid
    ensures v.JObj? && IsComplete(v.fields) && HasTypes(v.fields) && NamesDiagnosis(cfg, v.fields) == Valid
    ensures cfg.digest(EventsOf(v.fields)).Some?
  {
    hide HasTypes, NamesDiagnosis, IsEvents, IsRequestConsistent, IsMessageConsistent, EventsOf;
    if v.JObj? && HasTypes(v.fields) {
      EventsTyped(v.fields);
    }
  }

  lemma {:induction false} ObservedIsHistogram(words: seq<string>)
    ensures Jsonl.IsHistogram(Observed(words), words)
  {
    if words != [] {
      var init, last := words[..|words| - 1], words[|words| - 1];
      ObservedIsHistogram(init);
      Jsonl.HistogramSnoc(Observed(init), init, last);
      assert words == init + [last];
    }
  }

  /** The event counts of an accepted lifecycle are the ones the schema recounts. */
  lemma AcceptedCountsAgree(cfg: Jsonl.Config, turnNamed: bool, lines: seq<string>)
    requires Jsonl.Lifecycle(cfg, turnNamed, lines).Ok?
    ensures var seen := Jsonl.Lifecycle(cfg, turnNamed, lines).value; Observed(seen.types) == seen.counts
  {
    Jsonl.AcceptedReport(cfg, turnNamed, lines);
    var seen := Jsonl.Lifecycle(cfg, turnNamed, lines).value;
    ObservedIsHistogram(seen.types);
    SameHistogram(Observed(seen.types), seen.counts, seen.types);
  }

  lemma SameHistogram(a: map<string, nat>, b: map<string, nat>, types: seq<string>)
    requires Jsonl.IsHistogram(a, types) && Jsonl.IsHistogram(b, types)
    ensures a == b
  {
    forall k ensures k in a <==> k in b {
      assert Jsonl.CountOf(a, k) == Jsonl.CountOf(b, k);
    }
    forall k | k in a ensures a[k] == b[k] {
      assert Jsonl.CountOf(a, k) == Jsonl.CountOf(b, k);
    }
  }

  // ------------------------------------------------------- valid payloads and their frames

  /** No interpreter allows a lower limit on digits. */
  const MIN_DIGITS := 640

  /** The fields with values of any size: counters, usage, input shape, and what no test looks at. */
  predicate IsSized(field: string) {
    KindOf(field) in {Counter, Unchecked} || field in {"usage", "input_shape"}
  }

  ghost predicate SizedEncodable(limits: Limits, p: map<string, Json>, depth: nat) {
    forall k :: k in p && IsSized(k) ==> IsEncodable(limits, p[k], depth)
  }

  lemma FewDigits(limits: Limits, n: int)
    requires limits.maxDigits >= MIN_DIGITS && -1000 < n < 1000
    ensures FitsDigits(limits, n)
  {
    var m := if n < 0 then -n else n;
    assert CanonicalJson.Digits(m / 10 / 10) == [CanonicalJson.Digit(m / 10 / 10)];
    assert |CanonicalJson.Digits(m / 10)| <= 2;
  }

  lemma SimpleEncodable(limits: Limits, kind: Kind, v: Json, depth: nat)
    requires limits.maxDigits >= MIN_DIGITS && HasKind(kind, v) && kind in {Boolean, Flag, Digest, OptionalDigest}
    ensures IsEncodable(limits, v, depth)
  {
    if v.JInt? {
      FewDigits(limits, v.number);
    }
  }

  lemma NamesEncodable(cfg: Config, limits: Limits, p: map<string, Json>, k: string, depth: nat)
    requires NamesDiagnosis(cfg, p) == Valid && k in NAMES + {"schema_version"}
    ensures IsEncodable(limits, Get(p, k), depth)
  {
  }

  lemma StructuresEncodable(limits: Limits, p: map<string, Json>, depth: nat)
    requires HasStructuredTypes(p) && limits.maxDigits >= MIN_DIGITS && depth > 0
    ensures IsEncodable(limits, Get(p, "process_counts"), depth)
    ensures IsEncodable(limits, Get(p, "codex_exit_code"), depth)
    ensures IsEncodable(limits, Get(p, "event_types"), depth)
  {
    hide IsInputShape, Jsonl.IsValidUsage;
    FewDigits(limits, 0);
    FewDigits(limits, 1);
    if Get(p, "codex_exit_code").JInt? {
      FewDigits(limits, Get(p, "codex_exit_code").number);
    }
    hide FitsDigits;
  }

  /** The digest of the events needs their counts printed at the depth the payload prints them at. */
  lemma CountsEncodable(limits: Limits, p: map<string, Json>)
    requires IsEncodable(limits, EventsOf(p), limits.maxDepth)
    ensures limits.maxDepth > 0 && IsEncodable(limits, Get(p, "event_counts"), limits.maxDepth - 1)
  {
    var events := EventsOf(p);
    assert "event_counts" in events.fields;
    hide FitsDigits;
  }

  /** A field whose values are of bounded size. */
  lemma BoundedEncodable(cfg: Config, limits: Limits, p: map<string, Json>, k: string)
    requires limits.maxDigits >= MIN_DIGITS && limits.maxDepth >= 2
    requires HasTypes(p) && NamesDiagnosis(cfg, p) == Valid && IsEncodable(limits, EventsOf(p), limits.maxDepth)
    requires k in FIELDS && !IsSized(k)
    ensures IsEncodable(limits, Get(p, k), limits.maxDepth - 1)
  {
    hide HasStructuredTypes, HasSimpleTypes, NamesDiagnosis, IsEncodable, HasKind, EventsOf, KindOf, IsSized;
    KindMeans(k);
    KindAt(p, k);
    if KindOf(k) == Structured {
      BoundedStructure(cfg, limits, p, k);
    } else if KindOf(k) == Name {
      NamesEncodable(cfg, limits, p, k, limits.maxDepth - 1);
    } else {
      SimpleEncodable(limits, KindOf(k), Get(p, k), limits.maxDepth - 1);
    }
  }

  lemma KindMeans(k: string)
    ensures KindOf(k) == Structured ==> k in OTHERS
    ensures KindOf(k) == Name ==> k in NAMES
    ensures !IsSized(k) ==> KindOf(k) != Counter && KindOf(k) != Unchecked && k != "usage" && k != "input_shape"
  {
  }

  lemma KindAt(p: map<string, Json>, k: string)
    requires HasSimpleTypes(p) && k in FIELDS
    ensures HasKind(KindOf(k), Get(p, k))
  {
    hide HasKind, KindOf;
  }

  lemma BoundedStructure(cfg: Config, limits: Limits, p: map<string, Json>, k: string)
    requires limits.maxDigits >= MIN_DIGITS && limits.maxDepth >= 2
    requires HasStructuredTypes(p) && NamesDiagnosis(cfg, p) == Valid && IsEncodable(limits, EventsOf(p), limits.maxDepth)
    requires k in OTHERS && k != "usage" && k != "input_shape"
    ensures IsEncodable(limits, Get(p, k), limits.maxDepth - 1)
  {
    hide HasStructuredTypes, NamesDiagnosis, IsEncodable, EventsOf;
    StructuresEncodable(limits, p, limits.maxDepth - 1);
    CountsEncodable(limits, p);
    NamesEncodable(cfg, limits, p, "schema_version", limits.maxDepth - 1);
  }

  lemma EncodableParts(limits: Limits, p: map<string, Json>)
    requires limits.maxDepth > 0
    requires forall k :: k in p && !IsSized(k) ==> IsEncodable(limits, p[k], limits.maxDepth - 1)
    ensures IsEncodable(limits, JObj(p), limits.maxDepth) <==> SizedEncodable(limits, p, limits.maxDepth - 1)
  {
    hide IsSized;
  }

  /** The digest raises for what cannot be encoded, and for nothing else. */
  ghost predicate DigestsAll(limits: Limits, cfg: Config) {
    forall v :: cfg.digest(v).Some? <==> IsEncodable(limits, v, limits.maxDepth)
  }

  lemma ValidEncodes(cfg: Config, limits: Limits, p: map<string, Json>)
    requires limits.maxDigits >= MIN_DIGITS && limits.maxDepth >= 2 && DigestsAll(limits, cfg)
    requires Diagnose(cfg, JObj(p)) == Valid
    ensures IsEncodable(limits, JObj(p), limits.maxDepth) <==> SizedEncodable(limits, p, limits.maxDepth - 1)
  {
    ValidParts(cfg, JObj(p));
    hide HasTypes, NamesDiagnosis, IsEncodable, IsSized, Diagnose;
    forall k | k in p && !IsSized(k) ensures IsEncodable(limits, p[k], limits.maxDepth - 1) {
      BoundedEncodable(cfg, limits, p, k);
    }
    EncodableParts(limits, p);
  }

  /**
   A valid payload is framed, and its frame parses to it again, exactly when every field of
   unbounded size can be encoded; otherwise encoding it crashes.
   */
  lemma ValidPayloadFrames(cfg: Config, limits: Limits, codec: Codec, p: map<string, Json>)
    requires limits.maxDigits >= MIN_DIGITS && limits.maxDepth >= 2
    requires IsFaithful(codec) && EncodesAll(limits, codec) && DigestsAll(limits, cfg)
    requires codec.diagnose(JObj(p)) == Diagnose(cfg, JObj(p)) == Valid
    ensures var frame := EncodeFrame(codec, JObj(p));
            && (frame.Ok? <==> SizedEncodable(limits, p, limits.maxDepth - 1))
            && (frame.Ok? ==> ParseFrame(codec, frame.value) == Ok(JObj(p)))
            && (!frame.Ok? ==> frame == Crashed)
  {
    hide Diagnose, IsEncodable, SizedEncodable, DigestsAll, ParseFrame;
    ValidEncodes(cfg, limits, p);
    if EncodeFrame(codec, JObj(p)).Ok? {
      FrameRoundTrip(codec, JObj(p));
    }
  }
}
