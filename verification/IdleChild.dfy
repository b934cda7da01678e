/**
 Payloads of a child that did nothing, under any limits of the interpreter: witnesses for what
 ChildSchema and FrameCodec prove of payloads that cannot be encoded, of frames that crash the
 parser, and of frames with the same payload.
 */
module IdleChild {
  import opened Bytes
  import opened JsonValues
  import opened FrameCodec
  import opened ChildSchema
  import Base64Url
  import CanonicalJson
  import Jsonl
  import Utf8

  function Zeros(n: nat): (text: string) {
    seq(n, _ => '0')
  }

  // ------------------------------------------------------------------------ the payload

  /** One field of the payload of a child that did nothing, with two values the schema leaves open. */
  function Field(requestHash: Json, removed: nat, k: string): (v: Json) {
    match KindOf(k)
    case Structured =>
      if k == "schema_version" then JStr(VERSION)
      else if k == "process_counts" then JObj(map["codex_cli" := JInt(0)])
      else if k == "event_types" then JArr([])
      else if k == "event_counts" then JObj(map[])
      else JNull
    case Name => if k == "stage" then JStr("start") else JNull
    case Digest => JStr(Zeros(64))
    case OptionalDigest => JNull
    case Flag => JInt(0)
    case Counter => JInt(if k == "removed_count" then removed else 0)
    case Boolean => JBool(false)
    case Unchecked => if k == "request_hash" then requestHash else JNull
  }

  function Payload(requestHash: Json, removed: nat): (p: map<string, Json>) {
    map k | k in FIELDS :: Field(requestHash, removed, k)
  }

  /** A configuration with one stage, whose digest raises exactly where canonical JSON does. */
  ghost function Sample(limits: Limits): (cfg: Config) {
    Config({"start"}, {}, {}, {}, Zeros(64),
           (v: Json) => if IsEncodable(limits, v, limits.maxDepth) then Some(Zeros(64)) else None)
  }

  ghost function SampleCodec(limits: Limits): (codec: Codec) {
    PlainCodec(limits, (v: Json) => Diagnose(Sample(limits), v))
  }

  lemma FieldAt(requestHash: Json, removed: nat, k: string)
    requires k in FIELDS
    ensures k in Payload(requestHash, removed) && Payload(requestHash, removed)[k] == Field(requestHash, removed, k)
  {
    hide Field;
  }

  lemma GetField(requestHash: Json, removed: nat, k: string)
    ensures Get(Payload(requestHash, removed), k) in {JNull, Field(requestHash, removed, k)}
  {
    hide Field;
  }

  /** Counts are zero and marks are not set, but for the two values left open. */
  lemma Quiet(requestHash: Json, removed: nat, k: string)
    requires k != "request_hash" && k != "removed_count"
    ensures NumberOf(Payload(requestHash, removed), k) == 0 && !IsTrue(Payload(requestHash, removed), k)
  {
    hide KindOf, Payload, Get;
    GetField(requestHash, removed, k);
  }

  lemma Structures(requestHash: Json, removed: nat)
    ensures var p := Payload(requestHash, removed);
            && Get(p, "schema_version") == JStr(VERSION) && Get(p, "process_counts") == JObj(map["codex_cli" := JInt(0)])
            && Get(p, "event_types") == JArr([]) && Get(p, "event_counts") == JObj(map[])
            && Get(p, "codex_exit_code") == JNull && Get(p, "usage") == JNull && Get(p, "input_shape") == JNull
  {
    hide Zeros;
  }

  lemma GroupKinds(k: string)
    ensures k in NAMES ==> KindOf(k) == Name
    ensures k in DIGESTS ==> KindOf(k) == Digest
    ensures k in OPTIONAL_DIGESTS ==> KindOf(k) == OptionalDigest
  {
  }

  lemma NameAt(requestHash: Json, removed: nat, k: string)
    requires k in NAMES
    ensures Get(Payload(requestHash, removed), k) == if k == "stage" then JStr("start") else JNull
  {
    GroupKinds(k);
    hide KindOf, Payload;
    FieldAt(requestHash, removed, k);
  }

  lemma DigestAt(requestHash: Json, removed: nat, k: string)
    requires k in DIGESTS
    ensures Get(Payload(requestHash, removed), k) == JStr(Zeros(64))
  {
    GroupKinds(k);
    hide KindOf, Payload;
    FieldAt(requestHash, removed, k);
  }

  lemma NoOutput(requestHash: Json, removed: nat)
    ensures Get(Payload(requestHash, removed), "output_sha256") == JNull
  {
    hide KindOf, Payload, Get;
    assert "output_sha256" in OPTIONAL_DIGESTS;
    GroupKinds("output_sha256");
    GetField(requestHash, removed, "output_sha256");
  }

  // ------------------------------------------------------------------------ it is valid

  lemma Typed(requestHash: Json, removed: nat)
    ensures HasTypes(Payload(requestHash, removed))
  {
    SimplyTyped(requestHash, removed);
    StructuresTyped(requestHash, removed);
    hide HasSimpleTypes, HasStructuredTypes, Payload;
  }

  lemma FieldKind(requestHash: Json, removed: nat, k: string)
    ensures HasKind(KindOf(k), Field(requestHash, removed, k))
  {
    hide KindOf;
    assert IsHexDigest(Zeros(64));
  }

  lemma SimplyTyped(requestHash: Json, removed: nat)
    ensures HasSimpleTypes(Payload(requestHash, removed))
  {
    hide KindOf, HasKind, Field;
    forall k { FieldKind(requestHash, removed, k); }
  }

  lemma StructuresTyped(requestHash: Json, removed: nat)
    ensures HasStructuredTypes(Payload(requestHash, removed))
  {
    hide Payload, Get, Jsonl.IsValidUsage;
    Structures(requestHash, removed);
    Quiet(requestHash, removed, "spawn_confirmed");
  }

  lemma Named(limits: Limits, requestHash: Json, removed: nat)
    ensures NamesDiagnosis(Sample(limits), Payload(requestHash, removed)) == Valid
  {
    hide Payload, Get;
    Structures(requestHash, removed);
    NameAt(requestHash, removed, "stage");
    NameAt(requestHash, removed, "error_code");
    NameAt(requestHash, removed, "stderr_category");
    NameAt(requestHash, removed, "strict_http_reject_reason");
  }

  lemma NoEventsEncodable(limits: Limits)
    requires limits.maxDepth >= 2
    ensures Sample(limits).digest(JObj(map["event_types" := JArr([]), "event_counts" := JObj(map[])])) == Some(Zeros(64))
  {
    var none := JObj(map["event_types" := JArr([]), "event_counts" := JObj(map[])]);
    assert IsEncodable(limits, none, limits.maxDepth);
  }

  lemma Counted(limits: Limits, requestHash: Json, removed: nat)
    requires limits.maxDepth >= 2
    ensures var p := Payload(requestHash, removed);
            IsEvents(Get(p, "event_types"), Get(p, "event_counts")) && EventsDiagnosis(Sample(limits), p) == Valid
  {
    hide Payload, Get, Sample;
    NoEventsEncodable(limits);
    Structures(requestHash, removed);
    DigestAt(requestHash, removed, "event_sequence_hash");
    assert Words([]) == [] && Observed([]) == map[];
  }

  lemma Consistent(requestHash: Json, removed: nat)
    ensures IsRequestConsistent(Payload(requestHash, removed)) && IsMessageConsistent(Payload(requestHash, removed))
  {
    hide Payload, NumberOf, IsTrue, Get;
    Quiet(requestHash, removed, "accepted_post");
    Quiet(requestHash, removed, "request_validated");
    Quiet(requestHash, removed, "response_sent");
    Quiet(requestHash, removed, "request_seen");
    Quiet(requestHash, removed, "response_byte_count");
    Quiet(requestHash, removed, "last_message_regular");
    Quiet(requestHash, removed, "last_message_match");
    Quiet(requestHash, removed, "last_message_marker_match");
    Quiet(requestHash, removed, "marker_match");
    Quiet(requestHash, removed, "agent_message_count");
    Quiet(requestHash, removed, "output_byte_count");
    NoOutput(requestHash, removed);
  }

  /** The payload is valid, whatever its request hash and however large its count of removed headers. */
  lemma IsAccepted(limits: Limits, requestHash: Json, removed: nat)
    requires limits.maxDepth >= 2
    ensures Diagnose(Sample(limits), JObj(Payload(requestHash, removed))) == Valid
  {
    assert Payload(requestHash, removed).Keys == FIELDS;
    assert Sample(limits).implementation == Zeros(64);
    hide Payload, HasTypes, NamesDiagnosis, EventsDiagnosis, IsRequestConsistent, IsMessageConsistent, IsEvents, Sample, Get;
    Typed(requestHash, removed);
    Named(limits, requestHash, removed);
    DigestAt(requestHash, removed, "implementation_hash");
    Counted(limits, requestHash, removed);
    Consistent(requestHash, removed);
  }

  // -------------------------------------------------------------- which of them are framed

  lemma OpenKinds(k: string)
    ensures k in UNCHECKED ==> KindOf(k) == Unchecked
    ensures k in COUNTERS ==> KindOf(k) == Counter
  {
  }

  lemma OpenInFields(k: string)
    requires k in UNCHECKED || k in COUNTERS
    ensures k in FIELDS
  {
  }

  lemma OpenField(requestHash: Json, removed: nat, k: string)
    requires k in FIELDS && (KindOf(k) == Unchecked || KindOf(k) == Counter)
    ensures k in Payload(requestHash, removed) && IsSized(k)
    ensures Payload(requestHash, removed)[k] ==
              if KindOf(k) == Unchecked then (if k == "request_hash" then requestHash else JNull)
              else JInt(if k == "removed_count" then removed else 0)
  {
    hide KindOf, Payload;
    FieldAt(requestHash, removed, k);
  }

  lemma RequestHash(requestHash: Json, removed: nat)
    ensures "request_hash" in Payload(requestHash, removed) && IsSized("request_hash")
    ensures Payload(requestHash, removed)["request_hash"] == requestHash
  {
    hide KindOf, Payload, IsSized;
    assert "request_hash" in UNCHECKED;
    OpenKinds("request_hash");
    OpenInFields("request_hash");
    OpenField(requestHash, removed, "request_hash");
  }

  lemma RemovedCount(requestHash: Json, removed: nat)
    ensures "removed_count" in Payload(requestHash, removed) && IsSized("removed_count")
    ensures Payload(requestHash, removed)["removed_count"] == JInt(removed)
  {
    hide KindOf, Payload, IsSized;
    assert "removed_count" in COUNTERS;
    OpenKinds("removed_count");
    OpenInFields("removed_count");
    OpenField(requestHash, removed, "removed_count");
  }

  /** The other fields of unbounded size are null or zero. */
  lemma SizedField(requestHash: Json, removed: nat, k: string)
    requires IsSized(k) && k != "request_hash" && k != "removed_count"
    ensures Field(requestHash, removed, k) in {JNull, JInt(0)}
  {
    hide KindOf;
    if KindOf(k) != Counter && KindOf(k) != Unchecked {
      StructuredKind(k);
    }
  }

  lemma StructuredKind(k: string)
    requires k in {"usage", "input_shape"}
    ensures KindOf(k) == Structured
  {
  }

  lemma Sizes(limits: Limits, requestHash: Json, removed: nat, depth: nat)
    requires limits.maxDigits >= MIN_DIGITS
    ensures SizedEncodable(limits, Payload(requestHash, removed), depth)
            <==> IsEncodable(limits, requestHash, depth) && FitsDigits(limits, removed)
  {
    var p := Payload(requestHash, removed);
    FewDigits(limits, 0);
    RequestHash(requestHash, removed);
    RemovedCount(requestHash, removed);
    assert IsEncodable(limits, JInt(removed), depth) <==> FitsDigits(limits, removed);
    assert IsEncodable(limits, JInt(0), depth) && IsEncodable(limits, JNull, depth);
    hide FitsDigits, IsEncodable, IsSized, Field;
    if IsEncodable(limits, requestHash, depth) && FitsDigits(limits, removed) {
      forall k | k in p && IsSized(k) ensures IsEncodable(limits, p[k], depth) {
        if k != "request_hash" && k != "removed_count" {
          SizedField(requestHash, removed, k);
        }
      }
    }
  }

  lemma SampleIsFaithful(limits: Limits)
    requires forall t :: limits.isRepr(t) ==> CanonicalJson.IsFloatLiteral(t)
    ensures IsFaithful(SampleCodec(limits)) && EncodesAll(limits, SampleCodec(limits))
    ensures forall v :: SampleCodec(limits).diagnose(v) == Diagnose(Sample(limits), v)
    ensures DigestsAll(limits, Sample(limits))
  {
    hide IsFaithful, EncodesAll, DiagnoseFields, CanonicalJson.IsFloatLiteral;
    PlainCodecIsFaithful(limits, (v: Json) => Diagnose(Sample(limits), v));
  }

  /** What becomes of the payload with these values, under the limits. */
  ghost function FrameOf(limits: Limits, requestHash: Json, removed: nat): (r: Outcome<seq<byte>>) {
    EncodeFrame(SampleCodec(limits), JObj(Payload(requestHash, removed)))
  }

  lemma FrameOfIff(limits: Limits, requestHash: Json, removed: nat)
    requires limits.maxDigits >= MIN_DIGITS && limits.maxDepth >= 2
    requires forall t :: limits.isRepr(t) ==> CanonicalJson.IsFloatLiteral(t)
    ensures if IsEncodable(limits, requestHash, limits.maxDepth - 1) && FitsDigits(limits, removed)
            then FrameOf(limits, requestHash, removed).Ok?
            else FrameOf(limits, requestHash, removed) == Crashed
  {
    hide Payload, Diagnose, DigestsAll, IsFaithful, EncodesAll, EncodeFrame, Sample, SampleCodec;
    hide IsEncodable, FitsDigits, SizedEncodable, CanonicalJson.IsFloatLiteral;
    SampleIsFaithful(limits);
    IsAccepted(limits, requestHash, removed);
    ValidPayloadFrames(Sample(limits), limits, SampleCodec(limits), Payload(requestHash, removed));
    Sizes(limits, requestHash, removed, limits.maxDepth - 1);
  }

  // ------------------------------------------------------------------------ values

  function Pow10(n: nat): (p: nat) {
    if n == 0 then 1 else 10 * Pow10(n - 1)
  }

  lemma {:induction false} Pow10Digits(n: nat)
    ensures Pow10(n) > 0 && |CanonicalJson.Digits(Pow10(n))| == n + 1
  {
    if n > 0 {
      Pow10Digits(n - 1);
      assert Pow10(n) / 10 == Pow10(n - 1);
    }
  }

  /** So many lists around an empty list. */
  function Nested(n: nat): (v: Json) {
    if n == 0 then JArr([]) else JArr([Nested(n - 1)])
  }

  lemma {:induction false} NestedTooDeep(limits: Limits, n: nat)
    ensures !IsEncodable(limits, Nested(n), n)
  {
    if n > 0 {
      NestedTooDeep(limits, n - 1);
      assert Nested(n).items[0] == Nested(n - 1);
    }
  }

  /**
   Under any limits there are valid payloads whose encoding crashes: for NaN or an infinity, an unpaired
   surrogate, nesting that is too deep, or a count with one digit too many.  Others are framed.
   */
  lemma ValidPayloadsThatCrash(limits: Limits)
    requires limits.maxDigits >= MIN_DIGITS && limits.maxDepth >= 2
    requires forall t :: limits.isRepr(t) ==> CanonicalJson.IsFloatLiteral(t)
    ensures FrameOf(limits, JNaN, 0) == FrameOf(limits, JInfinity(false), 0) == Crashed
    ensures FrameOf(limits, JIllFormed("\\ud800"), 0) == Crashed
    ensures FrameOf(limits, Nested(limits.maxDepth - 1), 0) == Crashed
    ensures FrameOf(limits, JNull, Pow10(limits.maxDigits)) == Crashed
    ensures FrameOf(limits, JNull, 0).Ok?
  {
    hide FrameOf, CanonicalJson.Digits, Nested, Pow10, CanonicalJson.IsFloatLiteral;
    NestedTooDeep(limits, limits.maxDepth - 1);
    Pow10Digits(limits.maxDigits);
    FewDigits(limits, 0);
    FrameOfIff(limits, JNaN, 0);
    FrameOfIff(limits, JInfinity(false), 0);
    FrameOfIff(limits, JIllFormed("\\ud800"), 0);
    FrameOfIff(limits, Nested(limits.maxDepth - 1), 0);
    FrameOfIff(limits, JNull, Pow10(limits.maxDigits));
    FrameOfIff(limits, JNull, 0);
  }

  // -------------------------------------------------------- a frame that crashes its parser

  /** The payload with a list for its stage, which no set of names can be asked for. */
  function ListStage(): (p: map<string, Json>) {
    Payload(JNull, 0)["stage" := JArr([])]
  }

  lemma ListStageAt(k: string)
    ensures Get(ListStage(), k) == if k == "stage" then JArr([]) else Get(Payload(JNull, 0), k)
  {
    hide Payload;
  }

  lemma ListStageTyped()
    ensures HasTypes(ListStage())
  {
    hide HasStructuredTypes, HasSimpleTypes, ListStage;
    ListStageSimple();
    ListStageStructured();
  }

  lemma StageIsName()
    ensures "stage" in FIELDS && KindOf("stage") == Name
  {
    assert "stage" in NAMES;
    GroupKinds("stage");
    NamesInFields("stage");
    hide KindOf;
  }

  lemma NamesInFields(k: string)
    ensures k in NAMES ==> k in FIELDS
  {
  }

  lemma ListStageSimple()
    ensures HasSimpleTypes(ListStage())
  {
    hide KindOf, HasKind, ListStage, Payload, Get;
    SimplyTyped(JNull, 0);
    StageIsName();
    forall k | k in FIELDS ensures HasKind(KindOf(k), Get(ListStage(), k)) {
      ListStageAt(k);
      NamesMayBeAnything(Get(ListStage(), k));
    }
  }

  lemma NamesMayBeAnything(v: Json)
    ensures HasKind(Name, v)
  {
  }

  lemma ListStageStructured()
    ensures HasStructuredTypes(ListStage())
  {
    hide ListStage, Payload, Get, IsInputShape, IsProcessCounts, IsExitCode, IsEvents, Jsonl.IsValidUsage;
    StructuresTyped(JNull, 0);
    ListStageAt("input_shape");
    ListStageAt("process_counts");
    ListStageAt("spawn_confirmed");
    ListStageAt("codex_exit_code");
    ListStageAt("event_types");
    ListStageAt("event_counts");
    ListStageAt("usage");
  }

  lemma ListStageRaises(limits: Limits)
    ensures Diagnose(Sample(limits), JObj(ListStage())) == Raises
  {
    ListStageKeys();
    ListStageTyped();
    ListStageNames(limits);
    hide HasTypes, NamesDiagnosis, ListStage, IsEvents, IsRequestConsistent, IsMessageConsistent, EventsDiagnosis, Get;
  }

  lemma ListStageKeys()
    ensures ListStage().Keys == FIELDS
  {
    StageIsName();
    hide Field;
  }

  lemma ListStageNames(limits: Limits)
    ensures NamesDiagnosis(Sample(limits), ListStage()) == Raises
  {
    hide ListStage, Payload, Get, Sample;
    Structures(JNull, 0);
    ListStageAt("schema_version");
    ListStageAt("stage");
  }

  lemma PayloadEncodable(limits: Limits, requestHash: Json, removed: nat)
    requires limits.maxDigits >= MIN_DIGITS && limits.maxDepth >= 2
    requires forall t :: limits.isRepr(t) ==> CanonicalJson.IsFloatLiteral(t)
    requires IsEncodable(limits, requestHash, limits.maxDepth - 1) && FitsDigits(limits, removed)
    ensures IsEncodable(limits, JObj(Payload(requestHash, removed)), limits.maxDepth)
  {
    hide IsEncodable, Diagnose, DigestsAll, IsFaithful, EncodesAll, SizedEncodable, Payload, Sample, SampleCodec, FitsDigits;
    hide CanonicalJson.IsFloatLiteral;
    IsAccepted(limits, requestHash, removed);
    SampleIsFaithful(limits);
    Sizes(limits, requestHash, removed, limits.maxDepth - 1);
    ValidEncodes(Sample(limits), limits, Payload(requestHash, removed));
  }

  lemma UpdateEncodable(limits: Limits, p: map<string, Json>, k: string, v: Json, depth: nat)
    requires IsEncodable(limits, JObj(p), depth) && depth > 0 && IsEncodable(limits, v, depth - 1)
    ensures IsEncodable(limits, JObj(p[k := v]), depth)
  {
  }

  lemma ListStageEncodable(limits: Limits)
    requires limits.maxDigits >= MIN_DIGITS && limits.maxDepth >= 2
    requires forall t :: limits.isRepr(t) ==> CanonicalJson.IsFloatLiteral(t)
    ensures IsEncodable(limits, JObj(ListStage()), limits.maxDepth)
  {
    assert IsEncodable(limits, JArr([]), limits.maxDepth - 1) && IsEncodable(limits, JNull, limits.maxDepth - 1);
    hide Payload, IsEncodable, FitsDigits, CanonicalJson.IsFloatLiteral;
    FewDigits(limits, 0);
    PayloadEncodable(limits, JNull, 0);
    UpdateEncodable(limits, Payload(JNull, 0), "stage", JArr([]), limits.maxDepth);
  }

  /** The canonical frame of this payload, which nothing but its stage is wrong with, crashes the parser. */
  lemma ListStageCrashes(limits: Limits)
    requires limits.maxDigits >= MIN_DIGITS && limits.maxDepth >= 2
    requires forall t :: limits.isRepr(t) ==> CanonicalJson.IsFloatLiteral(t)
    ensures var raw := CanonicalJson.CanonicalBytes(JObj(ListStage()));
            ParseFrame(SampleCodec(limits), Framed(Base64Url.Encode(raw))) == Crashed
  {
    var payload, codec := JObj(ListStage()), SampleCodec(limits);
    var raw := CanonicalJson.CanonicalBytes(payload);
    ListStageEncodable(limits);
    ListStageRaises(limits);
    SampleIsFaithful(limits);
    Base64Url.DecodeEncode(raw);
    assert codec.canonical(payload) == Some(raw) && codec.diagnose(payload) == Raises;
    assert codec.load(raw) == Some(payload);
    hide ParseFrame, SampleCodec, ListStage, IsEncodable, Base64Url.Encode, Base64Url.Decode, CanonicalJson.CanonicalBytes;
    CrashText(codec, Base64Url.Encode(raw), payload);
  }

  // -------------------------------------------------------------- a payload with two frames

  lemma AsciiLength(s: string)
    requires forall i :: 0 <= i < |s| ==> s[i] < 0x80 as char
    ensures CanonicalJson.Length(s) == |s|
  {
    Utf8.AsciiIsWellFormed(CanonicalJson.Scalars(s));
    Utf8.DecodeRoundTrips(CanonicalJson.Scalars(s));
  }

  lemma SameField(hash: Json, other: Json, k: string)
    requires k != "request_hash"
    ensures Field(hash, 0, k) == Field(other, 0, k)
  {
    hide KindOf, Zeros;
  }

  lemma SameAt(hash: Json, other: Json, k: string)
    ensures k in Payload(other, 0) <==> k in Payload(hash, 0)
    ensures k in Payload(hash, 0) && k != "request_hash" ==> Payload(other, 0)[k] == Payload(hash, 0)[k]
  {
    if k != "request_hash" {
      SameField(hash, other, k);
    }
    hide Field;
  }

  lemma SameButHash(hash: Json, other: Json)
    ensures Payload(other, 0) == Payload(hash, 0)["request_hash" := other]
  {
    hide Payload, IsSized;
    RequestHash(hash, 0);
    RequestHash(other, 0);
    forall k ensures k in Payload(other, 0) <==> k in Payload(hash, 0)["request_hash" := other] {
      SameAt(hash, other, k);
    }
    forall k | k in Payload(other, 0) ensures Payload(other, 0)[k] == Payload(hash, 0)["request_hash" := other][k] {
      SameAt(hash, other, k);
    }
  }

  lemma HashLength(hash: Json, other: Json)
    ensures |CanonicalJson.CanonicalBytes(JObj(Payload(other, 0)))| + CanonicalJson.Length(CanonicalJson.Print(hash)) ==
            |CanonicalJson.CanonicalBytes(JObj(Payload(hash, 0)))| + CanonicalJson.Length(CanonicalJson.Print(other))
  {
    hide Payload, IsSized, CanonicalJson.Print, CanonicalJson.CanonicalBytes, CanonicalJson.Length;
    SameButHash(hash, other);
    RequestHash(hash, 0);
    CanonicalJson.UpdateLength(Payload(hash, 0), "request_hash", other);
  }

  /** The JSON of false takes an octet more than that of null. */
  lemma OneOctetMore()
    ensures CanonicalJson.Length(CanonicalJson.Print(JBool(false))) == CanonicalJson.Length(CanonicalJson.Print(JNull)) + 1
  {
    assert CanonicalJson.Print(JNull) == "null" && CanonicalJson.Print(JBool(false)) == "false";
    AsciiLength("null");
    AsciiLength("false");
    hide CanonicalJson.Print, CanonicalJson.Length;
  }

  /** The parser accepts two frames with this payload. */
  ghost predicate HasTwoFrames(limits: Limits, payload: Json) {
    exists frame, other :: frame != other
      && ParseFrame(SampleCodec(limits), frame) == Ok(payload) && ParseFrame(SampleCodec(limits), other) == Ok(payload)
  }

  /** Under any limits some valid payload has two frames the parser accepts. */
  lemma TwoFrames(limits: Limits)
    requires limits.maxDigits >= MIN_DIGITS && limits.maxDepth >= 2
    requires forall t :: limits.isRepr(t) ==> CanonicalJson.IsFloatLiteral(t)
    ensures exists payload :: HasTwoFrames(limits, payload)
  {
    assert IsEncodable(limits, JNull, limits.maxDepth - 1) && IsEncodable(limits, JBool(false), limits.maxDepth - 1);
    hide IsEncodable, CanonicalJson.IsFloatLiteral, HasTwoFrames, CanonicalJson.Print, CanonicalJson.Length;
    OneOctetMore();
    OneHasTwoFrames(limits, JNull, JBool(false));
  }

  lemma OneHasTwoFrames(limits: Limits, hash: Json, other: Json)
    requires limits.maxDigits >= MIN_DIGITS && limits.maxDepth >= 2
    requires forall t :: limits.isRepr(t) ==> CanonicalJson.IsFloatLiteral(t)
    requires IsEncodable(limits, hash, limits.maxDepth - 1) && IsEncodable(limits, other, limits.maxDepth - 1)
    requires CanonicalJson.Length(CanonicalJson.Print(other)) == CanonicalJson.Length(CanonicalJson.Print(hash)) + 1
    ensures exists payload :: HasTwoFrames(limits, payload)
  {
    hide Payload, IsEncodable, FitsDigits, CanonicalJson.IsFloatLiteral, CanonicalJson.CanonicalBytes, HasTwoFrames;
    hide CanonicalJson.Print, CanonicalJson.Length;
    FewDigits(limits, 0);
    HashLength(hash, other);
    if |CanonicalJson.CanonicalBytes(JObj(Payload(hash, 0)))| % 3 != 0 {
      TwoFramesOf(limits, hash, 0);
    } else {
      TwoFramesOf(limits, other, 0);
    }
  }

  lemma TwoFramesOf(limits: Limits, requestHash: Json, removed: nat)
    requires limits.maxDigits >= MIN_DIGITS && limits.maxDepth >= 2
    requires forall t :: limits.isRepr(t) ==> CanonicalJson.IsFloatLiteral(t)
    requires IsEncodable(limits, requestHash, limits.maxDepth - 1) && FitsDigits(limits, removed)
    requires |CanonicalJson.CanonicalBytes(JObj(Payload(requestHash, removed)))| % 3 != 0
    ensures HasTwoFrames(limits, JObj(Payload(requestHash, removed)))
  {
    hide Payload, IsEncodable, FitsDigits, CanonicalJson.IsFloatLiteral, CanonicalJson.CanonicalBytes, ParseFrame, EncodeFrame;
    hide Sample, Diagnose;
    var payload, codec := JObj(Payload(requestHash, removed)), SampleCodec(limits);
    FrameOfIff(limits, requestHash, removed);
    PayloadEncodable(limits, requestHash, removed);
    SampleIsFaithful(limits);
    assert codec.canonical(payload) == Some(CanonicalJson.CanonicalBytes(payload));
    hide SampleCodec, IsFaithful, EncodesAll;
    FrameRoundTrip(codec, payload);
    OtherFrameIff(codec, payload);
    var other :| ParseFrame(codec, other) == Ok(payload) && EncodeFrame(codec, payload) != Ok(other);
    assert EncodeFrame(codec, payload).value != other;
  }
}
