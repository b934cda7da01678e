/**
 The child control frame: app/codex_process_executor_wsl.py,
 `encode_codex_child_control_frame` and `parse_codex_child_control_frame`.
 */
module FrameCodec {
  import opened Bytes
  import opened JsonValues
  import Base64Url
  import CanonicalJson

  /** CODEXGATE_CODEX_CHILD_V1: */
  const PREFIX: seq<byte> := [
    0x43, 0x4F, 0x44, 0x45, 0x58, 0x47, 0x41, 0x54, 0x45, 0x5F, 0x43, 0x4F, 0x44, 0x45, 0x58, 0x5F,
    0x43, 0x48, 0x49, 0x4C, 0x44, 0x5F, 0x56, 0x31, 0x3A]

  const BAD_TYPE_FIELDS := "bad_type_fields"

  /** What a schema diagnostic says; Raises is a TypeError for an unhashable value. */
  datatype Diagnosis = Valid | Invalid(code: string) | Raises

  /**
   The calls the frame relies on.  `canonical` is canonical_json followed by UTF-8 encoding,
   None where that raises; `load` is strict UTF-8 decoding followed by json.loads, None where
   that raises anything, since the parser catches every exception there; `diagnose` is the
   schema diagnostic.
   */
  datatype Codec = Codec(canonical: Json -> Option<seq<byte>>,
                         load: seq<byte> -> Option<Json>,
                         diagnose: Json -> Diagnosis)

  /** Loading canonical JSON gives the value back, no value loads from nothing, only objects are valid. */
  ghost predicate IsFaithful(codec: Codec) {
    && (forall v :: codec.canonical(v).Some? ==> codec.load(codec.canonical(v).value) == Some(v))
    && codec.load([]) == None
    && forall v :: codec.diagnose(v) == Valid ==> v.JObj?
  }

  /** Rejected raises a PolicyError; Crashed is another error outside any handler. */
  datatype Outcome<T> = Ok(value: T) | Rejected(code: string) | Crashed

  function EncodeFrame(codec: Codec, payload: Json): (r: Outcome<seq<byte>>) {
    match codec.diagnose(payload)
    case Invalid(code) => Rejected(code)
    case Raises => Crashed
    case Valid =>
      match codec.canonical(payload)
      case None => Crashed
      case Some(raw) => Ok(PREFIX + Base64Url.Encode(raw) + [NEWLINE])
  }

  function Count(s: seq<byte>, b: byte): (n: nat) {
    if s == [] then 0 else (if s[0] == b then 1 else 0) + Count(s[1..], b)
  }

  function ParseFrame(codec: Codec, frame: seq<byte>): (r: Outcome<Json>) {
    if Count(frame, NEWLINE) != 1 || frame[|frame| - 1] != NEWLINE || !(PREFIX <= frame) then Rejected(BAD_TYPE_FIELDS)
    else
      assert |frame| > |PREFIX| by { assert frame[|frame| - 1] == NEWLINE; }
      var text := frame[|PREFIX|..|frame| - 1];
      if text == [] || !Base64Url.IsText(text) then Rejected(BAD_TYPE_FIELDS)
      else
        match Base64Url.Decode(text)
        case None => Rejected(BAD_TYPE_FIELDS)
        case Some(raw) =>
          match codec.load(raw)
          case None => Rejected(BAD_TYPE_FIELDS)
          case Some(payload) =>
            if !payload.JObj? then Rejected(BAD_TYPE_FIELDS)
            else
              match codec.canonical(payload)
              case None => Crashed
              case Some(again) =>
                if again != raw then Rejected(BAD_TYPE_FIELDS)
                else
                  match codec.diagnose(payload)
                  case Invalid(code) => Rejected(code)
                  case Raises => Crashed
                  case Valid => Ok(payload)
  }

  /** The shape of a frame around a text. */
  function Framed(text: seq<byte>): (frame: seq<byte>) {
    PREFIX + text + [NEWLINE]
  }

  lemma {:induction false} CountAppend(s: seq<byte>, t: seq<byte>, b: byte)
    ensures Count(s + t, b) == Count(s, b) + Count(t, b)
  {
    if s == [] {
      assert s + t == t;
    } else {
      assert (s + t)[1..] == s[1..] + t;
      CountAppend(s[1..], t, b);
    }
  }

  lemma {:induction false} CountNone(s: seq<byte>, b: byte)
    ensures Count(s, b) == 0 <==> b !in s
  {
    if s != [] {
      CountNone(s[1..], b);
    }
  }

  /** Exactly the newline-terminated lines pass the first test. */
  lemma OneNewline(s: seq<byte>)
    ensures Count(s, NEWLINE) == 1 && s[|s| - 1] == NEWLINE <==> s != [] && s[|s| - 1] == NEWLINE && NEWLINE !in s[..|s| - 1]
  {
    if s != [] {
      var init := s[..|s| - 1];
      assert s == init + [s[|s| - 1]];
      CountAppend(init, [s[|s| - 1]], NEWLINE);
      CountNone(init, NEWLINE);
    }
  }

  /** A frame is accepted exactly when its text decodes to the canonical JSON of a valid payload. */
  lemma AcceptedIff(codec: Codec, frame: seq<byte>, payload: Json)
    requires IsFaithful(codec)
    ensures ParseFrame(codec, frame) == Ok(payload) <==>
              exists text ::
                && frame == Framed(text) && Base64Url.IsText(text)
                && codec.diagnose(payload) == Valid && codec.canonical(payload).Some?
                && Base64Url.Decode(text) == codec.canonical(payload)
  {
    if ParseFrame(codec, frame) == Ok(payload) {
      var text := frame[|PREFIX|..|frame| - 1];
      assert frame == Framed(text);
    }
    if text :| && frame == Framed(text) && Base64Url.IsText(text)
               && codec.diagnose(payload) == Valid && codec.canonical(payload).Some?
               && Base64Url.Decode(text) == codec.canonical(payload) {
      AcceptText(codec, text, payload);
    }
  }

  lemma AcceptText(codec: Codec, text: seq<byte>, payload: Json)
    requires IsFaithful(codec) && Base64Url.IsText(text)
    requires codec.diagnose(payload) == Valid && codec.canonical(payload).Some?
    requires Base64Url.Decode(text) == codec.canonical(payload)
    ensures ParseFrame(codec, Framed(text)) == Ok(payload)
  {
    TextOfFrame(codec, text);
    assert text != [];
  }

  /** Parsing the frame of a payload returns that payload. */
  lemma FrameRoundTrip(codec: Codec, payload: Json)
    requires IsFaithful(codec) && EncodeFrame(codec, payload).Ok?
    ensures ParseFrame(codec, EncodeFrame(codec, payload).value) == Ok(payload)
  {
    var raw := codec.canonical(payload).value;
    Base64Url.DecodeEncode(raw);
    AcceptText(codec, Base64Url.Encode(raw), payload);
  }

  /**
   An accepted frame carries the canonical JSON of the payload it returns, and is the frame
   that payload encodes to except for bits of its last symbol which the decoder does not use.
   */
  lemma AcceptedFrame(codec: Codec, frame: seq<byte>)
    requires IsFaithful(codec) && ParseFrame(codec, frame).Ok?
    ensures var payload := ParseFrame(codec, frame).value;
            exists text :: frame == Framed(text) && Base64Url.IsText(text)
              && Base64Url.Decode(text).Some? && Base64Url.Decode(text) == codec.canonical(payload)
              && EncodeFrame(codec, payload) == Ok(Framed(Base64Url.Encode(Base64Url.Decode(text).value)))
              && (EncodeFrame(codec, payload) == Ok(frame) <==> Base64Url.UsesNoSpareBits(text))
  {
    var payload := ParseFrame(codec, frame).value;
    AcceptedIff(codec, frame, payload);
    var text :| && frame == Framed(text) && Base64Url.IsText(text)
                && codec.diagnose(payload) == Valid && codec.canonical(payload).Some?
                && Base64Url.Decode(text) == codec.canonical(payload);
    Base64Url.EncodeDecode(text);
    var again := Base64Url.Encode(Base64Url.Decode(text).value);
    FramedInjective(again, text);
  }

  lemma FramedInjective(a: seq<byte>, b: seq<byte>)
    ensures Framed(a) == Framed(b) <==> a == b
  {
    assert Framed(a)[|PREFIX|..|Framed(a)| - 1] == a;
    assert Framed(b)[|PREFIX|..|Framed(b)| - 1] == b;
  }

  /** A payload has other frames than its own exactly when its canonical JSON fills no whole groups of three octets. */
  lemma OtherFrameIff(codec: Codec, payload: Json)
    requires IsFaithful(codec) && EncodeFrame(codec, payload).Ok?
    ensures (exists frame :: ParseFrame(codec, frame) == Ok(payload) && EncodeFrame(codec, payload) != Ok(frame))
            <==> |codec.canonical(payload).value| % 3 != 0
  {
    var raw := codec.canonical(payload).value;
    Base64Url.OtherTextIff(raw);
    hide Base64Url.Encode, Base64Url.Decode, Base64Url.IsText, ParseFrame;
    if |raw| % 3 != 0 {
      var text :| Base64Url.IsText(text) && Base64Url.Decode(text) == Some(raw) && text != Base64Url.Encode(raw);
      AcceptText(codec, text, payload);
      FramedInjective(text, Base64Url.Encode(raw));
    }
    forall frame | ParseFrame(codec, frame) == Ok(payload) && EncodeFrame(codec, payload) != Ok(frame)
      ensures |raw| % 3 != 0
    {
      AcceptedIff(codec, frame, payload);
    }
  }

  // ------------------------------------------------------------------------ crashes

  /** A payload the host parser meets an error for that is no policy error. */
  ghost predicate CrashesParser(codec: Codec, raw: seq<byte>, payload: Json) {
    && codec.load(raw) == Some(payload) && payload.JObj?
    && (codec.canonical(payload) == None
        || (codec.canonical(payload) == Some(raw) && codec.diagnose(payload) == Raises))
  }

  /**
   Parsing a frame crashes exactly when its octets load to an object that has no canonical JSON,
   or to one in canonical form that the schema diagnostic raises for.
   */
  lemma ParseCrashesIff(codec: Codec, frame: seq<byte>)
    requires codec.load([]) == None
    ensures ParseFrame(codec, frame) == Crashed <==>
              exists text, payload ::
                && frame == Framed(text) && Base64Url.IsText(text) && Base64Url.Decode(text).Some?
                && CrashesParser(codec, Base64Url.Decode(text).value, payload)
  {
    if ParseFrame(codec, frame) == Crashed {
      var text := frame[|PREFIX|..|frame| - 1];
      assert frame == Framed(text);
      assert CrashesParser(codec, Base64Url.Decode(text).value, codec.load(Base64Url.Decode(text).value).value);
    }
    if text, payload :| && frame == Framed(text) && Base64Url.IsText(text) && Base64Url.Decode(text).Some?
                        && CrashesParser(codec, Base64Url.Decode(text).value, payload) {
      CrashText(codec, text, payload);
    }
  }

  lemma CrashText(codec: Codec, text: seq<byte>, payload: Json)
    requires codec.load([]) == None && Base64Url.IsText(text) && Base64Url.Decode(text).Some?
    requires CrashesParser(codec, Base64Url.Decode(text).value, payload)
    ensures ParseFrame(codec, Framed(text)) == Crashed
  {
    TextOfFrame(codec, text);
    hide Count, Framed;
  }

  /** What the parser does with the text of a frame that passes its first tests. */
  lemma TextOfFrame(codec: Codec, text: seq<byte>)
    requires Base64Url.IsText(text) && Base64Url.Decode(text).Some?
    ensures var frame := Framed(text);
            && |frame| > |PREFIX| && frame[|frame| - 1] == NEWLINE && PREFIX <= frame && Count(frame, NEWLINE) == 1
            && frame[|PREFIX|..|frame| - 1] == text
  {
    var frame := Framed(text);
    assert frame[..|frame| - 1] == PREFIX + text;
    assert NEWLINE !in PREFIX && NEWLINE !in text;
    OneNewline(frame);
    assert frame[|PREFIX|..|frame| - 1] == text;
  }

  // ------------------------------------------------------------- what can be encoded

  /**
   Limits of the interpreter: the digits an integer may be printed with, how deep containers may
   be nested, and which texts are the repr of a float.
   */
  datatype Limits = Limits(maxDigits: nat, maxDepth: nat, isRepr: string -> bool)

  predicate FitsDigits(limits: Limits, n: int) {
    |CanonicalJson.Digits(if n < 0 then -n else n)| <= limits.maxDigits
  }

  /**
   A value canonical JSON in UTF-8 exists for, inside containers that leave room for `depth` more:
   no unpaired surrogate, no NaN or infinity, no integer that is too long, no nesting too deep.
   */
  ghost predicate IsEncodable(limits: Limits, v: Json, depth: nat)
    decreases v
  {
    match v
    case JInt(n) => FitsDigits(limits, n)
    case JFloat(literal) => limits.isRepr(literal)
    case JNaN => false
    case JInfinity(_) => false
    case JIllFormed(_) => false
    case JArr(items) => depth > 0 && forall i :: 0 <= i < |items| ==> IsEncodable(limits, items[i], depth - 1)
    case JObj(fields) => depth > 0 && forall k :: k in fields ==> IsEncodable(limits, fields[k], depth - 1)
    case _ => true
  }

  /** Nothing else keeps a value from being encoded. */
  ghost predicate EncodesAll(limits: Limits, codec: Codec) {
    forall v :: codec.canonical(v).Some? <==> IsEncodable(limits, v, limits.maxDepth)
  }

  /** The codec of the modelled canonical JSON, under the limits. */
  ghost function PlainCodec(limits: Limits, diagnose: Json -> Diagnosis): (codec: Codec) {
    Codec((v: Json) => if IsEncodable(limits, v, limits.maxDepth) then Some(CanonicalJson.CanonicalBytes(v)) else None,
          CanonicalJson.LoadBytes, diagnose)
  }

  lemma {:induction false} EncodableIsPlain(limits: Limits, v: Json, depth: nat)
    requires IsEncodable(limits, v, depth) && forall t :: limits.isRepr(t) ==> CanonicalJson.IsFloatLiteral(t)
    ensures CanonicalJson.IsPlain(v)
    decreases v
  {
    if v.JArr? {
      forall i | 0 <= i < |v.items| ensures CanonicalJson.IsPlain(v.items[i]) {
        EncodableIsPlain(limits, v.items[i], depth - 1);
      }
    } else if v.JObj? {
      forall k | k in v.fields ensures CanonicalJson.IsPlain(v.fields[k]) {
        EncodableIsPlain(limits, v.fields[k], depth - 1);
      }
    }
  }

  /** Whatever the limits are, there is a codec that meets both requirements. */
  lemma PlainCodecIsFaithful(limits: Limits, diagnose: Json -> Diagnosis)
    requires forall t :: limits.isRepr(t) ==> CanonicalJson.IsFloatLiteral(t)
    requires forall v :: diagnose(v) == Valid ==> v.JObj?
    ensures IsFaithful(PlainCodec(limits, diagnose)) && EncodesAll(limits, PlainCodec(limits, diagnose))
  {
    forall v: Json | IsEncodable(limits, v, limits.maxDepth)
      ensures CanonicalJson.LoadBytes(CanonicalJson.CanonicalBytes(v)) == Some(v)
    {
      EncodableIsPlain(limits, v, limits.maxDepth);
      CanonicalJson.LoadCanonical(v);
    }
    assert CanonicalJson.LoadBytes([]) == None;
  }
}
