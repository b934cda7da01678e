/** The incremental text classifier of app/capsule.py, fed piece by piece while a source is hashed. */
module TextInspection {
  import opened Bytes
  import opened Utf8

  datatype Encoding = Ascii | Utf8Plain | Utf8Sig

  datatype Verdict = Binary | Unsupported | TextIn(encoding: Encoding)

  const BOM: seq<byte> := [0xEF, 0xBB, 0xBF]
  const NUL: byte := 0

  predicate HasNonAscii(s: seq<byte>) {
    exists i :: 0 <= i < |s| && s[i] > 0x7F
  }

  /** The verdict on a whole source, read off its octets alone. */
  function VerdictOf(content: seq<byte>): (v: Verdict) {
    if NUL in content then Binary
    else if !WellFormed(content) then Unsupported
    else if BOM <= content then TextIn(Utf8Sig)
    else if HasNonAscii(content) then TextIn(Utf8Plain)
    else TextIn(Ascii)
  }

  class TextInspector {
    var pending: seq<byte>
    var prefix: seq<byte>
    var hasNonAscii: bool
    var hasNul: bool
    var decodeError: bool
    /** Everything fed so far. */
    ghost var fed: seq<byte>

    ghost predicate Valid()
      reads this
    {
      && prefix == fed[..Min(3, |fed|)]
      && hasNul == (NUL in fed)
      && hasNonAscii == HasNonAscii(fed)
      && (decodeError ==> Consume(fed).Failed?)
      && (!decodeError ==> Consume(fed) == Pending(pending))
    }

    constructor ()
      ensures Valid() && fed == []
    {
      pending, prefix := [], [];
      hasNonAscii, hasNul, decodeError := false, false, false;
      fed := [];
    }

    method Feed(value: seq<byte>)
      requires Valid()
      modifies this
      ensures Valid() && fed == old(fed) + value
    {
      hide Consume, HasNonAscii;
      if |prefix| < 3 {
        prefix := prefix + value[..Min(3 - |prefix|, |value|)];
      }
      hasNul := hasNul || NUL in value;
      hasNonAscii := hasNonAscii || HasNonAscii(value);
      if !decodeError {
        match Consume(pending + value)
        case Failed => decodeError := true;
        case Pending(tail) => pending := tail;
      }
      ConsumeAppend(fed, value);
      NonAsciiAppend(fed, value);
      PrefixAppend(fed, value);
      fed := fed + value;
    }

    /** However the octets were cut into pieces, the verdict is that of their concatenation. */
    method Finish() returns (v: Verdict)
      requires Valid()
      modifies this`decodeError
      ensures v == VerdictOf(fed)
    {
      WellFormedIffConsumed(fed);
      if !decodeError {
        // The final decoding of a non-empty tail fails.
        decodeError := pending != [];
      }
      if hasNul { return Binary; }
      if decodeError { return Unsupported; }
      if BOM <= prefix { return TextIn(Utf8Sig); }
      return if hasNonAscii then TextIn(Utf8Plain) else TextIn(Ascii);
    }
  }

  lemma PrefixAppend(a: seq<byte>, b: seq<byte>)
    ensures var p := a[..Min(3, |a|)];
            (a + b)[..Min(3, |a + b|)] == if |p| < 3 then p + b[..Min(3 - |p|, |b|)] else p
  {
  }

  lemma NonAsciiAppend(a: seq<byte>, b: seq<byte>)
    ensures HasNonAscii(a + b) == (HasNonAscii(a) || HasNonAscii(b))
  {
    if i :| 0 <= i < |a| && a[i] > 0x7F {
      assert (a + b)[i] > 0x7F;
    }
    if i :| 0 <= i < |b| && b[i] > 0x7F {
      assert (a + b)[|a| + i] > 0x7F;
    }
  }

  /** Well-formed octets start with the BOM exactly when their first scalar value is U+FEFF. */
  lemma BomIsFeff(s: seq<byte>)
    requires WellFormed(s)
    ensures BOM <= s <==> Decode(s) != [] && Decode(s)[0] == 0xFEFF
  {
    assert IsChar(BOM) && DecodeChar(BOM) == 0xFEFF;
    DecodeCharThenEncode(BOM);
    if s != [] {
      var head := s[..LeadLength(s[0])];
      DecodeCharThenEncode(head);
      hide Encode, DecodeChar;
      BomIsHead(s);
    }
  }

  lemma BomIsHead(s: seq<byte>)
    requires s != [] && LeadLength(s[0]) <= |s|
    ensures BOM <= s <==> s[..LeadLength(s[0])] == BOM
  {
    if BOM <= s {
      assert s[0] == BOM[0];
      assert s[..3] == BOM;
    }
  }

  /** Text is exactly NUL-free octets that encode some scalar values. */
  lemma TextMeaning(s: seq<byte>)
    ensures VerdictOf(s).TextIn? <==> NUL !in s && exists cs :: EncodeAll(cs) == s
  {
    WellFormedIffEncoding(s);
  }

  /** `ascii` is exactly NUL-free seven-bit octets: each is the scalar value it encodes. */
  lemma AsciiMeaning(s: seq<byte>)
    ensures VerdictOf(s) == TextIn(Ascii) <==>
            NUL !in s && (forall i :: 0 <= i < |s| ==> s[i] <= 0x7F)
  {
    assert BOM <= s ==> s[0] == BOM[0] == 0xEF;
    if forall i :: 0 <= i < |s| ==> s[i] <= 0x7F {
      AsciiIsWellFormed(s);
    }
  }

  /** `utf-8-sig` is exactly NUL-free text whose first scalar value is the byte order mark. */
  lemma SigMeaning(s: seq<byte>)
    ensures VerdictOf(s) == TextIn(Utf8Sig) <==>
            NUL !in s && WellFormed(s) && Decode(s) != [] && Decode(s)[0] == 0xFEFF
  {
    if WellFormed(s) {
      BomIsFeff(s);
    }
  }
}
