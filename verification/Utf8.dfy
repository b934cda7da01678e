/**
 UTF-8 as section 4 of RFC 3629 writes it, and the strict incremental decoder the text
 inspector drives.  Two views are connected here: the grammar of well-formed octets, and
 the octets obtained by encoding Unicode scalar values.
 */
module Utf8 {
  import opened Bytes

  /** A Unicode scalar value: a code point that is not a surrogate. */
  type Scalar = c: int | 0 <= c < 0x11_0000 && !(0xD800 <= c < 0xE000)

  predicate IsTail(b: byte) {
    0x80 <= b <= 0xBF
  }

  /** How many octets a character with this first octet has; 0 when no character starts with it. */
  function LeadLength(b: byte): (n: nat) {
    if b <= 0x7F then 1
    else if 0xC2 <= b <= 0xDF then 2
    else if 0xE0 <= b <= 0xEF then 3
    else if 0xF0 <= b <= 0xF4 then 4
    else 0
  }

  /** Second octets the grammar allows after a first octet of a multi-octet character. */
  predicate IsSecond(lead: byte, b: byte) {
    if lead == 0xE0 then 0xA0 <= b <= 0xBF
    else if lead == 0xED then 0x80 <= b <= 0x9F
    else if lead == 0xF0 then 0x90 <= b <= 0xBF
    else if lead == 0xF4 then 0x80 <= b <= 0x8F
    else IsTail(b)
  }

  /** The octets of `s` are the first |s| octets of some character. */
  predicate IsCharPrefix(s: seq<byte>) {
    && 0 < |s| <= LeadLength(s[0])
    && (1 < |s| ==> IsSecond(s[0], s[1]))
    && (2 < |s| ==> IsTail(s[2]))
    && (3 < |s| ==> IsTail(s[3]))
  }

  /** The production UTF8-char. */
  predicate IsChar(s: seq<byte>) {
    IsCharPrefix(s) && |s| == LeadLength(s[0])
  }

  /** The production UTF8-octets. */
  predicate WellFormed(s: seq<byte>) {
    s == [] ||
    var n := LeadLength(s[0]);
    0 < n <= |s| && IsChar(s[..n]) && WellFormed(s[n..])
  }

  // ---------------------------------------------------------------- scalar values

  /** The octets of one scalar value (section 3 of RFC 3629). */
  function Encode(c: Scalar): (s: seq<byte>) {
    if c < 0x80 then [c]
    else if c < 0x800 then [0xC0 + c / 64, 0x80 + c % 64]
    else if c < 0x1_0000 then
      [0xE0 + c / 64 / 64, 0x80 + c / 64 % 64, 0x80 + c % 64]
    else
      [0xF0 + c / 64 / 64 / 64, 0x80 + c / 64 / 64 % 64, 0x80 + c / 64 % 64, 0x80 + c % 64]
  }

  function EncodeAll(cs: seq<Scalar>): (s: seq<byte>) {
    if cs == [] then [] else Encode(cs[0]) + EncodeAll(cs[1..])
  }

  /** Appends the six payload bits of a tail octet. */
  function Shift(high: int, tail: byte): (c: int) {
    64 * high + (tail - 0x80)
  }

  /** The scalar value of one character. */
  function DecodeChar(s: seq<byte>): (c: Scalar)
    requires IsChar(s)
  {
    var lead: int := s[0];
    if |s| == 1 then lead
    else if |s| == 2 then Shift(lead - 0xC0, s[1])
    else if |s| == 3 then Shift(Shift(lead - 0xE0, s[1]), s[2])
    else Shift(Shift(Shift(lead - 0xF0, s[1]), s[2]), s[3])
  }

  function Decode(s: seq<byte>): (cs: seq<Scalar>)
    requires WellFormed(s)
  {
    if s == [] then []
    else var n := LeadLength(s[0]); [DecodeChar(s[..n])] + Decode(s[n..])
  }

  /** Encoding one scalar value gives one character, and decoding it gives the value back. */
  lemma EncodeIsChar(c: Scalar)
    ensures IsChar(Encode(c)) && DecodeChar(Encode(c)) == c
  {
    var c1, c2 := c / 64, c / 64 / 64;
    assert c == 64 * c1 + c % 64 && c1 == 64 * c2 + c1 % 64 && c2 == 64 * (c2 / 64) + c2 % 64;
    if c < 0x80 {
    } else if c < 0x800 {
      assert Shift(c1, 0x80 + c % 64) == c;
    } else if c < 0x1_0000 {
      assert Shift(c2, 0x80 + c1 % 64) == c1;
      assert Shift(c1, 0x80 + c % 64) == c;
      assert c2 == 0 ==> c1 >= 32;
      assert c2 == 13 ==> c1 % 64 < 32;
    } else {
      assert Shift(c2 / 64, 0x80 + c2 % 64) == c2;
      assert Shift(c2, 0x80 + c1 % 64) == c1;
      assert Shift(c1, 0x80 + c % 64) == c;
      assert c2 / 64 == 0 ==> c2 >= 16;
    }
  }

  lemma DecodeCharThenEncode(s: seq<byte>)
    requires IsChar(s)
    ensures Encode(DecodeChar(s)) == s
  {
    var lead: int := s[0];
    if |s| == 2 {
      ShiftParts(lead - 0xC0, s[1]);
    } else if |s| == 3 {
      ShiftParts(lead - 0xE0, s[1]);
      ShiftParts(Shift(lead - 0xE0, s[1]), s[2]);
    } else if |s| == 4 {
      ShiftParts(lead - 0xF0, s[1]);
      ShiftParts(Shift(lead - 0xF0, s[1]), s[2]);
      ShiftParts(Shift(Shift(lead - 0xF0, s[1]), s[2]), s[3]);
    }
  }

  lemma ShiftParts(high: int, tail: byte)
    requires IsTail(tail)
    ensures Shift(high, tail) / 64 == high && Shift(high, tail) % 64 == tail - 0x80
  {
  }

  /** Every sequence of scalar values encodes to well-formed octets that decode to it. */
  lemma {:induction false} EncodeAllRoundTrips(cs: seq<Scalar>)
    ensures WellFormed(EncodeAll(cs)) && Decode(EncodeAll(cs)) == cs
  {
    if cs != [] {
      EncodeIsChar(cs[0]);
      EncodeAllRoundTrips(cs[1..]);
      var s, n := EncodeAll(cs), |Encode(cs[0])|;
      assert s[..n] == Encode(cs[0]) && s[n..] == EncodeAll(cs[1..]);
    }
  }

  lemma {:induction false} DecodeRoundTrips(s: seq<byte>)
    requires WellFormed(s)
    ensures EncodeAll(Decode(s)) == s
  {
    if s != [] {
      var n := LeadLength(s[0]);
      DecodeCharThenEncode(s[..n]);
      DecodeRoundTrips(s[n..]);
    }
  }

  /** The grammar accepts exactly the encodings of sequences of scalar values. */
  lemma WellFormedIffEncoding(s: seq<byte>)
    ensures WellFormed(s) <==> exists cs :: EncodeAll(cs) == s
  {
    if WellFormed(s) {
      DecodeRoundTrips(s);
    }
    if cs :| EncodeAll(cs) == s {
      EncodeAllRoundTrips(cs);
    }
  }

  // ------------------------------------------------------- the incremental decoder

  /** What one non-final decoding of buffered octets does: fail, or keep an unfinished tail. */
  datatype Decoded = Failed | Pending(tail: seq<byte>)

  function Consume(data: seq<byte>): (d: Decoded) {
    if data == [] then Pending([])
    else
      var n := LeadLength(data[0]);
      if n == 0 then Failed
      else if n <= |data| then
        if IsChar(data[..n]) then Consume(data[n..]) else Failed
      else if IsCharPrefix(data) then Pending(data)
      else Failed
  }

  /** Decoding in two steps, the second with the tail the first kept, is decoding at once. */
  lemma {:induction false} ConsumeAppend(a: seq<byte>, b: seq<byte>)
    ensures Consume(a).Failed? ==> Consume(a + b).Failed?
    ensures Consume(a).Pending? ==> Consume(a + b) == Consume(Consume(a).tail + b)
  {
    if a == [] {
      assert a + b == b;
    } else {
      var n := LeadLength(a[0]);
      if 0 < n <= |a| {
        assert (a + b)[..n] == a[..n] && (a + b)[n..] == a[n..] + b;
        if IsChar(a[..n]) {
          ConsumeAppend(a[n..], b);
        }
      }
    }
  }

  lemma {:induction false} WellFormedIffConsumed(s: seq<byte>)
    ensures WellFormed(s) <==> Consume(s) == Pending([])
  {
    if s != [] {
      var n := LeadLength(s[0]);
      if 0 < n <= |s| {
        WellFormedIffConsumed(s[n..]);
      }
    }
  }

  /** Octets that finish an unfinished character. */
  function Completion(s: seq<byte>): (t: seq<byte>)
    requires IsCharPrefix(s)
    ensures IsChar(s + t)
    decreases 4 - |s|
  {
    var n := LeadLength(s[0]);
    if |s| == n then assert s + [] == s; []
    else
      var next := if |s| == 1 && s[0] in {0xE0, 0xF0} then 0xA0 else 0x80;
      var rest := Completion(s + [next]);
      assert s + ([next] + rest) == (s + [next]) + rest;
      [next] + rest
  }

  lemma {:induction false} PendingIsRepairable(s: seq<byte>)
    requires Consume(s).Pending?
    ensures exists t :: WellFormed(s + t)
  {
    var tail := Consume(s).tail;
    PendingTail(s);
    var t := if tail == [] then [] else Completion(tail);
    if tail != [] {
      assert (tail + t)[..|tail + t|] == tail + t && (tail + t)[|tail + t|..] == [];
    }
    assert Consume(tail + t) == Pending([]);
    ConsumeAppend(s, t);
    WellFormedIffConsumed(s + t);
  }

  lemma {:induction false} PendingTail(s: seq<byte>)
    requires Consume(s).Pending?
    ensures var t := Consume(s).tail; t == [] || (IsCharPrefix(t) && |t| < LeadLength(t[0]))
  {
    if s != [] {
      var n := LeadLength(s[0]);
      if n <= |s| {
        PendingTail(s[n..]);
      }
    }
  }

  /** The decoder fails exactly on the octets no continuation can make well-formed. */
  lemma FailsIffUnrepairable(s: seq<byte>)
    ensures Consume(s).Failed? <==> forall t :: !WellFormed(s + t)
  {
    if Consume(s).Failed? {
      forall t ensures !WellFormed(s + t) {
        ConsumeAppend(s, t);
        WellFormedIffConsumed(s + t);
      }
    } else {
      PendingIsRepairable(s);
    }
  }

  // ------------------------------------------------------------------ cutting text

  /** An octet below 0x80 is a character of its own, so text may be cut on either side of it. */
  lemma {:induction false} CutAtAscii(s: seq<byte>, k: nat)
    requires WellFormed(s) && k < |s| && s[k] <= 0x7F
    ensures WellFormed(s[..k + 1]) && WellFormed(s[k + 1..])
  {
    var n := LeadLength(s[0]);
    if k < n {
      assert k == 0 && n == 1;
      assert s[..1][1..] == [];
    } else {
      CutAtAscii(s[n..], k - n);
      assert s[n..][..k - n + 1] == s[..k + 1][n..];
      assert s[..k + 1][..n] == s[..n];
      assert s[n..][k - n + 1..] == s[k + 1..];
    }
  }

  lemma {:induction false} AsciiIsWellFormed(s: seq<byte>)
    requires forall i :: 0 <= i < |s| ==> s[i] <= 0x7F
    ensures WellFormed(s) && Decode(s) == s
  {
    if s != [] {
      AsciiIsWellFormed(s[1..]);
    }
  }
}
