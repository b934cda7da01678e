/** Unpadded base64url: sections 3.2 and 5 of RFC 4648, as the child frames use it. */
module Base64Url {
  import opened Bytes

  /** What one symbol stands for. */
  type sextet = v: int | 0 <= v < 64

  /** Table 2 of RFC 4648. */
  function Symbol(v: sextet): (b: byte) {
    if v < 26 then 0x41 + v
    else if v < 52 then 0x61 + (v - 26)
    else if v < 62 then 0x30 + (v - 52)
    else if v == 62 then 0x2D
    else 0x5F
  }

  predicate InAlphabet(b: byte) {
    0x41 <= b <= 0x5A || 0x61 <= b <= 0x7A || 0x30 <= b <= 0x39 || b == 0x2D || b == 0x5F
  }

  function Value(b: byte): (v: sextet)
    requires InAlphabet(b)
    ensures Symbol(v) == b
  {
    var code: int := b;
    if 0x41 <= b <= 0x5A then code - 0x41
    else if 0x61 <= b <= 0x7A then code - 0x61 + 26
    else if 0x30 <= b <= 0x39 then code - 0x30 + 52
    else if b == 0x2D then 62
    else 63
  }

  predicate IsText(text: seq<byte>) {
    forall i :: 0 <= i < |text| ==> InAlphabet(text[i])
  }

  function Spell(vs: seq<sextet>): (text: seq<byte>) {
    seq(|vs|, i requires 0 <= i < |vs| => Symbol(vs[i]))
  }

  function Read(text: seq<byte>): (vs: seq<sextet>)
    requires IsText(text)
  {
    seq(|text|, i requires 0 <= i < |text| => Value(text[i]))
  }

  function Sextets(data: seq<byte>): (vs: seq<sextet>) {
    if data == [] then []
    else
      var v0: int := data[0] / 4;
      if |data| == 1 then
        var v1: int := data[0] as int % 4 * 16;
        [v0, v1]
      else
        var v1: int := data[0] as int % 4 * 16 + data[1] as int / 16;
        if |data| == 2 then
          var v2: int := data[1] as int % 16 * 4;
          [v0, v1, v2]
        else
          var v2: int := data[1] as int % 16 * 4 + data[2] as int / 64;
          var v3: int := data[2] % 64;
          [v0, v1, v2, v3] + Sextets(data[3..])
  }

  /** The octets of some symbols; a single last symbol is an error, unused bits are not looked at. */
  function Octets(vs: seq<sextet>): (data: Option<seq<byte>>) {
    if vs == [] then Some([])
    else if |vs| == 1 then None
    else
      var first: int := vs[0] as int * 4 + vs[1] / 16;
      if |vs| == 2 then Some([first])
      else
        var second: int := vs[1] as int % 16 * 16 + vs[2] / 4;
        if |vs| == 3 then Some([first, second])
        else
          var third: int := vs[2] as int % 4 * 64 + vs[3];
          match Octets(vs[4..])
          case None => None
          case Some(rest) => Some([first, second, third] + rest)
  }

  function Encode(data: seq<byte>): (text: seq<byte>) {
    Spell(Sextets(data))
  }

  function Decode(text: seq<byte>): (data: Option<seq<byte>>)
    requires IsText(text)
  {
    Octets(Read(text))
  }

  lemma SpellRead(vs: seq<sextet>)
    ensures IsText(Spell(vs)) && Read(Spell(vs)) == vs
  {
    assert forall i :: 0 <= i < |vs| ==> InAlphabet(Symbol(vs[i])) && Value(Symbol(vs[i])) == vs[i];
  }

  // ------------------------------------------------------------------ bit strings

  /** The `width` low bits of `v`, most significant first. */
  function Bits(v: nat, width: nat): (bits: seq<bool>)
    ensures |bits| == width
  {
    if width == 0 then [] else Bits(v / 2, width - 1) + [v % 2 == 1]
  }

  /** The bits of some values, one after the other. */
  function Stream(vs: seq<nat>, width: nat): (bits: seq<bool>)
    ensures |bits| == width * |vs|
  {
    if vs == [] then [] else Bits(vs[0], width) + Stream(vs[1..], width)
  }

  function Pow2(n: nat): (p: nat) {
    if n == 0 then 1 else 2 * Pow2(n - 1)
  }

  lemma {:induction false} BitsInjective(v: nat, w: nat, width: nat)
    requires v < Pow2(width) && w < Pow2(width) && Bits(v, width) == Bits(w, width)
    ensures v == w
  {
    if width > 0 {
      assert Bits(v, width)[..width - 1] == Bits(w, width)[..width - 1];
      assert Bits(v, width)[width - 1] == Bits(w, width)[width - 1];
      BitsInjective(v / 2, w / 2, width - 1);
    }
  }

  lemma {:induction false} StreamInjective(a: seq<nat>, b: seq<nat>, width: nat)
    requires forall i :: 0 <= i < |a| ==> a[i] < Pow2(width)
    requires forall i :: 0 <= i < |b| ==> b[i] < Pow2(width)
    requires |a| == |b| && Stream(a, width) == Stream(b, width)
    ensures a == b
  {
    if a != [] {
      assert Stream(a, width)[..width] == Bits(a[0], width) && Stream(a, width)[width..] == Stream(a[1..], width);
      assert Stream(b, width)[..width] == Bits(b[0], width) && Stream(b, width)[width..] == Stream(b[1..], width);
      BitsInjective(a[0], b[0], width);
      StreamInjective(a[1..], b[1..], width);
    }
  }

  lemma PowValues()
    ensures Pow2(6) == 64 && Pow2(8) == 256
  {
    assert Pow2(3) == 2 * Pow2(2) && Pow2(2) == 2 * Pow2(1);
    assert Pow2(6) == 2 * Pow2(5) && Pow2(5) == 2 * Pow2(4) && Pow2(4) == 2 * Pow2(3);
    assert Pow2(8) == 2 * Pow2(7) && Pow2(7) == 2 * Pow2(6);
  }

  lemma StreamTwo(vs: seq<nat>, width: nat)
    requires |vs| >= 2
    ensures Stream(vs, width) == (Bits(vs[0], width) + Bits(vs[1], width)) + Stream(vs[2..], width)
  {
    assert vs[1..][1..] == vs[2..];
    hide Bits;
  }

  lemma StreamOne(vs: seq<nat>, width: nat)
    requires |vs| >= 1
    ensures Stream(vs, width) == Bits(vs[0], width) + Stream(vs[1..], width)
  {
  }

  // ------------------------------------------------------- cutting values into bits

  lemma Cut2(q: nat, r: nat, high: nat)
    requires r < 4
    ensures Bits(4 * q + r, high + 2) == Bits(q, high) + Bits(r, 2)
  {
    var v := 4 * q + r;
    assert v / 2 == 2 * q + r / 2 && v / 2 / 2 == q && v % 2 == r % 2 && (v / 2) % 2 == (r / 2) % 2;
    assert Bits(v, high + 2) == Bits(v / 2, high + 1) + [v % 2 == 1];
    assert Bits(v / 2, high + 1) == Bits(q, high) + [(v / 2) % 2 == 1];
    assert Bits(r / 2, 1) == [(r / 2) % 2 == 1];
    assert Bits(r, 2) == Bits(r / 2, 1) + [r % 2 == 1];
  }

  lemma Assoc<T>(a: seq<T>, b: seq<T>, c: seq<T>)
    ensures a + b + c == a + (b + c)
  {
  }

  lemma Cut4(q: nat, r: nat, high: nat)
    requires r < 16
    ensures Bits(16 * q + r, high + 4) == Bits(q, high) + Bits(r, 4)
  {
    Cut22(q, r / 4, r % 4, high);
  }

  lemma Cut22(q: nat, s: nat, t: nat, high: nat)
    requires s < 4 && t < 4
    ensures Bits(16 * q + (4 * s + t), high + 4) == Bits(q, high) + Bits(4 * s + t, 4)
  {
    var all, low := 16 * q + (4 * s + t), 4 * s + t;
    var a, b, c := Bits(q, high), Bits(s, 2), Bits(t, 2);
    Cut2(4 * q + s, t, high + 2);
    Cut2(q, s, high);
    Cut2(s, t, 2);
    hide Bits;
    assert Bits(all, high + 4) == (a + b) + c && Bits(low, 4) == b + c;
    Assoc(a, b, c);
  }

  lemma Cut6(q: nat, r: nat, high: nat)
    requires r < 64
    ensures Bits(64 * q + r, high + 6) == Bits(q, high) + Bits(r, 6)
  {
    Cut42(q, r / 16, r % 16, high);
  }

  lemma Cut42(q: nat, s: nat, t: nat, high: nat)
    requires s < 4 && t < 16
    ensures Bits(64 * q + (16 * s + t), high + 6) == Bits(q, high) + Bits(16 * s + t, 6)
  {
    hide Bits;
    var a, b, c := Bits(q, high), Bits(s, 2), Bits(t, 4);
    Cut4(4 * q + s, t, high + 2);
    assert 64 * q + (16 * s + t) == 16 * (4 * q + s) + t;
    Cut2(q, s, high);
    Cut4(s, t, 2);
    assert Bits(64 * q + (16 * s + t), high + 6) == (a + b) + c && Bits(16 * s + t, 6) == b + c;
    Assoc(a, b, c);
  }

  lemma Regroup<T>(a: seq<T>, b: seq<T>, c: seq<T>, d: seq<T>)
    ensures a + (b + c) + d == (a + b) + (c + d)
  {
  }

  lemma SingleBits(b0: byte, v0: sextet, v1: sextet)
    requires b0 == v0 * 4 + v1 / 16
    ensures Bits(v0, 6) + Bits(v1, 6) == Bits(b0, 8) + Bits(v1 % 16, 4)
  {
    var a, b, c := Bits(v0, 6), Bits(v1 / 16, 2), Bits(v1 % 16, 4);
    Cut2(v0, v1 / 16, 6);
    Cut4(v1 / 16, v1 % 16, 2);
    hide Bits;
    Assoc(a, b, c);
  }

  lemma PairBits(b0: byte, b1: byte, v0: sextet, v1: sextet, v2: sextet)
    requires b0 == v0 * 4 + v1 / 16 && b1 == v1 % 16 * 16 + v2 / 4
    ensures Bits(v0, 6) + Bits(v1, 6) + Bits(v2, 6) == Bits(b0, 8) + Bits(b1, 8) + Bits(v2 % 4, 2)
  {
    SingleBits(b0, v0, v1);
    Cut4(v1 % 16, v2 / 4, 4);
    Cut2(v2 / 4, v2 % 4, 4);
    hide Bits;
    Regroup(Bits(b0, 8), Bits(v1 % 16, 4), Bits(v2 / 4, 4), Bits(v2 % 4, 2));
  }

  lemma LastOctet(b2: byte, v2: sextet, v3: sextet)
    requires b2 == v2 % 4 * 64 + v3
    ensures Bits(v2 % 4, 2) + Bits(v3, 6) == Bits(b2, 8)
  {
    var q := v2 % 4;
    Cut6(q, v3, 2);
    assert 64 * q + v3 == b2;
    hide Bits;
  }

  /** Three octets and four symbols with the same 24 bits. */
  lemma GroupBits(b0: byte, b1: byte, b2: byte, v0: sextet, v1: sextet, v2: sextet, v3: sextet)
    requires b0 == v0 * 4 + v1 / 16 && b1 == v1 % 16 * 16 + v2 / 4 && b2 == v2 % 4 * 64 + v3
    ensures Bits(v0, 6) + Bits(v1, 6) + Bits(v2, 6) + Bits(v3, 6) == Bits(b0, 8) + Bits(b1, 8) + Bits(b2, 8)
  {
    var pair, low, last := Bits(b0, 8) + Bits(b1, 8), Bits(v2 % 4, 2), Bits(v3, 6);
    PairBits(b0, b1, v0, v1, v2);
    LastOctet(b2, v2, v3);
    hide Bits;
    Assoc(pair, low, last);
  }

  // ----------------------------------------------------------------- the two laws

  function Zeros(n: nat): (bits: seq<bool>) {
    seq(n, _ => false)
  }

  lemma ZeroBits()
    ensures Bits(0, 4) == Zeros(4) && Bits(0, 2) == Zeros(2)
  {
    assert Bits(0, 2) == Bits(0, 1) + [false] && Bits(0, 1) == [false];
    Cut2(0, 0, 2);
  }

  /** Encoding writes the bits of the octets, filled up with zero bits to whole symbols. */
  lemma {:induction false} SextetsSpellBits(data: seq<byte>)
    ensures var vs := Sextets(data);
            8 * |data| <= 6 * |vs| < 8 * |data| + 6
            && Stream(vs, 6) == Stream(data, 8) + Zeros(6 * |vs| - 8 * |data|)
    decreases |data|
  {
    if |data| == 0 {
    } else if |data| == 1 {
      SpellSingle(data);
    } else if |data| == 2 {
      SpellPair(data);
    } else {
      SextetsSpellBits(data[3..]);
      SpellGroup(data);
    }
  }

  lemma SpellSingle(data: seq<byte>)
    requires |data| == 1
    ensures |Sextets(data)| == 2 && Stream(Sextets(data), 6) == Stream(data, 8) + Zeros(4)
  {
    var vs := Sextets(data);
    SingleBits(data[0], vs[0], vs[1]);
    ZeroBits();
    StreamTwo(vs, 6);
    StreamOne(data, 8);
    assert |vs| == 2 && vs[1] % 16 == 0 && Stream(vs[2..], 6) == [] && Stream(data[1..], 8) == [];
    hide Bits, Stream, Sextets, Zeros;
  }

  lemma SpellPair(data: seq<byte>)
    requires |data| == 2
    ensures |Sextets(data)| == 3 && Stream(Sextets(data), 6) == Stream(data, 8) + Zeros(2)
  {
    var vs := Sextets(data);
    PairBits(data[0], data[1], vs[0], vs[1], vs[2]);
    ZeroBits();
    StreamTwo(vs, 6);
    StreamOne(vs[2..], 6);
    StreamTwo(data, 8);
    assert |vs| == 3 && vs[2] % 4 == 0 && Stream(vs[2..][1..], 6) == [] && Stream(data[2..], 8) == [];
    hide Bits, Stream, Sextets, Zeros;
    EndOfThree(Bits(vs[0], 6), Bits(vs[1], 6), Bits(vs[2], 6));
  }

  lemma EndOfThree<T>(a: seq<T>, b: seq<T>, c: seq<T>)
    ensures (a + b) + (c + []) == a + b + c
  {
  }

  lemma FourSymbols(vs: seq<sextet>)
    requires |vs| >= 4
    ensures Stream(vs, 6) == Bits(vs[0], 6) + Bits(vs[1], 6) + Bits(vs[2], 6) + Bits(vs[3], 6) + Stream(vs[4..], 6)
  {
    StreamTwo(vs, 6);
    StreamTwo(vs[2..], 6);
    assert vs[2..][2..] == vs[4..];
    hide Bits, Stream;
  }

  lemma ThreeOctets(data: seq<byte>)
    requires |data| >= 3
    ensures Stream(data, 8) == Bits(data[0], 8) + Bits(data[1], 8) + Bits(data[2], 8) + Stream(data[3..], 8)
  {
    StreamTwo(data, 8);
    StreamOne(data[2..], 8);
    assert data[2..][1..] == data[3..];
    hide Bits, Stream;
  }

  lemma SpellGroup(data: seq<byte>)
    requires |data| >= 3
    requires var vs := Sextets(data[3..]);
             8 * |data[3..]| <= 6 * |vs| < 8 * |data[3..]| + 6
             && Stream(vs, 6) == Stream(data[3..], 8) + Zeros(6 * |vs| - 8 * |data[3..]|)
    ensures var vs := Sextets(data);
            |vs| == 4 + |Sextets(data[3..])|
            && Stream(vs, 6) == Stream(data, 8) + Zeros(6 * |vs| - 8 * |data|)
  {
    var vs := Sextets(data);
    SextetGroup(data);
    FourSymbols(vs);
    ThreeOctets(data);
    hide Bits, Stream, Sextets;
    Assoc(Bits(data[0], 8) + Bits(data[1], 8) + Bits(data[2], 8), Stream(data[3..], 8), Zeros(6 * |vs| - 8 * |data|));
  }

  lemma SextetGroup(data: seq<byte>)
    requires |data| >= 3
    ensures var vs := Sextets(data);
            && |vs| == 4 + |Sextets(data[3..])| && vs[4..] == Sextets(data[3..])
            && Bits(vs[0], 6) + Bits(vs[1], 6) + Bits(vs[2], 6) + Bits(vs[3], 6)
               == Bits(data[0], 8) + Bits(data[1], 8) + Bits(data[2], 8)
  {
    var vs := Sextets(data);
    GroupBits(data[0], data[1], data[2], vs[0], vs[1], vs[2], vs[3]);
    hide Bits;
  }

  lemma {:induction false} OctetsDefined(vs: seq<sextet>)
    ensures Octets(vs).None? <==> |vs| % 4 == 1
    decreases |vs|
  {
    hide Octets;
    if |vs| >= 4 {
      OctetsDefined(vs[4..]);
      OctetsOfGroup(vs);
    } else {
      FewOctets(vs);
    }
  }

  lemma OctetsOfGroup(vs: seq<sextet>)
    requires |vs| >= 4
    ensures Octets(vs).None? <==> Octets(vs[4..]).None?
  {
  }

  lemma FewOctets(vs: seq<sextet>)
    requires |vs| < 4
    ensures Octets(vs).None? <==> |vs| == 1
  {
  }

  /** Decoding reads whole octets from the bits of the symbols, and drops what is left over. */
  lemma {:induction false} OctetsReadBits(vs: seq<sextet>)
    ensures Octets(vs).Some? ==>
              var data := Octets(vs).value;
              |data| == 6 * |vs| / 8 && Stream(data, 8) == Stream(vs, 6)[..8 * |data|]
    decreases |vs|
  {
    if |vs| <= 1 {
    } else if |vs| == 2 {
      ReadSingle(vs);
    } else if |vs| == 3 {
      ReadPair(vs);
    } else {
      OctetsReadBits(vs[4..]);
      if Octets(vs[4..]).Some? {
        ReadGroup(vs);
      }
    }
  }

  lemma ReadSingle(vs: seq<sextet>)
    requires |vs| == 2
    ensures Octets(vs).Some? && |Octets(vs).value| == 1 && Stream(Octets(vs).value, 8) == Stream(vs, 6)[..8]
  {
    var data := Octets(vs).value;
    SingleBits(data[0], vs[0], vs[1]);
    StreamTwo(vs, 6);
    StreamOne(data, 8);
    assert Stream(data[1..], 8) == [];
    hide Bits, Stream, Octets;
  }

  lemma ReadPair(vs: seq<sextet>)
    requires |vs| == 3
    ensures Octets(vs).Some? && |Octets(vs).value| == 2 && Stream(Octets(vs).value, 8) == Stream(vs, 6)[..16]
  {
    var data := Octets(vs).value;
    PairBits(data[0], data[1], vs[0], vs[1], vs[2]);
    StreamTwo(vs, 6);
    StreamOne(vs[2..], 6);
    StreamTwo(data, 8);
    assert Stream(vs[2..][1..], 6) == [] && Stream(data[2..], 8) == [];
    hide Bits, Stream, Octets;
    EndOfThree(Bits(vs[0], 6), Bits(vs[1], 6), Bits(vs[2], 6));
    EndOfThree(Bits(data[0], 8), Bits(data[1], 8), []);
  }

  lemma ReadGroup(vs: seq<sextet>)
    requires |vs| >= 4 && Octets(vs[4..]).Some?
    requires var data := Octets(vs[4..]).value;
             |data| == 6 * |vs[4..]| / 8 && Stream(data, 8) == Stream(vs[4..], 6)[..8 * |data|]
    ensures Octets(vs).Some?
    ensures var data := Octets(vs).value;
            |data| == 6 * |vs| / 8 && Stream(data, 8) == Stream(vs, 6)[..8 * |data|]
  {
    var data := Octets(vs).value;
    GroupBits(data[0], data[1], data[2], vs[0], vs[1], vs[2], vs[3]);
    assert data[3..] == Octets(vs[4..]).value;
    FourSymbols(vs);
    ThreeOctets(data);
    hide Bits, Stream, Octets;
  }

  /** The bits of the last symbol that no octet uses. */
  function UnusedBits(text: seq<byte>): (bits: seq<bool>)
    requires IsText(text)
  {
    Stream(Read(text), 6)[6 * |text| / 8 * 8..]
  }

  predicate UsesNoSpareBits(text: seq<byte>)
    requires IsText(text)
  {
    UnusedBits(text) == Zeros(|UnusedBits(text)|)
  }

  lemma DecodeEncode(data: seq<byte>)
    ensures IsText(Encode(data)) && Decode(Encode(data)) == Some(data)
  {
    var vs := Sextets(data);
    SpellRead(vs);
    SextetsSpellBits(data);
    OctetsReadBits(vs);
    OctetsDefined(vs);
    PowValues();
    hide Bits, Stream, Sextets, Octets, Spell, Read, IsText, Pow2;
    StreamInjective(Octets(vs).value, data, 8);
  }

  /** A text is the encoding of what it decodes to exactly when its unused bits are zero. */
  lemma EncodeDecode(text: seq<byte>)
    requires IsText(text) && Decode(text).Some?
    ensures Encode(Decode(text).value) == text <==> UsesNoSpareBits(text)
  {
    var data := Decode(text).value;
    var vs := Read(text);
    var again := Sextets(data);
    SpellRead(again);
    ReadSpell(text);
    OctetsReadBits(vs);
    OctetsDefined(vs);
    SextetsSpellBits(data);
    hide Bits, Stream, Sextets, Octets, Spell, Read, IsText;
    SameOrNot(vs, again, data);
  }

  lemma SymbolCount(symbols: nat, octets: nat, again: nat)
    requires octets == 6 * symbols / 8 && symbols % 4 != 1 && 8 * octets <= 6 * again < 8 * octets + 6
    ensures again == symbols && 6 * symbols / 8 * 8 == 8 * octets
  {
    var q := symbols / 4;
    assert symbols == 4 * q + symbols % 4;
    if symbols % 4 == 0 {
      assert octets == 3 * q;
    } else if symbols % 4 == 2 {
      assert octets == 3 * q + 1;
    } else {
      assert octets == 3 * q + 2;
    }
  }

  lemma SameOrNot(vs: seq<sextet>, again: seq<sextet>, data: seq<byte>)
    requires |data| == 6 * |vs| / 8 && |vs| % 4 != 1 && Stream(data, 8) == Stream(vs, 6)[..8 * |data|]
    requires 8 * |data| <= 6 * |again| < 8 * |data| + 6
    requires Stream(again, 6) == Stream(data, 8) + Zeros(6 * |again| - 8 * |data|)
    ensures again == vs <==> var rest := Stream(vs, 6)[6 * |vs| / 8 * 8..]; rest == Zeros(|rest|)
  {
    PowValues();
    SymbolCount(|vs|, |data|, |again|);
    hide Bits, Stream, Pow2;
    SameRest(Stream(vs, 6), Stream(again, 6), Stream(data, 8), 8 * |data|);
    if Stream(again, 6) == Stream(vs, 6) {
      StreamInjective(again, vs, 6);
    }
  }

  lemma SameRest(s: seq<bool>, t: seq<bool>, head: seq<bool>, n: nat)
    requires |t| == |s| >= n && head == s[..n] && t == head + Zeros(|s| - n)
    ensures t == s <==> s[n..] == Zeros(|s[n..]|)
  {
    assert s == s[..n] + s[n..];
    assert t[n..] == Zeros(|s| - n);
  }

  lemma ReadSpell(text: seq<byte>)
    requires IsText(text)
    ensures Spell(Read(text)) == text
  {
  }

  // --------------------------------------------------------------- texts with the same octets

  /** The other value with the same bits but the lowest. */
  function Flip(v: sextet): (w: sextet)
    ensures w != v
  {
    if v % 2 == 0 then v + 1 else v - 1
  }

  lemma FlipKeeps(v: sextet)
    ensures Flip(v) / 4 == v / 4 && Flip(v) / 16 == v / 16
  {
    var half: int := v / 2;
    assert v == 2 * half || v == 2 * half + 1;
    assert (2 * half) / 4 == (2 * half + 1) / 4 && (2 * half) / 16 == (2 * half + 1) / 16;
  }

  /** The symbols with the lowest bit of the last one flipped. */
  function Twin(vs: seq<sextet>): (twin: seq<sextet>)
    requires vs != []
    ensures |twin| == |vs| && twin != vs
  {
    assert (vs[..|vs| - 1] + [Flip(vs[|vs| - 1])])[|vs| - 1] != vs[|vs| - 1];
    vs[..|vs| - 1] + [Flip(vs[|vs| - 1])]
  }

  lemma {:induction false} TwinOctets(vs: seq<sextet>)
    requires |vs| % 4 == 2 || |vs| % 4 == 3
    ensures Octets(Twin(vs)) == Octets(vs)
    decreases |vs|
  {
    hide Octets, Twin;
    if |vs| >= 4 {
      TwinOctets(vs[4..]);
      TwinRest(vs);
      GroupThenRest(vs, Twin(vs));
    } else {
      FewTwins(vs);
    }
  }

  lemma FewTwins(vs: seq<sextet>)
    requires |vs| == 2 || |vs| == 3
    ensures Octets(Twin(vs)) == Octets(vs)
  {
    TwinAt(vs);
    hide Octets, Flip, Twin;
    if |vs| == 2 {
      SameTwo(vs, Twin(vs));
    } else {
      SameThree(vs, Twin(vs));
    }
  }

  lemma TwinAt(vs: seq<sextet>)
    requires vs != []
    ensures forall i :: 0 <= i < |vs| - 1 ==> Twin(vs)[i] == vs[i]
    ensures Twin(vs)[|vs| - 1] == Flip(vs[|vs| - 1])
  {
    hide Flip;
  }

  lemma SameTwo(vs: seq<sextet>, ws: seq<sextet>)
    requires |vs| == |ws| == 2 && ws[0] == vs[0] && ws[1] == Flip(vs[1])
    ensures Octets(ws) == Octets(vs)
  {
    FlipKeeps(vs[1]);
    hide Flip;
  }

  lemma SameThree(vs: seq<sextet>, ws: seq<sextet>)
    requires |vs| == |ws| == 3 && ws[0] == vs[0] && ws[1] == vs[1] && ws[2] == Flip(vs[2])
    ensures Octets(ws) == Octets(vs)
  {
    FlipKeeps(vs[2]);
    hide Flip;
  }

  lemma GroupThenRest(vs: seq<sextet>, ws: seq<sextet>)
    requires |vs| == |ws| >= 4 && vs[0] == ws[0] && vs[1] == ws[1] && vs[2] == ws[2] && vs[3] == ws[3]
    requires Octets(ws[4..]) == Octets(vs[4..])
    ensures Octets(ws) == Octets(vs)
  {
  }

  lemma TwinRest(vs: seq<sextet>)
    requires |vs| > 4
    ensures Twin(vs)[..4] == vs[..4] && Twin(vs)[4..] == Twin(vs[4..])
    ensures Twin(vs)[0] == vs[0] && Twin(vs)[1] == vs[1] && Twin(vs)[2] == vs[2] && Twin(vs)[3] == vs[3]
  {
  }

  lemma Remainder(q: nat, r: nat)
    requires r < 4
    ensures (4 * q + r) % 4 == r
  {
  }

  /** Octets that fill whole groups take four symbols a group, one more takes two symbols, two take three. */
  lemma SymbolsLeft(symbols: nat, octets: nat)
    requires 8 * octets <= 6 * symbols < 8 * octets + 6
    ensures symbols % 4 == if octets % 3 == 0 then 0 else octets % 3 + 1
    ensures octets % 3 == 0 ==> 6 * symbols == 8 * octets
  {
    var q, r := octets / 3, octets % 3;
    assert octets == 3 * q + r;
    var left := if r == 0 then 0 else r + 1;
    assert symbols == 4 * q + left;
    Remainder(q, left);
  }

  lemma OctetsLeft(symbols: nat)
    requires symbols % 4 != 1
    ensures 8 * (6 * symbols / 8) <= 6 * symbols < 8 * (6 * symbols / 8) + 6
  {
    var q, left := symbols / 4, symbols % 4;
    assert symbols == 4 * q + left;
    assert 6 * symbols / 8 == 3 * q + 6 * left / 8;
  }

  /** Octets have another text than their encoding exactly when their number is no multiple of three. */
  lemma OtherTextIff(data: seq<byte>)
    ensures (exists text :: IsText(text) && Decode(text) == Some(data) && text != Encode(data)) <==> |data| % 3 != 0
  {
    if |data| % 3 != 0 {
      OtherText(data);
    }
    forall text | IsText(text) && Decode(text) == Some(data) && text != Encode(data) ensures |data| % 3 != 0 {
      SpareBits(text);
    }
  }

  lemma OtherText(data: seq<byte>)
    requires |data| % 3 != 0
    ensures exists text :: IsText(text) && Decode(text) == Some(data) && text != Encode(data)
  {
    var vs := Sextets(data);
    SextetsSpellBits(data);
    SymbolsLeft(|vs|, |data|);
    DecodeEncode(data);
    TwinOctets(vs);
    SpellRead(vs);
    SpellRead(Twin(vs));
    hide Bits, Stream, Sextets, Octets, Spell, Read, IsText, Twin;
    assert Decode(Spell(Twin(vs))) == Some(data);
    assert Spell(Twin(vs)) != Encode(data);
  }

  lemma SpareBits(text: seq<byte>)
    requires IsText(text) && Decode(text).Some? && Encode(Decode(text).value) != text
    ensures |Decode(text).value| % 3 != 0
  {
    hide IsText, Encode, Decode;
    EncodeDecode(text);
    if |Decode(text).value| % 3 == 0 {
      NoSpareBits(text);
    }
  }

  lemma NoSpareBits(text: seq<byte>)
    requires IsText(text) && Decode(text).Some? && |Decode(text).value| % 3 == 0
    ensures UsesNoSpareBits(text)
  {
    var vs := Read(text);
    OctetsReadBits(vs);
    OctetsDefined(vs);
    hide Bits, Stream, Sextets, Octets, Spell, Read, IsText;
    OctetsLeft(|vs|);
    SymbolsLeft(|vs|, |Decode(text).value|);
    assert UnusedBits(text) == [];
  }
}
