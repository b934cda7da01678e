/** Recognising file formats from a sample: app/format_probe.py. */
module FormatProbe {
  import opened Bytes
  import Utf8

  datatype Format =
    | UNITYFS | UNITYRAW | UNITYWEB | PMX | PMD | FBX_BINARY | FBX_ASCII | GLB | GLTF
    | PNG | JPEG | DDS | KTX1 | KTX2 | WEBP | BMP | TIFF
    | ZIP | SEVENZ | RAR | GZIP | XZ | PE | ELF | WAV | OGG | FLAC | MP3

  datatype Confidence = MEDIUM | HIGH

  datatype Candidate = Candidate(format: Format, confidence: Confidence)

  type Text = seq<Utf8.Scalar>

  /**
   json.loads on a text that starts with a brace, as far as the detector looks at it; Escapes is an
   error the detector does not catch, such as a RecursionError.
   */
  datatype Asset = NoObject | NoAsset | BadVersion | GoodVersion | Escapes

  // ------------------------------------------------------------------------------ bytes

  function Little(s: seq<byte>): (n: nat) {
    if s == [] then 0 else s[0] as int + 256 * Little(s[1..])
  }

  /** Python slicing: bounds beyond the end are cut off. */
  function Slice(s: seq<byte>, from: nat, to: nat): (t: seq<byte>)
    requires from <= to
  {
    if |s| <= from then [] else if |s| <= to then s[from..] else s[from..to]
  }

  function At(s: seq<byte>, i: nat): (b: int)
    ensures -1 <= b < 256
  {
    if i < |s| then s[i] else -1
  }

  function Word(b0: nat, b1: nat, b2: nat, b3: nat): (value: nat) {
    ((b0 * 256 + b1) * 256 + b2) * 256 + b3
  }

  /** The header test, on the 32-bit value of the first four bytes. */
  predicate IsMp3Header(header: seq<byte>) {
    |header| >= 4 &&
    var value := Word(header[0], header[1], header[2], header[3]);
    && value / 0x20_0000 % 0x800 == 0x7FF
    && value / 0x8_0000 % 4 != 1
    && value / 0x2_0000 % 4 != 0
    && value / 0x1000 % 16 !in {0, 15}
    && value / 0x400 % 4 != 3
  }

  lemma Mod4(a: nat, q: nat)
    ensures (4 * a + q) % 4 == q % 4
  {
  }

  lemma SyncField(b0: nat, b1: nat, b2: nat, b3: nat)
    requires b0 < 256 && b1 < 256 && b2 < 256 && b3 < 256
    ensures Word(b0, b1, b2, b3) / 0x20_0000 % 0x800 == b0 * 8 + b1 / 32
  {
    var q, r := b1 / 32, b1 % 32;
    assert b1 == 32 * q + r;
    assert Word(b0, b1, b2, b3) == 0x20_0000 * (b0 * 8 + q) + (r * 0x1_0000 + b2 * 256 + b3);
  }

  lemma VersionField(b0: nat, b1: nat, b2: nat, b3: nat)
    requires b0 < 256 && b1 < 256 && b2 < 256 && b3 < 256
    ensures Word(b0, b1, b2, b3) / 0x8_0000 % 4 == b1 / 8 % 4
  {
    var q, r := b1 / 8, b1 % 8;
    assert b1 == 8 * q + r;
    var value, low := Word(b0, b1, b2, b3), (r * 0x1_0000 + b2 * 256 + b3);
    assert value == 0x8_0000 * (b0 * 32 + q) + low && low < 0x8_0000;
    hide Word;
    assert value / 0x8_0000 == b0 * 32 + q;
    Mod4(8 * b0, q);
  }

  lemma LayerField(b0: nat, b1: nat, b2: nat, b3: nat)
    requires b0 < 256 && b1 < 256 && b2 < 256 && b3 < 256
    ensures Word(b0, b1, b2, b3) / 0x2_0000 % 4 == b1 / 2 % 4
  {
    var q, r := b1 / 2, b1 % 2;
    assert b1 == 2 * q + r;
    var value, low := Word(b0, b1, b2, b3), (r * 0x1_0000 + b2 * 256 + b3);
    assert value == 0x2_0000 * (b0 * 128 + q) + low && low < 0x2_0000;
    hide Word;
    assert value / 0x2_0000 == b0 * 128 + q;
    Mod4(32 * b0, q);
  }

  lemma BitrateField(b0: nat, b1: nat, b2: nat, b3: nat)
    requires b0 < 256 && b1 < 256 && b2 < 256 && b3 < 256
    ensures Word(b0, b1, b2, b3) / 0x1000 % 16 == b2 / 16
  {
    var q, r := b2 / 16, b2 % 16;
    assert b2 == 16 * q + r;
    assert Word(b0, b1, b2, b3) == 0x1000 * ((b0 * 256 + b1) * 16 + q) + (r * 256 + b3);
  }

  lemma RateField(b0: nat, b1: nat, b2: nat, b3: nat)
    requires b0 < 256 && b1 < 256 && b2 < 256 && b3 < 256
    ensures Word(b0, b1, b2, b3) / 0x400 % 4 == b2 / 4 % 4
  {
    var q, r := b2 / 4, b2 % 4;
    assert b2 == 4 * q + r;
    var value, low := Word(b0, b1, b2, b3), (r * 256 + b3);
    assert value == 0x400 * ((b0 * 256 + b1) * 64 + q) + low && low < 0x400;
    hide Word;
    assert value / 0x400 == (b0 * 256 + b1) * 64 + q;
    Mod4((b0 * 256 + b1) * 16, q);
  }

  /** The bit fields as bytes: eleven sync bits, then version, layer, bit rate and sample rate. */
  lemma Mp3HeaderBytes(header: seq<byte>)
    requires |header| >= 4
    ensures IsMp3Header(header) <==>
              var b0: int, b1: int, b2: int := header[0], header[1], header[2];
              && b0 == 0xFF && b1 >= 0xE0 && b1 / 8 % 4 != 1 && b1 / 2 % 4 != 0
              && b2 / 16 !in {0, 15} && b2 / 4 % 4 != 3
  {
    var b0: int, b1: int, b2: int, b3: int := header[0], header[1], header[2], header[3];
    SyncField(b0, b1, b2, b3);
    VersionField(b0, b1, b2, b3);
    LayerField(b0, b1, b2, b3);
    BitrateField(b0, b1, b2, b3);
    RateField(b0, b1, b2, b3);
    hide Word;
    assert b0 * 8 + b1 / 32 == 0x7FF <==> b0 == 0xFF && b1 >= 0xE0;
  }

  // ------------------------------------------------------------------------------- text

  /** UTF-8 where the bytes are UTF-8, Latin-1 otherwise. */
  function DecodeText(sample: seq<byte>): (text: Text) {
    if Utf8.WellFormed(sample) then Utf8.Decode(sample)
    else seq(|sample|, i requires 0 <= i < |sample| => sample[i] as int)
  }

  /** The characters str.strip removes. */
  predicate IsSpace(c: int) {
    0x09 <= c <= 0x0D || 0x1C <= c <= 0x20 || 0x2000 <= c <= 0x200A
    || c in {0x85, 0xA0, 0x1680, 0x2028, 0x2029, 0x202F, 0x205F, 0x3000}
  }

  /** The characters the FBX detector removes: a byte order mark and the four common blanks. */
  predicate IsFbxBlank(c: int) {
    c in {0xFEFF, 0x0D, 0x0A, 0x09, 0x20}
  }

  function StripLeft(text: Text, blank: int -> bool): (rest: Text) {
    if text != [] && blank(text[0]) then StripLeft(text[1..], blank) else text
  }

  function StripRight(text: Text, blank: int -> bool): (rest: Text) {
    if text != [] && blank(text[|text| - 1]) then StripRight(text[..|text| - 1], blank) else text
  }

  predicate Contains(text: Text, part: Text) {
    part <= text || (text != [] && Contains(text[1..], part))
  }

  /** "; FBX " and "FBXHeaderExtension" */
  const FBX_BANNER: Text := [0x3B, 0x20, 0x46, 0x42, 0x58, 0x20]
  const FBX_HEADER: Text := [
    0x46, 0x42, 0x58, 0x48, 0x65, 0x61, 0x64, 0x65, 0x72, 0x45, 0x78, 0x74, 0x65, 0x6E, 0x73, 0x69, 0x6F, 0x6E]
  const BRACE := 0x7B

  function FbxText(sample: seq<byte>): (text: Text) {
    StripLeft(DecodeText(sample), IsFbxBlank)
  }

  function GltfText(sample: seq<byte>): (text: Text) {
    StripRight(StripLeft(DecodeText(sample), IsSpace), IsSpace)
  }

  // -------------------------------------------------------------------------- detectors

  datatype Detector = Unity | Mmd | Fbx | Gltf | Texture | Archive | Executable | Audio

  const REGISTRY: seq<Detector> := [Unity, Mmd, Fbx, Gltf, Texture, Archive, Executable, Audio]

  function Window(d: Detector): (n: nat) {
    match d
    case Unity => 32 case Mmd => 32 case Fbx => 1024 case Gltf => 4096
    case Texture => 64 case Archive => 64 case Executable => 4096 case Audio => 256
  }

  /** One candidate when `found`, no candidate otherwise. */
  function If(found: bool, format: Format, sure: bool): (candidates: seq<Candidate>) {
    if found then [Candidate(format, if sure then HIGH else MEDIUM)] else []
  }

  function DetectUnity(s: seq<byte>): (candidates: seq<Candidate>) {
    var unity: seq<byte> := [0x55, 0x6E, 0x69, 0x74, 0x79];
    if unity + [0x46, 0x53, 0] <= s then If(true, UNITYFS, true)
    else if unity + [0x52, 0x61, 0x77, 0] <= s then If(true, UNITYRAW, true)
    else If(unity + [0x57, 0x65, 0x62, 0] <= s, UNITYWEB, true)
  }

  /** The version, a little-endian 32-bit float, compared by its bits: 1.0 to 3.1, and 0.9 to 1.1. */
  predicate IsPmxVersion(version: seq<byte>) {
    |version| == 4 && 0x3F80_0000 <= Little(version) <= 0x4046_6666
  }

  predicate IsPmdVersion(version: seq<byte>) {
    |version| == 4 && 0x3F66_6667 <= Little(version) <= 0x3F8C_CCCC
  }

  function DetectMmd(s: seq<byte>): (candidates: seq<Candidate>) {
    If([0x50, 0x4D, 0x58, 0x20] <= s, PMX, IsPmxVersion(Slice(s, 4, 8)) && |s| >= 9 && s[8] >= 8)
    + If([0x50, 0x6D, 0x64] <= s, PMD, IsPmdVersion(Slice(s, 3, 7)) && |s| >= 10)
  }

  /** Kaydara FBX Binary, two blanks, and 00 1A 00 */
  const FBX_MAGIC: seq<byte> := [
    0x4B, 0x61, 0x79, 0x64, 0x61, 0x72, 0x61, 0x20, 0x46, 0x42, 0x58, 0x20,
    0x42, 0x69, 0x6E, 0x61, 0x72, 0x79, 0x20, 0x20, 0, 0x1A, 0]

  function DetectFbx(s: seq<byte>): (candidates: seq<Candidate>) {
    if FBX_MAGIC <= s then If(true, FBX_BINARY, true)
    else If(FBX_BANNER <= FbxText(s), FBX_ASCII, Contains(FbxText(s), FBX_HEADER))
  }

  function DetectGltf(s: seq<byte>, size: nat, load: Text -> Asset): (candidates: seq<Candidate>) {
    if [0x67, 0x6C, 0x54, 0x46] <= s then
      var version, declared := Little(Slice(s, 4, 8)), Little(Slice(s, 8, 12));
      If(true, GLB, |s| >= 12 && version == 2 && declared == size && declared >= 12)
    else
      var text := GltfText(s);
      if text == [] || text[0] != BRACE then []
      else
        match load(text)
        case GoodVersion => If(true, GLTF, true)
        case BadVersion => If(true, GLTF, false)
        case _ => []
  }

  predicate IsBmp(s: seq<byte>, size: nat) {
    && |s| >= 26 && Little(s[2..6]) == size && 14 <= Little(s[10..14]) <= size
    && Little(s[14..18]) in {12, 16, 40, 52, 56, 64, 108, 124}
  }

  predicate IsRiff(s: seq<byte>, kind: seq<byte>) {
    [0x52, 0x49, 0x46, 0x46] <= s && Slice(s, 8, 12) == kind
  }

  function DetectTextures(s: seq<byte>, size: nat): (candidates: seq<Candidate>) {
    var ktx: seq<byte> := [0xAB, 0x4B, 0x54, 0x58, 0x20];
    If([0x89, 0x50, 0x4E, 0x47, 0x0D, 0x0A, 0x1A, 0x0A] <= s, PNG, true)
    + If([0xFF, 0xD8, 0xFF] <= s, JPEG, true)
    + If([0x44, 0x44, 0x53, 0x20] <= s, DDS, true)
    + If(ktx + [0x31, 0x31, 0xBB, 0x0D, 0x0A, 0x1A, 0x0A] <= s, KTX1, true)
    + If(ktx + [0x32, 0x30, 0xBB, 0x0D, 0x0A, 0x1A, 0x0A] <= s, KTX2, true)
    + If(IsRiff(s, [0x57, 0x45, 0x42, 0x50]), WEBP, true)
    + If([0x49, 0x49, 0x2A, 0] <= s || [0x4D, 0x4D, 0, 0x2A] <= s, TIFF, true)
    + If([0x42, 0x4D] <= s, BMP, IsBmp(s, size))
  }

  function DetectArchives(s: seq<byte>): (candidates: seq<Candidate>) {
    var rar: seq<byte> := [0x52, 0x61, 0x72, 0x21, 0x1A, 0x07];
    If([0x50, 0x4B, 0x03, 0x04] <= s || [0x50, 0x4B, 0x05, 0x06] <= s || [0x50, 0x4B, 0x07, 0x08] <= s, ZIP, true)
    + If([0x37, 0x7A, 0xBC, 0xAF, 0x27, 0x1C] <= s, SEVENZ, true)
    + If(rar + [0] <= s || rar + [1, 0] <= s, RAR, true)
    + If([0x1F, 0x8B, 0x08] <= s, GZIP, true)
    + If([0xFD, 0x37, 0x7A, 0x58, 0x5A, 0] <= s, XZ, true)
  }

  predicate IsPe(s: seq<byte>) {
    [0x4D, 0x5A] <= s && |s| >= 64 &&
    var offset := Little(s[0x3C..0x40]);
    offset + 4 <= |s| && s[offset..offset + 4] == [0x50, 0x45, 0, 0]
  }

  function DetectExecutables(s: seq<byte>): (candidates: seq<Candidate>) {
    If([0x7F, 0x45, 0x4C, 0x46] <= s, ELF, true) + If(IsPe(s), PE, true)
  }

  /** The length of an ID3 tag: seven bits of four bytes. */
  function TagSize(s: seq<byte>): (n: nat)
    requires |s| >= 10
  {
    (s[6] as int % 128) * 0x20_0000 + (s[7] as int % 128) * 0x4000 + (s[8] as int % 128) * 0x80 + s[9] as int % 128
  }

  function DetectMp3(s: seq<byte>): (candidates: seq<Candidate>) {
    if [0x49, 0x44, 0x33] <= s then
      If(true, MP3, |s| >= 10 && 10 + TagSize(s) + 4 <= |s| && IsMp3Header(s[10 + TagSize(s)..10 + TagSize(s) + 4]))
    else if IsMp3Header(Slice(s, 0, 4)) then If(true, MP3, true)
    else If(|s| >= 2 && s[0] == 0xFF && s[1] >= 0xE0, MP3, false)
  }

  function DetectAudio(s: seq<byte>): (candidates: seq<Candidate>) {
    If(IsRiff(s, [0x57, 0x41, 0x56, 0x45]), WAV, true)
    + If([0x4F, 0x67, 0x67, 0x53] <= s, OGG, true)
    + If([0x66, 0x4C, 0x61, 0x43] <= s, FLAC, true)
    + DetectMp3(s)
  }

  function Detect(d: Detector, s: seq<byte>, size: nat, load: Text -> Asset): (candidates: seq<Candidate>) {
    match d
    case Unity => DetectUnity(s)
    case Mmd => DetectMmd(s)
    case Fbx => DetectFbx(s)
    case Gltf => DetectGltf(s, size, load)
    case Texture => DetectTextures(s, size)
    case Archive => DetectArchives(s)
    case Executable => DetectExecutables(s)
    case Audio => DetectAudio(s)
  }

  /** The candidates of the first `n` detectors. */
  function Candidates(n: nat, sample: seq<byte>, size: nat, load: Text -> Asset): (candidates: seq<Candidate>)
    requires n <= |REGISTRY|
  {
    if n == 0 then []
    else Candidates(n - 1, sample, size, load) + Detect(REGISTRY[n - 1], Slice(sample, 0, Window(REGISTRY[n - 1])), size, load)
  }

  /** Loading the text of a sample raises past the detector. */
  predicate LoadEscapes(s: seq<byte>, load: Text -> Asset) {
    && !([0x67, 0x6C, 0x54, 0x46] <= s)
    && GltfText(s) != [] && GltfText(s)[0] == BRACE && load(GltfText(s)) == Escapes
  }

  /** One detector raises. */
  predicate Raises(d: Detector, s: seq<byte>, load: Text -> Asset) {
    d == Gltf && LoadEscapes(s, load)
  }

  datatype Probe = Found(candidates: seq<Candidate>) | Crashed

  method RunDetectors(sample: seq<byte>, size: nat, load: Text -> Asset) returns (probe: Probe)
    ensures probe == if LoadEscapes(Slice(sample, 0, 4096), load) then Crashed
                     else Found(Candidates(|REGISTRY|, sample, size, load))
    ensures probe.Found? ==> |probe.candidates| <= 1
  {
    hide Candidates, Detect, Slice, Window, Raises, LoadEscapes;
    var candidates := [];
    CandidatesNext(0, sample, size, load);
    for i := 0 to |REGISTRY|
      invariant candidates == Candidates(i, sample, size, load)
      invariant forall j :: 0 <= j < i ==> !Raises(REGISTRY[j], Slice(sample, 0, Window(REGISTRY[j])), load)
    {
      CandidatesNext(i, sample, size, load);
      var window := Slice(sample, 0, Window(REGISTRY[i]));
      if Raises(REGISTRY[i], window, load) {
        OnlyGltfRaises(REGISTRY[i], sample, load);
        return Crashed;
      }
      candidates := candidates + Detect(REGISTRY[i], window, size, load);
    }
    assert REGISTRY[3] == Gltf;
    OnlyGltfRaises(REGISTRY[3], sample, load);
    AtMostOne(|REGISTRY|, sample, size, load);
    probe := Found(candidates);
  }

  lemma CandidatesNext(n: nat, sample: seq<byte>, size: nat, load: Text -> Asset)
    requires n < |REGISTRY|
    ensures Candidates(0, sample, size, load) == []
    ensures Candidates(n + 1, sample, size, load) ==
              Candidates(n, sample, size, load) + Detect(REGISTRY[n], Slice(sample, 0, Window(REGISTRY[n])), size, load)
  {
    hide Detect, Slice, Window;
  }

  lemma OnlyGltfRaises(d: Detector, sample: seq<byte>, load: Text -> Asset)
    ensures Raises(d, Slice(sample, 0, Window(d)), load) <==> d == Gltf && LoadEscapes(Slice(sample, 0, 4096), load)
  {
    hide Slice, LoadEscapes;
  }

  // ------------------------------------------------------------------- the chosen format

  function OfConfidence(candidates: seq<Candidate>, c: Confidence): (some: seq<Candidate>) {
    if candidates == [] then []
    else (if candidates[0].confidence == c then [candidates[0]] else []) + OfConfidence(candidates[1..], c)
  }

  /** Sorted by confidence, the highest first, otherwise in order. */
  function Ranked(candidates: seq<Candidate>): (ranked: seq<Candidate>) {
    OfConfidence(candidates, HIGH) + OfConfidence(candidates, MEDIUM)
  }

  function Pick(candidates: seq<Candidate>): (format: Option<Format>) {
    if candidates == [] then None
    else
      var ranked := Ranked(candidates);
      if ranked == [] || ranked[0].confidence != HIGH then None
      else if |OfConfidence(ranked, HIGH)| != 1 then None
      else Some(ranked[0].format)
  }

  // ---------------------------------------------------------------------- one detector

  /** The detector whose signatures start with these bytes, given by positions 0, 1 and 9. */
  function SignatureOwner(b0: int, b1: int, b9: int): (d: Option<Detector>) {
    if b0 == 0x55 then Some(Unity)
    else if b0 == 0x50 then if b1 == 0x4B then Some(Archive) else Some(Mmd)
    else if b0 == 0x4B then Some(Fbx)
    else if b0 == 0x67 then Some(Gltf)
    else if b0 in {0x89, 0x44, 0xAB, 0x42} then Some(Texture)
    else if b0 == 0xFF then if b1 == 0xD8 then Some(Texture) else Some(Audio)
    else if b0 == 0x52 then if b1 == 0x61 then Some(Archive) else if b9 == 0x45 then Some(Texture) else Some(Audio)
    else if b0 == 0x49 then if b1 == 0x49 then Some(Texture) else Some(Audio)
    else if b0 == 0x4D then if b1 == 0x4D then Some(Texture) else Some(Executable)
    else if b0 in {0x37, 0xFD} || (b0 == 0x1F && b1 == 0x8B) then Some(Archive)
    else if b0 == 0x7F then Some(Executable)
    else if b0 in {0x4F, 0x66} then Some(Audio)
    else None
  }

  /** The one detector that can claim a sample: by its signature, or by how its text starts. */
  function Owner(s: seq<byte>): (d: Detector) {
    match SignatureOwner(At(s, 0), At(s, 1), At(s, 9))
    case Some(d) => d
    case None => if FBX_BANNER <= FbxText(Slice(s, 0, 1024)) then Fbx else Gltf
  }

  /** What a detector's signatures have at positions 0, 1 and 9. */
  predicate HasSignature(d: Detector, b0: int, b1: int, b9: int) {
    match d
    case Unity => b0 == 0x55
    case Mmd => b0 == 0x50 && b1 in {0x4D, 0x6D}
    case Fbx => b0 == 0x4B
    case Gltf => b0 == 0x67
    case Texture =>
      || b0 in {0x89, 0x44, 0xAB, 0x42} || (b0 == 0xFF && b1 == 0xD8)
      || (b0 == 0x52 && b1 == 0x49 && b9 == 0x45) || (b0 == b1 && b0 in {0x49, 0x4D})
    case Archive =>
      (b0 == 0x50 && b1 == 0x4B) || b0 in {0x37, 0xFD} || (b0 == 0x52 && b1 == 0x61) || (b0 == 0x1F && b1 == 0x8B)
    case Executable => b0 == 0x7F || (b0 == 0x4D && b1 == 0x5A)
    case Audio =>
      || (b0 == 0x52 && b1 == 0x49 && b9 == 0x41) || b0 in {0x4F, 0x66}
      || (b0 == 0x49 && b1 == 0x44) || (b0 == 0xFF && b1 >= 0xE0)
  }

  lemma SignaturesAreDisjoint(d: Detector, b0: int, b1: int, b9: int)
    requires HasSignature(d, b0, b1, b9)
    ensures SignatureOwner(b0, b1, b9) == Some(d)
  {
  }

  ghost predicate MayClaim(d: Detector, s: seq<byte>, found: seq<Candidate>) {
    |found| <= 1 && (found != [] ==> HasSignature(d, At(s, 0), At(s, 1), At(s, 9)))
  }

  lemma Head(s: seq<byte>, signature: seq<byte>)
    requires |signature| >= 2
    ensures signature <= s ==> At(s, 0) == signature[0] && At(s, 1) == signature[1]
  {
  }

  lemma UnityClaims(s: seq<byte>)
    ensures MayClaim(Unity, s, DetectUnity(s))
  {
  }

  lemma MmdClaims(s: seq<byte>)
    ensures MayClaim(Mmd, s, DetectMmd(s))
  {
    Head(s, [0x50, 0x4D, 0x58, 0x20]);
    Head(s, [0x50, 0x6D, 0x64]);
    hide IsPmxVersion, IsPmdVersion, Slice;
  }

  lemma KtxClaims(s: seq<byte>)
    ensures var ktx: seq<byte> := [0xAB, 0x4B, 0x54, 0x58, 0x20];
            var one := ktx + [0x31, 0x31, 0xBB, 0x0D, 0x0A, 0x1A, 0x0A] <= s;
            var two := ktx + [0x32, 0x30, 0xBB, 0x0D, 0x0A, 0x1A, 0x0A] <= s;
            !(one && two) && (one || two ==> At(s, 0) == 0xAB)
  {
    var ktx: seq<byte> := [0xAB, 0x4B, 0x54, 0x58, 0x20];
    var one := ktx + [0x31, 0x31, 0xBB, 0x0D, 0x0A, 0x1A, 0x0A];
    var two := ktx + [0x32, 0x30, 0xBB, 0x0D, 0x0A, 0x1A, 0x0A];
    assert one <= s ==> s[5] == one[5] == 0x31;
    assert two <= s ==> s[5] == two[5] == 0x32;
  }

  lemma TexturesClaim(s: seq<byte>, size: nat)
    ensures MayClaim(Texture, s, DetectTextures(s, size))
  {
    Head(s, [0x89, 0x50, 0x4E, 0x47, 0x0D, 0x0A, 0x1A, 0x0A]);
    Head(s, [0xFF, 0xD8, 0xFF]);
    Head(s, [0x44, 0x44, 0x53, 0x20]);
    KtxClaims(s);
    RiffKind(s, [0x57, 0x45, 0x42, 0x50]);
    Head(s, [0x49, 0x49, 0x2A, 0]);
    Head(s, [0x4D, 0x4D, 0, 0x2A]);
    Head(s, [0x42, 0x4D]);
    hide IsBmp, IsRiff, Slice;
  }

  lemma RiffKind(s: seq<byte>, kind: seq<byte>)
    requires |kind| == 4
    ensures IsRiff(s, kind) ==> At(s, 0) == 0x52 && At(s, 1) == 0x49 && At(s, 9) == kind[1]
  {
    if IsRiff(s, kind) {
      Head(s, [0x52, 0x49, 0x46, 0x46]);
      assert |s| >= 12;
      assert s[8..12][1] == s[9];
    }
  }

  lemma ZipClaims(s: seq<byte>)
    ensures [0x50, 0x4B, 0x03, 0x04] <= s || [0x50, 0x4B, 0x05, 0x06] <= s || [0x50, 0x4B, 0x07, 0x08] <= s ==>
              At(s, 0) == 0x50 && At(s, 1) == 0x4B
  {
    Head(s, [0x50, 0x4B, 0x03, 0x04]);
    Head(s, [0x50, 0x4B, 0x05, 0x06]);
    Head(s, [0x50, 0x4B, 0x07, 0x08]);
  }

  lemma RarClaims(s: seq<byte>)
    ensures var rar: seq<byte> := [0x52, 0x61, 0x72, 0x21, 0x1A, 0x07];
            rar + [0] <= s || rar + [1, 0] <= s ==> At(s, 0) == 0x52 && At(s, 1) == 0x61
  {
    var rar: seq<byte> := [0x52, 0x61, 0x72, 0x21, 0x1A, 0x07];
    Head(s, rar + [0]);
    Head(s, rar + [1, 0]);
  }

  lemma ArchivesClaim(s: seq<byte>)
    ensures MayClaim(Archive, s, DetectArchives(s))
  {
    ZipClaims(s);
    RarClaims(s);
    Head(s, [0x37, 0x7A, 0xBC, 0xAF, 0x27, 0x1C]);
    Head(s, [0x1F, 0x8B, 0x08]);
    Head(s, [0xFD, 0x37, 0x7A, 0x58, 0x5A, 0]);
  }

  lemma ExecutablesClaim(s: seq<byte>)
    ensures MayClaim(Executable, s, DetectExecutables(s))
  {
    Head(s, [0x7F, 0x45, 0x4C, 0x46]);
    Head(s, [0x4D, 0x5A]);
  }

  lemma Mp3Claims(s: seq<byte>)
    ensures |DetectMp3(s)| <= 1
    ensures DetectMp3(s) != [] ==> (At(s, 0) == 0x49 && At(s, 1) == 0x44) || (At(s, 0) == 0xFF && At(s, 1) >= 0xE0)
  {
    var header := Slice(s, 0, 4);
    if |header| >= 4 {
      Mp3HeaderBytes(header);
      assert header[0] == s[0] && header[1] == s[1];
    }
    hide IsMp3Header, TagSize;
  }

  lemma AudioClaims(s: seq<byte>)
    ensures MayClaim(Audio, s, DetectAudio(s))
  {
    RiffKind(s, [0x57, 0x41, 0x56, 0x45]);
    Mp3Claims(s);
    hide IsRiff, DetectMp3, Slice;
  }

  // ------------------------------------------------------------------ the text detectors

  predicate IsBlankByte(b: int) {
    b in {0x0D, 0x0A, 0x09, 0x20}
  }

  /** How many blank bytes come first. */
  function Blanks(s: seq<byte>): (n: nat)
    ensures n <= |s| && (forall i :: 0 <= i < n ==> IsBlankByte(s[i])) && (n < |s| ==> !IsBlankByte(s[n]))
  {
    if s == [] || !IsBlankByte(s[0]) then 0 else 1 + Blanks(s[1..])
  }

  /** A byte a character can start with, in Latin-1 or in UTF-8. */
  predicate StartsWith(c: Utf8.Scalar, b: byte) {
    c == b || (c >= 0x80 && Utf8.Encode(c)[0] == b)
  }

  /** The character at `n` starts with the byte at `n`, when all bytes before are ASCII blanks. */
  ghost predicate TextFollows(s: seq<byte>, text: Text, n: nat) {
    && n <= |s| && n <= |text|
    && (forall i :: 0 <= i < n ==> text[i] == s[i])
    && (n < |s| <==> n < |text|)
    && (n < |s| ==> StartsWith(text[n], s[n]))
  }

  lemma FirstCharacter(s: seq<byte>)
    requires s != [] && Utf8.WellFormed(s)
    ensures var c := Utf8.Decode(s)[0];
            && (s[0] < 0x80 ==> c == s[0] && Utf8.LeadLength(s[0]) == 1)
            && (s[0] >= 0x80 ==> c >= 0x80 && Utf8.Encode(c)[0] == s[0])
  {
    var n := Utf8.LeadLength(s[0]);
    Utf8.DecodeCharThenEncode(s[..n]);
    if s[0] >= 0x80 {
      assert Utf8.Encode(Utf8.Decode(s)[0])[0] == s[0];
    }
  }

  lemma {:induction false} Utf8Follows(s: seq<byte>, n: nat)
    requires Utf8.WellFormed(s) && n <= |s| && forall i :: 0 <= i < n ==> IsBlankByte(s[i])
    ensures TextFollows(s, Utf8.Decode(s), n)
  {
    if s != [] {
      FirstCharacter(s);
      if n > 0 {
        assert IsBlankByte(s[0]);
        Utf8Follows(s[1..], n - 1);
        assert Utf8.Decode(s) == [Utf8.Decode(s)[0]] + Utf8.Decode(s[1..]);
      }
    }
  }

  lemma DecodedFollows(s: seq<byte>, n: nat)
    requires n <= |s| && forall i :: 0 <= i < n ==> IsBlankByte(s[i])
    ensures TextFollows(s, DecodeText(s), n)
  {
    if Utf8.WellFormed(s) {
      Utf8Follows(s, n);
    }
  }

  lemma {:induction false} StripAt(text: Text, blank: int -> bool, n: nat)
    requires n <= |text| && (forall i :: 0 <= i < n ==> blank(text[i])) && (n < |text| ==> !blank(text[n]))
    ensures StripLeft(text, blank) == text[n..]
  {
    if n > 0 {
      StripAt(text[1..], blank, n - 1);
      assert text[1..][n - 1..] == text[n..];
    }
  }

  lemma {:induction false} StripLater(text: Text, blank: int -> bool, n: nat)
    requires n <= |text| && forall i :: 0 <= i < n ==> blank(text[i])
    ensures StripLeft(text, blank) == StripLeft(text[n..], blank)
  {
    if n > 0 {
      StripLater(text[1..], blank, n - 1);
      assert text[1..][n - 1..] == text[n..];
    } else {
      assert text[0..] == text;
    }
  }

  /** FBX text starts, after blanks, with a semicolon or with the lead byte of a byte order mark. */
  lemma FbxStart(s: seq<byte>)
    requires FBX_BANNER <= FbxText(s)
    ensures Blanks(s) < |s| && s[Blanks(s)] in {0x3B, 0xEF}
  {
    var n, text := Blanks(s), DecodeText(s);
    DecodedFollows(s, n);
    StripLater(text, IsFbxBlank, n);
    hide DecodeText;
    var rest := text[n..];
    assert rest != [] && rest[0] == text[n];
    FbxFirst(rest);
    MarkLead(text[n], s[n]);
  }

  lemma FbxFirst(rest: Text)
    requires rest != [] && FBX_BANNER <= StripLeft(rest, IsFbxBlank)
    ensures rest[0] == 0x3B || IsFbxBlank(rest[0])
  {
    if !IsFbxBlank(rest[0]) {
      assert StripLeft(rest, IsFbxBlank) == rest;
    }
  }

  lemma MarkLead(c: Utf8.Scalar, b: byte)
    requires StartsWith(c, b) && (c == 0x3B || IsFbxBlank(c)) && !IsBlankByte(b)
    ensures b in {0x3B, 0xEF}
  {
    assert c == 0xFEFF ==> Utf8.Encode(c)[0] == 0xEF;
  }

  lemma NotSpaceNorBrace(c: Utf8.Scalar, b: byte)
    requires StartsWith(c, b) && b in {0x3B, 0xEF}
    ensures !IsSpace(c) && c != BRACE
  {
    var lead: int := Utf8.Encode(c)[0];
    assert c >= 0x1_0000 ==> lead >= 0xF0;
    assert 0x80 <= c < 0x800 ==> lead < 0xE0;
    assert 0x800 <= c < 0x1_0000 && lead == 0xEF ==> c / 64 / 64 == 15;
  }

  lemma StripRightKeepsFirst(text: Text, blank: int -> bool)
    requires StripRight(text, blank) != []
    ensures text != [] && StripRight(text, blank)[0] == text[0]
    decreases |text|
  {
    if text != [] && blank(text[|text| - 1]) {
      StripRightKeepsFirst(text[..|text| - 1], blank);
    }
  }

  /** No sample is FBX text in its window and starts with a brace in the larger one. */
  lemma FbxIsNotGltf(small: seq<byte>, large: seq<byte>)
    requires small <= large && FBX_BANNER <= FbxText(small)
    ensures GltfText(large) == [] || GltfText(large)[0] != BRACE
  {
    FbxStart(small);
    var n := Blanks(small);
    assert forall i :: 0 <= i <= n ==> large[i] == small[i];
    var text := DecodeText(large);
    DecodedFollows(large, n);
    NotSpaceNorBrace(text[n], large[n]);
    SpacesFirst(large, text, n);
    StripAt(text, IsSpace, n);
    var stripped := text[n..];
    hide DecodeText;
    if StripRight(stripped, IsSpace) != [] {
      StripRightKeepsFirst(stripped, IsSpace);
    }
  }

  lemma SpacesFirst(s: seq<byte>, text: Text, n: nat)
    requires TextFollows(s, text, n) && forall i :: 0 <= i < n ==> IsBlankByte(s[i])
    ensures forall i :: 0 <= i < n ==> IsSpace(text[i])
  {
  }

  /** The bytes a text can start with that has a brace after its white space. */
  predicate IsTextLead(b: int) {
    || b == BRACE || 0x09 <= b <= 0x0D || 0x1C <= b <= 0x20
    || b in {0x85, 0xA0, 0xC2, 0xE1, 0xE2, 0xE3}
  }

  lemma SpaceLead(c: Utf8.Scalar, b: byte)
    requires StartsWith(c, b) && (IsSpace(c) || c == BRACE)
    ensures IsTextLead(b)
  {
    if c >= 0x80 && Utf8.Encode(c)[0] == b {
      assert c < 0x800 ==> c / 64 == 2;
      assert c >= 0x800 ==> 1 <= c / 64 / 64 <= 3;
    }
  }

  /** A sample whose text starts with a brace does not start with a signature, not even gzip's. */
  lemma GltfStart(s: seq<byte>)
    requires GltfText(s) != [] && GltfText(s)[0] == BRACE
    ensures IsTextLead(At(s, 0)) && !(At(s, 0) == 0x1F && At(s, 1) == 0x8B)
  {
    var text := DecodeText(s);
    var stripped := StripLeft(text, IsSpace);
    StripRightKeepsFirst(stripped, IsSpace);
    DecodedFollows(s, 0);
    if At(s, 0) == 0x1F && At(s, 1) == 0x8B {
      GzipIsNoText(s);
      StripAt(text, IsSpace, 1);
    }
    hide DecodeText;
    assert text != [];
    if !IsSpace(text[0]) {
      StripAt(text, IsSpace, 0);
    }
    SpaceLead(text[0], s[0]);
  }

  lemma GzipIsNoText(s: seq<byte>)
    requires At(s, 0) == 0x1F && At(s, 1) == 0x8B
    ensures DecodeText(s) == seq(|s|, i requires 0 <= i < |s| => s[i] as int)
  {
    assert s[1..][0] == 0x8B && Utf8.LeadLength(0x8B) == 0;
    assert !Utf8.WellFormed(s[1..]);
    assert Utf8.LeadLength(s[0]) == 1;
  }

  // ------------------------------------------------------------------- the whole registry

  lemma SameHead(sample: seq<byte>, n: nat)
    requires n >= 10
    ensures var s := Slice(sample, 0, n);
            At(s, 0) == At(sample, 0) && At(s, 1) == At(sample, 1) && At(s, 9) == At(sample, 9)
  {
  }

  /** The FBX detector claims by its magic or by its text. */
  lemma FbxClaims(s: seq<byte>)
    ensures |DetectFbx(s)| <= 1
    ensures DetectFbx(s) != [] ==> At(s, 0) == 0x4B || FBX_BANNER <= FbxText(s)
  {
    Head(s, FBX_MAGIC);
    hide FbxText, Contains;
  }

  lemma GltfClaims(s: seq<byte>, size: nat, load: Text -> Asset)
    ensures |DetectGltf(s, size, load)| <= 1
    ensures DetectGltf(s, size, load) != [] ==> At(s, 0) == 0x67 || (GltfText(s) != [] && GltfText(s)[0] == BRACE)
  {
    Head(s, [0x67, 0x6C, 0x54, 0x46]);
    hide GltfText, Slice, Little;
  }

  lemma BannerLead(s: seq<byte>)
    requires FBX_BANNER <= FbxText(s)
    ensures At(s, 0) in {0x3B, 0xEF, 0x0D, 0x0A, 0x09, 0x20}
  {
    FbxStart(s);
  }

  lemma FbxOwns(sample: seq<byte>)
    requires DetectFbx(Slice(sample, 0, 1024)) != []
    ensures Owner(sample) == Fbx
  {
    hide DetectFbx, FbxText, Slice, At, SignatureOwner;
    var s := Slice(sample, 0, 1024);
    FbxClaims(s);
    SameHead(sample, 1024);
    if At(s, 0) == 0x4B {
      SignaturesAreDisjoint(Fbx, At(s, 0), At(s, 1), At(s, 9));
    } else {
      BannerLead(s);
      BannerIsUnsigned(At(s, 0), At(s, 1), At(s, 9));
    }
  }

  lemma BannerIsUnsigned(b0: int, b1: int, b9: int)
    requires b0 in {0x3B, 0xEF, 0x0D, 0x0A, 0x09, 0x20}
    ensures SignatureOwner(b0, b1, b9) == None
  {
  }

  lemma TextIsUnsigned(b0: int, b1: int, b9: int)
    requires IsTextLead(b0) && !(b0 == 0x1F && b1 == 0x8B)
    ensures SignatureOwner(b0, b1, b9) == None
  {
  }

  lemma GltfOwns(sample: seq<byte>, size: nat, load: Text -> Asset)
    requires DetectGltf(Slice(sample, 0, 4096), size, load) != []
    ensures Owner(sample) == Gltf
  {
    var s, small := Slice(sample, 0, 4096), Slice(sample, 0, 1024);
    GltfClaims(s, size, load);
    SameHead(sample, 4096);
    assert small <= s;
    hide DetectGltf, FbxText, GltfText, Slice, At;
    if At(s, 0) == 0x67 {
      SignaturesAreDisjoint(Gltf, At(s, 0), At(s, 1), At(s, 9));
    } else {
      hide SignatureOwner;
      GltfStart(s);
      TextIsUnsigned(At(s, 0), At(s, 1), At(s, 9));
      if FBX_BANNER <= FbxText(small) {
        FbxIsNotGltf(small, s);
      }
    }
  }

  /** A sample whose load escapes is one the glTF detector owns, so no other detector has a candidate for it. */
  lemma EscapeOwner(sample: seq<byte>, size: nat, load: Text -> Asset)
    requires LoadEscapes(Slice(sample, 0, 4096), load)
    ensures Owner(sample) == Gltf && Candidates(|REGISTRY|, sample, size, load) == []
  {
    GltfOwns(sample, size, _ => GoodVersion);
    assert DetectGltf(Slice(sample, 0, 4096), size, load) == [];
    hide DetectGltf, Detect, Owner, Slice, Candidates, LoadEscapes;
    OnlyOwner(|REGISTRY|, sample, size, load);
  }

  lemma {:induction false} OnlyOwner(n: nat, sample: seq<byte>, size: nat, load: Text -> Asset)
    requires n <= |REGISTRY|
    requires Detect(Owner(sample), Slice(sample, 0, Window(Owner(sample))), size, load) == []
    ensures Candidates(n, sample, size, load) == []
  {
    if n > 0 {
      hide Detect, Slice, Owner, Window;
      OnlyOwner(n - 1, sample, size, load);
      DetectorClaims(REGISTRY[n - 1], sample, size, load);
    }
  }

  /** A detector returns at most one candidate, and only for samples it owns. */
  lemma DetectorClaims(d: Detector, sample: seq<byte>, size: nat, load: Text -> Asset)
    ensures var found := Detect(d, Slice(sample, 0, Window(d)), size, load);
            |found| <= 1 && (found != [] ==> Owner(sample) == d)
  {
    var s := Slice(sample, 0, Window(d));
    SameHead(sample, Window(d));
    match d
    case Fbx =>
      FbxClaims(s);
      if DetectFbx(s) != [] {
        FbxOwns(sample);
      }
    case Gltf =>
      GltfClaims(s, size, load);
      if DetectGltf(s, size, load) != [] {
        GltfOwns(sample, size, load);
      }
    case _ =>
      SignatureClaims(d, s, size, load);
      hide Detect, SignatureOwner, HasSignature, At, Slice;
      if Detect(d, s, size, load) != [] {
        SignaturesAreDisjoint(d, At(s, 0), At(s, 1), At(s, 9));
      }
  }

  lemma SignatureClaims(d: Detector, s: seq<byte>, size: nat, load: Text -> Asset)
    requires d != Fbx && d != Gltf
    ensures MayClaim(d, s, Detect(d, s, size, load))
  {
    hide DetectUnity, DetectMmd, DetectTextures, DetectArchives, DetectExecutables, DetectAudio, MayClaim;
    match d
    case Unity => UnityClaims(s);
    case Mmd => MmdClaims(s);
    case Texture => TexturesClaim(s, size);
    case Archive => ArchivesClaim(s);
    case Executable => ExecutablesClaim(s);
    case _ => AudioClaims(s);
  }

  /** The registry never returns two candidates. */
  lemma {:induction false} AtMostOne(n: nat, sample: seq<byte>, size: nat, load: Text -> Asset)
    requires n <= |REGISTRY|
    ensures |Candidates(n, sample, size, load)| <= 1
    ensures Candidates(n, sample, size, load) != [] ==> Owner(sample) in REGISTRY[..n]
  {
    if n > 0 {
      hide Detect, Slice, Owner, Window;
      AtMostOne(n - 1, sample, size, load);
      DetectorClaims(REGISTRY[n - 1], sample, size, load);
      OnlyOnce(n);
    }
  }

  lemma OnlyOnce(n: nat)
    requires 0 < n <= |REGISTRY|
    ensures REGISTRY[n - 1] !in REGISTRY[..n - 1] && REGISTRY[..n] == REGISTRY[..n - 1] + [REGISTRY[n - 1]]
  {
  }

  /** The chosen format is the candidate's exactly when there is one and it is sure. */
  lemma PickIsTheCandidate(sample: seq<byte>, size: nat, load: Text -> Asset, format: Format)
    ensures var candidates := Candidates(|REGISTRY|, sample, size, load);
            Pick(candidates) == Some(format) <==> candidates == [Candidate(format, HIGH)]
  {
    var candidates := Candidates(|REGISTRY|, sample, size, load);
    AtMostOne(|REGISTRY|, sample, size, load);
    hide Candidates;
    if candidates != [] {
      assert candidates == [candidates[0]];
      PickOne(candidates[0]);
    }
  }

  lemma PickOne(c: Candidate)
    ensures Pick([c]) == if c.confidence == HIGH then Some(c.format) else None
  {
    OfOne(c, HIGH);
    OfOne(c, MEDIUM);
    assert Ranked([c]) == [c];
  }

  lemma OfOne(c: Candidate, confidence: Confidence)
    ensures OfConfidence([c], confidence) == if c.confidence == confidence then [c] else []
  {
    assert OfConfidence([c], confidence)
           == (if c.confidence == confidence then [c] else []) + OfConfidence([], confidence);
  }

  // --------------------------------------------------------------------- what comes next

  datatype Inspector =
    | UnityBundle | PmxInspector | FbxInspector | GltfInspector | TextureInspector | ArchiveInspector
    | ExecutableInspector | AudioInspector

  /** The table INSPECTOR_BY_FORMAT. */
  function InspectorByFormat(f: Format): (inspector: Inspector) {
    match f
    case UNITYFS => UnityBundle
    case UNITYRAW => UnityBundle
    case UNITYWEB => UnityBundle
    case PMX => PmxInspector
    case PMD => PmxInspector
    case FBX_BINARY => FbxInspector
    case FBX_ASCII => FbxInspector
    case GLB => GltfInspector
    case GLTF => GltfInspector
    case PNG => TextureInspector
    case JPEG => TextureInspector
    case DDS => TextureInspector
    case KTX1 => TextureInspector
    case KTX2 => TextureInspector
    case WEBP => TextureInspector
    case BMP => TextureInspector
    case TIFF => TextureInspector
    case ZIP => ArchiveInspector
    case SEVENZ => ArchiveInspector
    case RAR => ArchiveInspector
    case GZIP => ArchiveInspector
    case XZ => ArchiveInspector
    case PE => ExecutableInspector
    case ELF => ExecutableInspector
    case WAV => AudioInspector
    case OGG => AudioInspector
    case FLAC => AudioInspector
    case MP3 => AudioInspector
  }

  /** The inspector for what one detector finds. */
  function InspectorOf(d: Detector): (inspector: Inspector) {
    match d
    case Unity => UnityBundle
    case Mmd => PmxInspector
    case Fbx => FbxInspector
    case Gltf => GltfInspector
    case Texture => TextureInspector
    case Archive => ArchiveInspector
    case Executable => ExecutableInspector
    case Audio => AudioInspector
  }

  /** `_next_inspector` on the result of `_pick_detected_format`. */
  function NextInspector(candidates: seq<Candidate>): (inspector: Option<Inspector>) {
    match Pick(candidates)
    case None => None
    case Some(f) => Some(InspectorByFormat(f))
  }

  ghost predicate AllInspectedBy(found: seq<Candidate>, d: Detector) {
    forall c :: c in found ==> InspectorByFormat(c.format) == InspectorOf(d)
  }

  lemma Inspected(d: Detector)
    ensures forall f, found, sure {:trigger AllInspectedBy(If(found, f, sure), d)} ::
              InspectorByFormat(f) == InspectorOf(d) ==> AllInspectedBy(If(found, f, sure), d)
    ensures forall a, b {:trigger AllInspectedBy(a + b, d)} ::
              AllInspectedBy(a, d) && AllInspectedBy(b, d) ==> AllInspectedBy(a + b, d)
    ensures AllInspectedBy([], d)
  {
  }

  /** What a detector finds has the format names its inspector handles. */
  lemma DetectedInspector(d: Detector, s: seq<byte>, size: nat, load: Text -> Asset)
    ensures AllInspectedBy(Detect(d, s, size, load), d)
  {
    hide IsRiff, IsPe, Slice, Little, FbxText, GltfText, Contains, IsPmxVersion, IsPmdVersion;
    hide DetectTextures, DetectArchives, DetectAudio, AllInspectedBy, If;
    Inspected(d);
    match d
    case Texture => TexturesInspected(s, size);
    case Archive => ArchivesInspected(s);
    case Audio => AudioInspected(s);
    case _ =>
  }

  lemma TexturesInspected(s: seq<byte>, size: nat)
    ensures AllInspectedBy(DetectTextures(s, size), Texture)
  {
    hide IsRiff, IsBmp, AllInspectedBy, If;
    Inspected(Texture);
  }

  lemma ArchivesInspected(s: seq<byte>)
    ensures AllInspectedBy(DetectArchives(s), Archive)
  {
    hide AllInspectedBy, If;
    Inspected(Archive);
  }

  lemma AudioInspected(s: seq<byte>)
    ensures AllInspectedBy(DetectAudio(s), Audio)
  {
    hide IsRiff, IsMp3Header, TagSize, Slice, AllInspectedBy, If;
    Inspected(Audio);
  }

  lemma {:induction false} OwnersCandidate(n: nat, sample: seq<byte>, size: nat, load: Text -> Asset)
    requires n <= |REGISTRY|
    ensures AllInspectedBy(Candidates(n, sample, size, load), Owner(sample))
  {
    if n > 0 {
      OwnersCandidate(n - 1, sample, size, load);
      DetectorClaims(REGISTRY[n - 1], sample, size, load);
      DetectedInspector(REGISTRY[n - 1], Slice(sample, 0, Window(REGISTRY[n - 1])), size, load);
      hide Detect, Slice, Owner, Window, InspectorByFormat, InspectorOf;
    }
  }

  /** The next inspector is the one of the detector that owns the sample, and there is one exactly when it is sure. */
  lemma InspectorFits(sample: seq<byte>, size: nat, load: Text -> Asset)
    ensures var candidates := Candidates(|REGISTRY|, sample, size, load);
            NextInspector(candidates)
            == if exists c :: c in candidates && c.confidence == HIGH then Some(InspectorOf(Owner(sample))) else None
  {
    var candidates := Candidates(|REGISTRY|, sample, size, load);
    AtMostOne(|REGISTRY|, sample, size, load);
    OwnersCandidate(|REGISTRY|, sample, size, load);
    hide Candidates, Owner, InspectorByFormat, InspectorOf;
    if candidates != [] {
      assert candidates == [candidates[0]];
      PickOne(candidates[0]);
    }
  }

  // ------------------------------------------------------- which format is chosen when

  function DetectorOf(f: Format): (d: Detector) {
    match f
    case UNITYFS => Unity case UNITYRAW => Unity case UNITYWEB => Unity
    case PMX => Mmd case PMD => Mmd
    case FBX_BINARY => Fbx case FBX_ASCII => Fbx
    case GLB => Gltf case GLTF => Gltf
    case PNG => Texture case JPEG => Texture case DDS => Texture case KTX1 => Texture case KTX2 => Texture
    case WEBP => Texture case BMP => Texture case TIFF => Texture
    case ZIP => Archive case SEVENZ => Archive case RAR => Archive case GZIP => Archive case XZ => Archive
    case PE => Executable case ELF => Executable
    case WAV => Audio case OGG => Audio case FLAC => Audio case MP3 => Audio
  }

  /** The candidates are those of the detector that owns the sample. */
  lemma {:induction false} OwnersOnly(n: nat, sample: seq<byte>, size: nat, load: Text -> Asset)
    requires n <= |REGISTRY|
    ensures Candidates(n, sample, size, load) ==
              if Owner(sample) in REGISTRY[..n] then Detect(Owner(sample), Slice(sample, 0, Window(Owner(sample))), size, load)
              else []
  {
    if n > 0 {
      hide Detect, Slice, Owner, Window;
      OwnersOnly(n - 1, sample, size, load);
      DetectorClaims(REGISTRY[n - 1], sample, size, load);
      OnlyOnce(n);
    }
  }

  lemma EveryDetector(d: Detector)
    ensures d in REGISTRY && REGISTRY[..|REGISTRY|] == REGISTRY
  {
    assert REGISTRY[0] == Unity && REGISTRY[1] == Mmd && REGISTRY[2] == Fbx && REGISTRY[3] == Gltf;
    assert REGISTRY[4] == Texture && REGISTRY[5] == Archive && REGISTRY[6] == Executable && REGISTRY[7] == Audio;
  }

  /** Every candidate of a detector has a format of that detector. */
  ghost predicate AllOf(candidates: seq<Candidate>, d: Detector) {
    forall c :: c in candidates ==> DetectorOf(c.format) == d
  }

  lemma OwnIf(found: bool, format: Format, sure: bool)
    ensures AllOf(If(found, format, sure), DetectorOf(format))
    ensures forall f :: Candidate(f, HIGH) in If(found, format, sure) <==> found && f == format && sure
  {
  }

  lemma OwnIfs()
    ensures forall found, format, sure :: AllOf(If(found, format, sure), DetectorOf(format))
    ensures forall found, format, sure, f ::
              Candidate(f, HIGH) in If(found, format, sure) <==> found && f == format && sure
  {
    hide If, AllOf, DetectorOf;
    forall found, format, sure ensures AllOf(If(found, format, sure), DetectorOf(format)) {
      OwnIf(found, format, sure);
    }
    forall found, format, sure, f ensures Candidate(f, HIGH) in If(found, format, sure) <==> found && f == format && sure {
      OwnIf(found, format, sure);
    }
  }

  lemma DetectsOwn(d: Detector, s: seq<byte>, size: nat, load: Text -> Asset)
    ensures AllOf(Detect(d, s, size, load), d)
  {
    hide DetectUnity, DetectMmd, DetectFbx, DetectGltf, DetectTextures, DetectArchives, DetectExecutables, DetectAudio, AllOf;
    match d
    case Unity => UnityOwn(s);
    case Mmd => MmdOwn(s);
    case Fbx => FbxOwn(s);
    case Gltf => GltfOwn(s, size, load);
    case Texture => TextureOwn(s, size);
    case Archive => ArchiveOwn(s);
    case Executable => ExecutableOwn(s);
    case Audio => AudioOwn(s);
  }

  lemma UnityOwn(s: seq<byte>)
    ensures AllOf(DetectUnity(s), Unity)
  {
    OwnIfs();
    hide If;
  }

  lemma MmdOwn(s: seq<byte>)
    ensures AllOf(DetectMmd(s), Mmd)
  {
    OwnIfs();
    hide If, IsPmxVersion, IsPmdVersion, Slice;
  }

  lemma FbxOwn(s: seq<byte>)
    ensures AllOf(DetectFbx(s), Fbx)
  {
    OwnIfs();
    hide If, FbxText, Contains;
  }

  lemma GltfOwn(s: seq<byte>, size: nat, load: Text -> Asset)
    ensures AllOf(DetectGltf(s, size, load), Gltf)
  {
    OwnIfs();
    hide If, GltfText, Slice, Little;
  }

  lemma TextureOwn(s: seq<byte>, size: nat)
    ensures AllOf(DetectTextures(s, size), Texture)
  {
    hide If, IsRiff, IsBmp, AllOf;
    forall found, format, sure ensures AllOf(If(found, format, sure), DetectorOf(format)) {
      OwnIf(found, format, sure);
    }
    forall a, b | AllOf(a, Texture) && AllOf(b, Texture) ensures AllOf(a + b, Texture) {
      OwnSum(a, b, Texture);
    }
  }

  lemma OwnSum(a: seq<Candidate>, b: seq<Candidate>, d: Detector)
    requires AllOf(a, d) && AllOf(b, d)
    ensures AllOf(a + b, d)
  {
  }

  lemma ArchiveOwn(s: seq<byte>)
    ensures AllOf(DetectArchives(s), Archive)
  {
    OwnIfs();
    hide If;
  }

  lemma ExecutableOwn(s: seq<byte>)
    ensures AllOf(DetectExecutables(s), Executable)
  {
    OwnIfs();
    hide If, IsPe;
  }

  lemma AudioOwn(s: seq<byte>)
    ensures AllOf(DetectAudio(s), Audio)
  {
    OwnIfs();
    hide If, IsRiff, IsMp3Header, TagSize, Slice;
  }

  /** A format is chosen exactly when its detector is sure of it, whatever the others say. */
  lemma ChosenIff(f: Format, sample: seq<byte>, size: nat, load: Text -> Asset)
    ensures Pick(Candidates(|REGISTRY|, sample, size, load)) == Some(f) <==>
              Candidate(f, HIGH) in Detect(DetectorOf(f), Slice(sample, 0, Window(DetectorOf(f))), size, load)
  {
    hide Detect, Slice, Owner, Window, Pick, Candidates, DetectorOf;
    OwnersOnly(|REGISTRY|, sample, size, load);
    EveryDetector(Owner(sample));
    PickIsTheCandidate(sample, size, load, f);
    DetectorClaims(DetectorOf(f), sample, size, load);
    DetectsOwn(Owner(sample), Slice(sample, 0, Window(Owner(sample))), size, load);
    var found := Detect(DetectorOf(f), Slice(sample, 0, Window(DetectorOf(f))), size, load);
    if Candidate(f, HIGH) in found {
      assert found == [Candidate(f, HIGH)];
    }
  }

  /** The beginnings that make a sample one of a format for sure, for formats known by them alone. */
  function Signatures(f: Format): (beginnings: seq<seq<byte>>) {
    match f
    case UNITYFS => [[0x55, 0x6E, 0x69, 0x74, 0x79, 0x46, 0x53, 0]]          // UnityFS, NUL
    case UNITYRAW => [[0x55, 0x6E, 0x69, 0x74, 0x79, 0x52, 0x61, 0x77, 0]]   // UnityRaw, NUL
    case UNITYWEB => [[0x55, 0x6E, 0x69, 0x74, 0x79, 0x57, 0x65, 0x62, 0]]   // UnityWeb, NUL
    case PNG => [[0x89, 0x50, 0x4E, 0x47, 0x0D, 0x0A, 0x1A, 0x0A]]           // PNG between a high octet and breaks
    case JPEG => [[0xFF, 0xD8, 0xFF]]
    case DDS => [[0x44, 0x44, 0x53, 0x20]]                                   // DDS, blank
    case KTX1 => [[0xAB, 0x4B, 0x54, 0x58, 0x20, 0x31, 0x31, 0xBB, 0x0D, 0x0A, 0x1A, 0x0A]]
    case KTX2 => [[0xAB, 0x4B, 0x54, 0x58, 0x20, 0x32, 0x30, 0xBB, 0x0D, 0x0A, 0x1A, 0x0A]]
    case TIFF => [[0x49, 0x49, 0x2A, 0], [0x4D, 0x4D, 0, 0x2A]]              // either order of octets
    case ZIP => [[0x50, 0x4B, 3, 4], [0x50, 0x4B, 5, 6], [0x50, 0x4B, 7, 8]] // PK
    case SEVENZ => [[0x37, 0x7A, 0xBC, 0xAF, 0x27, 0x1C]]                    // 7z
    case RAR => [[0x52, 0x61, 0x72, 0x21, 0x1A, 7, 0], [0x52, 0x61, 0x72, 0x21, 0x1A, 7, 1, 0]]
    case GZIP => [[0x1F, 0x8B, 8]]
    case XZ => [[0xFD, 0x37, 0x7A, 0x58, 0x5A, 0]]
    case ELF => [[0x7F, 0x45, 0x4C, 0x46]]
    case OGG => [[0x4F, 0x67, 0x67, 0x53]]
    case FLAC => [[0x66, 0x4C, 0x61, 0x43]]
    case FBX_BINARY => [FBX_MAGIC]
    case _ => []
  }

  predicate BeginsWithOne(sample: seq<byte>, beginnings: seq<seq<byte>>) {
    exists i :: 0 <= i < |beginnings| && beginnings[i] <= sample
  }

  lemma BeginsInWindow(sample: seq<byte>, beginning: seq<byte>, window: nat)
    requires |beginning| <= window
    ensures beginning <= Slice(sample, 0, window) <==> beginning <= sample
  {
  }

  /** A format known by its beginning alone is chosen exactly for samples with one of its beginnings. */
  lemma SignatureDecides(f: Format, sample: seq<byte>, size: nat, load: Text -> Asset)
    requires Signatures(f) != []
    ensures Pick(Candidates(|REGISTRY|, sample, size, load)) == Some(f) <==> BeginsWithOne(sample, Signatures(f))
  {
    ChosenIff(f, sample, size, load);
    hide Pick, Candidates;
    var s := Slice(sample, 0, Window(DetectorOf(f)));
    ShortSignatures(f);
    SureBySignature(f, s, size, load);
    hide Detect, Slice, Signatures, DetectorOf, Window;
    forall i | 0 <= i < |Signatures(f)| ensures Signatures(f)[i] <= s <==> Signatures(f)[i] <= sample {
      BeginsInWindow(sample, Signatures(f)[i], Window(DetectorOf(f)));
    }
  }

  lemma ShortSignatures(f: Format)
    ensures forall i :: 0 <= i < |Signatures(f)| ==> |Signatures(f)[i]| <= Window(DetectorOf(f))
  {
  }

  lemma SureBySignature(f: Format, s: seq<byte>, size: nat, load: Text -> Asset)
    requires Signatures(f) != []
    ensures Candidate(f, HIGH) in Detect(DetectorOf(f), s, size, load) <==> BeginsWithOne(s, Signatures(f))
  {
    hide DetectUnity, DetectMmd, DetectFbx, DetectGltf, DetectTextures, DetectArchives, DetectExecutables, DetectAudio;
    hide BeginsWithOne;
    match DetectorOf(f)
    case Unity => SureUnity(f, s);
    case Fbx => SureFbx(f, s);
    case Texture => SureTexture(f, s, size);
    case Archive => SureArchive(f, s);
    case Executable => SureExecutable(f, s);
    case Audio => SureAudio(f, s);
    case _ =>
  }

  lemma OneBeginning(s: seq<byte>, a: seq<byte>)
    ensures BeginsWithOne(s, [a]) <==> a <= s
  {
    assert [a][0] == a;
  }

  lemma TwoBeginnings(s: seq<byte>, a: seq<byte>, b: seq<byte>)
    ensures BeginsWithOne(s, [a, b]) <==> a <= s || b <= s
  {
    assert [a, b][0] == a && [a, b][1] == b;
  }

  lemma ThreeBeginnings(s: seq<byte>, a: seq<byte>, b: seq<byte>, c: seq<byte>)
    ensures BeginsWithOne(s, [a, b, c]) <==> a <= s || b <= s || c <= s
  {
    assert [a, b, c][0] == a && [a, b, c][1] == b && [a, b, c][2] == c;
  }

  lemma SureUnity(f: Format, s: seq<byte>)
    requires f in {UNITYFS, UNITYRAW, UNITYWEB}
    ensures Candidate(f, HIGH) in DetectUnity(s) <==> BeginsWithOne(s, Signatures(f))
  {
    OwnIfs();
    var unity: seq<byte> := [0x55, 0x6E, 0x69, 0x74, 0x79];
    assert unity + [0x46, 0x53, 0] == Signatures(UNITYFS)[0] && unity + [0x52, 0x61, 0x77, 0] == Signatures(UNITYRAW)[0];
    assert unity + [0x57, 0x65, 0x62, 0] == Signatures(UNITYWEB)[0];
    assert Signatures(UNITYFS)[0] <= s ==> s[5] == 0x46;
    assert Signatures(UNITYRAW)[0] <= s ==> s[5] == 0x52;
    assert Signatures(UNITYWEB)[0] <= s ==> s[5] == 0x57;
    OneBeginning(s, Signatures(f)[0]);
    hide If, BeginsWithOne;
  }

  lemma SureFbx(f: Format, s: seq<byte>)
    requires f == FBX_BINARY
    ensures Candidate(f, HIGH) in DetectFbx(s) <==> BeginsWithOne(s, Signatures(f))
  {
    OwnIfs();
    OneBeginning(s, FBX_MAGIC);
    hide If, BeginsWithOne, FbxText, Contains;
  }

  /** What each summand of a list of candidates contributes. */
  lemma InFour<T>(x: T, a: seq<T>, b: seq<T>, c: seq<T>, d: seq<T>)
    ensures x in a + b + c + d <==> x in a || x in b || x in c || x in d
  {
  }

  lemma InEight<T>(x: T, a: seq<T>, b: seq<T>, c: seq<T>, d: seq<T>, e: seq<T>, f: seq<T>, g: seq<T>, h: seq<T>)
    ensures x in a + b + c + d + e + f + g + h <==>
              x in a || x in b || x in c || x in d || x in e || x in f || x in g || x in h
  {
    InFour(x, a, b, c, d);
    InFour(x, a + b + c + d, e, f, g);
  }

  lemma TextureIfs(f: Format, png: bool, jpeg: bool, dds: bool, ktx1: bool, ktx2: bool, webp: bool, tiff: bool,
                   bmp: bool, whole: bool)
    ensures Candidate(f, HIGH) in If(png, PNG, true) + If(jpeg, JPEG, true) + If(dds, DDS, true) + If(ktx1, KTX1, true)
              + If(ktx2, KTX2, true) + If(webp, WEBP, true) + If(tiff, TIFF, true) + If(bmp, BMP, whole) <==>
            || (f == PNG && png) || (f == JPEG && jpeg) || (f == DDS && dds) || (f == KTX1 && ktx1) || (f == KTX2 && ktx2)
            || (f == WEBP && webp) || (f == TIFF && tiff) || (f == BMP && bmp && whole)
  {
    hide If, AllOf;
    OwnIf(png, PNG, true);
    OwnIf(jpeg, JPEG, true);
    OwnIf(dds, DDS, true);
    OwnIf(ktx1, KTX1, true);
    OwnIf(ktx2, KTX2, true);
    OwnIf(webp, WEBP, true);
    OwnIf(tiff, TIFF, true);
    OwnIf(bmp, BMP, whole);
    InEight(Candidate(f, HIGH), If(png, PNG, true), If(jpeg, JPEG, true), If(dds, DDS, true), If(ktx1, KTX1, true),
            If(ktx2, KTX2, true), If(webp, WEBP, true), If(tiff, TIFF, true), If(bmp, BMP, whole));
  }

  lemma TexturesFound(f: Format, s: seq<byte>, size: nat)
    ensures Candidate(f, HIGH) in DetectTextures(s, size) <==>
              || (f == PNG && [0x89, 0x50, 0x4E, 0x47, 0x0D, 0x0A, 0x1A, 0x0A] <= s)
              || (f == JPEG && [0xFF, 0xD8, 0xFF] <= s)
              || (f == DDS && [0x44, 0x44, 0x53, 0x20] <= s)
              || (f == KTX1 && [0xAB, 0x4B, 0x54, 0x58, 0x20] + [0x31, 0x31, 0xBB, 0x0D, 0x0A, 0x1A, 0x0A] <= s)
              || (f == KTX2 && [0xAB, 0x4B, 0x54, 0x58, 0x20] + [0x32, 0x30, 0xBB, 0x0D, 0x0A, 0x1A, 0x0A] <= s)
              || (f == WEBP && IsRiff(s, [0x57, 0x45, 0x42, 0x50]))
              || (f == TIFF && ([0x49, 0x49, 0x2A, 0] <= s || [0x4D, 0x4D, 0, 0x2A] <= s))
              || (f == BMP && [0x42, 0x4D] <= s && IsBmp(s, size))
  {
    hide If, IsRiff, IsBmp;
    TextureIfs(f, [0x89, 0x50, 0x4E, 0x47, 0x0D, 0x0A, 0x1A, 0x0A] <= s, [0xFF, 0xD8, 0xFF] <= s, [0x44, 0x44, 0x53, 0x20] <= s,
               [0xAB, 0x4B, 0x54, 0x58, 0x20] + [0x31, 0x31, 0xBB, 0x0D, 0x0A, 0x1A, 0x0A] <= s,
               [0xAB, 0x4B, 0x54, 0x58, 0x20] + [0x32, 0x30, 0xBB, 0x0D, 0x0A, 0x1A, 0x0A] <= s,
               IsRiff(s, [0x57, 0x45, 0x42, 0x50]), [0x49, 0x49, 0x2A, 0] <= s || [0x4D, 0x4D, 0, 0x2A] <= s,
               [0x42, 0x4D] <= s, IsBmp(s, size));
  }

  lemma SureTexture(f: Format, s: seq<byte>, size: nat)
    requires f in {PNG, JPEG, DDS, KTX1, KTX2, TIFF}
    ensures Candidate(f, HIGH) in DetectTextures(s, size) <==> BeginsWithOne(s, Signatures(f))
  {
    hide BeginsWithOne, DetectTextures, IsRiff, IsBmp;
    TexturesFound(f, s, size);
    hide DetectTextures;
    if f == TIFF {
      TwoBeginnings(s, Signatures(f)[0], Signatures(f)[1]);
    } else {
      OneBeginning(s, Signatures(f)[0]);
    }
    var ktx: seq<byte> := [0xAB, 0x4B, 0x54, 0x58, 0x20];
    assert ktx + [0x31, 0x31, 0xBB, 0x0D, 0x0A, 0x1A, 0x0A] == Signatures(KTX1)[0];
    assert ktx + [0x32, 0x30, 0xBB, 0x0D, 0x0A, 0x1A, 0x0A] == Signatures(KTX2)[0];
  }

  lemma ArchiveIfs(f: Format, zip: bool, sevenz: bool, rar: bool, gzip: bool, xz: bool)
    ensures Candidate(f, HIGH) in If(zip, ZIP, true) + If(sevenz, SEVENZ, true) + If(rar, RAR, true) + If(gzip, GZIP, true)
              + If(xz, XZ, true) <==>
            (f == ZIP && zip) || (f == SEVENZ && sevenz) || (f == RAR && rar) || (f == GZIP && gzip) || (f == XZ && xz)
  {
    hide If, AllOf;
    OwnIf(zip, ZIP, true);
    OwnIf(sevenz, SEVENZ, true);
    OwnIf(rar, RAR, true);
    OwnIf(gzip, GZIP, true);
    OwnIf(xz, XZ, true);
    InFour(Candidate(f, HIGH), If(zip, ZIP, true), If(sevenz, SEVENZ, true), If(rar, RAR, true), If(gzip, GZIP, true));
  }

  lemma ArchivesFound(f: Format, s: seq<byte>)
    ensures Candidate(f, HIGH) in DetectArchives(s) <==>
              || (f == ZIP && ([0x50, 0x4B, 0x03, 0x04] <= s || [0x50, 0x4B, 0x05, 0x06] <= s || [0x50, 0x4B, 0x07, 0x08] <= s))
              || (f == SEVENZ && [0x37, 0x7A, 0xBC, 0xAF, 0x27, 0x1C] <= s)
              || (f == RAR && ([0x52, 0x61, 0x72, 0x21, 0x1A, 0x07] + [0] <= s || [0x52, 0x61, 0x72, 0x21, 0x1A, 0x07] + [1, 0] <= s))
              || (f == GZIP && [0x1F, 0x8B, 0x08] <= s)
              || (f == XZ && [0xFD, 0x37, 0x7A, 0x58, 0x5A, 0] <= s)
  {
    hide If;
    ArchiveIfs(f, [0x50, 0x4B, 0x03, 0x04] <= s || [0x50, 0x4B, 0x05, 0x06] <= s || [0x50, 0x4B, 0x07, 0x08] <= s,
               [0x37, 0x7A, 0xBC, 0xAF, 0x27, 0x1C] <= s,
               [0x52, 0x61, 0x72, 0x21, 0x1A, 0x07] + [0] <= s || [0x52, 0x61, 0x72, 0x21, 0x1A, 0x07] + [1, 0] <= s,
               [0x1F, 0x8B, 0x08] <= s, [0xFD, 0x37, 0x7A, 0x58, 0x5A, 0] <= s);
  }

  lemma SureArchive(f: Format, s: seq<byte>)
    requires f in {ZIP, SEVENZ, RAR, GZIP, XZ}
    ensures Candidate(f, HIGH) in DetectArchives(s) <==> BeginsWithOne(s, Signatures(f))
  {
    hide BeginsWithOne, DetectArchives;
    ArchivesFound(f, s);
    if f == ZIP {
      ThreeBeginnings(s, Signatures(f)[0], Signatures(f)[1], Signatures(f)[2]);
    } else if f == RAR {
      var rar: seq<byte> := [0x52, 0x61, 0x72, 0x21, 0x1A, 0x07];
      assert rar + [0] == Signatures(RAR)[0] && rar + [1, 0] == Signatures(RAR)[1];
      TwoBeginnings(s, Signatures(f)[0], Signatures(f)[1]);
    } else {
      OneBeginning(s, Signatures(f)[0]);
    }
  }

  lemma SureExecutable(f: Format, s: seq<byte>)
    requires f == ELF
    ensures Candidate(f, HIGH) in DetectExecutables(s) <==> BeginsWithOne(s, Signatures(f))
  {
    OwnIfs();
    OneBeginning(s, Signatures(f)[0]);
    hide If, BeginsWithOne, IsPe;
  }

  lemma AudiosFound(f: Format, s: seq<byte>)
    ensures Candidate(f, HIGH) in DetectAudio(s) <==>
              || (f == WAV && IsRiff(s, [0x57, 0x41, 0x56, 0x45]))
              || (f == OGG && [0x4F, 0x67, 0x67, 0x53] <= s)
              || (f == FLAC && [0x66, 0x4C, 0x61, 0x43] <= s)
              || Candidate(f, HIGH) in DetectMp3(s)
  {
    hide If, IsRiff, DetectMp3;
    var wav, ogg, flac := IsRiff(s, [0x57, 0x41, 0x56, 0x45]), [0x4F, 0x67, 0x67, 0x53] <= s, [0x66, 0x4C, 0x61, 0x43] <= s;
    OwnIf(wav, WAV, true);
    OwnIf(ogg, OGG, true);
    OwnIf(flac, FLAC, true);
    InFour(Candidate(f, HIGH), If(wav, WAV, true), If(ogg, OGG, true), If(flac, FLAC, true), DetectMp3(s));
  }

  lemma Mp3Found(f: Format, s: seq<byte>)
    ensures Candidate(f, HIGH) in DetectMp3(s) <==>
              f == MP3 &&
              if [0x49, 0x44, 0x33] <= s then
                |s| >= 10 && 14 + TagSize(s) <= |s| && IsMp3Header(s[10 + TagSize(s)..14 + TagSize(s)])
              else |s| >= 4 && IsMp3Header(s[..4])
  {
    OwnIfs();
    FirstFour(s);
    hide If, IsMp3Header, TagSize, Slice;
  }

  lemma SureAudio(f: Format, s: seq<byte>)
    requires f in {OGG, FLAC}
    ensures Candidate(f, HIGH) in DetectAudio(s) <==> BeginsWithOne(s, Signatures(f))
  {
    hide DetectAudio, DetectMp3, BeginsWithOne, IsRiff, IsMp3Header, TagSize;
    AudiosFound(f, s);
    Mp3Found(f, s);
    OneBeginning(s, Signatures(f)[0]);
  }

  // --------------------------------------------- formats that need more than a beginning

  /** What makes the window of a sample one of the other formats for sure. */
  predicate IsStructured(f: Format, s: seq<byte>, size: nat, load: Text -> Asset) {
    match f
    case WEBP => |s| >= 12 && s[..4] == [0x52, 0x49, 0x46, 0x46] && s[8..12] == [0x57, 0x45, 0x42, 0x50]
    case WAV => |s| >= 12 && s[..4] == [0x52, 0x49, 0x46, 0x46] && s[8..12] == [0x57, 0x41, 0x56, 0x45]
    case PMX => |s| >= 9 && s[..4] == [0x50, 0x4D, 0x58, 0x20] && IsPmxVersion(s[4..8]) && s[8] >= 8
    case PMD => |s| >= 10 && s[..3] == [0x50, 0x6D, 0x64] && IsPmdVersion(s[3..7])
    case GLB => |s| >= 12 && s[..4] == [0x67, 0x6C, 0x54, 0x46] && s[4..8] == [2, 0, 0, 0] && Little(s[8..12]) == size >= 12
    case BMP =>
      |s| >= 26 && s[..2] == [0x42, 0x4D] && Little(s[2..6]) == size && 14 <= Little(s[10..14]) <= size
      && Little(s[14..18]) in {12, 16, 40, 52, 56, 64, 108, 124}
    case PE =>
      |s| >= 64 && s[..2] == [0x4D, 0x5A]
      && (var at := Little(s[60..64]); at + 4 <= |s| && s[at..at + 4] == [0x50, 0x45, 0, 0])
    case FBX_ASCII => !(FBX_MAGIC <= s) && FBX_BANNER <= FbxText(s) && Contains(FbxText(s), FBX_HEADER)
    case GLTF =>
      !([0x67, 0x6C, 0x54, 0x46] <= s) && GltfText(s) != [] && GltfText(s)[0] == BRACE && load(GltfText(s)) == GoodVersion
    case MP3 =>
      if [0x49, 0x44, 0x33] <= s then
        |s| >= 10 && 14 + TagSize(s) <= |s| && IsMp3Header(s[10 + TagSize(s)..14 + TagSize(s)])
      else |s| >= 4 && IsMp3Header(s[..4])
    case _ => false
  }

  /** Each of them is chosen exactly for samples with a window of that structure. */
  lemma StructureDecides(f: Format, sample: seq<byte>, size: nat, load: Text -> Asset)
    requires f in {WEBP, WAV, PMX, PMD, GLB, BMP, PE, FBX_ASCII, GLTF, MP3}
    ensures Pick(Candidates(|REGISTRY|, sample, size, load)) == Some(f) <==>
              IsStructured(f, Slice(sample, 0, Window(DetectorOf(f))), size, load)
  {
    hide Pick, Candidates, Slice, IsStructured, Detect, DetectorOf, Window;
    ChosenIff(f, sample, size, load);
    SureByStructure(f, Slice(sample, 0, Window(DetectorOf(f))), size, load);
  }

  lemma SureByStructure(f: Format, s: seq<byte>, size: nat, load: Text -> Asset)
    requires f in {WEBP, WAV, PMX, PMD, GLB, BMP, PE, FBX_ASCII, GLTF, MP3}
    ensures Candidate(f, HIGH) in Detect(DetectorOf(f), s, size, load) <==> IsStructured(f, s, size, load)
  {
    hide IsStructured, DetectUnity, DetectMmd, DetectFbx, DetectGltf, DetectTextures, DetectArchives, DetectExecutables, DetectAudio;
    match DetectorOf(f)
    case Texture => StructuredTexture(f, s, size, load);
    case Audio => StructuredAudio(f, s, size, load);
    case Gltf => StructuredGltf(f, s, size, load);
    case Executable => StructuredExecutable(f, s, size, load);
    case Fbx => StructuredFbx(f, s, size, load);
    case Mmd => StructuredMmd(f, s, size, load);
    case _ =>
  }

  lemma StructuredTexture(f: Format, s: seq<byte>, size: nat, load: Text -> Asset)
    requires f in {WEBP, BMP}
    ensures Candidate(f, HIGH) in DetectTextures(s, size) <==> IsStructured(f, s, size, load)
  {
    hide DetectTextures, IsRiff, Little;
    TexturesFound(f, s, size);
    RiffParts(s, [0x57, 0x45, 0x42, 0x50]);
    assert [0x42, 0x4D] <= s <==> |s| >= 2 && s[..2] == [0x42, 0x4D];
  }

  lemma RiffParts(s: seq<byte>, kind: seq<byte>)
    requires |kind| == 4
    ensures IsRiff(s, kind) <==> |s| >= 12 && s[..4] == [0x52, 0x49, 0x46, 0x46] && s[8..12] == kind
  {
  }

  lemma StructuredAudio(f: Format, s: seq<byte>, size: nat, load: Text -> Asset)
    requires f in {WAV, MP3}
    ensures Candidate(f, HIGH) in DetectAudio(s) <==> IsStructured(f, s, size, load)
  {
    hide DetectAudio, DetectMp3, IsRiff, IsMp3Header, TagSize;
    AudiosFound(f, s);
    Mp3Found(f, s);
    RiffParts(s, [0x57, 0x41, 0x56, 0x45]);
  }

  lemma FirstFour(s: seq<byte>)
    ensures IsMp3Header(Slice(s, 0, 4)) <==> |s| >= 4 && IsMp3Header(s[..4])
  {
    hide Word;
    if |s| >= 4 {
      assert Slice(s, 0, 4) == s[..4];
    }
  }

  lemma StructuredGltf(f: Format, s: seq<byte>, size: nat, load: Text -> Asset)
    requires f in {GLB, GLTF}
    ensures Candidate(f, HIGH) in DetectGltf(s, size, load) <==> IsStructured(f, s, size, load)
  {
    OwnIfs();
    if |s| >= 12 {
      assert Slice(s, 4, 8) == s[4..8] && Slice(s, 8, 12) == s[8..12];
      IsTwo(s[4..8]);
    }
    assert [0x67, 0x6C, 0x54, 0x46] <= s <==> |s| >= 4 && s[..4] == [0x67, 0x6C, 0x54, 0x46];
    hide If, GltfText, Little, Slice;
  }

  lemma IsTwo(word: seq<byte>)
    requires |word| == 4
    ensures Little(word) == 2 <==> word == [2, 0, 0, 0]
  {
    assert word[1..][1..] == word[2..] && word[2..][1..] == word[3..] && word[3..][1..] == [];
    assert Little(word[3..]) == word[3] as int && Little(word[2..]) == word[2] as int + 256 * Little(word[3..]);
    assert Little(word[1..]) == word[1] as int + 256 * Little(word[2..]);
    assert Little(word) == word[0] as int + 256 * (word[1] as int + 256 * (word[2] as int + 256 * word[3] as int));
  }

  lemma StructuredExecutable(f: Format, s: seq<byte>, size: nat, load: Text -> Asset)
    requires f == PE
    ensures Candidate(f, HIGH) in DetectExecutables(s) <==> IsStructured(f, s, size, load)
  {
    OwnIfs();
    assert [0x4D, 0x5A] <= s <==> |s| >= 2 && s[..2] == [0x4D, 0x5A];
    hide If, Little;
  }

  lemma StructuredFbx(f: Format, s: seq<byte>, size: nat, load: Text -> Asset)
    requires f == FBX_ASCII
    ensures Candidate(f, HIGH) in DetectFbx(s) <==> IsStructured(f, s, size, load)
  {
    OwnIfs();
    hide If, FbxText, Contains;
  }

  lemma StructuredMmd(f: Format, s: seq<byte>, size: nat, load: Text -> Asset)
    requires f in {PMX, PMD}
    ensures Candidate(f, HIGH) in DetectMmd(s) <==> IsStructured(f, s, size, load)
  {
    OwnIfs();
    if |s| >= 9 {
      assert Slice(s, 4, 8) == s[4..8] && Slice(s, 3, 7) == s[3..7];
    }
    assert [0x50, 0x4D, 0x58, 0x20] <= s <==> |s| >= 4 && s[..4] == [0x50, 0x4D, 0x58, 0x20];
    assert [0x50, 0x6D, 0x64] <= s <==> |s| >= 3 && s[..3] == [0x50, 0x6D, 0x64];
    hide If, IsPmxVersion, IsPmdVersion, Slice;
  }
}
