/** Streaming a source file: app/capsule.py, `_scan_full_source`, `_scan_range_source`, `_finish_scan`. */
module SourceScan {
  import opened Bytes
  import opened Utf8
  import opened TextInspection

  const STREAM_CHUNK_BYTES := 64 * 1024
  const MAX_FULL_FILE_BYTES := 128 * 1024
  const MAX_FILE_RANGE_LINES := 1_000
  const MAX_SINGLE_LINE_BYTES := 64 * 1024
  const MAX_CAPSULE_BYTES := 1024 * 1024

  datatype Stat = Stat(dev: int, ino: int, size: int, mtimeNs: int, ctimeNs: int)

  /** The four status calls around one streaming pass. */
  datatype Stats = Stats(beforePath: Stat, beforeOpen: Stat, afterOpen: Stat, afterPath: Stat)

  datatype Expected = Expected(sha256: Digest<seq<byte>>, size: int)

  datatype LineRange = LineRange(start: int, end: int)

  datatype Line = Line(number: int, text: seq<byte>)

  datatype InvalidReason = ReplacedBefore | SizeBefore | ChangedDuring | HashOrSize
  datatype HoldReason = TooLarge | TooManyLines | BinarySource | UnsupportedEncoding | LongLine | OutsideFile

  datatype Scan =
    | Good(sha256: Digest<seq<byte>>, size: nat, encoding: Encoding,
           fullContent: Option<seq<byte>>, selected: Option<seq<Line>>, lineCount: nat)
    | Invalid(why: InvalidReason)
    | Hold(reason: HoldReason)

  // --------------------------------------------------------------------- lines

  /** Length of the first line, its newline included; 0 at the end of the file. */
  function LineLength(s: seq<byte>): (n: nat)
    ensures n <= |s| && (s != [] ==> 0 < n)
  {
    if s == [] then 0
    else if s[0] == NEWLINE then 1
    else 1 + LineLength(s[1..])
  }

  function SplitLines(s: seq<byte>): (lines: seq<seq<byte>>) {
    if s == [] then [] else [s[..LineLength(s)]] + SplitLines(s[LineLength(s)..])
  }

  function Concat(pieces: seq<seq<byte>>): (s: seq<byte>) {
    if pieces == [] then [] else pieces[0] + Concat(pieces[1..])
  }

  /** A newline is the last octet of its line, and every line but the last one has it. */
  ghost predicate AreLines(lines: seq<seq<byte>>) {
    && (forall i :: 0 <= i < |lines| ==> lines[i] != [] && NEWLINE !in lines[i][..|lines[i]| - 1])
    && (forall i :: 0 <= i < |lines| - 1 ==> lines[i][|lines[i]| - 1] == NEWLINE)
  }

  lemma {:induction false} LineLengthStops(s: seq<byte>, k: nat)
    requires k <= |s| && NEWLINE !in s[..k]
    ensures LineLength(s) == k + LineLength(s[k..])
  {
    if k > 0 {
      assert s[..k][0] == s[0] && s[1..][..k - 1] == s[..k][1..] && s[1..][k - 1..] == s[k..];
      LineLengthStops(s[1..], k - 1);
    } else {
      assert s[0..] == s;
    }
  }

  lemma {:induction false} FirstLine(s: seq<byte>)
    requires s != []
    ensures var n := LineLength(s); NEWLINE !in s[..n - 1] && (n < |s| ==> s[n - 1] == NEWLINE)
  {
    if s[0] != NEWLINE && |s| > 1 {
      FirstLine(s[1..]);
      assert s[..LineLength(s) - 1] == [s[0]] + s[1..][..LineLength(s[1..]) - 1];
    }
  }

  lemma AreLinesCons(line: seq<byte>, lines: seq<seq<byte>>)
    requires line != [] && NEWLINE !in line[..|line| - 1] && AreLines(lines)
    requires lines != [] ==> line[|line| - 1] == NEWLINE
    ensures AreLines([line] + lines)
  {
    var all := [line] + lines;
    assert forall i :: 0 < i < |all| ==> all[i] == lines[i - 1];
  }

  /** Splitting loses nothing and cuts exactly after the newlines. */
  lemma {:induction false} SplitLinesIsPartition(s: seq<byte>)
    ensures Concat(SplitLines(s)) == s && AreLines(SplitLines(s))
  {
    if s != [] {
      var n := LineLength(s);
      FirstLine(s);
      SplitLinesIsPartition(s[n..]);
      assert s[..n][..n - 1] == s[..n - 1];
      AreLinesCons(s[..n], SplitLines(s[n..]));
      assert SplitLines(s)[1..] == SplitLines(s[n..]);
    }
  }

  /** It is the only way to do so. */
  lemma {:induction false} SplitLinesUnique(lines: seq<seq<byte>>)
    requires AreLines(lines)
    ensures SplitLines(Concat(lines)) == lines
  {
    if lines != [] {
      var head, rest := lines[0], Concat(lines[1..]);
      var n := |head|;
      var s := head + rest;
      assert s[..n - 1] == head[..n - 1];
      LineLengthStops(s, n - 1);
      assert s[n - 1] == head[n - 1];
      if |lines| == 1 {
        assert rest == [];
      }
      assert LineLength(s[n - 1..]) == 1;
      assert AreLines(lines[1..]) by {
        assert forall i :: 0 <= i < |lines| - 1 ==> lines[1..][i] == lines[i + 1];
      }
      SplitLinesUnique(lines[1..]);
      assert s[..n] == head && s[n..] == rest;
    }
  }

  /** Lines of well-formed UTF-8 are well-formed themselves, so a selected line always decodes. */
  lemma {:induction false} LinesDecode(s: seq<byte>)
    requires WellFormed(s)
    ensures forall i :: 0 <= i < |SplitLines(s)| ==> WellFormed(SplitLines(s)[i])
  {
    if s != [] {
      var n := LineLength(s);
      FirstLine(s);
      if n < |s| {
        CutAtAscii(s, n - 1);
      } else {
        assert s[..n] == s && s[n..] == [];
      }
      LinesDecode(s[n..]);
    }
  }

  // ----------------------------------------------------------------- selection

  predicate IsSelected(number: int, ranges: seq<LineRange>) {
    exists i :: 0 <= i < |ranges| && ranges[i].start <= number <= ranges[i].end
  }

  /** The selected lines among the first `n`, numbered from 1. */
  function Selected(lines: seq<seq<byte>>, ranges: seq<LineRange>, n: nat): (sel: seq<Line>)
    requires n <= |lines|
  {
    if n == 0 then []
    else Selected(lines, ranges, n - 1) + (if IsSelected(n, ranges) then [Line(n, lines[n - 1])] else [])
  }

  function SizeOf(sel: seq<Line>): (n: nat) {
    if sel == [] then 0 else SizeOf(sel[..|sel| - 1]) + |sel[|sel| - 1].text|
  }

  /** In order, exactly the lines inside some range, each with all of its octets. */
  lemma {:induction false} SelectedExactly(lines: seq<seq<byte>>, ranges: seq<LineRange>, n: nat)
    requires n <= |lines|
    ensures forall i, j :: 0 <= i < j < |Selected(lines, ranges, n)| ==>
              Selected(lines, ranges, n)[i].number < Selected(lines, ranges, n)[j].number
    ensures forall l :: l in Selected(lines, ranges, n) <==>
              1 <= l.number <= n && IsSelected(l.number, ranges) && l.text == lines[l.number - 1]
  {
    if n > 0 {
      SelectedExactly(lines, ranges, n - 1);
      var before, sel := Selected(lines, ranges, n - 1), Selected(lines, ranges, n);
      assert forall i :: 0 <= i < |before| ==> before[i] in before;
      assert sel == before || sel == before + [Line(n, lines[n - 1])];
    }
  }

  /** A line above the limit, or more captured octets than a capsule holds, among the first `n` lines. */
  ghost predicate IsOversized(lines: seq<seq<byte>>, ranges: seq<LineRange>, capture: bool, n: nat)
    requires n <= |lines|
  {
    || (exists i :: 0 <= i < n && |lines[i]| > MAX_SINGLE_LINE_BYTES)
    || (capture && SizeOf(Selected(lines, ranges, n)) > MAX_CAPSULE_BYTES)
  }

  function RequestedLines(ranges: seq<LineRange>): (n: int) {
    if ranges == [] then 0
    else RequestedLines(ranges[..|ranges| - 1]) + Width(ranges[|ranges| - 1])
  }

  function Width(r: LineRange): (n: int) {
    r.end - r.start + 1
  }

  // ------------------------------------------------------------------ outcomes

  predicate Steady(stats: Stats) {
    stats.beforePath == stats.beforeOpen == stats.afterOpen == stats.afterPath
  }

  /** The verdict shared by both scans once the whole source went through. */
  function Finished(content: seq<byte>, expected: Expected, stats: Stats, good: Scan): (scan: Scan)
  {
    if !Steady(stats) then Invalid(ChangedDuring)
    else if Sha256(content) != expected.sha256 || |content| != expected.size then Invalid(HashOrSize)
    else match VerdictOf(content)
      case Binary => Hold(BinarySource)
      case Unsupported => Hold(UnsupportedEncoding)
      case TextIn(_) => good
  }

  function EncodingOf(content: seq<byte>): (e: Encoding) {
    match VerdictOf(content)
    case TextIn(encoding) => encoding
    case _ => Ascii
  }

  /** What the range scan must return, in terms of the lines of the source. */
  ghost function RangeOutcome(content: seq<byte>, expected: Expected, ranges: seq<LineRange>,
                              capture: bool, stats: Stats): (scan: Scan)
  {
    var lines := SplitLines(content);
    if RequestedLines(ranges) > MAX_FILE_RANGE_LINES then Hold(TooManyLines)
    else if stats.beforePath != stats.beforeOpen then Invalid(ReplacedBefore)
    else
      Finished(content, expected, stats,
               if IsOversized(lines, ranges, capture, |lines|) then Hold(LongLine)
               else if exists i :: 0 <= i < |ranges| && ranges[i].end > |lines| then Hold(OutsideFile)
               else
                 Good(Sha256(content), |content|, EncodingOf(content), None,
                      if capture then Some(Selected(lines, ranges, |lines|)) else None, |lines|))
  }

  /** Exactly when a range scan is good, and what a caller may then rely on. */
  lemma RangeOutcomeParts(content: seq<byte>, expected: Expected, ranges: seq<LineRange>,
                          capture: bool, stats: Stats)
    ensures var scan := RangeOutcome(content, expected, ranges, capture, stats);
            var lines := SplitLines(content);
            && (scan == Hold(TooManyLines) <==> RequestedLines(ranges) > MAX_FILE_RANGE_LINES)
            && (scan.Good? <==>
                && RequestedLines(ranges) <= MAX_FILE_RANGE_LINES
                && stats.beforePath == stats.beforeOpen == stats.afterOpen == stats.afterPath
                && Sha256(content) == expected.sha256 && |content| == expected.size && VerdictOf(content).TextIn?
                && !IsOversized(lines, ranges, capture, |lines|)
                && forall r :: r in ranges ==> r.end <= |lines|)
            && (scan.Good? ==>
                && scan.sha256 == expected.sha256 && scan.size == expected.size && scan.lineCount == |lines|
                && VerdictOf(content) == TextIn(scan.encoding)
                && scan.selected == if capture then Some(Selected(lines, ranges, |lines|)) else None)
  {
    hide SplitLines, Selected, IsOversized, RequestedLines, VerdictOf;
    var lines := SplitLines(content);
    if exists i :: 0 <= i < |ranges| && ranges[i].end > |lines| {
      var i :| 0 <= i < |ranges| && ranges[i].end > |lines|;
      assert ranges[i] in ranges;
    } else {
      forall r | r in ranges ensures r.end <= |lines| {
        var i :| 0 <= i < |ranges| && ranges[i] == r;
      }
    }
  }

  /** What the whole-file scan must return. */
  function FullOutcome(content: seq<byte>, expected: Expected, capture: bool, stats: Stats): (scan: Scan) {
    if stats.beforePath != stats.beforeOpen then Invalid(ReplacedBefore)
    else if stats.beforeOpen.size != expected.size then Invalid(SizeBefore)
    else if stats.beforeOpen.size > MAX_FULL_FILE_BYTES then Hold(TooLarge)
    else
      Finished(content, expected, stats,
               Good(Sha256(content), |content|, EncodingOf(content),
                    if capture then Some(content) else None, None, 0))
  }

  /** Exactly when a whole-file scan is good, and what a caller may then rely on. */
  lemma FullOutcomeParts(content: seq<byte>, expected: Expected, capture: bool, stats: Stats)
    ensures var scan := FullOutcome(content, expected, capture, stats);
            && (scan.Good? <==>
                && stats.beforePath == stats.beforeOpen == stats.afterOpen == stats.afterPath
                && stats.beforeOpen.size == |content| == expected.size <= MAX_FULL_FILE_BYTES
                && Sha256(content) == expected.sha256 && VerdictOf(content).TextIn?)
            && (scan.Good? ==>
                && scan.sha256 == expected.sha256 && scan.size == |content| && VerdictOf(content) == TextIn(scan.encoding)
                && scan.fullContent == (if capture then Some(content) else None) && scan.selected == None
                && scan.lineCount == 0)
  {
    hide VerdictOf;
  }

  /** The two scans of one text agree on everything they both report. */
  lemma ScansAgree(content: seq<byte>, expected: Expected, capture: bool, full: Stats,
                   ranges: seq<LineRange>, captureLines: bool, ranged: Stats)
    requires FullOutcome(content, expected, capture, full).Good?
    requires RangeOutcome(content, expected, ranges, captureLines, ranged).Good?
    ensures var a, b := FullOutcome(content, expected, capture, full),
                        RangeOutcome(content, expected, ranges, captureLines, ranged);
            a.sha256 == b.sha256 && a.size == b.size && a.encoding == b.encoding
  {
    FullOutcomeParts(content, expected, capture, full);
    RangeOutcomeParts(content, expected, ranges, captureLines, ranged);
    hide FullOutcome, RangeOutcome, VerdictOf, IsOversized, RequestedLines, SplitLines, Selected;
  }

  /** What a refused scan says is wrong, and that nothing tested before it was. */
  ghost predicate Explains(content: seq<byte>, expected: Expected, stats: Stats, scan: Scan) {
    match scan
    case Good(_, _, _, _, _, _) => true
    case Invalid(ReplacedBefore) => stats.beforePath != stats.beforeOpen
    case Invalid(SizeBefore) => stats.beforePath == stats.beforeOpen && stats.beforeOpen.size != expected.size
    case Invalid(ChangedDuring) => stats.beforePath == stats.beforeOpen && !Steady(stats)
    case Invalid(HashOrSize) => Steady(stats) && !(content == expected.sha256.preimage && |content| == expected.size)
    case Hold(BinarySource) => Steady(stats) && NUL in content
    case Hold(UnsupportedEncoding) => Steady(stats) && NUL !in content && !Utf8.WellFormed(content)
    case Hold(_) => true
  }

  /** The reasons of both scans are true ones; the whole-file scan is held for size exactly above the limit. */
  lemma ReasonsAreTrue(content: seq<byte>, expected: Expected, capture: bool, ranges: seq<LineRange>, stats: Stats)
    ensures var full, ranged := FullOutcome(content, expected, capture, stats),
                                RangeOutcome(content, expected, ranges, capture, stats);
            var lines := SplitLines(content);
            && Explains(content, expected, stats, full) && Explains(content, expected, stats, ranged)
            && (full == Hold(TooLarge) <==>
                  stats.beforePath == stats.beforeOpen && stats.beforeOpen.size == expected.size > MAX_FULL_FILE_BYTES)
            && full !in {Hold(TooManyLines), Hold(LongLine), Hold(OutsideFile)} && ranged != Hold(TooLarge)
            && (ranged == Hold(LongLine) ==> IsOversized(lines, ranges, capture, |lines|))
            && (ranged == Hold(OutsideFile) ==>
                  !IsOversized(lines, ranges, capture, |lines|) && exists r :: r in ranges && r.end > |lines|)
  {
    hide SplitLines, Selected, IsOversized, RequestedLines, Utf8.WellFormed;
    var lines := SplitLines(content);
    if exists i :: 0 <= i < |ranges| && ranges[i].end > |lines| {
      var i :| 0 <= i < |ranges| && ranges[i].end > |lines|;
      assert ranges[i] in ranges;
    }
  }

  // ------------------------------------------------------------------ the file

  /** A binary file opened for reading. */
  class SourceFile {
    const content: seq<byte>
    var pos: nat

    ghost predicate Valid()
      reads this
    {
      pos <= |content|
    }

    constructor (content: seq<byte>)
      ensures Valid() && this.content == content && pos == 0
    {
      this.content, pos := content, 0;
    }

    /** Reads up to and including the next newline, but at most `limit` octets. */
    method ReadLine(limit: nat) returns (line: seq<byte>)
      requires Valid()
      modifies this
      ensures Valid() && pos == old(pos) + |line|
      ensures line == content[old(pos)..][..Min(limit, LineLength(content[old(pos)..]))]
    {
      var start := pos;
      var n := 0;
      LineLengthStops(content[start..], 0);
      while n < limit && start + n < |content| && (n == 0 || content[start + n - 1] != NEWLINE)
        invariant 0 <= n <= limit && start + n <= |content|
        invariant n <= LineLength(content[start..])
        invariant n > 0 && content[start + n - 1] == NEWLINE ==> n == LineLength(content[start..])
        invariant n == 0 || content[start + n - 1] != NEWLINE ==> NEWLINE !in content[start..][..n]
      {
        LineLengthStops(content[start..], n);
        assert content[start..][n..] == content[start + n..];
        assert content[start..][..n + 1] == content[start..][..n] + [content[start + n]];
        n := n + 1;
      }
      if start + n == |content| {
        assert content[start..][..n] == content[start..];
      }
      pos := start + n;
      line := content[start..start + n];
      assert line == content[start..][..n];
    }

    method Read(limit: nat) returns (chunk: seq<byte>)
      requires Valid()
      modifies this
      ensures Valid() && pos == old(pos) + |chunk|
      ensures chunk == content[old(pos)..][..Min(limit, |content| - old(pos))]
    {
      var n := Min(limit, |content| - pos);
      chunk := content[pos..pos + n];
      assert chunk == content[pos..][..n];
      pos := pos + n;
    }
  }

  // ----------------------------------------------------------------- the scans

  method ScanFullSource(content: seq<byte>, expected: Expected, capture: bool, stats: Stats)
    returns (scan: Scan)
    ensures scan == FullOutcome(content, expected, capture, stats)
  {
    if stats.beforePath != stats.beforeOpen { return Invalid(ReplacedBefore); }
    if stats.beforeOpen.size != expected.size { return Invalid(SizeBefore); }
    if stats.beforeOpen.size > MAX_FULL_FILE_BYTES { return Hold(TooLarge); }
    var source := new SourceFile(content);
    var inspector := new TextInspector();
    var hashed, total, captured := [], 0, [];
    var chunk := source.Read(STREAM_CHUNK_BYTES);
    while chunk != []
      invariant source.Valid() && inspector.Valid() && fresh(source) && fresh(inspector)
      invariant source.content == content
      invariant total == |hashed| && total + |chunk| == source.pos
      invariant hashed + chunk == content[..source.pos]
      invariant chunk == [] ==> source.pos == |content|
      invariant inspector.fed == hashed
      invariant capture && total <= MAX_FULL_FILE_BYTES ==> captured == hashed
      decreases |content| - |hashed|
    {
      total := total + |chunk|;
      hashed := hashed + chunk;
      inspector.Feed(chunk);
      if capture && total <= MAX_FULL_FILE_BYTES {
        captured := captured + chunk;
      }
      chunk := source.Read(STREAM_CHUNK_BYTES);
    }
    assert hashed == content;
    scan := FinishScan(content, expected, stats, hashed, total, inspector,
                       if capture then Some(captured) else None, None, 0);
  }

  method FinishScan(ghost content: seq<byte>, expected: Expected, stats: Stats,
                    hashed: seq<byte>, size: nat, inspector: TextInspector,
                    fullContent: Option<seq<byte>>, selected: Option<seq<Line>>, lineCount: nat)
    returns (scan: Scan)
    requires inspector.Valid() && inspector.fed == hashed == content && size == |content|
    modifies inspector
    ensures scan == Finished(content, expected, stats,
                             Good(Sha256(content), |content|, EncodingOf(content),
                                  fullContent, selected, lineCount))
  {
    if !(stats.beforePath == stats.beforeOpen == stats.afterOpen && stats.afterOpen == stats.afterPath) {
      return Invalid(ChangedDuring);
    }
    var verdict := inspector.Finish();
    if Sha256(hashed) != expected.sha256 || size != expected.size { return Invalid(HashOrSize); }
    match verdict
    case Binary => scan := Hold(BinarySource);
    case Unsupported => scan := Hold(UnsupportedEncoding);
    case TextIn(encoding) => scan := Good(Sha256(hashed), size, encoding, fullContent, selected, lineCount);
  }

  method CountRequested(ranges: seq<LineRange>) returns (requested: int)
    ensures requested == RequestedLines(ranges)
  {
    requested := 0;
    for i := 0 to |ranges|
      invariant requested == RequestedLines(ranges[..i])
    {
      assert ranges[..i + 1][..i] == ranges[..i];
      requested := requested + ranges[i].end - ranges[i].start + 1;
    }
    assert ranges[..|ranges|] == ranges;
  }

  /** `sofar` is what was read of the first line of `rest`; `more` says that the line goes on. */
  ghost predicate InLine(rest: seq<byte>, sofar: seq<byte>, more: bool) {
    && sofar <= rest && |sofar| <= LineLength(rest)
    && (if more then NEWLINE !in sofar else |sofar| == LineLength(rest))
  }

  /** The octets one `readline` returns `k` octets into `rest`. */
  ghost function Piece(rest: seq<byte>, k: nat, limit: nat): (piece: seq<byte>)
    requires k <= |rest|
  {
    rest[k..][..Min(limit, LineLength(rest[k..]))]
  }

  predicate FillsLimit(piece: seq<byte>, limit: nat)
    requires piece != []
  {
    |piece| == limit && piece[|piece| - 1] != NEWLINE
  }

  /** The next piece ends the line unless it fills the limit without a newline. */
  lemma NextPiece(rest: seq<byte>, sofar: seq<byte>, limit: nat)
    requires InLine(rest, sofar, true) && 0 < limit
    ensures var piece := Piece(rest, |sofar|, limit);
            && |sofar| + |piece| <= |rest|
            && (if piece == [] then InLine(rest, sofar, false)
                else InLine(rest, sofar + piece, FillsLimit(piece, limit)))
  {
    var k := |sofar|;
    assert rest[..k] == sofar;
    LineLengthStops(rest, k);
    var tail, piece := rest[k..], Piece(rest, k, limit);
    if tail != [] {
      FirstLine(tail);
      var n := |piece|;
      assert rest == sofar + tail && tail == piece + tail[n..];
      assert n < LineLength(tail) ==> tail[..LineLength(tail) - 1][n - 1] == tail[n - 1];
      if tail[n - 1] != NEWLINE {
        NoNewlineBefore(tail, n);
      }
    }
  }

  /** Reads and feeds one more piece of a line; `more` says whether the line still goes on. */
  method ReadPiece(source: SourceFile, inspector: TextInspector, readLimit: nat,
                   ghost rest: seq<byte>, ghost sofar: seq<byte>) returns (piece: seq<byte>, more: bool)
    requires source.Valid() && inspector.Valid() && 0 < readLimit
    requires InLine(rest, sofar, true) && rest[|sofar|..] == source.content[source.pos..]
    modifies source, inspector
    ensures source.Valid() && inspector.Valid()
    ensures piece == Piece(rest, |sofar|, readLimit)
    ensures InLine(rest, sofar + piece, more) && (more ==> piece != [])
    ensures source.pos == old(source.pos) + |piece|
    ensures inspector.fed == old(inspector.fed) + piece
  {
    hide TextInspector.Valid, LineLength;
    NextPiece(rest, sofar, readLimit);
    piece := source.ReadLine(readLimit);
    if piece == [] {
      more := false;
      assert sofar + piece == sofar;
    } else {
      inspector.Feed(piece);
      more := |piece| == readLimit && piece[|piece| - 1] != NEWLINE;
    }
  }

  /** Reads on to the end of a line: a piece that fills the limit without a newline is continued. */
  method ReadContinuations(source: SourceFile, inspector: TextInspector, readLimit: nat,
                           requiresContinuation: bool, ghost rest: seq<byte>, ghost first: seq<byte>)
    returns (pieces: seq<byte>)
    requires source.Valid() && inspector.Valid() && 0 < readLimit
    requires InLine(rest, first, requiresContinuation) && rest[|first|..] == source.content[source.pos..]
    modifies source, inspector
    ensures source.Valid() && inspector.Valid()
    ensures InLine(rest, first + pieces, false)
    ensures source.pos == old(source.pos) + |pieces|
    ensures inspector.fed == old(inspector.fed) + pieces
  {
    hide TextInspector.Valid, LineLength, Piece;
    pieces := [];
    var more := requiresContinuation;
    ghost var sofar := first;
    assert first + [] == first;
    while more
      invariant source.Valid() && inspector.Valid()
      invariant sofar == first + pieces && InLine(rest, sofar, more)
      invariant rest[|sofar|..] == source.content[source.pos..]
      invariant source.pos == old(source.pos) + |pieces|
      invariant inspector.fed == old(inspector.fed) + pieces
      decreases |rest| - |pieces|, more
    {
      var continuation;
      continuation, more := ReadPiece(source, inspector, readLimit, rest, sofar);
      sofar := sofar + continuation;
      pieces := pieces + continuation;
    }
  }

  /** A piece of a line without a newline at its end holds none at all. */
  lemma NoNewlineBefore(s: seq<byte>, n: nat)
    requires 0 < n <= LineLength(s) && s[n - 1] != NEWLINE
    ensures NEWLINE !in s[..n]
  {
    FirstLine(s);
    assert s[..n] == s[..n - 1] + [s[n - 1]];
    assert s[..n - 1] == s[..LineLength(s) - 1][..n - 1];
  }

  /** The scan after `n` whole lines: `total` octets read, and what was kept of them. */
  ghost predicate Progress(content: seq<byte>, ranges: seq<LineRange>, capture: bool, total: nat, n: nat,
                           selected: seq<Line>, selectedBytes: nat, longLine: bool)
  {
    var lines := SplitLines(content);
    && total <= |content|
    && n <= |lines| && lines[n..] == SplitLines(content[total..])
    && longLine == IsOversized(lines, ranges, capture, n)
    && (!longLine && capture ==> selected == Selected(lines, ranges, n))
    && (!longLine && capture ==> selectedBytes == SizeOf(selected))
  }

  /** `line` is the line at octet `total`, and `first` the first piece read of it. */
  ghost predicate IsLineAt(content: seq<byte>, total: nat, first: seq<byte>, line: seq<byte>) {
    && total <= |content|
    && line == content[total..][..LineLength(content[total..])]
    && first <= line && (first == [] ==> line == [])
    && (|line| <= MAX_SINGLE_LINE_BYTES ==> first == line)
  }

  /** Reads and feeds one whole line; `first` is its first piece, and nothing is left when that is empty. */
  method ReadWholeLine(source: SourceFile, inspector: TextInspector, readLimit: nat)
    returns (first: seq<byte>, line: seq<byte>)
    requires source.Valid() && inspector.Valid() && readLimit == MAX_SINGLE_LINE_BYTES + 1
    modifies source, inspector
    ensures source.Valid() && inspector.Valid()
    ensures IsLineAt(source.content, old(source.pos), first, line)
    ensures source.pos == old(source.pos) + |line|
    ensures inspector.fed == old(inspector.fed) + line
  {
    hide TextInspector.Valid, LineLength;
    ghost var rest := source.content[source.pos..];
    assert InLine(rest, [], true) && rest[0..] == rest;
    var requiresContinuation;
    first, requiresContinuation := ReadPiece(source, inspector, readLimit, rest, []);
    assert [] + first == first;
    var pieces := ReadContinuations(source, inspector, readLimit, requiresContinuation, rest, first);
    line := first + pieces;
  }

  /** Keeps the line just read if it is selected and fits. */
  method KeepLine(ghost content: seq<byte>, ranges: seq<LineRange>, capture: bool, ghost total: nat,
                  lineNumber: nat, first: seq<byte>, line: seq<byte>,
                  selected: seq<Line>, selectedBytes: nat, longLine: bool)
    returns (selected': seq<Line>, selectedBytes': nat, longLine': bool)
    requires 0 < lineNumber && IsLineAt(content, total, first, line) && line != []
    requires Progress(content, ranges, capture, total, lineNumber - 1, selected, selectedBytes, longLine)
    ensures Progress(content, ranges, capture, total + |line|, lineNumber,
                     selected', selectedBytes', longLine')
  {
    selected', selectedBytes', longLine' := selected, selectedBytes, longLine;
    ghost var lines := SplitLines(content);
    NextLine(content, lines, lineNumber - 1, total);
    OversizedStep(lines, ranges, capture, lineNumber - 1);
    hide SplitLines, LineLength, Selected, IsOversized, SizeOf;
    if |line| > MAX_SINGLE_LINE_BYTES {
      longLine' := true;
    } else if capture && IsSelected(lineNumber, ranges) {
      if selectedBytes + |line| > MAX_CAPSULE_BYTES {
        longLine' := true;
      } else {
        selected' := selected + [Line(lineNumber, first)];
        selectedBytes' := selectedBytes + |line|;
      }
    }
  }

  lemma HashLine(content: seq<byte>, total: nat, first: seq<byte>, line: seq<byte>)
    requires IsLineAt(content, total, first, line) && first != []
    ensures 0 < |line| <= |content| - total && content[..total] + line == content[..total + |line|]
  {
  }

  /** The streaming loop: every line is hashed and inspected, the selected ones are kept. */
  method StreamLines(source: SourceFile, inspector: TextInspector, ranges: seq<LineRange>, capture: bool)
    returns (hashed: seq<byte>, totalBytes: nat, lineNumber: nat, selected: seq<Line>, longLine: bool)
    requires source.Valid() && source.pos == 0 && inspector.Valid() && inspector.fed == []
    modifies source, inspector
    ensures inspector.Valid() && inspector.fed == hashed == source.content && totalBytes == |hashed|
    ensures var lines := SplitLines(source.content);
            && lineNumber == |lines|
            && longLine == IsOversized(lines, ranges, capture, lineNumber)
            && (!longLine && capture ==> selected == Selected(lines, ranges, lineNumber))
  {
    ghost var content := source.content;
    hashed, totalBytes, lineNumber := [], 0, 0;
    selected, longLine := [], false;
    var selectedBytes := 0;
    var readLimit := MAX_SINGLE_LINE_BYTES + 1;
    assert content[0..] == content;
    hide TextInspector.Valid, LineLength, SplitLines, IsOversized, Selected;
    StartOfFile(content, ranges, capture);
    var first, line := ReadWholeLine(source, inspector, readLimit);
    while first != []
      invariant source.Valid() && inspector.Valid() && source.pos == totalBytes + |line|
      invariant IsLineAt(content, totalBytes, first, line)
      invariant hashed == content[..totalBytes] && inspector.fed == hashed + line
      invariant Progress(content, ranges, capture, totalBytes, lineNumber, selected, selectedBytes, longLine)
      decreases |content| - totalBytes
    {
      hide Progress, IsLineAt;
      HashLine(content, totalBytes, first, line);
      lineNumber := lineNumber + 1;
      selected, selectedBytes, longLine :=
        KeepLine(content, ranges, capture, totalBytes, lineNumber, first, line,
                 selected, selectedBytes, longLine);
      totalBytes := totalBytes + |line|;
      hashed := hashed + line;
      first, line := ReadWholeLine(source, inspector, readLimit);
    }
    WholeSourceRead(content, ranges, capture, totalBytes, line, lineNumber,
                    selected, selectedBytes, longLine);
  }

  method ScanRangeSource(content: seq<byte>, expected: Expected, ranges: seq<LineRange>,
                         capture: bool, stats: Stats) returns (scan: Scan)
    ensures scan == RangeOutcome(content, expected, ranges, capture, stats)
  {
    var requested := CountRequested(ranges);
    if requested > MAX_FILE_RANGE_LINES { return Hold(TooManyLines); }
    if stats.beforePath != stats.beforeOpen { return Invalid(ReplacedBefore); }
    hide IsOversized, SplitLines, Selected;
    var source := new SourceFile(content);
    var inspector := new TextInspector();
    var hashed, totalBytes, lineNumber, selected, longLine := StreamLines(source, inspector, ranges, capture);
    scan := FinishScan(content, expected, stats, hashed, totalBytes, inspector,
                       None, if capture then Some(selected) else None, lineNumber);
    if !scan.Good? { return; }
    if longLine { return Hold(LongLine); }
    if exists i :: 0 <= i < |ranges| && ranges[i].end > lineNumber { return Hold(OutsideFile); }
  }

  lemma StartOfFile(content: seq<byte>, ranges: seq<LineRange>, capture: bool)
    ensures Progress(content, ranges, capture, 0, 0, [], 0, false)
  {
    assert content[0..] == content;
  }

  lemma WholeSourceRead(content: seq<byte>, ranges: seq<LineRange>, capture: bool, total: nat,
                        line: seq<byte>, n: nat, selected: seq<Line>, selectedBytes: nat, longLine: bool)
    requires IsLineAt(content, total, [], line)
    requires Progress(content, ranges, capture, total, n, selected, selectedBytes, longLine)
    ensures line == []
    ensures total == |content| && content[..total] == content
    ensures var lines := SplitLines(content);
            && n == |lines|
            && longLine == IsOversized(lines, ranges, capture, n)
            && (!longLine && capture ==> selected == Selected(lines, ranges, n))
  {
  }

  /** The line at the reader's position is the next one of the source. */
  lemma NextLine(content: seq<byte>, lines: seq<seq<byte>>, n: nat, start: nat)
    requires start < |content| && n <= |lines| && lines[n..] == SplitLines(content[start..])
    ensures var size := LineLength(content[start..]);
            && n < |lines| && start + size <= |content|
            && lines[n] == content[start..][..size]
            && lines[n + 1..] == SplitLines(content[start + size..])
  {
    var rest := content[start..];
    var size := LineLength(rest);
    assert rest[size..] == content[start + size..];
    assert SplitLines(rest)[1..] == SplitLines(rest[size..]);
    assert lines[n + 1..] == lines[n..][1..];
    assert lines[n] == lines[n..][0];
  }

  /** How one more line changes the oversize flag and the selection. */
  lemma OversizedStep(lines: seq<seq<byte>>, ranges: seq<LineRange>, capture: bool, n: nat)
    requires n < |lines|
    ensures var before, sel := Selected(lines, ranges, n), Selected(lines, ranges, n + 1);
            && sel == (if IsSelected(n + 1, ranges) then before + [Line(n + 1, lines[n])] else before)
            && SizeOf(sel) == SizeOf(before) + (if IsSelected(n + 1, ranges) then |lines[n]| else 0)
    ensures IsOversized(lines, ranges, capture, n) ==> IsOversized(lines, ranges, capture, n + 1)
    ensures IsOversized(lines, ranges, capture, n + 1) <==>
            || IsOversized(lines, ranges, capture, n)
            || |lines[n]| > MAX_SINGLE_LINE_BYTES
            || (capture && SizeOf(Selected(lines, ranges, n + 1)) > MAX_CAPSULE_BYTES)
  {
    var before, sel := Selected(lines, ranges, n), Selected(lines, ranges, n + 1);
    if IsSelected(n + 1, ranges) {
      assert sel[..|sel| - 1] == before;
    } else {
      assert sel == before;
    }
  }
}
