/** Changed paths from `git status --porcelain=v2 -z`: app/policy.py, `parse_git_porcelain_v2_z`. */
module GitPorcelain {
  import opened Bytes

  const NUL: byte := 0
  const SPACE: byte := 0x20

  // ------------------------------------------------------------------------ splitting

  function IndexOf(s: seq<byte>, b: byte): (n: nat)
    ensures n <= |s| && b !in s[..n] && (n < |s| ==> s[n] == b)
  {
    if s == [] || s[0] == b then 0 else 1 + IndexOf(s[1..], b)
  }

  /** The parts between the NUL bytes. */
  function Records(data: seq<byte>): (records: seq<seq<byte>>)
    ensures records != []
    decreases |data|
  {
    var n := IndexOf(data, NUL);
    if n == |data| then [data] else [data[..n]] + Records(data[n + 1..])
  }

  /** bytes.split with a limit: at most `limit` cuts, the rest stays whole. */
  function Fields(s: seq<byte>, limit: nat): (parts: seq<seq<byte>>)
    ensures 1 <= |parts| <= limit + 1
    decreases limit
  {
    var n := IndexOf(s, SPACE);
    if limit == 0 || n == |s| then [s] else [s[..n]] + Fields(s[n + 1..], limit - 1)
  }

  lemma {:induction false} IndexAfter(part: seq<byte>, b: byte, rest: seq<byte>)
    requires b !in part
    ensures IndexOf(part + ([b] + rest), b) == |part|
  {
    var s := part + ([b] + rest);
    if part == [] {
      assert s[0] == b;
    } else {
      assert s[0] == part[0] && part[0] in part;
      assert s[1..] == part[1..] + ([b] + rest);
      IndexAfter(part[1..], b, rest);
    }
  }

  lemma RecordThenRest(record: seq<byte>, rest: seq<byte>)
    requires NUL !in record
    ensures Records(record + ([NUL] + rest)) == [record] + Records(rest)
  {
    var data := record + ([NUL] + rest);
    IndexAfter(record, NUL, rest);
    assert data[..|record|] == record && data[|record| + 1..] == rest;
  }

  // -------------------------------------------------------------------------- parsing

  const ORDINARY: byte := 0x31   // 1
  const RENAMED: byte := 0x32    // 2
  const UNMERGED: byte := 0x75   // u
  const UNTRACKED: byte := 0x3F  // ?
  const IGNORED: byte := 0x21    // !

  /** The path field of a record, if it has one. */
  function PathField(record: seq<byte>, limit: nat): (paths: seq<seq<byte>>) {
    var parts := Fields(record, limit);
    if |parts| == limit + 1 then [parts[limit]] else []
  }

  /** The paths of the first record, and how many records it takes up. */
  function First(records: seq<seq<byte>>): (r: (seq<seq<byte>>, nat))
    requires records != []
    ensures 1 <= r.1 <= |records|
  {
    var record := records[0];
    if record == [] then ([], 1)
    else if record[0] == ORDINARY || record[0] == UNMERGED then (PathField(record, 8), 1)
    else if record[0] == RENAMED then
      if 1 < |records| && records[1] != [] then (PathField(record, 9) + [records[1]], 2) else (PathField(record, 9), 1)
    else if record[0] == UNTRACKED || record[0] == IGNORED then (PathField(record, 1), 1)
    else ([], 1)
  }

  /** The paths in some records. */
  function RawPaths(records: seq<seq<byte>>): (paths: seq<seq<byte>>)
    decreases |records|
  {
    if records == [] then []
    else var (found, used) := First(records); found + RawPaths(records[used..])
  }

  /** `canonical` stands for decoding and canonical_path_text. */
  function Canonical(canonical: seq<byte> -> string, raw: seq<seq<byte>>): (paths: seq<string>) {
    seq(|raw|, i requires 0 <= i < |raw| => canonical(raw[i]))
  }

  lemma CanonicalAppend(canonical: seq<byte> -> string, a: seq<seq<byte>>, b: seq<seq<byte>>)
    ensures Canonical(canonical, a + b) == Canonical(canonical, a) + Canonical(canonical, b)
  {
  }

  /** One round of the loop: the paths of the record at `index`, and the index after it. */
  method ReadRecord(records: seq<seq<byte>>, index: nat) returns (found: seq<seq<byte>>, next: nat)
    requires index < |records|
    ensures (found, next - index) == First(records[index..])
  {
    hide PathField;
    var record := records[index];
    found, next := [], index + 1;
    if record == [] {
      return;
    }
    var kind := record[0];
    if kind == ORDINARY || kind == UNMERGED {
      found := PathField(record, 8);
    } else if kind == RENAMED {
      found := PathField(record, 9);
      if next < |records| && records[next] != [] {
        found := found + [records[next]];
        next := next + 1;
      }
    } else if kind == UNTRACKED || kind == IGNORED {
      found := PathField(record, 1);
    }
  }

  method ParsePorcelain(canonical: seq<byte> -> string, data: seq<byte>) returns (paths: seq<string>)
    ensures paths == Canonical(canonical, RawPaths(Records(data)))
  {
    var records := Records(data);
    var index := 0;
    paths := [];
    ghost var raw: seq<seq<byte>> := [];
    Start(records);
    assert Canonical(canonical, raw) == [];
    hide Records, First, Canonical, RawPaths;
    while index < |records|
      invariant 0 <= index <= |records|
      invariant paths == Canonical(canonical, raw)
      invariant raw + RawPaths(records[index..]) == RawPaths(records)
    {
      NextRecord(records, index, raw);
      var found;
      found, index := ReadRecord(records, index);
      CanonicalAppend(canonical, raw, found);
      paths := paths + Canonical(canonical, found);
      raw := raw + found;
    }
    Done(records, raw);
  }

  lemma Start(records: seq<seq<byte>>)
    ensures [] + RawPaths(records[0..]) == RawPaths(records)
  {
    assert records[0..] == records;
  }

  lemma Done(records: seq<seq<byte>>, raw: seq<seq<byte>>)
    requires raw + RawPaths(records[|records|..]) == RawPaths(records)
    ensures raw == RawPaths(records)
  {
    assert records[|records|..] == [];
  }

  lemma {:induction false} RawUnfold(records: seq<seq<byte>>)
    requires records != []
    ensures var (found, used) := First(records); RawPaths(records) == found + RawPaths(records[used..])
  {
    hide First;
  }

  lemma {:induction false} RawStep(records: seq<seq<byte>>, at: nat)
    requires at < |records|
    ensures var (found, used) := First(records[at..]);
            RawPaths(records[at..]) == found + RawPaths(records[at + used..])
  {
    hide First, RawPaths;
    RawUnfold(records[at..]);
    var (found, used) := First(records[at..]);
    assert records[at..][used..] == records[at + used..];
  }

  lemma {:induction false} NextRecord(records: seq<seq<byte>>, at: nat, raw: seq<seq<byte>>)
    requires at < |records| && raw + RawPaths(records[at..]) == RawPaths(records)
    ensures var (found, used) := First(records[at..]);
            (raw + found) + RawPaths(records[at + used..]) == RawPaths(records)
  {
    hide RawPaths, PathField;
    RawStep(records, at);
    var (found, used) := First(records[at..]);
    hide First;
    Assoc(raw, found, RawPaths(records[at + used..]));
  }

  lemma Assoc<T>(a: seq<T>, b: seq<T>, c: seq<T>)
    ensures a + (b + c) == (a + b) + c
  {
  }

  // ------------------------------------------------------------------------- printing

  /** What git prints for one changed path; `fields` are the columns before the path. */
  datatype Status =
    | Ordinary(fields: seq<seq<byte>>, path: seq<byte>)
    | Renamed(fields: seq<seq<byte>>, path: seq<byte>, original: seq<byte>)
    | Unmerged(fields: seq<seq<byte>>, path: seq<byte>)
    | Untracked(path: seq<byte>)
    | Ignored(path: seq<byte>)

  predicate AreColumns(fields: seq<seq<byte>>) {
    forall i :: 0 <= i < |fields| ==> SPACE !in fields[i] && NUL !in fields[i]
  }

  /** The columns of the format: 7, 8 and 9 of them, without blanks; any path that has no NUL. */
  predicate IsStatus(s: Status) {
    NUL !in s.path &&
    match s
    case Ordinary(fields, _) => |fields| == 7 && AreColumns(fields)
    case Renamed(fields, _, original) => |fields| == 8 && AreColumns(fields) && NUL !in original && original != []
    case Unmerged(fields, _) => |fields| == 9 && AreColumns(fields)
    case _ => true
  }

  /** Columns with a blank after each. */
  function Spaced(fields: seq<seq<byte>>): (s: seq<byte>) {
    if fields == [] then [] else fields[0] + [SPACE] + Spaced(fields[1..])
  }

  function Kind(s: Status): (kind: byte) {
    match s
    case Ordinary(_, _) => ORDINARY
    case Renamed(_, _, _) => RENAMED
    case Unmerged(_, _) => UNMERGED
    case Untracked(_) => UNTRACKED
    case Ignored(_) => IGNORED
  }

  function Columns(s: Status): (fields: seq<seq<byte>>) {
    [[Kind(s)]] + (if s.Untracked? || s.Ignored? then [] else s.fields)
  }

  function Record(s: Status): (record: seq<byte>) {
    Spaced(Columns(s)) + s.path
  }

  function Print(statuses: seq<Status>): (data: seq<byte>) {
    if statuses == [] then []
    else
      var s := statuses[0];
      Record(s) + ([NUL] + ((if s.Renamed? then s.original + [NUL] else []) + Print(statuses[1..])))
  }

  /** The paths a list of statuses is about, a renamed path before its original. */
  function TruePaths(statuses: seq<Status>): (paths: seq<seq<byte>>) {
    if statuses == [] then []
    else
      var s := statuses[0];
      [s.path] + (if s.Renamed? then [s.original] else []) + TruePaths(statuses[1..])
  }

  /** What the parser takes for the path: for an unmerged record, also its last two columns. */
  function ReadPath(s: Status): (path: seq<byte>)
    requires IsStatus(s)
  {
    if s.Unmerged? then s.fields[7] + [SPACE] + (s.fields[8] + [SPACE] + s.path) else s.path
  }

  /** The paths of one status, as the parser reads them. */
  function PathsOf(s: Status): (paths: seq<seq<byte>>)
    requires IsStatus(s)
  {
    [ReadPath(s)] + (if s.Renamed? then [s.original] else [])
  }

  function ReadPaths(statuses: seq<Status>): (paths: seq<seq<byte>>)
    requires forall i :: 0 <= i < |statuses| ==> IsStatus(statuses[i])
  {
    if statuses == [] then []
    else
      var s := statuses[0];
      PathsOf(s) + ReadPaths(statuses[1..])
  }

  // --------------------------------------------------------------------- the round trip

  lemma FieldThenRest(field: seq<byte>, rest: seq<byte>, limit: nat)
    requires SPACE !in field && limit > 0
    ensures Fields(field + ([SPACE] + rest), limit) == [field] + Fields(rest, limit - 1)
  {
    var s := field + ([SPACE] + rest);
    IndexAfter(field, SPACE, rest);
    hide IndexOf;
    assert s[..|field|] == field && s[|field| + 1..] == rest;
  }

  lemma {:induction false} FieldsOfSpaced(fields: seq<seq<byte>>, tail: seq<byte>, limit: nat)
    requires AreColumns(fields) && limit <= |fields|
    ensures Fields(Spaced(fields) + tail, limit) == fields[..limit] + [Spaced(fields[limit..]) + tail]
  {
    if limit == 0 {
      assert fields[0..] == fields;
    } else {
      var rest := Spaced(fields[1..]) + tail;
      assert Spaced(fields) + tail == fields[0] + ([SPACE] + rest);
      FieldsOfSpaced(fields[1..], tail, limit - 1);
      FieldThenRest(fields[0], rest, limit);
      hide Fields, Spaced, AreColumns;
      ShiftSlices(fields, limit);
    }
  }

  lemma ShiftSlices(fields: seq<seq<byte>>, n: nat)
    requires 0 < n <= |fields|
    ensures fields[1..][n - 1..] == fields[n..] && [fields[0]] + fields[1..][..n - 1] == fields[..n]
  {
  }

  function Limit(s: Status): (limit: nat) {
    match s
    case Ordinary(_, _) => 8
    case Unmerged(_, _) => 8
    case Renamed(_, _, _) => 9
    case _ => 1
  }

  lemma RecordPath(s: Status)
    requires IsStatus(s)
    ensures PathField(Record(s), Limit(s)) == [ReadPath(s)]
  {
    var columns, limit := Columns(s), Limit(s);
    assert AreColumns(columns);
    FieldsOfSpaced(columns, s.path, limit);
    var last := Spaced(columns[limit..]) + s.path;
    assert Fields(Record(s), limit) == columns[..limit] + [last];
    LastField(s);
    hide Fields, Spaced, Record, IsStatus, ReadPath;
  }

  lemma LastField(s: Status)
    requires IsStatus(s)
    ensures Spaced(Columns(s)[Limit(s)..]) + s.path == ReadPath(s)
  {
    if s.Unmerged? {
      assert Columns(s)[8..] == [s.fields[7], s.fields[8]];
      SpacedTwo(s.fields[7], s.fields[8], s.path);
    } else {
      assert Columns(s)[Limit(s)..] == [];
      assert [] + s.path == s.path;
    }
  }

  lemma {:induction false} RecordKind(s: Status)
    ensures Record(s) != [] && Record(s)[0] == Kind(s)
  {
    var columns := Columns(s);
    assert Spaced(columns) == columns[0] + [SPACE] + Spaced(columns[1..]);
  }

  lemma SpacedTwo(a: seq<byte>, b: seq<byte>, path: seq<byte>)
    ensures Spaced([a, b]) + path == a + [SPACE] + (b + [SPACE] + path)
  {
    assert [a, b][1..] == [b] && [b][1..] == [];
    assert Spaced([b]) == b + [SPACE];
  }

  lemma {:induction false} SpacedHasNoNul(fields: seq<seq<byte>>)
    requires AreColumns(fields)
    ensures NUL !in Spaced(fields)
  {
    if fields != [] {
      SpacedHasNoNul(fields[1..]);
    }
  }

  lemma RecordHasNoNul(s: Status)
    requires IsStatus(s)
    ensures NUL !in Record(s)
  {
    assert AreColumns(Columns(s));
    SpacedHasNoNul(Columns(s));
  }

  /** The records of printed statuses: one each, and one more for the original of a renamed path. */
  function RecordsOf(statuses: seq<Status>): (records: seq<seq<byte>>)
    requires forall i :: 0 <= i < |statuses| ==> IsStatus(statuses[i])
    ensures records != []
  {
    if statuses == [] then [[]]
    else
      var s := statuses[0];
      [Record(s)] + (if s.Renamed? then [s.original] else []) + RecordsOf(statuses[1..])
  }

  lemma {:induction false} PrintedRecords(statuses: seq<Status>)
    requires forall i :: 0 <= i < |statuses| ==> IsStatus(statuses[i])
    ensures Records(Print(statuses)) == RecordsOf(statuses)
  {
    if statuses != [] {
      var s, rest := statuses[0], Print(statuses[1..]);
      PrintedRecords(statuses[1..]);
      PrintedStatus(s, rest);
      hide IsStatus, Record, Records;
    }
  }

  lemma {:induction false} PrintedStatus(s: Status, rest: seq<byte>)
    requires IsStatus(s)
    ensures Records(Record(s) + ([NUL] + ((if s.Renamed? then s.original + [NUL] else []) + rest))) ==
            [Record(s)] + (if s.Renamed? then [s.original] else []) + Records(rest)
  {
    hide Record, Records;
    RecordHasNoNul(s);
    if s.Renamed? {
      OriginalHasNoNul(s);
      hide IsStatus;
      RecordThenRest(Record(s), s.original + ([NUL] + rest));
      RecordThenRest(s.original, rest);
      Assoc(s.original, [NUL], rest);
      Assoc([Record(s)], [s.original], Records(rest));
    } else {
      hide IsStatus;
      RecordThenRest(Record(s), rest);
      assert [] + rest == rest && [Record(s)] + [] == [Record(s)];
    }
  }

  lemma OriginalHasNoNul(s: Status)
    requires IsStatus(s) && s.Renamed?
    ensures NUL !in s.original && s.original != []
  {
  }

  lemma {:induction false} FirstOfStatus(s: Status, records: seq<seq<byte>>)
    requires IsStatus(s) && records != [] && records[0] == Record(s)
    requires s.Renamed? ==> |records| > 1 && records[1] == s.original
    ensures First(records) == (PathsOf(s), if s.Renamed? then 2 else 1)
  {
    hide PathField, Record, First, Kind, ReadPath, Columns, Limit;
    RecordPath(s);
    RecordKind(s);
    FirstByKind(s, records);
    hide IsStatus;
    assert [ReadPath(s)] + [] == [ReadPath(s)];
  }

  /** A renamed path whose original is missing is returned alone. */
  lemma CutRename(s: Status, records: seq<seq<byte>>)
    requires IsStatus(s) && s.Renamed? && records != [] && records[0] == Record(s) && (|records| == 1 || records[1] == [])
    ensures First(records) == ([s.path], 1)
  {
    RecordPath(s);
    RecordKind(s);
    hide PathField, Record, Columns;
  }

  lemma FirstByKind(s: Status, records: seq<seq<byte>>)
    requires IsStatus(s) && records != [] && records[0] != [] && records[0][0] == Kind(s)
    requires s.Renamed? ==> |records| > 1 && records[1] == s.original
    ensures First(records) ==
            if s.Renamed? then (PathField(records[0], Limit(s)) + [s.original], 2) else (PathField(records[0], Limit(s)), 1)
  {
    hide PathField;
  }

  lemma RecordsOfStep(statuses: seq<Status>)
    requires statuses != [] && forall i :: 0 <= i < |statuses| ==> IsStatus(statuses[i])
    ensures var s, records := statuses[0], RecordsOf(statuses);
            && records[0] == Record(s)
            && (s.Renamed? ==> |records| > 1 && records[1] == s.original)
            && records[if s.Renamed? then 2 else 1..] == RecordsOf(statuses[1..])
  {
    hide Record, IsStatus;
  }

  lemma {:induction false} ParsedRecords(statuses: seq<Status>)
    requires forall i :: 0 <= i < |statuses| ==> IsStatus(statuses[i])
    ensures RawPaths(RecordsOf(statuses)) == ReadPaths(statuses)
  {
    if statuses == [] {
      assert RawPaths([[]]) == [] + RawPaths([[]][1..]);
    } else {
      ParsedRecords(statuses[1..]);
      assert ReadPaths(statuses) == PathsOf(statuses[0]) + ReadPaths(statuses[1..]);
      RecordsOfStep(statuses);
      hide First, Record, PathsOf, RawPaths, RecordsOf, ReadPaths;
      FirstOfStatus(statuses[0], RecordsOf(statuses));
      RawUnfold(RecordsOf(statuses));
    }
  }

  /** Parsing printed statuses returns one path each, and the original after a renamed path. */
  lemma PrintThenParse(statuses: seq<Status>)
    requires forall i :: 0 <= i < |statuses| ==> IsStatus(statuses[i])
    ensures RawPaths(Records(Print(statuses))) == ReadPaths(statuses)
  {
    PrintedRecords(statuses);
    ParsedRecords(statuses);
  }

  /** The paths returned are the true ones exactly when nothing is unmerged. */
  lemma {:induction false} TrueUnlessUnmerged(statuses: seq<Status>)
    requires forall i :: 0 <= i < |statuses| ==> IsStatus(statuses[i])
    ensures ReadPaths(statuses) == TruePaths(statuses) <==> forall i :: 0 <= i < |statuses| ==> !statuses[i].Unmerged?
  {
    if statuses != [] {
      var s, tail := statuses[0], statuses[1..];
      TrueUnlessUnmerged(tail);
      var original := if s.Renamed? then [s.original] else [];
      var n := 1 + |original|;
      assert ReadPaths(statuses) == [ReadPath(s)] + original + ReadPaths(tail);
      assert TruePaths(statuses) == [s.path] + original + TruePaths(tail);
      assert ReadPaths(statuses)[n..] == ReadPaths(tail) && TruePaths(statuses)[n..] == TruePaths(tail);
      assert ReadPaths(statuses)[0] == ReadPath(s) && TruePaths(statuses)[0] == s.path;
      assert s.Unmerged? ==> |ReadPath(s)| > |s.path|;
      assert forall i :: 0 < i < |statuses| ==> statuses[i] == tail[i - 1];
    }
  }
}
