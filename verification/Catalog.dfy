/** Cataloguing a directory tree: app/catalog.py, `CatalogService.scan` and its `flush`. */
module Catalog {
  import opened Bytes

  const BATCH_SIZE := 500

  type Path = seq<string>

  datatype Kind =
    | RegularFile(size: nat, mtimeNs: int, fileId: string)
    | Folder(children: seq<Node>, fails: bool)   // `fails`: listing it ends with an error after these entries
    | Reparse      // a symlink or another reparse point
    | Unreadable   // its metadata cannot be read
    | Other        // neither a file nor a directory

  datatype Node = Node(name: string, kind: Kind)

  datatype Entry = Entry(path: Path, kind: Kind)

  /** A directory being listed: its path, the entries still to come, and whether listing it fails then. */
  datatype Listing = Listing(path: Path, nodes: seq<Node>, fails: bool)

  datatype Old = Old(size: nat, mtimeNs: int, fileId: string, generation: int)

  datatype Change = Added | Unchanged | Modified

  datatype Record = Record(path: Path, size: nat, mtimeNs: int, fileId: string, change: Change)

  datatype Metrics = Metrics(filesSeen: nat, bytesIndexed: nat, added: nat, same: nat, modified: nat, rejected: nat)

  datatype Batch = Batch(records: seq<Record>, rejected: seq<Path>)

  datatype Status = Completed | Interrupted | Failed

  /**
   What a scan works with: case folding, the previous catalogue, the running generation, and the
   counters it starts from, which a resumed scan takes over.
   */
  datatype Source = Source(fold: Path -> Path, previous: map<Path, Old>, generation: int, start: Metrics)

  const NOTHING := Metrics(0, 0, 0, 0, 0, 0)

  // -------------------------------------------------------------- the traversal

  function NodeSize(n: Node): (size: nat)
    decreases n, 0
  {
    match n.kind
    case Folder(children, _) => 2 + NodesSize(children)
    case _ => 1
  }

  function NodesSize(nodes: seq<Node>): (size: nat)
    decreases nodes, 1
  {
    if nodes == [] then 0 else NodeSize(nodes[0]) + NodesSize(nodes[1..])
  }

  function Size(pending: seq<Listing>): (size: nat) {
    if pending == [] then 0 else 1 + NodesSize(pending[0].nodes) + Size(pending[1..])
  }

  lemma {:induction false} SizeAppend(a: seq<Listing>, b: seq<Listing>)
    ensures Size(a + b) == Size(a) + Size(b)
  {
    if a == [] {
      assert a + b == b;
    } else {
      assert (a + b)[1..] == a[1..] + b;
      SizeAppend(a[1..], b);
    }
  }

  function NewListings(path: Path, n: Node): (found: seq<Listing>) {
    match n.kind
    case Folder(children, fails) => [Listing(path + [n.name], children, fails)]
    case _ => []
  }

  /** The worklist after the next entry of its first listing. */
  function Advance(pending: seq<Listing>): (rest: seq<Listing>)
    requires pending != [] && pending[0].nodes != []
    ensures Size(rest) < Size(pending)
  {
    var first := pending[0];
    var n := first.nodes[0];
    var rest := [Listing(first.path, first.nodes[1..], first.fails)] + pending[1..];
    SizeAppend(rest, NewListings(first.path, n));
    NewListingsSmaller(first.path, n);
    assert rest[1..] == pending[1..];
    rest + NewListings(first.path, n)
  }

  lemma NewListingsSmaller(path: Path, n: Node)
    ensures Size(NewListings(path, n)) < NodeSize(n)
  {
    var found := NewListings(path, n);
    if found != [] {
      assert found[1..] == [];
    }
  }

  function NextEntry(pending: seq<Listing>): (e: Entry)
    requires pending != [] && pending[0].nodes != []
  {
    Entry(pending[0].path + [pending[0].nodes[0].name], pending[0].nodes[0].kind)
  }

  /** All entries the worklist leads to, in the order the scan meets them. */
  function Walk(pending: seq<Listing>): (entries: seq<Entry>)
    decreases Size(pending)
  {
    if pending == [] then []
    else if pending[0].nodes == [] then Walk(pending[1..])
    else [NextEntry(pending)] + Walk(Advance(pending))
  }

  /** All entries of some nodes, whatever the order: each node and what is below it. */
  ghost function Below(path: Path, nodes: seq<Node>): (entries: multiset<Entry>)
    decreases nodes
  {
    if nodes == [] then multiset{}
    else
      multiset{Entry(path + [nodes[0].name], nodes[0].kind)}
      + (match nodes[0].kind
         case Folder(children, _) => Below(path + [nodes[0].name], children)
         case _ => multiset{})
      + Below(path, nodes[1..])
  }

  ghost function BelowAll(pending: seq<Listing>): (entries: multiset<Entry>) {
    if pending == [] then multiset{} else Below(pending[0].path, pending[0].nodes) + BelowAll(pending[1..])
  }

  lemma {:induction false} BelowAllAppend(a: seq<Listing>, b: seq<Listing>)
    ensures BelowAll(a + b) == BelowAll(a) + BelowAll(b)
  {
    if a == [] {
      assert a + b == b;
    } else {
      assert (a + b)[1..] == a[1..] + b;
      BelowAllAppend(a[1..], b);
    }
  }

  ghost function Inside(path: Path, n: Node): (entries: multiset<Entry>) {
    match n.kind
    case Folder(children, _) => Below(path + [n.name], children)
    case _ => multiset{}
  }

  lemma BelowListings(path: Path, n: Node)
    ensures BelowAll(NewListings(path, n)) == Inside(path, n)
  {
    var found := NewListings(path, n);
    if found != [] {
      assert found[1..] == [];
    }
  }

  /** Listing a directory and its first entry step by step loses and repeats nothing. */
  lemma {:induction false} BelowNext(path: Path, nodes: seq<Node>)
    requires nodes != []
    ensures Below(path, nodes) ==
            multiset{Entry(path + [nodes[0].name], nodes[0].kind)} + Inside(path, nodes[0]) + Below(path, nodes[1..])
  {
  }

  lemma {:induction false} BelowAdvance(pending: seq<Listing>)
    requires pending != [] && pending[0].nodes != []
    ensures BelowAll(pending) == multiset{NextEntry(pending)} + BelowAll(Advance(pending))
  {
    var first, n := pending[0], pending[0].nodes[0];
    var rest, found := [Listing(first.path, first.nodes[1..], first.fails)] + pending[1..], NewListings(first.path, n);
    BelowAllAppend(rest, found);
    BelowListings(first.path, n);
    BelowNext(first.path, first.nodes);
    assert rest[1..] == pending[1..];
    hide Below, Inside, Size;
  }

  /** The traversal meets every entry of the tree exactly once. */
  lemma {:induction false} WalkMeetsEachOnce(pending: seq<Listing>)
    ensures multiset(Walk(pending)) == BelowAll(pending)
    decreases Size(pending)
  {
    if pending != [] {
      if pending[0].nodes == [] {
        WalkMeetsEachOnce(pending[1..]);
      } else {
        WalkMeetsEachOnce(Advance(pending));
        BelowAdvance(pending);
        hide Below, BelowAll, Size;
      }
    }
  }

  /** Every directory below a node can be listed to its end. */
  predicate IsListable(n: Node) {
    n.kind.Folder? ==> !n.kind.fails && forall c :: c in n.kind.children ==> IsListable(c)
  }

  predicate AreListable(pending: seq<Listing>) {
    forall l :: l in pending ==> !l.fails && forall n :: n in l.nodes ==> IsListable(n)
  }

  lemma AdvanceListable(pending: seq<Listing>)
    requires pending != [] && pending[0].nodes != []
    ensures AreListable(Advance(pending)) <==> AreListable(pending)
  {
    var first, n := pending[0], pending[0].nodes[0];
    var rest, found := Listing(first.path, first.nodes[1..], first.fails), NewListings(first.path, n);
    assert pending == [first] + pending[1..];
    assert first.nodes == [n] + first.nodes[1..];
    assert IsListable(n) <==> AreListable(found);
    hide IsListable, Size, NewListings;
    assert Advance(pending) == [rest] + pending[1..] + found;
    ListableAppend([first], pending[1..]);
    ListableAppend([rest] + pending[1..], found);
    ListableAppend([rest], pending[1..]);
    assert AreListable([first]) <==> AreListable([rest]) && IsListable(n) by {
      assert first in [first] && rest in [rest];
    }
  }

  lemma ListableAppend(a: seq<Listing>, b: seq<Listing>)
    ensures AreListable(a + b) <==> AreListable(a) && AreListable(b)
  {
    hide IsListable;
    if AreListable(a + b) {
      forall l | l in a ensures !l.fails && forall n :: n in l.nodes ==> IsListable(n) {
        assert l in a + b;
      }
      forall l | l in b ensures !l.fails && forall n :: n in l.nodes ==> IsListable(n) {
        assert l in a + b;
      }
    }
  }

  // ------------------------------------------------------------ classification

  predicate IsLaterSpelling(src: Source, entries: seq<Entry>, i: nat)
    requires i < |entries|
  {
    exists j :: 0 <= j < i && entries[j].kind.RegularFile? && src.fold(entries[j].path) == src.fold(entries[i].path)
  }

  /** A file is recorded unless an earlier file has the same case-folded path. */
  predicate IsRecorded(src: Source, entries: seq<Entry>, i: nat)
    requires i < |entries|
  {
    entries[i].kind.RegularFile? && !IsLaterSpelling(src, entries, i)
  }

  predicate IsRejected(src: Source, entries: seq<Entry>, i: nat)
    requires i < |entries|
  {
    entries[i].kind.Reparse? || entries[i].kind.Unreadable?
    || (entries[i].kind.RegularFile? && IsLaterSpelling(src, entries, i))
  }

  function ChangeOf(src: Source, e: Entry): (change: Change)
    requires e.kind.RegularFile?
  {
    var key := src.fold(e.path);
    if key !in src.previous then Added
    else
      var known := src.previous[key];
      if (known.size, known.mtimeNs, known.fileId) == (e.kind.size, e.kind.mtimeNs, e.kind.fileId) then Unchanged
      else Modified
  }

  function RecordOf(src: Source, e: Entry): (record: Record)
    requires e.kind.RegularFile?
  {
    Record(e.path, e.kind.size, e.kind.mtimeNs, e.kind.fileId, ChangeOf(src, e))
  }

  /** An entry a resumed scan of the same generation has counted before. */
  predicate AlreadyCounted(src: Source, path: Path) {
    src.fold(path) in src.previous && src.previous[src.fold(path)].generation == src.generation
  }

  /** The records of the first `n` entries, in order. */
  function Records(src: Source, entries: seq<Entry>, n: nat): (records: seq<Record>)
    requires n <= |entries|
  {
    if n == 0 then []
    else Records(src, entries, n - 1) +
         (if IsRecorded(src, entries, n - 1) then [RecordOf(src, entries[n - 1])] else [])
  }

  function Rejections(src: Source, entries: seq<Entry>, n: nat): (rejected: seq<Path>)
    requires n <= |entries|
  {
    if n == 0 then []
    else Rejections(src, entries, n - 1) +
         (if IsRejected(src, entries, n - 1) then [entries[n - 1].path] else [])
  }

  function CountChange(records: seq<Record>, src: Source, change: Change): (n: nat) {
    if records == [] then 0
    else
      var last := records[|records| - 1];
      CountChange(records[..|records| - 1], src, change) +
      (if last.change == change && !AlreadyCounted(src, last.path) then 1 else 0)
  }

  function NewBytes(records: seq<Record>, src: Source): (n: nat) {
    if records == [] then 0
    else
      var last := records[|records| - 1];
      NewBytes(records[..|records| - 1], src) + (if AlreadyCounted(src, last.path) then 0 else last.size)
  }

  /** The counters after some records and rejections: those at the start and what is new. */
  function MetricsOf(src: Source, records: seq<Record>, rejected: seq<Path>): (m: Metrics) {
    var added, same, modified :=
      CountChange(records, src, Added), CountChange(records, src, Unchanged), CountChange(records, src, Modified);
    var start := src.start;
    Metrics(start.filesSeen + added + same + modified, start.bytesIndexed + NewBytes(records, src),
            start.added + added, start.same + same, start.modified + modified, start.rejected + |rejected|)
  }

  function TotalSize(records: seq<Record>): (n: nat) {
    if records == [] then 0 else TotalSize(records[..|records| - 1]) + records[|records| - 1].size
  }

  /** A scan that begins a generation. */
  predicate IsFresh(src: Source) {
    src.start == NOTHING && forall k :: k in src.previous ==> src.previous[k].generation != src.generation
  }

  lemma {:induction false} FreshCounts(src: Source, records: seq<Record>)
    requires IsFresh(src)
    ensures var m := MetricsOf(src, records, []);
            m.filesSeen == |records| && m.bytesIndexed == TotalSize(records)
            && m.added + m.same + m.modified == |records|
  {
    if records != [] {
      FreshCounts(src, records[..|records| - 1]);
    }
  }

  lemma {:induction false} RecordsExactly(src: Source, entries: seq<Entry>, n: nat)
    requires n <= |entries|
    ensures forall r :: r in Records(src, entries, n) <==>
              exists i :: 0 <= i < n && IsRecorded(src, entries, i) && r == RecordOf(src, entries[i])
    ensures forall p :: p in Rejections(src, entries, n) <==>
              exists i :: 0 <= i < n && IsRejected(src, entries, i) && p == entries[i].path
  {
    if n > 0 {
      RecordsExactly(src, entries, n - 1);
    }
  }

  /** What a record says of its entry, and of the catalogue before. */
  lemma RecordTells(src: Source, e: Entry)
    requires e.kind.RegularFile?
    ensures var r, key := RecordOf(src, e), src.fold(e.path);
            && r.path == e.path && r.size == e.kind.size && r.mtimeNs == e.kind.mtimeNs && r.fileId == e.kind.fileId
            && (r.change == Added <==> key !in src.previous)
            && (r.change == Unchanged <==>
                  key in src.previous && src.previous[key].size == r.size && src.previous[key].mtimeNs == r.mtimeNs
                  && src.previous[key].fileId == r.fileId)
            && (r.change == Modified <==>
                  key in src.previous && (src.previous[key].size != r.size || src.previous[key].mtimeNs != r.mtimeNs
                                          || src.previous[key].fileId != r.fileId))
  {
  }

  /** The records the counters take in: those of one kind of change not counted in this generation. */
  function NewOf(records: seq<Record>, src: Source, change: Change): (some: seq<Record>) {
    if records == [] then []
    else
      (if records[0].change == change && !AlreadyCounted(src, records[0].path) then [records[0]] else [])
      + NewOf(records[1..], src, change)
  }

  lemma {:induction false} NewOfSnoc(records: seq<Record>, r: Record, src: Source, change: Change)
    ensures NewOf(records + [r], src, change) ==
            NewOf(records, src, change) + (if r.change == change && !AlreadyCounted(src, r.path) then [r] else [])
  {
    if records == [] {
      assert [] + [r] == [r] && [r][1..] == [];
    } else {
      assert (records + [r])[1..] == records[1..] + [r];
      NewOfSnoc(records[1..], r, src, change);
    }
  }

  lemma {:induction false} CountsNew(records: seq<Record>, src: Source, change: Change)
    ensures CountChange(records, src, change) == |NewOf(records, src, change)|
  {
    if records != [] {
      var init, last := records[..|records| - 1], records[|records| - 1];
      CountsNew(init, src, change);
      NewOfSnoc(init, last, src, change);
      assert records == init + [last];
    }
  }

  /** The sizes of the records not counted in this generation. */
  function NewSizes(records: seq<Record>, src: Source): (sizes: seq<nat>) {
    if records == [] then []
    else NewSizes(records[..|records| - 1], src)
         + (if AlreadyCounted(src, records[|records| - 1].path) then [] else [records[|records| - 1].size])
  }

  function Sum(sizes: seq<nat>): (n: nat) {
    if sizes == [] then 0 else Sum(sizes[..|sizes| - 1]) + sizes[|sizes| - 1]
  }

  lemma {:induction false} BytesTell(records: seq<Record>, src: Source)
    ensures NewBytes(records, src) == Sum(NewSizes(records, src))
  {
    if records != [] {
      var init, last := records[..|records| - 1], records[|records| - 1];
      BytesTell(init, src);
      assert (NewSizes(init, src) + [last.size])[..|NewSizes(init, src)|] == NewSizes(init, src);
      assert NewSizes(init, src) + [] == NewSizes(init, src);
    }
  }

  /** Each counter grows by the new records of its kind, and the files seen by all of them. */
  lemma CountersTell(src: Source, records: seq<Record>, rejected: seq<Path>)
    ensures var m, start := MetricsOf(src, records, rejected), src.start;
            && m.added == start.added + |NewOf(records, src, Added)|
            && m.same == start.same + |NewOf(records, src, Unchanged)|
            && m.modified == start.modified + |NewOf(records, src, Modified)|
            && m.filesSeen - start.filesSeen == (m.added - start.added) + (m.same - start.same) + (m.modified - start.modified)
            && m.bytesIndexed == start.bytesIndexed + Sum(NewSizes(records, src))
            && m.rejected == start.rejected + |rejected|
  {
    BytesTell(records, src);
    CountsNew(records, src, Added);
    CountsNew(records, src, Unchanged);
    CountsNew(records, src, Modified);
  }

  /** No two records share a case-folded path, and every file's folded path has a record. */
  lemma {:induction false} OneRecordPerPath(src: Source, entries: seq<Entry>, n: nat)
    requires n <= |entries|
    ensures forall i, j :: 0 <= i < j < |Records(src, entries, n)| ==>
              src.fold(Records(src, entries, n)[i].path) != src.fold(Records(src, entries, n)[j].path)
    ensures forall i :: 0 <= i < n && entries[i].kind.RegularFile? ==>
              exists r :: r in Records(src, entries, n) && src.fold(r.path) == src.fold(entries[i].path)
  {
    if n > 0 {
      OneRecordPerPath(src, entries, n - 1);
      RecordsExactly(src, entries, n - 1);
      var before, all := Records(src, entries, n - 1), Records(src, entries, n);
      if IsRecorded(src, entries, n - 1) {
        assert forall i :: 0 <= i < |before| ==> before[i] in before;
        assert all[|before|] == RecordOf(src, entries[n - 1]);
      }
      forall r | r in before ensures r in all {
      }
    }
  }

  // ------------------------------------------------------------------- the scan

  function RecordsIn(batches: seq<Batch>): (records: seq<Record>) {
    if batches == [] then [] else RecordsIn(batches[..|batches| - 1]) + batches[|batches| - 1].records
  }

  function RejectedIn(batches: seq<Batch>): (rejected: seq<Path>) {
    if batches == [] then [] else RejectedIn(batches[..|batches| - 1]) + batches[|batches| - 1].rejected
  }

  /** A flush writes something, and never more than a batch of records. */
  ghost predicate GoodBatches(batches: seq<Batch>) {
    forall b :: b in batches ==> (b.records != [] || b.rejected != []) && |b.records| <= BATCH_SIZE
  }

  /** Every flush but the last holds a record: only a record that fills the batch makes the loop flush. */
  ghost predicate RecordsInEach(batches: seq<Batch>) {
    forall b :: b in batches ==> b.records != []
  }

  ghost predicate RecordsInAllButLast(batches: seq<Batch>) {
    batches == [] || RecordsInEach(batches[..|batches| - 1])
  }

  // -------------------------------------------------------------- when the scan flushes

  /** How many of the first `n` entries are handed to flushes. */
  function Handed(src: Source, entries: seq<Entry>, n: nat): (count: nat)
    requires n <= |entries|
  {
    |Records(src, entries, n)| + |Rejections(src, entries, n)|
  }

  /** How many records and rejections wait after `n` entries: a record that fills the batch empties it. */
  function Waiting(src: Source, entries: seq<Entry>, n: nat): (count: nat)
    requires n <= |entries|
  {
    if n == 0 then 0
    else
      var before := Waiting(src, entries, n - 1);
      if IsRejected(src, entries, n - 1) then before + 1
      else if !IsRecorded(src, entries, n - 1) then before
      else if before + 1 >= BATCH_SIZE then 0
      else before + 1
  }

  /** The sizes of the flushes made by then. */
  function FlushSizes(src: Source, entries: seq<Entry>, n: nat): (sizes: seq<nat>)
    requires n <= |entries|
  {
    if n == 0 then []
    else
      var size := Waiting(src, entries, n - 1) + 1;
      FlushSizes(src, entries, n - 1) + (if IsRecorded(src, entries, n - 1) && size >= BATCH_SIZE then [size] else [])
  }

  /** And those of all flushes of a scan that ends there: what waits is flushed too. */
  function AllSizes(src: Source, entries: seq<Entry>, n: nat): (sizes: seq<nat>)
    requires n <= |entries|
  {
    FlushSizes(src, entries, n) + (if Waiting(src, entries, n) > 0 then [Waiting(src, entries, n)] else [])
  }

  function SizeOf(b: Batch): (size: nat) {
    |b.records| + |b.rejected|
  }

  function SizesOf(batches: seq<Batch>): (sizes: seq<nat>) {
    seq(|batches|, i requires 0 <= i < |batches| => SizeOf(batches[i]))
  }

  /** A rejection is the entry that fills a batch, which only a record makes the loop flush. */
  predicate IsMissedFlush(src: Source, entries: seq<Entry>, i: nat)
    requires i < |entries|
  {
    IsRejected(src, entries, i) && Handed(src, entries, i + 1) % BATCH_SIZE == 0
  }

  /** Only the last entry handed over may be such a rejection. */
  ghost predicate RecordsFill(src: Source, entries: seq<Entry>, n: nat)
    requires n <= |entries|
  {
    forall i: nat :: i < n && IsMissedFlush(src, entries, i) ==> Handed(src, entries, n) == Handed(src, entries, i + 1)
  }

  ghost predicate NoneMissed(src: Source, entries: seq<Entry>, n: nat)
    requires n <= |entries|
  {
    forall i: nat :: i < n ==> !IsMissedFlush(src, entries, i)
  }

  predicate AllBounded(sizes: seq<nat>) {
    forall i :: 0 <= i < |sizes| ==> sizes[i] <= BATCH_SIZE
  }

  lemma HandedStep(src: Source, entries: seq<Entry>, n: nat)
    requires n < |entries|
    ensures Handed(src, entries, n + 1) == Handed(src, entries, n)
              + (if IsRecorded(src, entries, n) || IsRejected(src, entries, n) then 1 else 0)
    ensures !(IsRecorded(src, entries, n) && IsRejected(src, entries, n))
  {
  }

  lemma {:induction false} HandedGrows(src: Source, entries: seq<Entry>, i: nat, n: nat)
    requires i <= n <= |entries|
    ensures Handed(src, entries, i) <= Handed(src, entries, n)
  {
    if i < n {
      HandedGrows(src, entries, i, n - 1);
    }
  }

  /** What one more entry does to the sizes. */
  lemma SizesStep(src: Source, entries: seq<Entry>, n: nat)
    requires n < |entries|
    ensures var size := Waiting(src, entries, n) + 1;
            if IsRecorded(src, entries, n) && size >= BATCH_SIZE then
              Waiting(src, entries, n + 1) == 0 && FlushSizes(src, entries, n + 1) == FlushSizes(src, entries, n) + [size]
            else
              && FlushSizes(src, entries, n + 1) == FlushSizes(src, entries, n)
              && Waiting(src, entries, n + 1) ==
                 if IsRecorded(src, entries, n) || IsRejected(src, entries, n) then size else size - 1
  {
    hide IsLaterSpelling;
  }

  lemma NextInBatch(h: nat)
    ensures (h + 1) % BATCH_SIZE == if h % BATCH_SIZE == BATCH_SIZE - 1 then 0 else h % BATCH_SIZE + 1
  {
  }

  lemma BoundedAppend(sizes: seq<nat>, size: nat)
    ensures AllBounded(sizes + [size]) <==> AllBounded(sizes) && size <= BATCH_SIZE
  {
    assert forall i :: 0 <= i < |sizes| ==> (sizes + [size])[i] == sizes[i];
    assert (sizes + [size])[|sizes|] == size;
  }

  /** As long as records fill the batches, these are flushed at every multiple of the batch size. */
  lemma {:induction false} FilledByRecords(src: Source, entries: seq<Entry>, n: nat)
    requires n <= |entries| && NoneMissed(src, entries, n)
    ensures Waiting(src, entries, n) == Handed(src, entries, n) % BATCH_SIZE
    ensures AllBounded(FlushSizes(src, entries, n))
  {
    if n > 0 {
      assert NoneMissed(src, entries, n - 1);
      FilledByRecords(src, entries, n - 1);
      HandedStep(src, entries, n - 1);
      NextInBatch(Handed(src, entries, n - 1));
      SizesStep(src, entries, n - 1);
      assert !IsMissedFlush(src, entries, n - 1);
      BoundedAppend(FlushSizes(src, entries, n - 1), Waiting(src, entries, n - 1) + 1);
      hide Handed, IsRecorded, IsRejected, AllBounded, NoneMissed, Waiting, FlushSizes;
    }
  }

  /** Once a flush was missed, a full batch waits or more than one was flushed. */
  lemma {:induction false} FilledByRejection(src: Source, entries: seq<Entry>, n: nat)
    requires n <= |entries| && !NoneMissed(src, entries, n)
    ensures Waiting(src, entries, n) >= BATCH_SIZE || !AllBounded(FlushSizes(src, entries, n))
  {
    hide Handed, IsRecorded, IsRejected, AllBounded, Waiting, FlushSizes;
    HandedStep(src, entries, n - 1);
    SizesStep(src, entries, n - 1);
    BoundedAppend(FlushSizes(src, entries, n - 1), Waiting(src, entries, n - 1) + 1);
    if NoneMissed(src, entries, n - 1) {
      assert IsMissedFlush(src, entries, n - 1);
      FilledByRecords(src, entries, n - 1);
      NextInBatch(Handed(src, entries, n - 1));
    } else {
      FilledByRejection(src, entries, n - 1);
    }
  }

  /** Every flush holds at most a batch exactly when no flush is missed before the last entry handed over. */
  lemma {:induction false} BoundedIff(src: Source, entries: seq<Entry>, n: nat)
    requires n <= |entries|
    ensures AllBounded(AllSizes(src, entries, n)) <==> RecordsFill(src, entries, n)
  {
    hide Handed, IsRecorded, IsRejected, IsMissedFlush;
    if n > 0 {
      hide AllBounded, AllSizes, RecordsFill;
      if IsRecorded(src, entries, n - 1) || IsRejected(src, entries, n - 1) {
        FillsBefore(src, entries, n);
        BoundedBefore(src, entries, n);
      } else {
        BoundedIff(src, entries, n - 1);
        PassedOverStep(src, entries, n);
      }
    }
  }

  lemma PassedOverStep(src: Source, entries: seq<Entry>, n: nat)
    requires 0 < n <= |entries| && !IsRecorded(src, entries, n - 1) && !IsRejected(src, entries, n - 1)
    ensures RecordsFill(src, entries, n) <==> RecordsFill(src, entries, n - 1)
    ensures AllSizes(src, entries, n) == AllSizes(src, entries, n - 1)
  {
    HandedStep(src, entries, n - 1);
    SizesStep(src, entries, n - 1);
    assert !IsMissedFlush(src, entries, n - 1);
    hide Handed, IsRecorded, IsRejected, IsMissedFlush, Waiting, FlushSizes;
  }

  lemma FillsBefore(src: Source, entries: seq<Entry>, n: nat)
    requires 0 < n <= |entries| && (IsRecorded(src, entries, n - 1) || IsRejected(src, entries, n - 1))
    ensures RecordsFill(src, entries, n) <==> NoneMissed(src, entries, n - 1)
  {
    HandedStep(src, entries, n - 1);
    hide Handed, IsRecorded, IsRejected, IsMissedFlush;
    forall i: nat | i < n - 1 && IsMissedFlush(src, entries, i) ensures Handed(src, entries, i + 1) < Handed(src, entries, n) {
      HandedGrows(src, entries, i + 1, n - 1);
    }
  }

  lemma BoundedBefore(src: Source, entries: seq<Entry>, n: nat)
    requires 0 < n <= |entries| && (IsRecorded(src, entries, n - 1) || IsRejected(src, entries, n - 1))
    ensures AllBounded(AllSizes(src, entries, n)) <==> NoneMissed(src, entries, n - 1)
  {
    hide Handed, IsRecorded, IsRejected, IsMissedFlush, AllBounded, NoneMissed, Waiting, FlushSizes;
    HandedStep(src, entries, n - 1);
    SizesStep(src, entries, n - 1);
    var before, waiting := FlushSizes(src, entries, n - 1), Waiting(src, entries, n - 1);
    BoundedAppend(before, waiting + 1);
    assert AllSizes(src, entries, n) == before + [waiting + 1];
    if NoneMissed(src, entries, n - 1) {
      FilledByRecords(src, entries, n - 1);
    } else {
      FilledByRejection(src, entries, n - 1);
    }
  }

  // ------------------------------------------------------------------------ its state

  /** The local state of a scan: what was flushed, the waiting batch, and what was counted. */
  datatype Progress = Progress(batches: seq<Batch>, batch: seq<Record>, rejected: seq<Path>,
                               seen: set<Path>, metrics: Metrics)

  /** What was flushed and what waits in the batch are the results for the first `n` entries. */
  ghost predicate Scanned(src: Source, entries: seq<Entry>, n: nat, p: Progress) {
    && n <= |entries|
    && RecordsIn(p.batches) + p.batch == Records(src, entries, n)
    && RejectedIn(p.batches) + p.rejected == Rejections(src, entries, n)
    && p.metrics == MetricsOf(src, Records(src, entries, n), Rejections(src, entries, n))
    && GoodBatches(p.batches) && |p.batch| <= BATCH_SIZE
    && (forall k :: k in p.seen <==>
          exists j :: 0 <= j < n && entries[j].kind.RegularFile? && src.fold(entries[j].path) == k)
  }

  /** `flush`: hands over the batches, unless both are empty. */
  method Flush(p: Progress, ghost src: Source, ghost entries: seq<Entry>, ghost n: nat) returns (p': Progress)
    requires Scanned(src, entries, n, p)
    ensures Scanned(src, entries, n, p') && p'.batch == [] && p'.rejected == [] && p'.metrics == p.metrics
    ensures p' == Flushing(p)
  {
    if p.batch == [] && p.rejected == [] {
      return p;
    }
    p' := p.(batches := p.batches + [Batch(p.batch, p.rejected)], batch := [], rejected := []);
    assert p'.batches[..|p.batches|] == p.batches;
    hide Records, Rejections, MetricsOf;
    assert RecordsIn(p'.batches) + [] == RecordsIn(p.batches) + p.batch;
    assert RejectedIn(p'.batches) + [] == RejectedIn(p.batches) + p.rejected;
  }

  /** What the counters become when one file is recorded. */
  function Counted(src: Source, m: Metrics, r: Record): (m': Metrics) {
    if AlreadyCounted(src, r.path) then m
    else m.(filesSeen := m.filesSeen + 1, bytesIndexed := m.bytesIndexed + r.size,
            added := m.added + (if r.change == Added then 1 else 0),
            same := m.same + (if r.change == Unchanged then 1 else 0),
            modified := m.modified + (if r.change == Modified then 1 else 0))
  }

  lemma CountSnoc(src: Source, records: seq<Record>, r: Record, rejected: seq<Path>, path: Path)
    ensures var m := MetricsOf(src, records, rejected);
            && MetricsOf(src, records, rejected + [path]) == m.(rejected := m.rejected + 1)
            && MetricsOf(src, records + [r], rejected) == Counted(src, m, r)
  {
    assert (records + [r])[..|records|] == records;
  }

  function Rejecting(p: Progress, path: Path): (p': Progress) {
    p.(rejected := p.rejected + [path], metrics := p.metrics.(rejected := p.metrics.rejected + 1))
  }

  lemma ScannedRejection(src: Source, entries: seq<Entry>, n: nat, p: Progress)
    requires Scanned(src, entries, n, p) && n < |entries| && IsRejected(src, entries, n)
    ensures Scanned(src, entries, n + 1, Rejecting(p, entries[n].path))
  {
    var path := entries[n].path;
    var r := Record([], 0, 0, "", Added);
    CountSnoc(src, Records(src, entries, n), r, Rejections(src, entries, n), path);
    assert Records(src, entries, n + 1) == Records(src, entries, n);
    assert Rejections(src, entries, n + 1) == Rejections(src, entries, n) + [path];
    hide Records, Rejections, MetricsOf, RecordsIn, RejectedIn, IsRejected;
    assert RejectedIn(p.batches) + (p.rejected + [path]) == (RejectedIn(p.batches) + p.rejected) + [path];
  }

  lemma ScannedRecord(src: Source, entries: seq<Entry>, n: nat, p: Progress)
    requires Scanned(src, entries, n, p) && n < |entries| && IsRecorded(src, entries, n) && |p.batch| < BATCH_SIZE
    ensures var r := RecordOf(src, entries[n]);
            Scanned(src, entries, n + 1, p.(batch := p.batch + [r], seen := p.seen + {src.fold(r.path)},
                                            metrics := Counted(src, p.metrics, r)))
  {
    var r := RecordOf(src, entries[n]);
    CountSnoc(src, Records(src, entries, n), r, Rejections(src, entries, n), []);
    assert Records(src, entries, n + 1) == Records(src, entries, n) + [r];
    assert Rejections(src, entries, n + 1) == Rejections(src, entries, n);
    hide Records, Rejections, MetricsOf, RecordsIn, RejectedIn, IsRecorded, Counted;
    assert RecordsIn(p.batches) + (p.batch + [r]) == (RecordsIn(p.batches) + p.batch) + [r];
  }

  lemma ScannedNothing(src: Source, entries: seq<Entry>, n: nat, p: Progress)
    requires Scanned(src, entries, n, p)
    requires n < |entries| && (entries[n].kind.Folder? || entries[n].kind.Other?)
    ensures Scanned(src, entries, n + 1, p)
  {
    assert Records(src, entries, n + 1) == Records(src, entries, n);
    assert Rejections(src, entries, n + 1) == Rejections(src, entries, n);
  }

  /** The limit on counted files has not stopped the scan: it is compared each time a file was counted. */
  predicate UnderLimit(src: Source, maxFiles: Option<nat>, m: Metrics) {
    maxFiles.Some? && m.filesSeen > src.start.filesSeen ==> m.filesSeen < maxFiles.value
  }

  /** The limit is kept if the counters taken over are below it; otherwise one file is counted beyond them. */
  predicate WithinLimit(src: Source, maxFiles: Option<nat>, m: Metrics) {
    maxFiles.Some? && m.filesSeen > src.start.filesSeen ==>
      if src.start.filesSeen < maxFiles.value then m.filesSeen <= maxFiles.value
      else m.filesSeen == src.start.filesSeen + 1
  }

  /** The flushes made so far, and what waits, have the sizes of a scan that nothing stopped. */
  ghost predicate IsPaced(src: Source, entries: seq<Entry>, n: nat, p: Progress) {
    && n <= |entries| && RecordsInEach(p.batches)
    && SizesOf(p.batches) == FlushSizes(src, entries, n) && SizeOf(Batch(p.batch, p.rejected)) == Waiting(src, entries, n)
  }

  /** Everything is flushed. */
  ghost predicate HasEnded(src: Source, entries: seq<Entry>, n: nat, p: Progress) {
    && n <= |entries| && RecordsInAllButLast(p.batches)
    && SizesOf(p.batches) == AllSizes(src, entries, n) && p.batch == [] && p.rejected == []
  }

  function Flushing(p: Progress): (p': Progress) {
    if p.batch == [] && p.rejected == [] then p
    else p.(batches := p.batches + [Batch(p.batch, p.rejected)], batch := [], rejected := [])
  }

  lemma SizesAppend(batches: seq<Batch>, b: Batch)
    ensures SizesOf(batches + [b]) == SizesOf(batches) + [SizeOf(b)]
  {
  }

  /** Flushing what waits ends a scan. */
  lemma PacedEnds(src: Source, entries: seq<Entry>, n: nat, p: Progress)
    requires IsPaced(src, entries, n, p)
    ensures HasEnded(src, entries, n, Flushing(p))
  {
    SizesAppend(p.batches, Batch(p.batch, p.rejected));
    assert (p.batches + [Batch(p.batch, p.rejected)])[..|p.batches|] == p.batches;
    hide Waiting, FlushSizes, SizesOf;
  }

  /** What one entry adds to the batch, and flushing it when a record filled it, keeps the pace. */
  lemma StaysPaced(src: Source, entries: seq<Entry>, n: nat, p: Progress, p': Progress)
    requires IsPaced(src, entries, n, p) && n < |entries| && p'.batches == p.batches
    requires |p'.batch| == |p.batch| + (if IsRecorded(src, entries, n) then 1 else 0)
    requires |p'.rejected| == |p.rejected| + (if IsRejected(src, entries, n) then 1 else 0)
    ensures var fills := IsRecorded(src, entries, n) && |p'.batch| + |p'.rejected| >= BATCH_SIZE;
            IsPaced(src, entries, n + 1, if fills then Flushing(p') else p')
  {
    HandedStep(src, entries, n);
    SizesStep(src, entries, n);
    SizesAppend(p'.batches, Batch(p'.batch, p'.rejected));
    hide Waiting, FlushSizes, SizesOf, IsRecorded, IsRejected;
  }

  /** One entry of the directory being listed; `full` asks for a stop at `maxFiles`. */
  method ScanEntry(src: Source, ghost entries: seq<Entry>, ghost n: nat, e: Entry, p: Progress, maxFiles: Option<nat>)
    returns (p': Progress, recorded: bool, full: bool)
    requires Scanned(src, entries, n, p)
    requires n < |entries| && e == entries[n] && |p.batch| < BATCH_SIZE && UnderLimit(src, maxFiles, p.metrics)
    ensures Scanned(src, entries, n + 1, p') && WithinLimit(src, maxFiles, p'.metrics)
    ensures recorded <==> IsRecorded(src, entries, n)
    ensures full ==> recorded
    ensures p'.batches == p.batches && |p'.batch| == |p.batch| + (if recorded then 1 else 0)
    ensures |p'.rejected| == |p.rejected| + (if IsRejected(src, entries, n) then 1 else 0)
    ensures full <==> !UnderLimit(src, maxFiles, p'.metrics)
  {
    p', recorded, full := p, false, false;
    if e.kind.Reparse? || e.kind.Unreadable? {
      ScannedRejection(src, entries, n, p);
      p' := Rejecting(p, e.path);
      return;
    }
    if e.kind.Folder? || e.kind.Other? {
      ScannedNothing(src, entries, n, p);
      return;
    }
    var key := src.fold(e.path);
    assert key in p.seen <==> IsLaterSpelling(src, entries, n);
    if key in p.seen {
      ScannedRejection(src, entries, n, p);
      p' := Rejecting(p, e.path);
      return;
    }
    ScannedRecord(src, entries, n, p);
    hide Scanned, IsRecorded, RecordOf;
    recorded := true;
    var record := RecordOf(src, e);
    var metrics := CountRecord(src, p.metrics, record);
    if !AlreadyCounted(src, e.path) {
      full := maxFiles.Some? && metrics.filesSeen >= maxFiles.value;
    }
    p' := p.(batch := p.batch + [record], seen := p.seen + {key}, metrics := metrics);
  }

  method CountRecord(src: Source, before: Metrics, record: Record) returns (metrics: Metrics)
    ensures metrics == Counted(src, before, record)
  {
    metrics := before;
    if !AlreadyCounted(src, record.path) {
      metrics := metrics.(filesSeen := metrics.filesSeen + 1, bytesIndexed := metrics.bytesIndexed + record.size);
      match record.change {
        case Added => metrics := metrics.(added := metrics.added + 1);
        case Unchanged => metrics := metrics.(same := metrics.same + 1);
        case Modified => metrics := metrics.(modified := metrics.modified + 1);
      }
    }
  }

  /** Where the traversal stands: `n` entries are done and the worklist leads to the others. */
  ghost predicate AtEntry(entries: seq<Entry>, n: nat, rest: seq<Listing>) {
    n <= |entries| && entries[n..] == Walk(rest)
  }

  /** Why the loop over one directory ends. */
  datatype End = Listed | Stopped | Broken

  /** Entry `i` of the current directory comes next, `start` having been the worklist when its listing began. */
  ghost predicate AtNode(entries: seq<Entry>, n: nat, current: Listing, i: nat, pending: seq<Listing>, start: seq<Listing>) {
    i <= |current.nodes|
    && var at := [Listing(current.path, current.nodes[i..], current.fails)] + pending;
       AtEntry(entries, n, at) && Size(at) <= Size(start) && (AreListable(at) <==> AreListable(start))
  }

  /** The worklist leads to every entry that was not met. */
  ghost predicate Covers(entries: seq<Entry>, n: nat, rest: seq<Listing>) {
    n <= |entries| && multiset(entries[n..]) <= multiset(Walk(rest))
  }

  lemma {:induction false} BelowRest(path: Path, nodes: seq<Node>, i: nat)
    requires i <= |nodes|
    ensures Below(path, nodes[i..]) <= Below(path, nodes)
  {
    if i == 0 {
      assert nodes[0..] == nodes;
    } else {
      BelowNext(path, nodes);
      BelowRest(path, nodes[1..], i - 1);
      assert nodes[1..][i - 1..] == nodes[i..];
      hide Below;
    }
  }

  /** Listing the current directory again from its beginning loses nothing. */
  lemma {:induction false} AtNodeCovers(entries: seq<Entry>, n: nat, current: Listing, i: nat, pending: seq<Listing>,
                                        start: seq<Listing>)
    requires AtNode(entries, n, current, i, pending, start)
    ensures Covers(entries, n, [current] + pending)
  {
    hide Size, AreListable, Below, Walk;
    var rest, all := [Listing(current.path, current.nodes[i..], current.fails)] + pending, [current] + pending;
    WalkMeetsEachOnce(rest);
    WalkMeetsEachOnce(all);
    BelowRest(current.path, current.nodes, i);
    assert rest[1..] == pending && all[1..] == pending;
  }

  lemma AtEntryCovers(entries: seq<Entry>, n: nat, rest: seq<Listing>)
    requires AtEntry(entries, n, rest)
    ensures Covers(entries, n, rest)
  {
  }

  /** The loop over one directory; `checks` counts the cancellation checks. */
  method ScanListing(src: Source, ghost entries: seq<Entry>, ghost n: nat, current: Listing, pending: seq<Listing>,
                     p: Progress, maxFiles: Option<nat>, cancel: nat -> bool, checks: nat)
    returns (p': Progress, pending': seq<Listing>, checks': nat, end: End, ghost met: nat)
    requires AtEntry(entries, n, [current] + pending)
    requires Scanned(src, entries, n, p) && |p.batch| < BATCH_SIZE && UnderLimit(src, maxFiles, p.metrics)
    requires IsPaced(src, entries, n, p)
    ensures Scanned(src, entries, met, p') && |p'.batch| < BATCH_SIZE && WithinLimit(src, maxFiles, p'.metrics)
    ensures end.Stopped? ==> !UnderLimit(src, maxFiles, p'.metrics) || exists k :: cancel(k)
    ensures end.Stopped? ==> HasEnded(src, entries, met, p') && Covers(entries, met, pending')
    ensures !end.Stopped? ==> IsPaced(src, entries, met, p') && UnderLimit(src, maxFiles, p'.metrics)
    ensures end.Listed? ==> AtEntry(entries, met, pending') && Size(pending') < Size([current] + pending)
    ensures end.Listed? ==> (AreListable(pending') <==> AreListable([current] + pending))
    ensures end.Broken? ==> !AreListable([current] + pending)
  {
    hide Scanned, AtEntry, AtNode, Covers, Size, AreListable, IsPaced, HasEnded, UnderLimit, WithinLimit;
    p', pending', checks', met, end := p, pending, checks, n, Listed;
    FirstAt(entries, n, current, pending);
    for i := 0 to |current.nodes|
      invariant AtNode(entries, met, current, i, pending', [current] + pending)
      invariant Scanned(src, entries, met, p') && |p'.batch| < BATCH_SIZE && UnderLimit(src, maxFiles, p'.metrics)
      invariant IsPaced(src, entries, met, p')
    {
      checks' := checks' + 1;
      if cancel(checks') {
        PacedEnds(src, entries, met, p');
        UnderIsWithin(src, maxFiles, p'.metrics);
        AtNodeCovers(entries, met, current, i, pending', [current] + pending);
        p' := Flush(p', src, entries, met);
        return p', [current] + pending', checks', Stopped, met;
      }
      var node := current.nodes[i];
      var e := Entry(current.path + [node.name], node.kind);
      StepAt(entries, met, current, i, pending', [current] + pending);
      var full;
      p', full := VisitEntry(src, entries, met, e, p', maxFiles);
      met := met + 1;
      pending' := pending' + NewListings(current.path, node);
      if full {
        AtNodeCovers(entries, met, current, i + 1, pending', [current] + pending);
        return p', [current] + pending', checks', Stopped, met;
      }
    }
    ListingDone(entries, met, current, pending', [current] + pending);
    UnderIsWithin(src, maxFiles, p'.metrics);
    end := if current.fails then Broken else Listed;
  }

  /** The body of the loop: a record that fills the batch, or meets the limit, makes it flush. */
  method VisitEntry(src: Source, ghost entries: seq<Entry>, ghost n: nat, e: Entry, p: Progress, maxFiles: Option<nat>)
    returns (p': Progress, full: bool)
    requires n < |entries| && e == entries[n] && Scanned(src, entries, n, p) && |p.batch| < BATCH_SIZE
    requires UnderLimit(src, maxFiles, p.metrics) && IsPaced(src, entries, n, p)
    ensures Scanned(src, entries, n + 1, p') && |p'.batch| < BATCH_SIZE && WithinLimit(src, maxFiles, p'.metrics)
    ensures full <==> !UnderLimit(src, maxFiles, p'.metrics)
    ensures if full then HasEnded(src, entries, n + 1, p') else IsPaced(src, entries, n + 1, p')
  {
    hide Scanned, IsRecorded, IsRejected, IsPaced, HasEnded, UnderLimit, WithinLimit;
    var recorded;
    p', recorded, full := ScanEntry(src, entries, n, e, p, maxFiles);
    ScannedBatch(src, entries, n + 1, p');
    StaysPaced(src, entries, n, p, p');
    if full || (recorded && |p'.batch| + |p'.rejected| >= BATCH_SIZE) {
      PacedEnds(src, entries, n + 1, if |p'.batch| + |p'.rejected| >= BATCH_SIZE then Flushing(p') else p');
      p' := Flush(p', src, entries, n + 1);
    }
  }

  lemma UnderIsWithin(src: Source, maxFiles: Option<nat>, m: Metrics)
    requires UnderLimit(src, maxFiles, m)
    ensures WithinLimit(src, maxFiles, m)
  {
  }

  lemma ScannedBatch(src: Source, entries: seq<Entry>, n: nat, p: Progress)
    requires Scanned(src, entries, n, p)
    ensures |p.batch| <= BATCH_SIZE
  {
  }

  /**
   The scan from some listings, `[Listing([], nodes of the root, ..)]` or where an interrupted one
   stopped.  Whatever was flushed when it ends are exactly the records and rejections of the entries
   met so far, counted in the metrics; a completed scan has met every entry, and an interrupted one
   leaves a cursor to all it has not met.  `cancel` answers the successive cancellation checks.
   */
  method Scan(src: Source, cursor: seq<Listing>, maxFiles: Option<nat>, cancel: nat -> bool)
    returns (status: Status, batches: seq<Batch>, metrics: Metrics, cursor': seq<Listing>, ghost met: nat)
    ensures var entries := Walk(cursor);
            && met <= |entries|
            && RecordsIn(batches) == Records(src, entries, met)
            && RejectedIn(batches) == Rejections(src, entries, met)
            && metrics == MetricsOf(src, Records(src, entries, met), Rejections(src, entries, met))
            && GoodBatches(batches) && RecordsInAllButLast(batches)
            && ((forall b :: b in batches ==> SizeOf(b) <= BATCH_SIZE) <==> RecordsFill(src, entries, met))
            && (status == Completed ==> met == |entries|)
            && (status == Interrupted ==> Covers(entries, met, cursor'))
    ensures WithinLimit(src, maxFiles, metrics)
    ensures status != Interrupted ==> UnderLimit(src, maxFiles, metrics)
    ensures status == Interrupted ==> !UnderLimit(src, maxFiles, metrics) || exists k :: cancel(k)
    ensures status == Completed ==> AreListable(cursor)
    ensures status == Failed ==> !AreListable(cursor)
  {
    hide Scanned, AtEntry, Walk, AreListable, Covers, IsPaced, HasEnded, GoodBatches, RecordsFill;
    hide RecordsInAllButLast, UnderLimit, WithinLimit;
    ghost var entries := Walk(cursor);
    var pending := cursor;
    var p := Progress([], [], [], {}, src.start);
    var checks, end := 0, Listed;
    met := 0;
    ScanStart(src, cursor, p, maxFiles);
    while pending != [] && end.Listed?
      invariant end.Listed? ==> AtEntry(entries, met, pending) && (AreListable(pending) <==> AreListable(cursor))
      invariant Scanned(src, entries, met, p) && |p.batch| < BATCH_SIZE && WithinLimit(src, maxFiles, p.metrics)
      invariant end.Stopped? ==> !UnderLimit(src, maxFiles, p.metrics) || exists k :: cancel(k)
      invariant end.Stopped? ==> Covers(entries, met, pending) && HasEnded(src, entries, met, Flushing(p))
      invariant !end.Stopped? ==> UnderLimit(src, maxFiles, p.metrics) && IsPaced(src, entries, met, p)
      invariant end.Broken? ==> !AreListable(cursor)
      decreases end.Listed?, Size(pending)
    {
      checks := checks + 1;
      if cancel(checks) {
        AtEntryCovers(entries, met, pending);
        PacedEnds(src, entries, met, p);
        end := Stopped;
      } else {
        var current := pending[0];
        assert pending == [current] + pending[1..];
        p, pending, checks, end, met :=
          ScanListing(src, entries, met, current, pending[1..], p, maxFiles, cancel, checks);
        EndedStays(src, entries, met, p);
      }
    }
    if !end.Stopped? {
      PacedEnds(src, entries, met, p);
    }
    p := Flush(p, src, entries, met);
    ScannedParts(src, entries, met, p);
    EndedParts(src, entries, met, p);
    if end.Listed? {
      WalkDone(entries, met);
      NothingLeft();
    }
    status := if end.Stopped? then Interrupted else if end.Broken? then Failed else Completed;
    return status, p.batches, p.metrics, pending, met;
  }

  lemma EndedStays(src: Source, entries: seq<Entry>, n: nat, p: Progress)
    ensures HasEnded(src, entries, n, p) ==> HasEnded(src, entries, n, Flushing(p))
  {
    hide AllSizes, SizesOf, RecordsInAllButLast;
  }

  lemma EndedParts(src: Source, entries: seq<Entry>, n: nat, p: Progress)
    requires HasEnded(src, entries, n, p)
    ensures n <= |entries| && RecordsInAllButLast(p.batches) && p.batch == [] && p.rejected == []
    ensures (forall b :: b in p.batches ==> SizeOf(b) <= BATCH_SIZE) <==> RecordsFill(src, entries, n)
  {
    BoundedIff(src, entries, n);
    hide AllSizes, RecordsFill, RecordsInAllButLast, SizeOf;
    assert AllBounded(SizesOf(p.batches)) <==> forall b :: b in p.batches ==> SizeOf(b) <= BATCH_SIZE by {
      SizesBounded(p.batches);
    }
  }

  lemma SizesBounded(batches: seq<Batch>)
    ensures AllBounded(SizesOf(batches)) <==> forall b :: b in batches ==> SizeOf(b) <= BATCH_SIZE
  {
    hide SizeOf;
    if AllBounded(SizesOf(batches)) {
      forall b | b in batches ensures SizeOf(b) <= BATCH_SIZE {
        var i :| 0 <= i < |batches| && batches[i] == b;
        assert SizesOf(batches)[i] == SizeOf(b);
      }
    } else {
      var i :| 0 <= i < |SizesOf(batches)| && SizesOf(batches)[i] > BATCH_SIZE;
      assert SizesOf(batches)[i] == SizeOf(batches[i]) && batches[i] in batches;
    }
  }

  lemma NothingLeft()
    ensures AreListable([])
  {
  }

  lemma ScanStart(src: Source, cursor: seq<Listing>, p: Progress, maxFiles: Option<nat>)
    requires p == Progress([], [], [], {}, src.start)
    ensures AtEntry(Walk(cursor), 0, cursor) && Scanned(src, Walk(cursor), 0, p) && IsPaced(src, Walk(cursor), 0, p)
    ensures UnderLimit(src, maxFiles, p.metrics) && WithinLimit(src, maxFiles, p.metrics)
  {
    hide Walk;
  }

  lemma WalkDone(entries: seq<Entry>, n: nat)
    requires AtEntry(entries, n, [])
    ensures n == |entries|
  {
  }

  lemma ScannedParts(src: Source, entries: seq<Entry>, n: nat, p: Progress)
    requires Scanned(src, entries, n, p) && p.batch == [] && p.rejected == []
    ensures n <= |entries|
    ensures RecordsIn(p.batches) == Records(src, entries, n) && RejectedIn(p.batches) == Rejections(src, entries, n)
    ensures p.metrics == MetricsOf(src, Records(src, entries, n), Rejections(src, entries, n)) && GoodBatches(p.batches)
  {
    assert RecordsIn(p.batches) + [] == RecordsIn(p.batches) && RejectedIn(p.batches) + [] == RejectedIn(p.batches);
  }

  lemma NextAt(entries: seq<Entry>, n: nat, rest: seq<Listing>)
    requires AtEntry(entries, n, rest) && rest != [] && rest[0].nodes != []
    ensures n < |entries| && entries[n] == NextEntry(rest) && AtEntry(entries, n + 1, Advance(rest))
  {
    assert entries[n..][0] == entries[n] && entries[n..][1..] == entries[n + 1..];
    assert Walk(rest)[1..] == Walk(Advance(rest));
  }

  /** The loops over one listing and over the worklist follow the traversal. */
  lemma StepAt(entries: seq<Entry>, n: nat, current: Listing, i: nat, pending: seq<Listing>, start: seq<Listing>)
    requires i < |current.nodes| && AtNode(entries, n, current, i, pending, start)
    ensures n < |entries|
    ensures entries[n] == Entry(current.path + [current.nodes[i].name], current.nodes[i].kind)
    ensures AtNode(entries, n + 1, current, i + 1, pending + NewListings(current.path, current.nodes[i]), start)
  {
    hide AreListable;
    var at := [Listing(current.path, current.nodes[i..], current.fails)] + pending;
    NextAt(entries, n, at);
    AdvanceListable(at);
    assert at[1..] == pending && current.nodes[i..][1..] == current.nodes[i + 1..];
    assert Advance(at) == [Listing(current.path, current.nodes[i + 1..], current.fails)]
                          + (pending + NewListings(current.path, current.nodes[i]));
  }

  lemma FirstAt(entries: seq<Entry>, n: nat, current: Listing, pending: seq<Listing>)
    requires AtEntry(entries, n, [current] + pending)
    ensures AtNode(entries, n, current, 0, pending, [current] + pending)
  {
    hide AtEntry, Size, AreListable;
    assert [Listing(current.path, current.nodes[0..], current.fails)] + pending == [current] + pending;
  }

  lemma ListingDone(entries: seq<Entry>, n: nat, current: Listing, pending: seq<Listing>, start: seq<Listing>)
    requires AtNode(entries, n, current, |current.nodes|, pending, start)
    ensures AtEntry(entries, n, pending) && Size(pending) < Size(start)
    ensures AreListable(start) <==> !current.fails && AreListable(pending)
  {
    var last := Listing(current.path, current.nodes[|current.nodes|..], current.fails);
    var at := [last] + pending;
    assert at[1..] == pending;
    ListableAppend([last], pending);
    assert last in [last];
  }

  /**
   A fresh scan that is not interrupted: every entry of the tree is met exactly once, files are
   recorded under their first spelling and only there, and the counters account for every record.
   */
  lemma FreshScan(src: Source, root: seq<Node>)
    requires IsFresh(src)
    ensures var entries := Walk([Listing([], root, false)]);
            var records, rejected := Records(src, entries, |entries|), Rejections(src, entries, |entries|);
            var m := MetricsOf(src, records, rejected);
            && multiset(entries) == Below([], root)
            && (forall i, j :: 0 <= i < j < |records| ==> src.fold(records[i].path) != src.fold(records[j].path))
            && m.filesSeen == |records| == m.added + m.same + m.modified
            && m.bytesIndexed == TotalSize(records)
            && m.rejected == |rejected|
            && |entries| == |records| + |rejected| + PassedOver(entries, |entries|)
  {
    hide Records, Rejections, Walk, Below, MetricsOf, IsFresh;
    var pending := [Listing([], root, false)];
    var entries := Walk(pending);
    assert pending[1..] == [];
    WalkMeetsEachOnce(pending);
    OneRecordPerPath(src, entries, |entries|);
    FreshMetrics(src, Records(src, entries, |entries|), Rejections(src, entries, |entries|));
    EachEntryOnce(src, entries, |entries|);
  }

  lemma FreshMetrics(src: Source, records: seq<Record>, rejected: seq<Path>)
    requires IsFresh(src)
    ensures var m := MetricsOf(src, records, rejected);
            && m.filesSeen == |records| == m.added + m.same + m.modified
            && m.bytesIndexed == TotalSize(records) && m.rejected == |rejected|
  {
    FreshCounts(src, records);
  }

  /** Directories and special files: neither recorded nor rejected. */
  function PassedOver(entries: seq<Entry>, n: nat): (count: nat)
    requires n <= |entries|
  {
    if n == 0 then 0
    else PassedOver(entries, n - 1) + (if entries[n - 1].kind.Folder? || entries[n - 1].kind.Other? then 1 else 0)
  }

  lemma {:induction false} EachEntryOnce(src: Source, entries: seq<Entry>, n: nat)
    requires n <= |entries|
    ensures n == |Records(src, entries, n)| + |Rejections(src, entries, n)| + PassedOver(entries, n)
  {
    if n > 0 {
      EachEntryOnce(src, entries, n - 1);
    }
  }

  // ------------------------------------------------------------ resuming under a limit

  lemma WalkOneFile(file: Node)
    requires file.kind.RegularFile?
    ensures Walk([Listing([], [file], false)]) == [Entry([file.name], file.kind)]
    ensures AreListable([Listing([], [file], false)])
  {
    var pending := [Listing([], [file], false)];
    assert Advance(pending) == [Listing([], [], false)] && pending[1..] == [] && Advance(pending)[1..] == [];
    assert Walk(Advance(pending)) == [];
    assert [] + [file.name] == [file.name];
    assert Walk(pending) == [NextEntry(pending)];
  }

  /** One new file adds one to the files seen. */
  lemma CountOneFile(src: Source, e: Entry)
    requires e.kind.RegularFile? && !AlreadyCounted(src, e.path)
    ensures MetricsOf(src, Records(src, [e], 1), Rejections(src, [e], 1)).filesSeen == src.start.filesSeen + 1
  {
    hide AlreadyCounted;
    var r := RecordOf(src, e);
    assert !IsLaterSpelling(src, [e], 0);
    assert Records(src, [e], 0) == [] && Rejections(src, [e], 0) == [];
    assert Records(src, [e], 1) == [r] && Rejections(src, [e], 1) == [];
    hide Records, Rejections;
    assert [] + [r] == [r];
    CountSnoc(src, [], r, [], []);
  }

  /**
   A scan resumed under a limit its counters had already reached counts one new file beyond it: of a
   directory with one such file, every outcome `Scan` allows without a cancellation is this one.
   */
  lemma ResumedScanOverruns(src: Source, file: Node, limit: nat, status: Status, metrics: Metrics, met: nat)
    requires file.kind.RegularFile? && !AlreadyCounted(src, [file.name]) && src.start.filesSeen >= limit
    requires var entries := Walk([Listing([], [file], false)]);
             && met <= |entries| && (status == Completed ==> met == |entries|)
             && metrics == MetricsOf(src, Records(src, entries, met), Rejections(src, entries, met))
    requires status == Failed ==> !AreListable([Listing([], [file], false)])
    requires status == Interrupted <==> !UnderLimit(src, Some(limit), metrics)
    requires WithinLimit(src, Some(limit), metrics)
    ensures status == Interrupted && metrics.filesSeen == src.start.filesSeen + 1 > limit
  {
    WalkOneFile(file);
    CountOneFile(src, Entry([file.name], file.kind));
    hide Walk, Records, Rejections, MetricsOf, AreListable;
    if status == Completed {
      assert false;
    }
  }

  // ------------------------------------------------------- how large a flush can be

  lemma {:induction false} AllRejected(src: Source, entries: seq<Entry>, n: nat)
    requires n <= |entries| && forall i :: 0 <= i < n ==> entries[i].kind.Reparse?
    ensures Records(src, entries, n) == [] && |Rejections(src, entries, n)| == n
  {
    if n > 0 {
      AllRejected(src, entries, n - 1);
    }
  }

  lemma {:induction false} WalkLinks(path: Path, links: seq<Node>)
    requires forall n :: n in links ==> n.kind.Reparse?
    ensures var entries := Walk([Listing(path, links, false)]);
            |entries| == |links| && forall i :: 0 <= i < |entries| ==> entries[i].kind.Reparse?
  {
    var pending := [Listing(path, links, false)];
    assert pending[1..] == [];
    if links != [] {
      assert links[0] in links;
      assert Advance(pending) == [Listing(path, links[1..], false)];
      WalkLinks(path, links[1..]);
    }
  }

  lemma {:induction false} NoRecords(batches: seq<Batch>)
    requires RecordsIn(batches) == []
    ensures forall b :: b in batches ==> b.records == []
  {
    if batches != [] {
      var init, last := batches[..|batches| - 1], batches[|batches| - 1];
      NoRecords(init);
      assert batches == init + [last];
    }
  }

  lemma FirstHasRecords(batches: seq<Batch>)
    requires RecordsInAllButLast(batches) && |batches| > 1
    ensures batches[0].records != []
  {
    assert batches[..|batches| - 1][0] in batches[..|batches| - 1];
  }

  /**
   The batch size bounds the records of a flush, not its rejections: of a root that holds nothing
   but links, however many, a complete scan makes one flush with all of them.
   */
  lemma LinksAreFlushedAtOnce(src: Source, links: seq<Node>, batches: seq<Batch>)
    requires links != [] && forall n :: n in links ==> n.kind.Reparse?
    requires var entries := Walk([Listing([], links, false)]);
             && RecordsIn(batches) == Records(src, entries, |entries|)
             && RejectedIn(batches) == Rejections(src, entries, |entries|)
    requires RecordsInAllButLast(batches)
    ensures |batches| == 1 && batches[0].records == [] && |batches[0].rejected| == |links|
  {
    var entries := Walk([Listing([], links, false)]);
    WalkLinks([], links);
    AllRejected(src, entries, |entries|);
    hide Walk, Records, Rejections;
    NoRecords(batches);
    if |batches| > 1 {
      FirstHasRecords(batches);
    }
    assert batches != [];
    assert batches[..0] == [];
    assert RejectedIn(batches[..0]) == [];
  }
}
