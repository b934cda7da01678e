/** Merging requested evidence ranges: app/policy.py, `merge_evidence_ranges`. */
module EvidenceRanges {
  import opened Bytes
  import opened SourceScan
  import opened Strings

  /** A requested range; `canonical` below stands for `canonical_path_text`. */
  datatype Entry = Entry(path: string, start: int, end: int)

  // ------------------------------------------------------------- range order

  predicate NotAfter(a: LineRange, b: LineRange) {
    a.start < b.start || (a.start == b.start && a.end <= b.end)
  }

  ghost predicate SortedRanges(rs: seq<LineRange>) {
    forall i, j :: 0 <= i < j < |rs| ==> NotAfter(rs[i], rs[j])
  }

  function InsertRange(r: LineRange, rs: seq<LineRange>): (out: seq<LineRange>)
    requires SortedRanges(rs)
    ensures SortedRanges(out) && forall x :: x in out <==> x == r || x in rs
  {
    if rs == [] || NotAfter(r, rs[0]) then [r] + rs
    else
      var rest := InsertRange(r, rs[1..]);
      assert forall j :: 0 <= j < |rest| ==> rest[j] in rest;
      [rs[0]] + rest
  }

  function SortRanges(rs: seq<LineRange>): (out: seq<LineRange>)
    ensures SortedRanges(out) && forall x :: x in out <==> x in rs
  {
    if rs == [] then [] else InsertRange(rs[0], SortRanges(rs[1..]))
  }

  // --------------------------------------------------------- what merging means

  /** Some range holds both line `l` and the line after it. */
  predicate Joins(l: int, rs: seq<LineRange>) {
    exists i :: 0 <= i < |rs| && rs[i].start <= l < rs[i].end
  }

  ghost predicate Disjoint(rs: seq<LineRange>) {
    forall i, j :: 0 <= i < j < |rs| ==> rs[i].end < rs[j].start
  }

  predicate NonEmpty(r: LineRange) {
    r.start <= r.end
  }

  ghost predicate AllNonEmpty(rs: seq<LineRange>) {
    forall i :: 0 <= i < |rs| ==> NonEmpty(rs[i])
  }

  /**
   `out` selects the lines of `rs`, in increasing disjoint ranges, and keeps two neighbouring
   lines in one range exactly when some range of `rs` holds both.
   */
  ghost predicate IsMerge(rs: seq<LineRange>, out: seq<LineRange>) {
    && (forall l :: IsSelected(l, out) <==> IsSelected(l, rs))
    && (forall l :: Joins(l, out) <==> Joins(l, rs))
    && Disjoint(out)
    && (AllNonEmpty(rs) ==> AllNonEmpty(out))
  }

  /** The ranges `entries` has for one canonical path, in order. */
  function RangesFor(canonical: string -> string, entries: seq<Entry>, key: string): (rs: seq<LineRange>) {
    if entries == [] then []
    else
      var e := entries[|entries| - 1];
      RangesFor(canonical, entries[..|entries| - 1], key) +
      (if canonical(e.path) == key then [LineRange(e.start, e.end)] else [])
  }

  /** The spelling of a canonical path that comes first. */
  function DisplayPath(canonical: string -> string, entries: seq<Entry>, key: string): (path: Option<string>) {
    if entries == [] then None
    else if canonical(entries[0].path) == key then Some(entries[0].path)
    else DisplayPath(canonical, entries[1..], key)
  }

  ghost predicate Ordered(canonical: string -> string, a: Entry, b: Entry) {
    || Less(canonical(a.path), canonical(b.path))
    || (canonical(a.path) == canonical(b.path) && a.end < b.start)
  }

  ghost predicate IsMergeOf(canonical: string -> string, entries: seq<Entry>, merged: seq<Entry>) {
    && (forall i, j :: 0 <= i < j < |merged| ==> Ordered(canonical, merged[i], merged[j]))
    && (forall e :: e in merged ==> DisplayPath(canonical, entries, canonical(e.path)) == Some(e.path))
    && (forall key :: IsMerge(RangesFor(canonical, entries, key), RangesFor(canonical, merged, key)))
  }

  // ------------------------------------------------------------------ one group

  lemma SelectedAppend(l: int, a: seq<LineRange>, b: seq<LineRange>)
    ensures IsSelected(l, a + b) <==> IsSelected(l, a) || IsSelected(l, b)
    ensures Joins(l, a + b) <==> Joins(l, a) || Joins(l, b)
  {
    var ab := a + b;
    if i :| 0 <= i < |a| && a[i].start <= l <= a[i].end { assert ab[i] == a[i]; }
    if i :| 0 <= i < |b| && b[i].start <= l <= b[i].end { assert ab[|a| + i] == b[i]; }
    if i :| 0 <= i < |a| && a[i].start <= l < a[i].end { assert ab[i] == a[i]; }
    if i :| 0 <= i < |b| && b[i].start <= l < b[i].end { assert ab[|a| + i] == b[i]; }
  }

  lemma SelectedOne(l: int, r: LineRange)
    ensures IsSelected(l, [r]) <==> r.start <= l <= r.end
    ensures Joins(l, [r]) <==> r.start <= l < r.end
  {
    assert [r][0] == r;
  }

  function Extend(current: LineRange, r: LineRange): LineRange {
    LineRange(current.start, if current.end < r.end then r.end else current.end)
  }

  /** Taking in one more range that starts no earlier than the current one. */
  lemma MergeStep(rs: seq<LineRange>, out: seq<LineRange>, current: LineRange, r: LineRange)
    requires IsMerge(rs, out + [current]) && current.start <= r.start
    ensures IsMerge(rs + [r], out + (if r.start <= current.end then [Extend(current, r)] else [current, r]))
  {
    var tail := if r.start <= current.end then [Extend(current, r)] else [current, r];
    forall l
      ensures IsSelected(l, out + tail) <==> IsSelected(l, rs + [r])
      ensures Joins(l, out + tail) <==> Joins(l, rs + [r])
    {
      SelectedAppend(l, rs, [r]);
      SelectedAppend(l, out, [current]);
      SelectedAppend(l, out, tail);
      SelectedOne(l, r);
      SelectedOne(l, current);
      SelectedOne(l, Extend(current, r));
      assert [current, r] == [current] + [r];
      SelectedAppend(l, [current], [r]);
    }
    assert AllNonEmpty(rs + [r]) ==> AllNonEmpty(rs) && NonEmpty(r) by {
      if AllNonEmpty(rs + [r]) {
        assert forall i :: 0 <= i < |rs| ==> rs[i] == (rs + [r])[i];
        assert (rs + [r])[|rs|] == r;
      }
    }
    var before := out + [current];
    assert before[|out|] == current;
    assert forall i :: 0 <= i < |out| ==> before[i] == out[i];
  }

  method MergeGroup(sorted: seq<LineRange>) returns (merged: seq<LineRange>)
    requires SortedRanges(sorted)
    ensures IsMerge(sorted, merged)
  {
    merged := [];
    var current: Option<LineRange> := None;
    for i := 0 to |sorted|
      invariant current.None? <==> i == 0
      invariant current.None? ==> merged == []
      invariant current.Some? ==> IsMerge(sorted[..i], merged + [current.value])
      invariant current.Some? ==> exists k :: 0 <= k < i && sorted[k].start == current.value.start
    {
      var r := sorted[i];
      assert sorted[..i + 1] == sorted[..i] + [r];
      if current.Some? {
        MergeStep(sorted[..i], merged, current.value, r);
      } else {
        assert sorted[..i + 1] == [r] == [] + [r];
      }
      if current.Some? && r.start <= current.value.end {
        current := Some(Extend(current.value, r));
      } else {
        if current.Some? {
          assert merged + [current.value, r] == (merged + [current.value]) + [r];
          merged := merged + [current.value];
        }
        current := Some(r);
      }
    }
    assert sorted[..|sorted|] == sorted;
    if current.Some? {
      merged := merged + [current.value];
    }
  }

  // ---------------------------------------------------------------- all entries

  lemma {:induction false} DisplayAppend(canonical: string -> string, entries: seq<Entry>, e: Entry, key: string)
    ensures DisplayPath(canonical, entries + [e], key) ==
            if DisplayPath(canonical, entries, key).Some? then DisplayPath(canonical, entries, key)
            else if canonical(e.path) == key then Some(e.path) else None
  {
    if entries != [] {
      assert (entries + [e])[1..] == entries[1..] + [e];
      DisplayAppend(canonical, entries[1..], e, key);
    }
  }

  function WithPath(path: string, rs: seq<LineRange>): (entries: seq<Entry>)
    ensures |entries| == |rs|
    ensures forall i :: 0 <= i < |rs| ==> entries[i] == Entry(path, rs[i].start, rs[i].end)
  {
    if rs == [] then []
    else
      var r := rs[|rs| - 1];
      WithPath(path, rs[..|rs| - 1]) + [Entry(path, r.start, r.end)]
  }

  lemma {:induction false} RangesForAppendOther(canonical: string -> string, entries: seq<Entry>, path: string,
                                                rs: seq<LineRange>, key: string)
    requires canonical(path) != key
    ensures RangesFor(canonical, entries + WithPath(path, rs), key) == RangesFor(canonical, entries, key)
    decreases |rs|
  {
    if rs == [] {
      assert entries + WithPath(path, rs) == entries;
    } else {
      var before := entries + WithPath(path, rs[..|rs| - 1]);
      RangesForAppendOther(canonical, entries, path, rs[..|rs| - 1], key);
      var e := Entry(path, rs[|rs| - 1].start, rs[|rs| - 1].end);
      assert entries + WithPath(path, rs) == before + [e];
      RangesForSnoc(canonical, before, e, key);
    }
  }

  lemma {:induction false} RangesForAppendSame(canonical: string -> string, entries: seq<Entry>, path: string,
                                               rs: seq<LineRange>)
    ensures RangesFor(canonical, entries + WithPath(path, rs), canonical(path)) ==
            RangesFor(canonical, entries, canonical(path)) + rs
    decreases |rs|
  {
    var key := canonical(path);
    var kept := RangesFor(canonical, entries, key);
    if rs == [] {
      assert entries + WithPath(path, rs) == entries && kept + rs == kept;
    } else {
      var front, r := rs[..|rs| - 1], rs[|rs| - 1];
      var before, e := entries + WithPath(path, front), Entry(path, r.start, r.end);
      RangesForAppendSame(canonical, entries, path, front);
      assert entries + WithPath(path, rs) == before + [e];
      RangesForSnoc(canonical, before, e, key);
      assert (kept + front) + [r] == kept + rs;
    }
  }

  lemma RangesForSnoc(canonical: string -> string, entries: seq<Entry>, e: Entry, key: string)
    ensures RangesFor(canonical, entries + [e], key) ==
            RangesFor(canonical, entries, key) +
            (if canonical(e.path) == key then [LineRange(e.start, e.end)] else [])
  {
    assert (entries + [e])[..|entries|] == entries;
  }

  /** The keys of the entries in the order a dictionary meets them. */
  ghost predicate KeysOf(canonical: string -> string, entries: seq<Entry>, keys: seq<string>) {
    forall k :: k in keys <==> DisplayPath(canonical, entries, k).Some?
  }

  lemma {:induction false} NoDisplayNoRanges(canonical: string -> string, entries: seq<Entry>, key: string)
    requires DisplayPath(canonical, entries, key).None?
    ensures RangesFor(canonical, entries, key) == []
  {
    if entries != [] {
      var front, e := entries[..|entries| - 1], entries[|entries| - 1];
      assert entries == front + [e];
      DisplayAppend(canonical, front, e, key);
      NoDisplayNoRanges(canonical, front, key);
    }
  }

  lemma {:induction false} DisplayHasKey(canonical: string -> string, entries: seq<Entry>, key: string)
    requires DisplayPath(canonical, entries, key).Some?
    ensures canonical(DisplayPath(canonical, entries, key).value) == key
  {
    if canonical(entries[0].path) != key {
      DisplayHasKey(canonical, entries[1..], key);
    }
  }

  /** The dictionaries of the first loop describe the entries seen so far. */
  ghost predicate Grouped(canonical: string -> string, entries: seq<Entry>, keys: seq<string>,
                          grouped: map<string, seq<LineRange>>, display: map<string, string>)
  {
    && KeysOf(canonical, entries, keys)
    && (forall k :: k in keys <==> k in grouped)
    && (forall k :: k in keys <==> k in display)
    && (forall k :: k in keys ==> grouped[k] == RangesFor(canonical, entries, k))
    && (forall k :: k in keys ==> Some(display[k]) == DisplayPath(canonical, entries, k))
  }

  lemma GroupStep(canonical: string -> string, entries: seq<Entry>, e: Entry, k: string)
    ensures var key := canonical(e.path);
            var all := entries + [e];
            && (DisplayPath(canonical, entries, k).None? ==> RangesFor(canonical, entries, k) == [])
            && RangesFor(canonical, all, k) ==
               RangesFor(canonical, entries, k) + (if k == key then [LineRange(e.start, e.end)] else [])
            && DisplayPath(canonical, all, k) ==
               if DisplayPath(canonical, entries, k).Some? then DisplayPath(canonical, entries, k)
               else if k == key then Some(e.path) else None
  {
    DisplayAppend(canonical, entries, e, k);
    if DisplayPath(canonical, entries, k).None? {
      NoDisplayNoRanges(canonical, entries, k);
    }
    RangesForSnoc(canonical, entries, e, k);
  }

  lemma GroupedStep(canonical: string -> string, entries: seq<Entry>, e: Entry, keys: seq<string>,
                    grouped: map<string, seq<LineRange>>, display: map<string, string>)
    requires Grouped(canonical, entries, keys, grouped, display)
    ensures var key := canonical(e.path);
            var isNew := key !in keys;
            Grouped(canonical, entries + [e],
                    if isNew then keys + [key] else keys,
                    grouped[key := (if isNew then [] else grouped[key]) + [LineRange(e.start, e.end)]],
                    if isNew then display[key := e.path] else display)
  {
    forall k { GroupStep(canonical, entries, e, k); }
    hide RangesFor, DisplayPath;
  }

  /** The first loop: entries grouped by canonical path, with the display path of each group. */
  method Group(canonical: string -> string, ranges: seq<Entry>)
    returns (keys: seq<string>, grouped: map<string, seq<LineRange>>, display: map<string, string>)
    ensures Grouped(canonical, ranges, keys, grouped, display)
  {
    keys, grouped, display := [], map[], map[];
    for i := 0 to |ranges|
      invariant Grouped(canonical, ranges[..i], keys, grouped, display)
    {
      var e := ranges[i];
      var key := canonical(e.path);
      assert ranges[..i + 1] == ranges[..i] + [e];
      GroupedStep(canonical, ranges[..i], e, keys, grouped, display);
      assert key in keys ==> key in grouped;
      hide Grouped;
      if key !in keys {
        keys := keys + [key];
        grouped := grouped[key := []];
        display := display[key := e.path];
      }
      grouped := grouped[key := grouped[key] + [LineRange(e.start, e.end)]];
    }
    assert ranges[..|ranges|] == ranges;
  }

  /** Merging is a question of which ranges there are, not of their order. */
  lemma SortingKeepsMerge(rs: seq<LineRange>, sorted: seq<LineRange>, out: seq<LineRange>)
    requires (forall x :: x in rs <==> x in sorted) && IsMerge(sorted, out)
    ensures IsMerge(rs, out)
  {
    forall l
      ensures IsSelected(l, sorted) <==> IsSelected(l, rs)
      ensures Joins(l, sorted) <==> Joins(l, rs)
    {
      SameElements(l, rs, sorted);
      SameElements(l, sorted, rs);
    }
    if AllNonEmpty(rs) {
      forall i | 0 <= i < |sorted| ensures NonEmpty(sorted[i]) {
        assert sorted[i] in rs;
      }
    }
  }

  lemma SameElements(l: int, a: seq<LineRange>, b: seq<LineRange>)
    requires forall x :: x in a ==> x in b
    ensures IsSelected(l, a) ==> IsSelected(l, b)
    ensures Joins(l, a) ==> Joins(l, b)
  {
    if i :| 0 <= i < |a| && a[i].start <= l <= a[i].end {
      assert a[i] in b;
    }
    if i :| 0 <= i < |a| && a[i].start <= l < a[i].end {
      assert a[i] in b;
    }
  }

  /** What is merged once the groups of the first `n` keys are done. */
  ghost predicate MergedKeys(canonical: string -> string, ranges: seq<Entry>, keys: seq<string>, n: nat,
                             merged: seq<Entry>)
    requires n <= |keys|
  {
    && (forall i, j :: 0 <= i < j < |merged| ==> Ordered(canonical, merged[i], merged[j]))
    && (forall e :: e in merged ==> canonical(e.path) in keys[..n])
    && (forall e :: e in merged ==> DisplayPath(canonical, ranges, canonical(e.path)) == Some(e.path))
    && (forall k :: k in keys[..n] ==> IsMerge(RangesFor(canonical, ranges, k), RangesFor(canonical, merged, k)))
    && (forall k :: k !in keys[..n] ==> RangesFor(canonical, merged, k) == [])
  }

  lemma AppendOrdered(canonical: string -> string, keys: seq<string>, n: nat,
                      merged: seq<Entry>, path: string, runs: seq<LineRange>)
    requires Increasing(keys) && n < |keys| && canonical(path) == keys[n] && Disjoint(runs)
    requires forall i, j :: 0 <= i < j < |merged| ==> Ordered(canonical, merged[i], merged[j])
    requires forall e :: e in merged ==> canonical(e.path) in keys[..n]
    ensures var all := merged + WithPath(path, runs);
            forall i, j :: 0 <= i < j < |all| ==> Ordered(canonical, all[i], all[j])
  {
    var all := merged + WithPath(path, runs);
    forall i, j | 0 <= i < j < |all| ensures Ordered(canonical, all[i], all[j]) {
      if i < |merged| <= j {
        assert merged[i] in merged;
        var m :| 0 <= m < n && keys[m] == canonical(merged[i].path);
        assert Less(keys[m], keys[n]);
      } else if i >= |merged| {
        assert runs[i - |merged|].end < runs[j - |merged|].start;
      }
    }
  }

  lemma AppendRanges(canonical: string -> string, ranges: seq<Entry>, keys: seq<string>, n: nat,
                     merged: seq<Entry>, path: string, runs: seq<LineRange>, k: string)
    requires Increasing(keys) && n < |keys| && canonical(path) == keys[n]
    requires IsMerge(RangesFor(canonical, ranges, keys[n]), runs)
    requires k in keys[..n] ==> IsMerge(RangesFor(canonical, ranges, k), RangesFor(canonical, merged, k))
    requires k !in keys[..n] ==> RangesFor(canonical, merged, k) == []
    ensures var out := RangesFor(canonical, merged + WithPath(path, runs), k);
            && (k in keys[..n + 1] ==> IsMerge(RangesFor(canonical, ranges, k), out))
            && (k !in keys[..n + 1] ==> out == [])
  {
    hide IsMerge, RangesFor;
    assert keys[..n + 1] == keys[..n] + [keys[n]];
    forall i | 0 <= i < n ensures keys[i] != keys[n] { LessTotal(keys[i], keys[n]); }
    if k == keys[n] {
      RangesForAppendSame(canonical, merged, path, runs);
      assert [] + runs == runs;
    } else {
      RangesForAppendOther(canonical, merged, path, runs, k);
    }
  }

  lemma AppendDisplay(canonical: string -> string, ranges: seq<Entry>, keys: seq<string>, n: nat,
                      merged: seq<Entry>, path: string, runs: seq<LineRange>)
    requires n < |keys| && canonical(path) == keys[n]
    requires DisplayPath(canonical, ranges, keys[n]) == Some(path)
    requires forall e :: e in merged ==> canonical(e.path) in keys[..n]
    requires forall e :: e in merged ==> DisplayPath(canonical, ranges, canonical(e.path)) == Some(e.path)
    ensures forall e :: e in merged + WithPath(path, runs) ==>
              && canonical(e.path) in keys[..n + 1]
              && DisplayPath(canonical, ranges, canonical(e.path)) == Some(e.path)
  {
    assert keys[..n + 1] == keys[..n] + [keys[n]];
  }

  lemma AppendGroup(canonical: string -> string, ranges: seq<Entry>, keys: seq<string>, n: nat,
                    merged: seq<Entry>, path: string, runs: seq<LineRange>)
    requires Increasing(keys) && n < |keys| && MergedKeys(canonical, ranges, keys, n, merged)
    requires DisplayPath(canonical, ranges, keys[n]) == Some(path) && canonical(path) == keys[n]
    requires IsMerge(RangesFor(canonical, ranges, keys[n]), runs)
    ensures MergedKeys(canonical, ranges, keys, n + 1, merged + WithPath(path, runs))
  {
    var all := merged + WithPath(path, runs);
    assert Disjoint(runs);
    hide IsMerge, Ordered, RangesFor, DisplayPath, Increasing;
    AppendOrdered(canonical, keys, n, merged, path, runs);
    forall k
      ensures k in keys[..n + 1] ==> IsMerge(RangesFor(canonical, ranges, k), RangesFor(canonical, all, k))
      ensures k !in keys[..n + 1] ==> RangesFor(canonical, all, k) == []
    {
      AppendRanges(canonical, ranges, keys, n, merged, path, runs, k);
    }
    AppendDisplay(canonical, ranges, keys, n, merged, path, runs);
  }

  method MergeEvidenceRanges(canonical: string -> string, ranges: seq<Entry>) returns (merged: seq<Entry>)
    ensures IsMergeOf(canonical, ranges, merged)
  {
    var order, grouped, display := Group(canonical, ranges);
    var keys := SortKeys(order);
    merged := [];
    for n := 0 to |keys|
      invariant MergedKeys(canonical, ranges, keys, n, merged)
    {
      var key := keys[n];
      assert key in order;
      var sorted := SortRanges(grouped[key]);
      var runs := MergeGroup(sorted);
      SortingKeepsMerge(grouped[key], sorted, runs);
      DisplayHasKey(canonical, ranges, key);
      AppendGroup(canonical, ranges, keys, n, merged, display[key], runs);
      merged := merged + WithPath(display[key], runs);
    }
    assert keys[..|keys|] == keys;
    forall k ensures IsMerge(RangesFor(canonical, ranges, k), RangesFor(canonical, merged, k)) {
      if k !in keys {
        NoDisplayNoRanges(canonical, ranges, k);
      }
    }
  }

  // --------------------------------------------- the result is the only possible one

  lemma MergeUnique(rs: seq<LineRange>, a: seq<LineRange>, b: seq<LineRange>, x: LineRange)
    requires AllNonEmpty(rs) && IsMerge(rs, a) && IsMerge(rs, b) && x in a
    ensures x in b
  {
    assert IsSelected(x.start, a);
    var i :| 0 <= i < |b| && b[i].start <= x.start <= b[i].end;
    var y := b[i];
    assert y.start < x.start ==> Joins(x.start - 1, b) && Joins(x.start - 1, a);
    assert x.end < y.end ==> Joins(x.end, b) && Joins(x.end, a);
    assert y.end < x.end ==> Joins(y.end, a) && Joins(y.end, b);
  }

  ghost predicate ValidEntries(entries: seq<Entry>) {
    forall e :: e in entries ==> e.start <= e.end
  }

  lemma {:induction false} RangesForMembers(canonical: string -> string, entries: seq<Entry>, key: string)
    ensures forall r :: r in RangesFor(canonical, entries, key) <==>
              exists e :: e in entries && canonical(e.path) == key && r == LineRange(e.start, e.end)
  {
    if entries != [] {
      var front, e := entries[..|entries| - 1], entries[|entries| - 1];
      assert entries == front + [e];
      RangesForMembers(canonical, front, key);
    }
  }

  lemma RangesForNonEmpty(canonical: string -> string, entries: seq<Entry>, key: string)
    requires ValidEntries(entries)
    ensures AllNonEmpty(RangesFor(canonical, entries, key))
  {
    RangesForMembers(canonical, entries, key);
    var rs := RangesFor(canonical, entries, key);
    forall i | 0 <= i < |rs| ensures NonEmpty(rs[i]) {
      assert rs[i] in rs;
    }
  }

  lemma MergedElements(canonical: string -> string, ranges: seq<Entry>, m1: seq<Entry>, m2: seq<Entry>, e: Entry)
    requires ValidEntries(ranges) && IsMergeOf(canonical, ranges, m1) && IsMergeOf(canonical, ranges, m2)
    requires e in m1
    ensures e in m2 && e.start <= e.end
  {
    var key := canonical(e.path);
    var r := LineRange(e.start, e.end);
    RangesForMembers(canonical, m1, key);
    RangesForMembers(canonical, m2, key);
    RangesForNonEmpty(canonical, ranges, key);
    var a, b := RangesFor(canonical, m1, key), RangesFor(canonical, m2, key);
    assert IsMerge(RangesFor(canonical, ranges, key), a) && IsMerge(RangesFor(canonical, ranges, key), b);
    MergeUnique(RangesFor(canonical, ranges, key), a, b, r);
    var i :| 0 <= i < |a| && a[i] == r;
    assert NonEmpty(a[i]);
  }

  lemma OrderedStrict(canonical: string -> string, a: Entry, b: Entry)
    requires a.start <= a.end && b.start <= b.end && Ordered(canonical, a, b)
    ensures a != b && !Ordered(canonical, b, a)
  {
    LessTotal(canonical(a.path), canonical(b.path));
  }

  lemma {:induction false} SameElementsSameSequence(canonical: string -> string, a: seq<Entry>, b: seq<Entry>)
    requires forall i, j :: 0 <= i < j < |a| ==> Ordered(canonical, a[i], a[j])
    requires forall i, j :: 0 <= i < j < |b| ==> Ordered(canonical, b[i], b[j])
    requires forall e :: e in a <==> e in b
    requires ValidEntries(a)
    ensures a == b
  {
    assert b != [] ==> b[0] in a;
    if a != [] {
      assert a[0] in b && (b[0] in a || b == []);
      if a[0] != b[0] {
        OrderedStrict(canonical, a[0], b[0]);
        assert false;
      }
      forall e ensures e in a[1..] <==> e in b[1..] {
        if e in a[1..] { assert e in b; OrderedStrict(canonical, a[0], e); }
        if e in b[1..] { assert e in a; OrderedStrict(canonical, b[0], e); }
      }
      SameElementsSameSequence(canonical, a[1..], b[1..]);
    }
  }

  /** For ranges that name at least one line each, the conditions determine the merged list. */
  lemma MergeOfUnique(canonical: string -> string, ranges: seq<Entry>, m1: seq<Entry>, m2: seq<Entry>)
    requires ValidEntries(ranges) && IsMergeOf(canonical, ranges, m1) && IsMergeOf(canonical, ranges, m2)
    ensures m1 == m2
  {
    forall e ensures (e in m1 <==> e in m2) && (e in m1 ==> e.start <= e.end) {
      if e in m1 { MergedElements(canonical, ranges, m1, m2, e); }
      if e in m2 { MergedElements(canonical, ranges, m2, m1, e); }
    }
    SameElementsSameSequence(canonical, m1, m2);
  }

  lemma {:induction false} DisplayIsMember(canonical: string -> string, entries: seq<Entry>, key: string)
    ensures DisplayPath(canonical, entries, key).None? ==> forall e :: e in entries ==> canonical(e.path) != key
    ensures DisplayPath(canonical, entries, key).Some? ==>
              exists e :: e in entries && canonical(e.path) == key &&
                          e.path == DisplayPath(canonical, entries, key).value
  {
    if entries != [] {
      assert entries == [entries[0]] + entries[1..];
      DisplayIsMember(canonical, entries[1..], key);
    }
  }

  /** Merging what is merged changes nothing. */
  lemma MergeIdempotent(canonical: string -> string, ranges: seq<Entry>, merged: seq<Entry>, again: seq<Entry>)
    requires ValidEntries(ranges) && IsMergeOf(canonical, ranges, merged)
    requires IsMergeOf(canonical, merged, again)
    ensures again == merged
  {
    forall e | e in merged
      ensures DisplayPath(canonical, merged, canonical(e.path)) == Some(e.path)
      ensures e.start <= e.end
    {
      MergedElements(canonical, ranges, merged, merged, e);
      DisplayIsMember(canonical, merged, canonical(e.path));
    }
    MergeOfUnique(canonical, merged, merged, again);
  }

  // ------------------------------------------------------------- the line budget

  function Interval(start: int, end: int): (lines: set<int>)
    ensures forall l :: l in lines <==> start <= l <= end
    decreases end - start
  {
    if end < start then {} else Interval(start, end - 1) + {end}
  }

  /** The lines some ranges name, as a set. */
  function LinesOf(rs: seq<LineRange>): (lines: set<int>) {
    if rs == [] then {}
    else LinesOf(rs[..|rs| - 1]) + Interval(rs[|rs| - 1].start, rs[|rs| - 1].end)
  }

  lemma {:induction false} LinesOfMembers(rs: seq<LineRange>, l: int)
    ensures l in LinesOf(rs) <==> IsSelected(l, rs)
  {
    if rs != [] {
      var front, r := rs[..|rs| - 1], rs[|rs| - 1];
      assert rs == front + [r];
      LinesOfMembers(front, l);
      SelectedAppend(l, front, [r]);
      SelectedOne(l, r);
    }
  }

  lemma {:induction false} IntervalSize(start: int, end: int)
    requires start - 1 <= end
    ensures |Interval(start, end)| == end - start + 1
    decreases end - start
  {
    if start <= end {
      IntervalSize(start, end - 1);
    }
  }

  /** Over disjoint ranges the sum of the widths is the number of lines named. */
  lemma {:induction false} DisjointWidths(rs: seq<LineRange>)
    requires Disjoint(rs) && AllNonEmpty(rs)
    ensures RequestedLines(rs) == |LinesOf(rs)|
  {
    if rs != [] {
      var front, r := rs[..|rs| - 1], rs[|rs| - 1];
      DisjointWidths(front);
      assert NonEmpty(r);
      IntervalSize(r.start, r.end);
      forall l | l in LinesOf(front) ensures l < r.start {
        LinesOfMembers(front, l);
        var i :| 0 <= i < |front| && front[i].start <= l <= front[i].end;
        assert rs[i].end < rs[|rs| - 1].start;
      }
      assert LinesOf(front) !! Interval(r.start, r.end);
    }
  }

  /** The sum checked against the cap is the number of distinct lines the ranges of a path ask for. */
  lemma RequestedIsLineCount(canonical: string -> string, ranges: seq<Entry>, merged: seq<Entry>, key: string)
    requires ValidEntries(ranges) && IsMergeOf(canonical, ranges, merged)
    ensures RequestedLines(RangesFor(canonical, merged, key)) == |LinesOf(RangesFor(canonical, ranges, key))|
  {
    var rs, out := RangesFor(canonical, ranges, key), RangesFor(canonical, merged, key);
    RangesForNonEmpty(canonical, ranges, key);
    assert IsMerge(rs, out);
    DisjointWidths(out);
    forall l ensures l in LinesOf(out) <==> l in LinesOf(rs) {
      LinesOfMembers(out, l);
      LinesOfMembers(rs, l);
    }
    assert LinesOf(out) == LinesOf(rs);
  }

  /**
   A range scan holds for too many lines exactly when more than a thousand distinct lines of the
   path are asked for, and a good capture returns exactly that many lines: no line of a merged
   request is lost or doubled between planning and capture.
   */
  lemma CaptureCountsRequest(canonical: string -> string, ranges: seq<Entry>, merged: seq<Entry>, key: string,
                             content: seq<byte>, expected: Expected, stats: Stats)
    requires ValidEntries(ranges) && IsMergeOf(canonical, ranges, merged)
    requires forall e :: e in ranges ==> 1 <= e.start
    ensures var wanted := LinesOf(RangesFor(canonical, ranges, key));
            var scan := RangeOutcome(content, expected, RangesFor(canonical, merged, key), true, stats);
            && (scan == Hold(TooManyLines) <==> |wanted| > MAX_FILE_RANGE_LINES)
            && (scan.Good? ==> scan.selected.Some? && |scan.selected.value| == |wanted|)
            && (scan.Good? ==> NumbersOf(scan.selected.value) == wanted)
  {
    var out := RangesFor(canonical, merged, key);
    RequestedIsLineCount(canonical, ranges, merged, key);
    RangeOutcomeParts(content, expected, out, true, stats);
    hide RangeOutcome, IsMergeOf, RangesFor, Selected, LinesOf, RequestedLines, NumbersOf, SplitLines;
    if RangeOutcome(content, expected, out, true, stats).Good? {
      CapturedNumbers(canonical, ranges, merged, key, SplitLines(content));
    }
  }

  function NumbersOf(sel: seq<Line>): (numbers: set<int>) {
    set line | line in sel :: line.number
  }

  lemma CapturedNumbers(canonical: string -> string, ranges: seq<Entry>, merged: seq<Entry>, key: string,
                        lines: seq<seq<byte>>)
    requires ValidEntries(ranges) && IsMergeOf(canonical, ranges, merged)
    requires forall e :: e in ranges ==> 1 <= e.start
    requires forall r :: r in RangesFor(canonical, merged, key) ==> r.end <= |lines|
    ensures var wanted := LinesOf(RangesFor(canonical, ranges, key));
            var sel := Selected(lines, RangesFor(canonical, merged, key), |lines|);
            NumbersOf(sel) == wanted && |sel| == |wanted|
  {
    var out := RangesFor(canonical, merged, key);
    var wanted := LinesOf(RangesFor(canonical, ranges, key));
    var sel := Selected(lines, out, |lines|);
    SelectedExactly(lines, out, |lines|);
    hide IsMergeOf, RangesFor, Selected, LinesOf, IsSelected;
    forall l ensures l in wanted <==> l in NumbersOf(sel) {
      RequestedInside(canonical, ranges, merged, key, lines, l);
      if l in wanted {
        assert Line(l, lines[l - 1]) in sel;
      }
      if l in NumbersOf(sel) {
        var line :| line in sel && line.number == l;
      }
    }
    assert NumbersOf(sel) == wanted;
    DistinctNumbers(sel);
  }

  lemma RequestedInside(canonical: string -> string, ranges: seq<Entry>, merged: seq<Entry>, key: string,
                        lines: seq<seq<byte>>, l: int)
    requires ValidEntries(ranges) && IsMergeOf(canonical, ranges, merged)
    requires forall e :: e in ranges ==> 1 <= e.start
    requires forall r :: r in RangesFor(canonical, merged, key) ==> r.end <= |lines|
    ensures l in LinesOf(RangesFor(canonical, ranges, key)) <==>
            1 <= l <= |lines| && IsSelected(l, RangesFor(canonical, merged, key))
  {
    var rs, out := RangesFor(canonical, ranges, key), RangesFor(canonical, merged, key);
    assert IsMerge(rs, out);
    LinesOfMembers(rs, l);
    RangesForMembers(canonical, ranges, key);
    if IsSelected(l, rs) {
      var i :| 0 <= i < |rs| && rs[i].start <= l <= rs[i].end;
      assert rs[i] in rs;
      var j :| 0 <= j < |out| && out[j].start <= l <= out[j].end;
      assert out[j] in out;
    }
  }

  lemma {:induction false} DistinctNumbers(sel: seq<Line>)
    requires forall i, j :: 0 <= i < j < |sel| ==> sel[i].number < sel[j].number
    ensures |NumbersOf(sel)| == |sel|
  {
    if sel == [] {
      assert NumbersOf(sel) == {};
    } else {
      var front, last := sel[..|sel| - 1], sel[|sel| - 1];
      DistinctNumbers(front);
      assert sel == front + [last];
      assert NumbersOf(sel) == NumbersOf(front) + {last.number};
      assert last.number !in NumbersOf(front);
    }
  }
}
