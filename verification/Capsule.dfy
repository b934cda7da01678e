/**
 Writing an evidence capsule and verifying it later: app/capsule.py, the last part of `create`,
 `_write_capsule`, `_capsule_tree` and `_verify_existing_capsule`.
 */
module Capsule {
  import opened Bytes

  const MAX_CAPSULE_FILES := 15
  const MAX_CAPSULE_BYTES := 1024 * 1024

  /** A relative path as its components; [] is the capsule directory itself. */
  type Path = seq<string>

  datatype Node = File(content: seq<byte>) | Directory | Link | Special

  /** What is on disk below a directory: whatever has a parent has a directory as parent. */
  ghost predicate IsTree(t: map<Path, Node>) {
    && [] in t
    && forall p :: p in t && p != [] ==> Parent(p) in t && t[Parent(p)] == Directory
  }

  function Parent(p: Path): (q: Path)
    requires p != []
  {
    p[..|p| - 1]
  }

  const MANIFEST: Path := ["EVIDENCE_MANIFEST.json"]

  datatype PlanBinding = PlanBinding(planId: string, decisionHash: string, taskHash: string, integrityHash: string)

  /** The manifest without its instance fields; `other` stands for its remaining members. */
  datatype Base = Base(routePlan: PlanBinding, fingerprint: string, other: string,
                       contentHashes: map<Path, Digest<seq<byte>>>)

  datatype Manifest = Manifest(base: Base, capsuleId: string,
                               capsuleHash: Digest<(Base, map<Path, Digest<seq<byte>>>)>,
                               canonicalHash: Digest<Base>)

  datatype Record = Record(fingerprint: string, capsuleId: string,
                           capsuleHash: Digest<(Base, map<Path, Digest<seq<byte>>>)>)

  /** Canonical JSON as a printer with a parser; the parser also reads any other text it can. */
  datatype Codec = Codec(render: Manifest -> seq<byte>, load: seq<byte> -> Option<Manifest>) {
    ghost predicate RoundTrips() {
      forall m :: load(render(m)) == Some(m)
    }
  }

  function CapsuleHash(base: Base): (h: Digest<(Base, map<Path, Digest<seq<byte>>>)>) {
    Sha256((base, base.contentHashes))
  }

  function HashesOf(files: map<Path, seq<byte>>): (hashes: map<Path, Digest<seq<byte>>>) {
    map p | p in files :: Sha256(files[p])
  }

  // ------------------------------------------------------------------ the layout

  predicate IsProperPrefix(p: Path, q: Path) {
    |p| < |q| && p == q[..|p|]
  }

  /** The directories some files need: every non-empty proper prefix of a path. */
  ghost predicate NeedsDirectory(keys: set<Path>, d: Path) {
    d != [] && exists p :: p in keys && IsProperPrefix(d, p)
  }

  /** The tree holds exactly these files, in exactly the directories they need. */
  ghost predicate IsLayout(files: map<Path, seq<byte>>, t: map<Path, Node>) {
    && (forall p :: p in t <==> p == [] || p in files || NeedsDirectory(files.Keys, p))
    && (forall p :: p in files ==> p in t && t[p] == File(files[p]))
    && (forall p :: p in t && p !in files ==> t[p] == Directory)
  }

  /** No file stands where another one needs a directory. */
  ghost predicate IsWritable(files: map<Path, seq<byte>>) {
    && [] !in files
    && forall p, q :: p in files && q in files ==> !IsProperPrefix(p, q)
  }

  // --------------------------------------------------------------------- writing

  /** `mkdir(parents=True, exist_ok=True)`: fails where a file stands in the way. */
  method MakeParents(t: map<Path, Node>, p: Path) returns (t': Option<map<Path, Node>>)
    requires p != [] && [] in t && t[[]] == Directory
    ensures t'.Some? <==> forall d :: IsProperPrefix(d, p) && d in t ==> t[d] == Directory
    ensures t'.Some? ==> forall q :: q in t'.value <==> q in t || IsProperPrefix(q, p)
    ensures t'.Some? ==> forall q :: q in t ==> t'.value[q] == t[q]
    ensures t'.Some? ==> forall q :: IsProperPrefix(q, p) ==> t'.value[q] == Directory
  {
    var made := t;
    for n := 0 to |p|
      invariant forall q :: q in made <==> q in t || (IsProperPrefix(q, p) && |q| < n)
      invariant forall q :: q in t ==> made[q] == t[q]
      invariant forall q :: IsProperPrefix(q, p) && |q| < n ==> made[q] == Directory
    {
      var d := p[..n];
      assert IsProperPrefix(d, p);
      assert forall q :: IsProperPrefix(q, p) && |q| == n ==> q == d;
      if d in made {
        if made[d] != Directory {
          return None;
        }
      } else {
        made := made[d := Directory];
      }
    }
    return Some(made);
  }

  /** What is on disk once the files of `done` are written. */
  ghost predicate Written(files: map<Path, seq<byte>>, done: set<Path>, t: map<Path, Node>) {
    && done <= files.Keys
    && [] in t && t[[]] == Directory && [] !in done
    && (forall p :: p in t <==> p == [] || p in done || NeedsDirectory(done, p))
    && (forall p :: p in done ==> t[p] == File(files[p]))
    && (forall p :: p in t && p !in done ==> t[p] == Directory)
    && (forall p :: p in done ==> !NeedsDirectory(done, p))
  }

  /** Writing succeeds exactly for writable files, and then leaves exactly their layout. */
  method WriteCapsule(generated: map<Path, seq<byte>>) returns (tree: Option<map<Path, Node>>)
    ensures tree.Some? <==> IsWritable(generated)
    ensures tree.Some? ==> IsLayout(generated, tree.value)
  {
    var t: map<Path, Node> := map[[] := Directory];
    var todo := generated.Keys;
    while todo != {}
      invariant todo <= generated.Keys
      invariant Written(generated, generated.Keys - todo, t)
    {
      var p :| p in todo;
      ghost var done := generated.Keys - todo;
      if p == [] {
        return None;
      }
      var made := MakeParents(t, p);
      if made.None? || (p in made.value && made.value[p] == Directory) {
        CannotWrite(generated, done, t, p);
        return None;
      }
      WriteStep(generated, done, t, p, made.value);
      t := made.value[p := File(generated[p])];
      todo := todo - {p};
      assert generated.Keys - todo == done + {p};
    }
    assert generated.Keys - todo == generated.Keys;
    AllWritten(generated, t);
    return Some(t);
  }

  lemma CannotWrite(files: map<Path, seq<byte>>, done: set<Path>, t: map<Path, Node>, p: Path)
    requires Written(files, done, t) && p in files && p !in done && p != []
    requires (exists d :: IsProperPrefix(d, p) && d in t && t[d] != Directory)
             || ((p in t || IsProperPrefix(p, p)) && (p in t ==> t[p] == Directory))
    ensures !IsWritable(files)
  {
    if d :| IsProperPrefix(d, p) && d in t && t[d] != Directory {
      assert d in done;
    } else {
      assert NeedsDirectory(done, p);
      var q :| q in done && IsProperPrefix(p, q);
    }
  }

  lemma WriteStep(files: map<Path, seq<byte>>, done: set<Path>, t: map<Path, Node>, p: Path,
                  made: map<Path, Node>)
    requires Written(files, done, t) && p in files && p !in done && p != []
    requires forall q :: q in made <==> q in t || IsProperPrefix(q, p)
    requires forall q :: q in t ==> made[q] == t[q]
    requires forall q :: IsProperPrefix(q, p) ==> made[q] == Directory
    requires p in made ==> made[p] != Directory
    ensures Written(files, done + {p}, made[p := File(files[p])])
  {
    var t' := made[p := File(files[p])];
    forall q ensures NeedsDirectory(done + {p}, q) <==> NeedsDirectory(done, q) || (q != [] && IsProperPrefix(q, p)) {
      if q != [] && IsProperPrefix(q, p) { assert p in done + {p}; }
    }
    forall q | q in done
      ensures t'[q] == File(files[q])
      ensures !NeedsDirectory(done + {p}, q)
    {
      assert t[q] == File(files[q]);
    }
  }

  lemma AllWritten(files: map<Path, seq<byte>>, t: map<Path, Node>)
    requires Written(files, files.Keys, t)
    ensures IsLayout(files, t) && IsWritable(files)
  {
    forall p, q | p in files && q in files ensures !IsProperPrefix(p, q) {
      assert !NeedsDirectory(files.Keys, p);
    }
  }

  // ------------------------------------------------------------------ the walk

  lemma {:induction false} EveryAncestor(t: map<Path, Node>, p: Path, d: Path)
    requires IsTree(t) && p in t && IsProperPrefix(d, p)
    ensures d in t && t[d] == Directory
    decreases |p|
  {
    if d != Parent(p) {
      assert Parent(p)[..|d|] == d;
      EveryAncestor(t, Parent(p), d);
    }
  }

  function Children(t: map<Path, Node>, d: Path): (entries: set<Path>) {
    set p | p in t && p != [] && Parent(p) == d
  }

  predicate IsRegular(n: Node) {
    n.File? || n.Directory?
  }

  /**
   The walk has listed the directories in `done` and the entries in `seen`; `open` are the
   directories found but not listed.
   */
  ghost predicate Walked(t: map<Path, Node>, done: set<Path>, seen: set<Path>, open: set<Path>,
                         files: set<Path>, directories: set<Path>)
  {
    && done !! open && directories + {[]} == done + open
    && (forall d :: d in done + open ==> d in t && t[d] == Directory)
    && (forall p :: p in files <==> Reached(t, done, seen, p) && t[p].File?)
    && (forall p :: p in directories <==> Reached(t, done, seen, p) && t[p].Directory?)
    && (forall p :: Reached(t, done, seen, p) ==> IsRegular(t[p]))
  }

  ghost predicate Reached(t: map<Path, Node>, done: set<Path>, seen: set<Path>, p: Path) {
    p in t && p != [] && (Parent(p) in done || p in seen)
  }

  predicate NoDuplicates(ps: seq<Path>) {
    forall i, j :: 0 <= i < j < |ps| ==> ps[i] != ps[j]
  }

  function Elements(ps: seq<Path>): (es: set<Path>) {
    set p | p in ps
  }

  /** Lists one directory: its directories join the worklist, its files the result. */
  method ListDirectory(t: map<Path, Node>, current: Path, pending: seq<Path>, files: set<Path>,
                       directories: set<Path>, ghost done: set<Path>)
    returns (pending': seq<Path>, files': set<Path>, directories': set<Path>, error: bool)
    requires IsTree(t) && NoDuplicates(pending) && current !in pending
    requires Walked(t, done, {}, Elements(pending) + {current}, files, directories)
    ensures error ==> exists p :: p in t && !IsRegular(t[p])
    ensures !error ==> NoDuplicates(pending')
    ensures !error ==> Walked(t, done + {current}, {}, Elements(pending'), files', directories')
  {
    pending', files', directories', error := pending, files, directories, false;
    var entries := Children(t, current);
    ghost var seen := {};
    while entries != {}
      invariant NoDuplicates(pending') && current !in pending'
      invariant entries + seen == Children(t, current) && entries !! seen
      invariant Walked(t, done, seen, Elements(pending') + {current}, files', directories')
    {
      var entry :| entry in entries;
      entries := entries - {entry};
      assert entry in t && entry != [] && Parent(entry) == current;
      if !IsRegular(t[entry]) {
        return pending', files', directories', true;
      }
      WalkEntry(t, done, seen, Elements(pending') + {current}, files', directories', entry);
      hide Walked, IsTree;
      if t[entry].Directory? {
        directories' := directories' + {entry};
        ElementsAppend(pending', entry, current);
        pending' := pending' + [entry];
      } else {
        files' := files' + {entry};
      }
      seen := seen + {entry};
    }
    assert seen == Children(t, current);
    ListedDirectory(t, done, current, Elements(pending'), files', directories');
  }

  lemma ElementsAppend(ps: seq<Path>, p: Path, current: Path)
    ensures Elements(ps + [p]) + {current} == Elements(ps) + {current} + {p}
  {
  }

  /** `_capsule_tree`: a worklist of directories, each listed in any order. */
  method CapsuleTree(t: map<Path, Node>) returns (files: set<Path>, directories: set<Path>, error: bool)
    requires IsTree(t)
    ensures !error <==> forall p :: p in t ==> IsRegular(t[p]) && (p == [] ==> t[p] == Directory)
    ensures !error ==> files == set p | p in t && t[p].File?
    ensures !error ==> directories == set p | p in t && p != [] && t[p].Directory?
  {
    files, directories, error := {}, {}, false;
    if t[[]] != Directory {
      return {}, {}, true;  // a link, or nothing that can be listed
    }
    var pending: seq<Path> := [[]];
    ghost var done: set<Path> := {};
    assert Elements(pending) == {[]};
    while pending != []
      invariant NoDuplicates(pending)
      invariant Walked(t, done, {}, Elements(pending), files, directories)
      decreases t.Keys - done
    {
      var current := pending[|pending| - 1];
      ghost var before := pending;
      pending := pending[..|pending| - 1];
      assert before == pending + [current];
      assert Elements(before) == Elements(pending) + {current};
      assert current in t && current !in done;
      hide Walked;
      pending, files, directories, error := ListDirectory(t, current, pending, files, directories, done);
      if error {
        return;
      }
      done := done + {current};
    }
    assert Elements(pending) == {};
    AllReached(t, done, files, directories);
  }

  /** Taking in one regular entry of the directory being listed. */
  lemma WalkEntry(t: map<Path, Node>, done: set<Path>, seen: set<Path>, open: set<Path>,
                  files: set<Path>, directories: set<Path>, entry: Path)
    requires Walked(t, done, seen, open, files, directories) && IsTree(t)
    requires entry in t && entry != [] && entry !in seen && Parent(entry) !in done && IsRegular(t[entry])
    ensures t[entry].Directory? ==>
              entry !in open && Walked(t, done, seen + {entry}, open + {entry}, files, directories + {entry})
    ensures t[entry].File? ==> Walked(t, done, seen + {entry}, open, files + {entry}, directories)
  {
    NewDirectory(t, done, seen, open, files, directories, entry);
    assert forall p :: Reached(t, done, seen + {entry}, p) <==> Reached(t, done, seen, p) || p == entry;
  }

  lemma NewDirectory(t: map<Path, Node>, done: set<Path>, seen: set<Path>, open: set<Path>,
                     files: set<Path>, directories: set<Path>, entry: Path)
    requires Walked(t, done, seen, open, files, directories) && IsTree(t)
    requires entry in t && entry != [] && entry !in seen && Parent(entry) !in done
    ensures entry !in done + open
  {
  }

  lemma ListedDirectory(t: map<Path, Node>, done: set<Path>, current: Path, open: set<Path>,
                        files: set<Path>, directories: set<Path>)
    requires Walked(t, done, Children(t, current), open + {current}, files, directories)
    requires current !in open
    ensures Walked(t, done + {current}, {}, open, files, directories)
  {
    forall p ensures Reached(t, done + {current}, {}, p) <==> Reached(t, done, Children(t, current), p) {
    }
  }

  lemma {:induction false} EveryEntryReached(t: map<Path, Node>, done: set<Path>,
                                             files: set<Path>, directories: set<Path>, p: Path)
    requires IsTree(t) && Walked(t, done, {}, {}, files, directories) && p in t
    ensures p == [] || Parent(p) in done
    decreases |p|
  {
    if p != [] && Parent(p) != [] {
      EveryEntryReached(t, done, files, directories, Parent(p));
      assert Reached(t, done, {}, Parent(p));
    }
  }

  lemma AllReached(t: map<Path, Node>, done: set<Path>, files: set<Path>, directories: set<Path>)
    requires IsTree(t) && t[[]] == Directory && Walked(t, done, {}, {}, files, directories)
    ensures forall p :: p in t ==> IsRegular(t[p])
    ensures files == set p | p in t && t[p].File?
    ensures directories == set p | p in t && p != [] && t[p].Directory?
  {
    forall p | p in t ensures p == [] || Reached(t, done, {}, p) {
      EveryEntryReached(t, done, files, directories, p);
    }
  }

  // ------------------------------------------------------------------ verification

  /** What the stored record and the plan say about the capsule. */
  datatype Claim = Claim(plan: PlanBinding, fingerprint: string, existing: Record)

  /** What is demanded of the manifest file. */
  ghost predicate ManifestSound(claim: Claim, t: map<Path, Node>, codec: Codec) {
    && claim.existing.fingerprint == claim.fingerprint
    && MANIFEST in t && t[MANIFEST].File? && |t[MANIFEST].content| <= MAX_CAPSULE_BYTES
    && var loaded := codec.load(t[MANIFEST].content);
    && loaded.Some?
    && var m := loaded.value;
    && m.canonicalHash == Sha256(m.base)
    && m.capsuleId == claim.existing.capsuleId
    && m.capsuleHash == CapsuleHash(m.base) == claim.existing.capsuleHash
    && m.base.routePlan == claim.plan && m.base.fingerprint == claim.fingerprint
  }

  /** What is demanded of everything else: exactly these files with these hashes, and their directories. */
  ghost predicate ContentsMatch(t: map<Path, Node>, hashes: map<Path, Digest<seq<byte>>>) {
    && (forall p :: p in t ==> IsRegular(t[p]) && (p == [] ==> t[p] == Directory))
    && (forall p :: p in t && t[p].File? <==> p in hashes || p == MANIFEST)
    && (forall d :: d in t && d != [] && t[d].Directory? <==> NeedsDirectory(hashes.Keys, d))
    && (forall p :: p in hashes ==> p in t && t[p].File? && Sha256(t[p].content) == hashes[p])
  }

  /** Everything `_verify_existing_capsule` demands of the directory. */
  ghost predicate Verifies(claim: Claim, t: map<Path, Node>, codec: Codec) {
    && ManifestSound(claim, t, codec)
    && ContentsMatch(t, codec.load(t[MANIFEST].content).value.base.contentHashes)
  }

  method AddParents(directories: set<Path>, p: Path) returns (directories': set<Path>)
    ensures forall d :: d in directories' <==> d in directories || (d != [] && IsProperPrefix(d, p))
  {
    directories' := directories;
    if p == [] {
      return;
    }
    var parent := Parent(p);
    while parent != []
      invariant |parent| < |p| && parent == p[..|parent|]
      invariant forall d :: d in directories' <==> d in directories || (IsProperPrefix(d, p) && |parent| < |d|)
      decreases |parent|
    {
      directories' := directories' + {parent};
      assert forall d :: IsProperPrefix(d, p) && |d| == |parent| ==> d == parent;
      assert Parent(parent) == p[..|parent| - 1];
      parent := Parent(parent);
    }
  }

  /** The parents of every manifest path, collected one by one. */
  method ExpectedDirectories(keys: set<Path>) returns (directories: set<Path>)
    ensures forall d :: d in directories <==> NeedsDirectory(keys, d)
  {
    directories := {};
    var todo := keys;
    while todo != {}
      invariant todo <= keys
      invariant forall d :: d in directories <==> NeedsDirectory(keys - todo, d)
    {
      var p :| p in todo;
      ParentsOfOneMore(keys - todo, p);
      assert keys - (todo - {p}) == (keys - todo) + {p};
      hide NeedsDirectory, IsProperPrefix;
      directories := AddParents(directories, p);
      todo := todo - {p};
    }
    assert keys - todo == keys;
  }

  lemma ParentsOfOneMore(keys: set<Path>, p: Path)
    ensures forall d :: NeedsDirectory(keys + {p}, d) <==>
                        NeedsDirectory(keys, d) || (d != [] && IsProperPrefix(d, p))
  {
    forall d | d != [] && IsProperPrefix(d, p) ensures NeedsDirectory(keys + {p}, d) {
      assert p in keys + {p};
    }
  }

  /** Comparing the walked sets with the manifest is comparing the tree with it. */
  lemma ContentsBySets(t: map<Path, Node>, hashes: map<Path, Digest<seq<byte>>>,
                       files: set<Path>, directories: set<Path>, expected: set<Path>)
    requires forall p :: p in t ==> IsRegular(t[p]) && (p == [] ==> t[p] == Directory)
    requires files == (set p | p in t && t[p].File?)
    requires directories == (set p | p in t && p != [] && t[p].Directory?)
    requires forall d :: d in expected <==> NeedsDirectory(hashes.Keys, d)
    ensures ContentsMatch(t, hashes) <==>
              && files == hashes.Keys + {MANIFEST}
              && directories == expected
              && forall p :: p in hashes ==> p in t && t[p].File? && Sha256(t[p].content) == hashes[p]
  {
    hide NeedsDirectory;
    assert forall p :: p in files <==> p in t && t[p].File?;
    assert forall d :: d in directories <==> d in t && d != [] && t[d].Directory?;
  }

  method HashesMatch(t: map<Path, Node>, hashes: map<Path, Digest<seq<byte>>>) returns (agree: bool)
    requires forall p :: p in hashes ==> p in t && t[p].File?
    ensures agree <==> forall p :: p in hashes ==> Sha256(t[p].content) == hashes[p]
  {
    var todo := hashes.Keys;
    while todo != {}
      invariant todo <= hashes.Keys
      invariant forall p :: p in hashes && p !in todo ==> Sha256(t[p].content) == hashes[p]
    {
      var p :| p in todo;
      if Sha256(t[p].content) != hashes[p] {
        return false;
      }
      todo := todo - {p};
    }
    return true;
  }

  method VerifyContents(t: map<Path, Node>, hashes: map<Path, Digest<seq<byte>>>) returns (valid: bool)
    requires IsTree(t)
    ensures valid <==> ContentsMatch(t, hashes)
  {
    var files, directories, error := CapsuleTree(t);
    if error { return false; }
    var expected := ExpectedDirectories(hashes.Keys);
    ContentsBySets(t, hashes, files, directories, expected);
    hide ContentsMatch, NeedsDirectory, IsTree;
    if files != hashes.Keys + {MANIFEST} || directories != expected {
      return false;
    }
    assert forall p :: p in hashes ==> p in files;
    valid := HashesMatch(t, hashes);
  }

  method VerifyExistingCapsule(claim: Claim, t: map<Path, Node>, codec: Codec) returns (valid: bool)
    requires IsTree(t)
    ensures valid <==> Verifies(claim, t, codec)
  {
    if claim.existing.fingerprint != claim.fingerprint { return false; }
    if MANIFEST !in t || !t[MANIFEST].File? { return false; }
    if |t[MANIFEST].content| > MAX_CAPSULE_BYTES { return false; }
    var loaded := codec.load(t[MANIFEST].content);
    if loaded.None? { return false; }
    var m := loaded.value;
    if Sha256(m.base) != m.canonicalHash { return false; }
    if m.capsuleId != claim.existing.capsuleId { return false; }
    var actualHash := CapsuleHash(m.base);
    if m.capsuleHash != actualHash || claim.existing.capsuleHash != actualHash { return false; }
    if m.base.routePlan != claim.plan || m.base.fingerprint != claim.fingerprint { return false; }
    valid := VerifyContents(t, m.base.contentHashes);
  }

  // -------------------------------------------------------------------- creation

  ghost function TotalBytes(files: map<Path, seq<byte>>, keys: set<Path>): (n: nat)
    requires keys <= files.Keys
  {
    if keys == {} then 0 else var p :| p in keys; |files[p]| + TotalBytes(files, keys - {p})
  }

  /** The total does not depend on the order in which the files are counted. */
  lemma {:induction false} TotalWithout(files: map<Path, seq<byte>>, keys: set<Path>, p: Path)
    requires keys <= files.Keys && p in keys
    ensures TotalBytes(files, keys) == |files[p]| + TotalBytes(files, keys - {p})
  {
    var q :| q in keys && TotalBytes(files, keys) == |files[q]| + TotalBytes(files, keys - {q});
    if q != p {
      TotalWithout(files, keys - {q}, p);
      TotalWithout(files, keys - {p}, q);
      assert keys - {q} - {p} == keys - {p} - {q};
    }
  }

  /** It is the sum of the sizes: nothing for no files, and the size of a single one. */
  lemma TotalOfOne(files: map<Path, seq<byte>>, p: Path)
    requires p in files
    ensures TotalBytes(files, {}) == 0 && TotalBytes(files, {p}) == |files[p]|
  {
    TotalWithout(files, {p}, p);
    assert {p} - {p} == {};
  }

  method CountBytes(files: map<Path, seq<byte>>) returns (total: nat)
    ensures total == TotalBytes(files, files.Keys)
  {
    total := 0;
    var todo := files.Keys;
    while todo != {}
      invariant todo <= files.Keys
      invariant total + TotalBytes(files, todo) == TotalBytes(files, files.Keys)
    {
      var p :| p in todo;
      TotalWithout(files, todo, p);
      total := total + |files[p]|;
      todo := todo - {p};
    }
  }

  datatype Created = TooManyFiles | TooManyBytes | CannotBeWritten | Ready(record: Record, tree: map<Path, Node>)

  function BaseOf(plan: PlanBinding, fingerprint: string, other: string, generated: map<Path, seq<byte>>): (base: Base) {
    Base(plan, fingerprint, other, HashesOf(generated))
  }

  function ManifestOf(base: Base, capsuleId: string): (m: Manifest) {
    Manifest(base, capsuleId, CapsuleHash(base), Sha256(base))
  }

  /** All files of the capsule, the manifest included. */
  function AllFiles(generated: map<Path, seq<byte>>, base: Base, capsuleId: string, codec: Codec): (all: map<Path, seq<byte>>) {
    generated[MANIFEST := codec.render(ManifestOf(base, capsuleId))]
  }

  /**
   The sealing part of `create`: a capsule within the limits is written with its manifest and
   recorded.  A ready capsule left untouched verifies.
   */
  method CreateCapsule(plan: PlanBinding, fingerprint: string, other: string, capsuleId: string,
                       generated: map<Path, seq<byte>>, codec: Codec) returns (result: Created)
    requires codec.RoundTrips() && MANIFEST !in generated && [] !in generated
    ensures var base := BaseOf(plan, fingerprint, other, generated);
            var all := AllFiles(generated, base, capsuleId, codec);
            && (result.TooManyFiles? <==> |generated| + 1 > MAX_CAPSULE_FILES)
            && (result.Ready? <==> |generated| + 1 <= MAX_CAPSULE_FILES
                                   && TotalBytes(all, all.Keys) <= MAX_CAPSULE_BYTES && IsWritable(all))
            && (result.Ready? ==> IsLayout(all, result.tree)
                                  && result.record == Record(fingerprint, capsuleId, CapsuleHash(base)))
    ensures result.Ready? ==>
              IsTree(result.tree) && Verifies(Claim(plan, fingerprint, result.record), result.tree, codec)
  {
    if |generated| + 1 > MAX_CAPSULE_FILES {
      return TooManyFiles;
    }
    var base := BaseOf(plan, fingerprint, other, generated);
    var all := AllFiles(generated, base, capsuleId, codec);
    var total := CountBytes(all);
    if total > MAX_CAPSULE_BYTES {
      return TooManyBytes;
    }
    var tree := WriteCapsule(all);
    if tree.None? {
      return CannotBeWritten;
    }
    UntouchedVerifies(plan, fingerprint, other, capsuleId, generated, codec, tree.value);
    return Ready(Record(fingerprint, capsuleId, CapsuleHash(base)), tree.value);
  }

  lemma LayoutIsTree(files: map<Path, seq<byte>>, t: map<Path, Node>)
    requires IsLayout(files, t) && IsWritable(files)
    ensures IsTree(t)
  {
    forall p | p in t && p != [] ensures Parent(p) in t && t[Parent(p)] == Directory {
      if Parent(p) != [] {
        if p in files {
          assert IsProperPrefix(Parent(p), p);
        } else {
          var q :| q in files.Keys && IsProperPrefix(p, q);
          assert IsProperPrefix(Parent(p), q);
        }
        assert NeedsDirectory(files.Keys, Parent(p));
      }
    }
  }

  /** The manifest lies in the capsule directory itself, so it needs no directory. */
  lemma ManifestNeedsNothing(keys: set<Path>, d: Path)
    ensures NeedsDirectory(keys + {MANIFEST}, d) <==> NeedsDirectory(keys, d)
  {
    if NeedsDirectory(keys, d) {
      var p :| p in keys && IsProperPrefix(d, p);
      assert p in keys + {MANIFEST};
    }
  }

  /** Facts about the keys of a capsule's files that the two comparisons share. */
  ghost predicate ApartFromManifest(generated: map<Path, seq<byte>>, all: map<Path, seq<byte>>) {
    && [] !in generated && MANIFEST !in generated && MANIFEST in all
    && (forall p :: p in all <==> p in generated || p == MANIFEST)
    && (forall p :: p in generated ==> all[p] == generated[p])
    && (forall d :: NeedsDirectory(all.Keys, d) <==> NeedsDirectory(generated.Keys, d))
    && (forall d :: NeedsDirectory(all.Keys, d) ==> d !in all && d != [])
  }

  lemma CapsuleKeys(generated: map<Path, seq<byte>>, manifest: seq<byte>)
    requires MANIFEST !in generated && [] !in generated && IsWritable(generated[MANIFEST := manifest])
    ensures ApartFromManifest(generated, generated[MANIFEST := manifest])
  {
    var all := generated[MANIFEST := manifest];
    assert all.Keys == generated.Keys + {MANIFEST};
    forall d { ManifestNeedsNothing(generated.Keys, d); }
    forall d | NeedsDirectory(all.Keys, d) ensures d !in all && d != [] {
      var p :| p in all.Keys && IsProperPrefix(d, p);
      assert p in all;
    }
  }

  lemma LayoutMatches(generated: map<Path, seq<byte>>, all: map<Path, seq<byte>>, t: map<Path, Node>)
    requires ApartFromManifest(generated, all) && IsLayout(all, t)
    ensures ContentsMatch(t, HashesOf(generated))
  {
    hide NeedsDirectory;
    var hashes := HashesOf(generated);
    assert hashes.Keys == generated.Keys;
    forall p | p in t ensures IsRegular(t[p]) && (p == [] ==> t[p] == Directory) {
      if p in all { assert t[p] == File(all[p]); }
    }
    forall p ensures p in t && t[p].File? <==> p in hashes || p == MANIFEST {
      if p in all { assert t[p] == File(all[p]); }
    }
    forall d ensures d in t && d != [] && t[d].Directory? <==> NeedsDirectory(hashes.Keys, d) {
      if d in all { assert t[d] == File(all[d]); }
    }
    forall p | p in hashes ensures p in t && t[p].File? && Sha256(t[p].content) == hashes[p] {
      assert t[p] == File(all[p]);
    }
  }

  lemma MatchIsLayout(generated: map<Path, seq<byte>>, all: map<Path, seq<byte>>, t: map<Path, Node>)
    requires ApartFromManifest(generated, all) && ContentsMatch(t, HashesOf(generated))
    requires MANIFEST in t && t[MANIFEST] == File(all[MANIFEST]) && [] in t
    ensures IsLayout(all, t)
  {
    hide NeedsDirectory;
    var hashes := HashesOf(generated);
    assert hashes.Keys == generated.Keys;
    forall p | p in all ensures p in t && t[p] == File(all[p]) {
      if p != MANIFEST {
        assert Sha256(t[p].content) == hashes[p] == Sha256(generated[p]);
      }
    }
    forall p ensures p in t <==> p == [] || p in all || NeedsDirectory(all.Keys, p) {
      if p in t { assert IsRegular(t[p]); }
    }
    forall p | p in t && p !in all ensures t[p] == Directory {
      assert IsRegular(t[p]);
    }
  }

  /** A tree has the layout of the files and the manifest exactly when its contents match the hashes. */
  lemma LayoutIffMatch(generated: map<Path, seq<byte>>, manifest: seq<byte>, t: map<Path, Node>)
    requires [] in t && MANIFEST !in generated && [] !in generated && MANIFEST in t && t[MANIFEST] == File(manifest)
    requires IsWritable(generated[MANIFEST := manifest])
    ensures IsLayout(generated[MANIFEST := manifest], t) <==> ContentsMatch(t, HashesOf(generated))
  {
    var all := generated[MANIFEST := manifest];
    CapsuleKeys(generated, manifest);
    hide ApartFromManifest;
    if IsLayout(all, t) {
      LayoutMatches(generated, all, t);
    }
    if ContentsMatch(t, HashesOf(generated)) {
      MatchIsLayout(generated, all, t);
    }
  }

  lemma {:induction false} OneOfTotal(files: map<Path, seq<byte>>, p: Path)
    requires p in files
    ensures |files[p]| <= TotalBytes(files, files.Keys)
  {
    TotalWithout(files, files.Keys, p);
  }

  lemma UntouchedVerifies(plan: PlanBinding, fingerprint: string, other: string, capsuleId: string,
                          generated: map<Path, seq<byte>>, codec: Codec, t: map<Path, Node>)
    requires codec.RoundTrips() && MANIFEST !in generated && [] !in generated
    requires var all := AllFiles(generated, BaseOf(plan, fingerprint, other, generated), capsuleId, codec);
             IsLayout(all, t) && IsWritable(all) && TotalBytes(all, all.Keys) <= MAX_CAPSULE_BYTES
    ensures var record := Record(fingerprint, capsuleId, CapsuleHash(BaseOf(plan, fingerprint, other, generated)));
            IsTree(t) && Verifies(Claim(plan, fingerprint, record), t, codec)
  {
    var base := BaseOf(plan, fingerprint, other, generated);
    var m := ManifestOf(base, capsuleId);
    var all := AllFiles(generated, base, capsuleId, codec);
    LayoutIsTree(all, t);
    OneOfTotal(all, MANIFEST);
    assert t[MANIFEST] == File(codec.render(m)) && codec.load(codec.render(m)) == Some(m);
    LayoutIffMatch(generated, codec.render(m), t);
  }

  /**
   A directory verifies against the record of a created capsule exactly when it has the created
   files and directories, byte for byte, and its manifest file still reads as the created manifest.
   */
  lemma VerifiesIffUnchanged(plan: PlanBinding, fingerprint: string, other: string, capsuleId: string,
                             generated: map<Path, seq<byte>>, codec: Codec, t: map<Path, Node>)
    requires codec.RoundTrips() && MANIFEST !in generated && [] !in generated
    requires IsTree(t)
    requires IsWritable(AllFiles(generated, BaseOf(plan, fingerprint, other, generated), capsuleId, codec))
    ensures var base := BaseOf(plan, fingerprint, other, generated);
            var record := Record(fingerprint, capsuleId, CapsuleHash(base));
            Verifies(Claim(plan, fingerprint, record), t, codec) <==>
              && MANIFEST in t && t[MANIFEST].File? && |t[MANIFEST].content| <= MAX_CAPSULE_BYTES
              && codec.load(t[MANIFEST].content) == Some(ManifestOf(base, capsuleId))
              && IsLayout(generated[MANIFEST := t[MANIFEST].content], t)
  {
    var base := BaseOf(plan, fingerprint, other, generated);
    if MANIFEST in t && t[MANIFEST].File? {
      var all, now := AllFiles(generated, base, capsuleId, codec), generated[MANIFEST := t[MANIFEST].content];
      assert now.Keys == all.Keys;
      assert IsWritable(now) by {
        assert forall p :: p in now <==> p in all;
      }
      LayoutIffMatch(generated, t[MANIFEST].content, t);
      hide IsLayout, ContentsMatch, IsWritable, IsTree;
      assert HashesOf(generated) == base.contentHashes;
    }
  }

  /** An untouched capsule verifies for one claim only: its plan, its fingerprint and its stored record. */
  lemma OneClaimVerifies(plan: PlanBinding, fingerprint: string, other: string, capsuleId: string,
                         generated: map<Path, seq<byte>>, codec: Codec, t: map<Path, Node>, claim: Claim)
    requires codec.RoundTrips() && MANIFEST !in generated && [] !in generated
    requires var all := AllFiles(generated, BaseOf(plan, fingerprint, other, generated), capsuleId, codec);
             IsLayout(all, t) && IsWritable(all) && TotalBytes(all, all.Keys) <= MAX_CAPSULE_BYTES
    ensures Verifies(claim, t, codec) <==>
              claim == Claim(plan, fingerprint,
                             Record(fingerprint, capsuleId, CapsuleHash(BaseOf(plan, fingerprint, other, generated))))
  {
    UntouchedVerifies(plan, fingerprint, other, capsuleId, generated, codec, t);
    var base := BaseOf(plan, fingerprint, other, generated);
    var m := ManifestOf(base, capsuleId);
    assert t[MANIFEST] == File(codec.render(m)) && codec.load(codec.render(m)) == Some(m);
    hide IsLayout, ContentsMatch, IsWritable, IsTree;
  }
}
