/** Permission containment: app/protocol.py, `is_permission_subset`. */
module Permissions {
  import opened Bytes
  import opened JsonValues

  /** NaN equals nothing, itself included, so neither does a value that holds one. */
  predicate HasNaN(v: Json)
    decreases v
  {
    match v
    case JNaN => true
    case JArr(items) => exists i :: 0 <= i < |items| && HasNaN(items[i])
    case JObj(fields) => exists k :: k in fields && HasNaN(fields[k])
    case _ => false
  }

  predicate IsSubset(granted: Json, requested: Json)
    decreases granted
  {
    match granted
    case JNull => true
    case JObj(fields) =>
      requested.JObj? && forall k :: k in fields ==>
        k in requested.fields && IsSubset(fields[k], requested.fields[k])
    case JArr(items) =>
      requested.JArr? && forall i :: 0 <= i < |items| ==> items[i] in requested.items && !HasNaN(items[i])
    case JBool(value) => requested.JBool? && (!value || requested.value)
    case _ => granted == requested && !granted.JNaN?
  }

  /** A value is contained in itself exactly when it holds no NaN. */
  lemma {:induction false} SubsetReflexive(p: Json)
    ensures IsSubset(p, p) <==> !HasNaN(p)
    decreases p
  {
    if p.JObj? {
      forall k | k in p.fields ensures IsSubset(p.fields[k], p.fields[k]) <==> !HasNaN(p.fields[k]) {
        SubsetReflexive(p.fields[k]);
      }
    }
  }

  /** Narrowing twice is narrowing. */
  lemma {:induction false} SubsetTransitive(a: Json, b: Json, c: Json)
    requires IsSubset(a, b) && IsSubset(b, c)
    ensures IsSubset(a, c)
    decreases a
  {
    if a.JObj? {
      forall k | k in a.fields ensures k in c.fields && IsSubset(a.fields[k], c.fields[k]) {
        SubsetTransitive(a.fields[k], b.fields[k], c.fields[k]);
      }
    }
  }

  // ------------------------------------------------- what a permission value allows

  /** One thing a permission value allows: an atom found by following object keys. */
  datatype Grant =
    | Flag(path: seq<string>)
    | Member(path: seq<string>, item: Json)
    | Exactly(path: seq<string>, leaf: Json)

  function At(p: Json, path: seq<string>): (q: Json) {
    if path == [] then p
    else if p.JObj? && path[0] in p.fields then At(p.fields[path[0]], path[1..])
    else JNull
  }

  predicate IsLeaf(v: Json) {
    !v.JNull? && !v.JBool? && !v.JArr? && !v.JObj?
  }

  predicate Allows(p: Json, g: Grant) {
    match g
    case Flag(path) => At(p, path) == JBool(true)
    case Member(path, item) => At(p, path).JArr? && item in At(p, path).items
    case Exactly(path, leaf) => At(p, path) == leaf && IsLeaf(leaf)
  }

  lemma {:induction false} SubsetAt(granted: Json, requested: Json, path: seq<string>)
    requires IsSubset(granted, requested)
    ensures IsSubset(At(granted, path), At(requested, path))
  {
    if path != [] && granted.JObj? && path[0] in granted.fields {
      SubsetAt(granted.fields[path[0]], requested.fields[path[0]], path[1..]);
    }
  }

  /** A contained permission value allows nothing the requested one does not. */
  lemma SubsetAllowsNoMore(granted: Json, requested: Json, g: Grant)
    requires IsSubset(granted, requested) && Allows(granted, g)
    ensures Allows(requested, g)
  {
    SubsetAt(granted, requested, g.path);
  }

  // ---------------------------------------------------------- containment, path by path

  /** What following object keys leads to, if it leads anywhere. */
  function Lookup(p: Json, path: seq<string>): (q: Option<Json>) {
    if path == [] then Some(p)
    else if p.JObj? && path[0] in p.fields then Lookup(p.fields[path[0]], path[1..])
    else None
  }

  /** A value granted somewhere, and what was requested there. */
  predicate Fits(granted: Json, requested: Option<Json>) {
    && requested.Some?
    && match granted
       case JNull => true
       case JObj(_) => requested.value.JObj?
       case JArr(items) => requested.value.JArr? && forall item :: item in items ==> item in requested.value.items && !HasNaN(item)
       case JBool(flag) => requested.value.JBool? && (flag ==> requested.value.value)
       case JNaN => false
       case _ => requested.value == granted
  }

  ghost predicate FitsEverywhere(granted: Json, requested: Json) {
    forall path :: Lookup(granted, path).Some? ==> Fits(Lookup(granted, path).value, Lookup(requested, path))
  }

  /** A permission value is contained exactly when, wherever it grants something, that fits what was requested there. */
  lemma {:induction false} SubsetIffFits(granted: Json, requested: Json)
    ensures IsSubset(granted, requested) <==> FitsEverywhere(granted, requested)
    decreases granted
  {
    if IsSubset(granted, requested) {
      forall path | Lookup(granted, path).Some? ensures Fits(Lookup(granted, path).value, Lookup(requested, path)) {
        SubsetFits(granted, requested, path);
      }
    }
    if FitsEverywhere(granted, requested) {
      assert Lookup(granted, []) == Some(granted) && Lookup(requested, []) == Some(requested);
      assert Fits(granted, Some(requested));
      if granted.JObj? {
        forall k | k in granted.fields ensures k in requested.fields && IsSubset(granted.fields[k], requested.fields[k]) {
          FitsBelow(granted, requested, k);
          SubsetIffFits(granted.fields[k], requested.fields[k]);
        }
      } else if granted.JArr? {
        assert forall i :: 0 <= i < |granted.items| ==> granted.items[i] in granted.items;
      }
    }
  }

  lemma FitsBelow(granted: Json, requested: Json, k: string)
    requires FitsEverywhere(granted, requested) && granted.JObj? && k in granted.fields && requested.JObj?
    ensures k in requested.fields && FitsEverywhere(granted.fields[k], requested.fields[k])
  {
    assert [k][1..] == [] && Lookup(granted, [k]) == Some(granted.fields[k]);
    forall path | Lookup(granted.fields[k], path).Some?
      ensures Fits(Lookup(granted.fields[k], path).value, Lookup(requested.fields[k], path))
    {
      assert ([k] + path)[1..] == path;
      assert Lookup(granted, [k] + path) == Lookup(granted.fields[k], path);
      assert Lookup(requested, [k] + path) == Lookup(requested.fields[k], path);
    }
  }

  lemma {:induction false} SubsetFits(granted: Json, requested: Json, path: seq<string>)
    requires IsSubset(granted, requested) && Lookup(granted, path).Some?
    ensures Fits(Lookup(granted, path).value, Lookup(requested, path))
  {
    if path == [] {
      if granted.JArr? {
        forall item | item in granted.items ensures item in requested.items && !HasNaN(item) {
          var i :| 0 <= i < |granted.items| && granted.items[i] == item;
        }
      }
    } else {
      SubsetFits(granted.fields[path[0]], requested.fields[path[0]], path[1..]);
    }
  }
}
