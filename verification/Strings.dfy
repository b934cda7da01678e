/** Strings in code point order, as Python sorts them. */
module Strings {

  /** Lexicographic order of strings by code point. */
  predicate Less(a: string, b: string) {
    b != [] && (a == [] || a[0] < b[0] || (a[0] == b[0] && Less(a[1..], b[1..])))
  }

  lemma {:induction false} LessTransitive(a: string, b: string, c: string)
    requires Less(a, b) && Less(b, c)
    ensures Less(a, c)
  {
    if a != [] && a[0] == b[0] == c[0] {
      LessTransitive(a[1..], b[1..], c[1..]);
    }
  }

  lemma {:induction false} LessTotal(a: string, b: string)
    ensures Less(a, b) || a == b || Less(b, a)
    ensures !(Less(a, b) && (a == b || Less(b, a)))
  {
    if a != [] && b != [] && a[0] == b[0] {
      LessTotal(a[1..], b[1..]);
      assert a == [a[0]] + a[1..] && b == [b[0]] + b[1..];
    } else if a == b && a == [] {
    }
  }

  ghost predicate Increasing(keys: seq<string>) {
    forall i, j :: 0 <= i < j < |keys| ==> Less(keys[i], keys[j])
  }

  function InsertKey(key: string, keys: seq<string>): (r: seq<string>)
    requires Increasing(keys)
    ensures Increasing(r)
    ensures forall k :: k in r <==> k == key || k in keys
  {
    if keys == [] then [key]
    else if key == keys[0] then keys
    else
      LessTotal(key, keys[0]);
      if Less(key, keys[0]) then
        assert forall j :: 0 < j < |keys| ==> Less(key, keys[j]) by {
          forall j | 0 < j < |keys| ensures Less(key, keys[j]) { LessTransitive(key, keys[0], keys[j]); }
        }
        [key] + keys
      else
        var rest := InsertKey(key, keys[1..]);
        assert forall j :: 0 <= j < |rest| ==> rest[j] in rest;
        [keys[0]] + rest
  }

  function SortKeys(keys: seq<string>): (r: seq<string>)
    ensures Increasing(r)
    ensures forall k :: k in r <==> k in keys
  {
    if keys == [] then [] else InsertKey(keys[0], SortKeys(keys[1..]))
  }
}
