/** Small shared vocabulary: an optional value and a first-match search. */
module Util {

  datatype Option<+T> = None | Some(value: T)

  /** The index of the first element of `s` that satisfies `p`, if any.
      This is the shape of a JavaScript loop that returns on its first hit. */
  function FirstIndex<T>(s: seq<T>, p: T -> bool): (r: Option<nat>)
    ensures r.Some? ==> r.value < |s| && p(s[r.value])
    ensures r.Some? ==> forall j :: 0 <= j < r.value ==> !p(s[j])
    ensures r.None? <==> forall j :: 0 <= j < |s| ==> !p(s[j])
  {
    if s == [] then None
    else if p(s[0]) then Some(0)
    else
      match FirstIndex(s[1..], p)
      case None => None
      case Some(k) => Some(k + 1)
  }

  /** The first hit is unique: any index that hits, with no hit before it, is the one found. */
  lemma FirstIndexIs<T>(s: seq<T>, p: T -> bool, k: nat)
    requires k < |s| && p(s[k])
    requires forall j :: 0 <= j < k ==> !p(s[j])
    ensures FirstIndex(s, p) == Some(k)
  {
    var r := FirstIndex(s, p);
    assert r.Some? by { assert !(forall j :: 0 <= j < |s| ==> !p(s[j])); }
  }
}
