/** Lookup by identity and the size of subsets. */
module Lists {
  import opened Text

  /** The first element from `from` on with the wanted identity. */
  function FindFrom<T>(s: seq<T>, identity: T -> string, wanted: string, from: nat): (r: Option<nat>)
    requires from <= |s|
    ensures r.Some? ==> from <= r.value < |s| && identity(s[r.value]) == wanted
    ensures r.None? ==> forall i :: from <= i < |s| ==> identity(s[i]) != wanted
    decreases |s| - from
  {
    if from == |s| then None
    else if identity(s[from]) == wanted then Some(from)
    else FindFrom(s, identity, wanted, from + 1)
  }

  lemma {:induction false} SubsetSize<T>(a: set<T>, b: set<T>)
    requires a <= b
    ensures |a| <= |b|
    decreases |a|
  {
    if a != {} {
      var x :| x in a;
      SubsetSize(a - {x}, b - {x});
    }
  }
}
