/** The one array search the core uses, `Array.prototype.find`. */
module Arrays {
  import opened Wrappers

  /**
   * `s.find(p)`: the index of the first element satisfying `p`, or `None` when
   * no element does. (`find` itself returns `s[i]`; returning the index keeps
   * the position available to the specifications.)
   */
  function FindFirst<T>(s: seq<T>, p: T -> bool): (r: Option<nat>)
    ensures r.Some? ==> r.value < |s| && p(s[r.value])
    ensures r.Some? ==> forall j :: 0 <= j < r.value ==> !p(s[j])
    ensures r.None? <==> forall j :: 0 <= j < |s| ==> !p(s[j])
  {
    if |s| == 0 then None
    else if p(s[0]) then Some(0)
    else
      match FindFirst(s[1..], p)
      case Some(i) => Some(i + 1)
      case None => None
  }
}
