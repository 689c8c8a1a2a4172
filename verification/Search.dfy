/** Binary search as the source's library does it, over the comparison of each element with the target. */
module Search {
  import opened Common

  datatype Ordering = Less | Equal | Greater {
    function Rank(): int {
      match this
      case Less => -1
      case Equal => 0
      case Greater => 1
    }
  }

  function Compare(a: int, b: int): Ordering {
    if a < b then Less else if a == b then Equal else Greater
  }

  ghost predicate Ordered(c: seq<Ordering>) {
    forall i, j :: 0 <= i < j < |c| ==> c[i].Rank() <= c[j].Rank()
  }

  /** Ok(i) is a match; Err(i) is the only place where the target could be inserted. */
  ghost predicate IsSearchResult(c: seq<Ordering>, r: Result<nat, nat>) {
    match r
    case Ok(i) => i < |c| && c[i].Equal?
    case Err(i) => i <= |c| && (forall k :: 0 <= k < i ==> c[k].Less?) && (forall k :: i <= k < |c| ==> c[k].Greater?)
  }

  function BinarySearch(c: seq<Ordering>): (r: Result<nat, nat>)
    requires Ordered(c)
    ensures IsSearchResult(c, r)
  {
    Bisect(c, 0, |c|)
  }

  function Bisect(c: seq<Ordering>, lo: nat, hi: nat): (r: Result<nat, nat>)
    requires Ordered(c) && lo <= hi <= |c|
    requires (forall k :: 0 <= k < lo ==> c[k].Less?) && (forall k :: hi <= k < |c| ==> c[k].Greater?)
    ensures IsSearchResult(c, r)
    decreases hi - lo
  {
    if lo == hi then Err(lo)
    else
      var mid := (lo + hi) / 2;
      match c[mid]
      case Equal => Ok(mid)
      case Less =>
        assert forall k :: 0 <= k < mid ==> c[k].Rank() <= c[mid].Rank();
        Bisect(c, mid + 1, hi)
      case Greater =>
        assert forall k :: mid < k < |c| ==> c[mid].Rank() <= c[k].Rank();
        Bisect(c, lo, mid)
  }
}
