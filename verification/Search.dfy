/** `std::bsearch`, as the map and vector lookups use it. */
module Search {
  import opened Bytes

  /** `std::bsearch` over elements lo up to hi, given how the key compares to each. */
  function BinarySearch(comparisons: seq<int>, lo: nat, hi: nat): (r: Option<nat>)
    requires lo <= hi <= |comparisons|
    ensures r.Some? ==> lo <= r.value < hi && comparisons[r.value] == 0
    decreases hi - lo
  {
    if lo == hi then None else
      var mid := (lo + hi) / 2;
      if comparisons[mid] < 0 then BinarySearch(comparisons, lo, mid)
      else if comparisons[mid] > 0 then BinarySearch(comparisons, mid + 1, hi)
      else Some(mid)
  }

  /** The search stops at an element equal to the key, or between its neighbours. */
  lemma {:induction false} BinarySearchStops(comparisons: seq<int>, lo: nat, hi: nat) returns (p: nat)
    requires lo <= hi <= |comparisons|
    ensures BinarySearch(comparisons, lo, hi).None? ==>
      lo <= p <= hi && (p > lo ==> comparisons[p - 1] > 0) && (p < hi ==> comparisons[p] < 0)
    decreases hi - lo
  {
    p := lo;
    if lo < hi {
      var mid := (lo + hi) / 2;
      if comparisons[mid] < 0 {
        p := BinarySearchStops(comparisons, lo, mid);
      } else if comparisons[mid] > 0 {
        p := BinarySearchStops(comparisons, mid + 1, hi);
      }
    }
  }
}
