/** The reference pool, modelled abstractly: a bag of released instances of
    one type. Acquiring hands out one of them (which one is left open) or,
    when there is none, a newly constructed instance; releasing clears the
    instance and stores it. */
module ReferencePool {

  datatype Pool<T> = Pool(free: seq<T>)

  /** `Acquire<T>()`: the stored instance at position `pick` (modulo the
      number stored) is taken out, or `construct` is returned when nothing
      is stored. */
  function Acquire<T>(p: Pool<T>, construct: T, pick: nat): (r: (Pool<T>, T))
    ensures |p.free| == 0 ==> r == (p, construct)
    ensures |p.free| > 0 ==> |r.0.free| == |p.free| - 1 && r.1 in p.free
    ensures |p.free| > 0 ==> multiset(r.0.free) + multiset{r.1} == multiset(p.free)
  {
    if |p.free| == 0 then (p, construct)
    else
      var k := pick % |p.free|;
      assert p.free == p.free[..k] + [p.free[k]] + p.free[k + 1..];
      (Pool(p.free[..k] + p.free[k + 1..]), p.free[k])
  }

  /** `Release(x)`: `x` is cleared, then stored. */
  function Release<T>(p: Pool<T>, x: T, clear: T -> T): (r: Pool<T>)
    ensures multiset(r.free) == multiset(p.free) + multiset{clear(x)}
    ensures |r.free| == |p.free| + 1
  {
    Pool(p.free + [clear(x)])
  }

  /** For a type whose `Clear` always restores the constructor state
      `initial`, release followed by acquire hands out `initial` again, whichever
      stored instance the pool picks. */
  lemma ReleaseThenAcquireIsFresh<T(!new)>(p: Pool<T>, x: T, initial: T, pick: nat, clear: T -> T)
    requires forall y :: clear(y) == initial
    requires forall i :: 0 <= i < |p.free| ==> p.free[i] == initial
    ensures Acquire(Release(p, x, clear), initial, pick).1 == initial
  {
    var r := Release(p, x, clear);
    assert forall i :: 0 <= i < |r.free| ==> r.free[i] == initial by {
      forall i | 0 <= i < |r.free| ensures r.free[i] == initial {
        if i < |p.free| {
          assert r.free[i] == p.free[i];
        }
      }
    }
  }
}
