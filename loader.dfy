/**
 * Load bookkeeping of the element loader: per-name counters of elements
 * still to load, the total ever queued and the number loaded so far.
 */
module Loading {
  import opened Wrappers

  /** The counters a fresh loader starts with. */
  const InitialElements: map<string, int> := map["video" := 0, "audio" := 0, "images" := 0, "backgroundImages" := 0]

  /** The counter of a name; a missing name counts as 0. */
  function Get(m: map<string, int>, name: string): int {
    if name in m then m[name] else 0
  }

  /** The sum of all counters of the map. */
  ghost function Sum(m: map<string, int>): int
    decreases |m|
  {
    if m == map[] then 0
    else
      var k :| k in m;
      m[k] + Sum(m - {k})
  }

  /** Sum does not depend on which key is taken out first. */
  lemma {:induction false} SumRemove(m: map<string, int>, k: string)
    requires k in m
    ensures Sum(m) == m[k] + Sum(m - {k})
    decreases |m|
  {
    var j :| j in m && Sum(m) == m[j] + Sum(m - {j});
    if j != k {
      var mj := m - {j};
      var mk := m - {k};
      assert k in mj && j in mk;
      SumRemove(mj, k);
      SumRemove(mk, j);
      assert mj - {k} == mk - {j};
    }
  }

  /** Setting the counter of `name` to v changes the sum by v minus its old count. */
  lemma SumUpdate(m: map<string, int>, name: string, v: int)
    ensures Sum(m[name := v]) == Sum(m) - Get(m, name) + v
  {
    var m' := m[name := v];
    SumRemove(m', name);
    if name in m {
      SumRemove(m, name);
      assert m' - {name} == m - {name};
    } else {
      assert m' - {name} == m;
    }
  }

  predicate AllNonNegative(m: map<string, int>) {
    forall k :: k in m ==> m[k] >= 0
  }

  /** A map of non-negative counters has a non-negative sum. */
  lemma {:induction false} SumNonNegative(m: map<string, int>)
    requires AllNonNegative(m)
    ensures Sum(m) >= 0
    decreases |m|
  {
    if m != map[] {
      var k :| k in m;
      SumRemove(m, k);
      SumNonNegative(m - {k});
    }
  }

  /** A map of zero counters sums to zero. */
  lemma {:induction false} SumZero(m: map<string, int>)
    requires forall k :: k in m ==> m[k] == 0
    ensures Sum(m) == 0
    decreases |m|
  {
    if m != map[] {
      var k :| k in m;
      SumRemove(m, k);
      SumZero(m - {k});
    }
  }

  /** Loaded plus non-negative pending counts over a positive total is a fraction in [0, 1]. */
  lemma ProgressInUnit(loaded: int, total: int, pending: map<string, int>)
    ensures 0 <= loaded && 0 < total && AllNonNegative(pending) && loaded + Sum(pending) == total ==>
              0.0 <= loaded as real / total as real <= 1.0
  {
    if AllNonNegative(pending) {
      SumNonNegative(pending);
    }
  }

  class Loader {
    /** Elements still being loaded, per name. */
    var loadElements: map<string, int>
    var totalElementsToLoad: int
    var nowLoaded: int
    /** Set once loading has failed; null (None) until then. */
    var errorMessage: Option<string>

    /** Everything ever queued is either loaded or still pending. */
    ghost predicate Valid()
      reads this
    {
      nowLoaded + Sum(loadElements) == totalElementsToLoad
    }

    constructor ()
      ensures loadElements == InitialElements
      ensures totalElementsToLoad == 0 && nowLoaded == 0 && errorMessage == None
      ensures Valid()
    {
      loadElements := InitialElements;
      totalElementsToLoad := 0;
      nowLoaded := 0;
      errorMessage := None;
      SumZero(InitialElements);
    }

    /** Queues `count` more elements under `name`. */
    method Add(name: string, count: int)
      modifies this
      ensures loadElements == old(loadElements)[name := Get(old(loadElements), name) + count]
      ensures totalElementsToLoad == old(totalElementsToLoad) + count
      ensures nowLoaded == old(nowLoaded) && errorMessage == old(errorMessage)
      ensures old(Valid()) ==> Valid()
    {
      var value := Get(loadElements, name);
      value := value + count;
      totalElementsToLoad := totalElementsToLoad + count;
      SumUpdate(loadElements, name, value);
      loadElements := loadElements[name := value];
    }

    /** The total ever queued; under Valid() it is loaded plus pending, not what is left. */
    function GetLeftCount(): (r: int)
      reads this
      requires Valid()
      ensures r == nowLoaded + Sum(loadElements)
    {
      totalElementsToLoad
    }

    /**
     * Marks `count` elements of `name` as loaded. Fails, changing nothing,
     * when that would take the counter of `name` below zero.
     */
    method Mark(name: string, count: int) returns (outcome: Outcome)
      modifies this
      ensures outcome.Fail? <==> Get(old(loadElements), name) - count < 0
      ensures outcome.Fail? ==> loadElements == old(loadElements) && nowLoaded == old(nowLoaded)
      ensures outcome.Pass? ==> loadElements == old(loadElements)[name := Get(old(loadElements), name) - count]
      ensures outcome.Pass? ==> nowLoaded == old(nowLoaded) + count
      ensures totalElementsToLoad == old(totalElementsToLoad) && errorMessage == old(errorMessage)
      ensures old(Valid()) ==> Valid()
    {
      var value := Get(loadElements, name);
      value := value - count;
      if value < 0 {
        return Fail("Loading book keeping failure for:" + name);
      }
      SumUpdate(loadElements, name, value);
      loadElements := loadElements[name := value];
      nowLoaded := nowLoaded + count;
      return Pass;
    }

    /**
     * nowLoaded / totalElementsToLoad; None stands for the NaN or infinity of
     * a division by a zero total. With the invariant, a positive total and
     * no negative counts it lies in [0, 1].
     */
    function GetProgress(): (r: Option<real>)
      reads this
      ensures r.Some? <==> totalElementsToLoad != 0
      ensures r.Some? ==> r.value * totalElementsToLoad as real == nowLoaded as real
      ensures Valid() && totalElementsToLoad > 0 && nowLoaded >= 0 && AllNonNegative(loadElements) ==>
                r.Some? && 0.0 <= r.value <= 1.0
    {
      if totalElementsToLoad == 0 then None
      else
        ProgressInUnit(nowLoaded, totalElementsToLoad, loadElements);
        Some(nowLoaded as real / totalElementsToLoad as real)
    }

    /** Records the failure message. */
    method SetError(msg: string)
      modifies this
      ensures errorMessage == Some(msg)
      ensures loadElements == old(loadElements)
      ensures totalElementsToLoad == old(totalElementsToLoad) && nowLoaded == old(nowLoaded)
    {
      errorMessage := Some(msg);
    }
  }
}
