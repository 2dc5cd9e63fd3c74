/** Finite sets: picking an element, and sizes. */
module Sets {

  method Pick<T>(s: set<T>) returns (x: T)
    requires s != {}
    ensures x in s
  {
    x :| x in s;
  }

  lemma Member<T>(s: set<T>) returns (x: T)
    requires s != {}
    ensures x in s
  {
    x :| x in s;
  }

  /** `all` is what is done and what is left. */
  ghost predicate Parts<T>(all: set<T>, done: set<T>, left: set<T>)
  {
    done !! left && done + left == all
  }

  lemma PartsStep<T>(all: set<T>, done: set<T>, left: set<T>, x: T)
    requires Parts(all, done, left) && x in left
    ensures Parts(all, done + {x}, left - {x})
  {
  }

  lemma SubsetSize<T>(a: set<T>, b: set<T>)
    requires a <= b
    ensures |a| <= |b|
    ensures |a| == |b| ==> a == b
  {
    assert b == a + (b - a);
    assert |b| == |a| + |b - a|;
  }
}
