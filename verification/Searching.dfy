/** Looking through places one by one, for as many as there is room for, and
    stopping once everything there is to find is accounted for
    (src/db.rs:1535-1576). */
module Searching {
  import opened Sets

  /** What a search is after: the places it may look, what it would find at each
      that has anything to show, the ones the caller may be shown, and all that
      are counted, whether or not they still have anything to show. */
  datatype Goal<N, A> = Goal(all: set<N>, shown: map<N, A>, permitted: set<N>, holders: set<N>)

  ghost predicate GoalSound<N, A>(g: Goal<N, A>)
  {
    g.permitted <= g.shown.Keys <= g.holders <= g.all
  }

  /** A search with `left` still to look at, and `found` found so far. */
  ghost predicate Looked<N(!new), A>(g: Goal<N, A>, left: set<N>, found: set<N>, hits: map<N, A>, limit: nat)
  {
    && (forall n :: n in found <==> n in g.shown && n !in left)
    && (forall n :: n in hits <==> n in g.permitted && n !in left)
    && |hits| <= limit && AreShown(g, hits)
  }

  ghost predicate AreShown<N, A>(g: Goal<N, A>, hits: map<N, A>)
  {
    forall n :: n in hits ==> n in g.shown && hits[n] == g.shown[n]
  }

  /** There was one more to show than there is room for. */
  ghost predicate TooMany<N, A>(g: Goal<N, A>, hits: map<N, A>, limit: nat)
  {
    |g.permitted| > limit && hits.Keys <= g.permitted && |hits| == limit && AreShown(g, hits)
  }

  lemma SearchStart<N(!new), A>(g: Goal<N, A>, limit: nat)
    requires GoalSound(g)
    ensures Looked(g, g.all, {}, map[], limit)
  {
  }

  /** One more place looked at, and nothing there the caller may be shown. */
  lemma LookedPast<N(!new), A>(g: Goal<N, A>, left: set<N>, found: set<N>, hits: map<N, A>, limit: nat, name: N)
    requires GoalSound(g) && Looked(g, left, found, hits, limit) && name in left && name !in g.permitted
    ensures Looked(g, left - {name}, if name in g.shown then found + {name} else found, hits, limit)
  {
  }

  /** One more place looked at, with something there for the caller. */
  lemma LookedAndFound<N(!new), A>(g: Goal<N, A>, left: set<N>, found: set<N>, hits: map<N, A>, limit: nat, name: N)
    requires GoalSound(g) && Looked(g, left, found, hits, limit) && name in left && name in g.permitted
    ensures if |hits| < limit then Looked(g, left - {name}, found + {name}, hits[name := g.shown[name]], limit)
            else TooMany(g, hits, limit)
  {
    OneMoreHit(g.permitted, hits, name, g.shown[name]);
  }

  lemma OneMoreHit<N, A>(permitted: set<N>, hits: map<N, A>, name: N, a: A)
    requires hits.Keys <= permitted && name in permitted && name !in hits
    ensures hits[name := a].Keys == hits.Keys + {name} && |hits[name := a]| == |hits| + 1
    ensures |permitted| > |hits|
  {
    SubsetSize(hits[name := a].Keys, permitted);
  }

  /** What was found is all there is to show, and there was room for it. */
  ghost predicate FoundAll<N, A>(g: Goal<N, A>, hits: map<N, A>, limit: nat)
  {
    hits.Keys == g.permitted && |g.permitted| <= limit && AreShown(g, hits)
  }

  /** A search that has looked everywhere, or has found as many as are counted,
      has found everything, wherever else it might have looked. */
  lemma SearchEnd<N(!new), A>(g: Goal<N, A>, left: set<N>, found: set<N>, hits: map<N, A>, limit: nat)
    requires GoalSound(g) && Looked(g, left, found, hits, limit) && (left == {} || |found| >= |g.holders|)
    ensures FoundAll(g, hits, limit)
  {
    assert found <= g.shown.Keys;
    SubsetSize(found, g.shown.Keys);
    SubsetSize(g.shown.Keys, g.holders);
    assert hits.Keys == g.permitted;
    assert |hits| == |hits.Keys|;
  }
}
