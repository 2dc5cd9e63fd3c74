/** A bounded list of (namespace, value) pairs in order of last write, kept in
    two indexes (src/latest.rs). */
module LatestWrites {
  import opened Options
  import opened Namespaces
  import opened Recency

  const MAX_LIMIT: nat := 1000

  datatype Entry = Entry(namespace: string, value: string, written: int)

  /** What an entry is about. */
  datatype Pair = Pair(namespace: string, value: string)

  function PairOf(e: Entry): Pair
  {
    Pair(e.namespace, e.value)
  }

  function KeyOf(pair: Pair): string
  {
    pair.namespace + ['\0'] + pair.value
  }

  /** The one string the index knows an entry by. */
  function Joined(e: Entry): string
  {
    KeyOf(PairOf(e))
  }

  /** The joined string tells pairs apart as long as namespaces are free of NUL. */
  lemma KeysAreDistinct(a: Pair, b: Pair)
    requires '\0' !in a.namespace && '\0' !in b.namespace
    ensures KeyOf(a) == KeyOf(b) <==> a == b
  {
    if KeyOf(a) == KeyOf(b) {
      FirstNul(a, b);
      FirstNul(b, a);
      var m := |a.namespace|;
      assert a.namespace == KeyOf(a)[..m] && b.namespace == KeyOf(b)[..m];
      assert a.value == KeyOf(a)[m + 1..] && b.value == KeyOf(b)[m + 1..];
    }
  }

  lemma FirstNul(a: Pair, b: Pair)
    requires '\0' !in b.namespace && KeyOf(a) == KeyOf(b)
    ensures |a.namespace| >= |b.namespace|
  {
    assert KeyOf(a)[|a.namespace|] == '\0';
    assert forall i :: 0 <= i < |b.namespace| ==> KeyOf(b)[i] == b.namespace[i];
  }

  // ---------------------------------------------------------------------
  // Which runs of writes are recorded as promised.
  // ---------------------------------------------------------------------

  lemma JoinedIsCoarser()
    ensures Coarser(Joined, PairOf)
  {
    forall a, b | PairOf(a) == PairOf(b) ensures Joined(a) == Joined(b) {}
  }

  /** The record holds the last distinct pairs that fit, whatever it has room for,
      if and only if no two different pairs written share a joined key. */
  lemma KeepsLastPairsIff(writes: seq<Entry>)
    ensures (forall capacity: nat :: KeepsLast(Joined, PairOf, writes, capacity)) <==> Apart(Joined, PairOf, writes)
  {
    JoinedIsCoarser();
    KeepsLastIff(Joined, PairOf, writes);
  }

  /** Which a NUL in no namespace is enough for. */
  lemma KeepsLastPairs(writes: seq<Entry>, capacity: nat)
    requires forall i :: 0 <= i < |writes| ==> '\0' !in writes[i].namespace
    ensures KeepsLast(Joined, PairOf, writes, capacity)
  {
    forall i, j | 0 <= i < j < |writes| && Joined(writes[i]) == Joined(writes[j])
      ensures PairOf(writes[i]) == PairOf(writes[j])
    {
      KeysAreDistinct(PairOf(writes[i]), PairOf(writes[j]));
    }
    KeepsLastPairsIff(writes);
  }

  /** With one it can fail: the second of these writes drops the first, though the
      pairs differ and there is room for both. */
  lemma PairsCollide(written: int, later: int)
    ensures var a, b := Entry("a", "b\0c", written), Entry("a\0b", "c", later);
            && PairOf(a) != PairOf(b)
            && PushAll(Joined, [], [a, b], 2) == [b] && LastWrites(PairOf, [a, b]) == [a, b]
  {
    var a, b := Entry("a", "b\0c", written), Entry("a\0b", "c", later);
    assert Joined(a) == "a\0b\0c" && Joined(b) == "a\0b\0c";
    assert [a, b][1..] == [b] && LastWrites(Joined, [b]) == [b] && LastWrites(PairOf, [b]) == [b];
    assert [b][0] == b;
    KeepsLastDistinct(Joined, [a, b], 2);
  }

  // ---------------------------------------------------------------------
  // Reading: newest first, filtered.
  // ---------------------------------------------------------------------

  datatype Query = Query(limit: nat, since: Option<int>, prefix: string, visible: string -> bool)

  /** What a query's prefix lets through; an empty one lets everything through. */
  predicate Under(namespace: string, prefix: string)
  {
    prefix == "" || AtOrBelow(namespace, prefix)
  }

  predicate TooOld(q: Query, e: Entry)
  {
    q.since.Some? && e.written < q.since.value
  }

  predicate Shown(q: Query, e: Entry)
  {
    Under(e.namespace, TrimSlashes(q.prefix)) && q.visible(e.namespace)
  }

  function FirstOf<T>(s: seq<T>, n: nat): seq<T>
  {
    if |s| <= n then s else s[..n]
  }

  function Limit(q: Query): nat
  {
    if q.limit <= MAX_LIMIT then q.limit else MAX_LIMIT
  }

  /** Everything asked for, newest first, with nothing clever. */
  function Matches(s: seq<Entry>, q: Query): seq<Entry>
  {
    if |s| == 0 then []
    else
      var e := s[|s| - 1];
      (if !TooOld(q, e) && Shown(q, e) then [e] else []) + Matches(s[..|s| - 1], q)
  }

  function PlainFilter(s: seq<Entry>, q: Query): seq<Entry>
  {
    FirstOf(Matches(s, q), Limit(q))
  }

  /** How far back the walk looks: to just after the newest entry that is too old. */
  function LooksBackTo(s: seq<Entry>, q: Query): (r: nat)
    ensures r <= |s|
    ensures r > 0 ==> TooOld(q, s[r - 1])
    ensures forall i :: r <= i < |s| ==> !TooOld(q, s[i])
  {
    if |s| == 0 then 0
    else if TooOld(q, s[|s| - 1]) then |s|
    else LooksBackTo(s[..|s| - 1], q)
  }

  function EarlyStop(s: seq<Entry>, q: Query): seq<Entry>
  {
    FirstOf(Matches(s[LooksBackTo(s, q)..], q), Limit(q))
  }

  /** What a query asks for: written since, at or below its prefix, and visible. */
  lemma AskedForIff(q: Query, e: Entry)
    ensures !TooOld(q, e) && Shown(q, e) <==>
            && (q.since.Some? ==> q.since.value <= e.written)
            && (TrimSlashes(q.prefix) == "" || Segments(TrimSlashes(q.prefix)) <= Segments(e.namespace))
            && q.visible(e.namespace)
  {
    AtOrBelowIff(e.namespace, TrimSlashes(q.prefix));
  }

  function Backwards<T>(s: seq<T>, wanted: T -> bool): seq<T>
  {
    if |s| == 0 then []
    else (if wanted(s[|s| - 1]) then [s[|s| - 1]] else []) + Backwards(s[..|s| - 1], wanted)
  }

  /** These are the places of what is wanted, from the last to the first. */
  ghost predicate PlacesOf<T>(s: seq<T>, wanted: T -> bool, places: seq<nat>)
  {
    && (forall k :: 0 <= k < |places| ==> places[k] < |s|)
    && (forall j, k :: 0 <= j < k < |places| ==> places[j] > places[k])
    && (forall i :: 0 <= i < |s| ==> (i in places <==> wanted(s[i])))
  }

  lemma PlacesNext<T>(s: seq<T>, wanted: T -> bool, rest: seq<nat>)
    requires |s| > 0 && PlacesOf(s[..|s| - 1], wanted, rest)
    ensures PlacesOf(s, wanted, (if wanted(s[|s| - 1]) then [|s| - 1] else []) + rest)
  {
    var n := |s| - 1;
    var places := (if wanted(s[n]) then [n] else []) + rest;
    assert n !in rest;
    forall i | 0 <= i < |s| ensures i in places <==> wanted(s[i]) {
      if i < n { assert s[..n][i] == s[i]; }
    }
  }

  lemma {:induction false} BackwardsAre<T>(s: seq<T>, wanted: T -> bool) returns (places: seq<nat>)
    ensures PlacesOf(s, wanted, places) && |places| == |Backwards(s, wanted)|
    ensures forall k :: 0 <= k < |places| ==> Backwards(s, wanted)[k] == s[places[k]]
  {
    places := [];
    if |s| > 0 {
      var n := |s| - 1;
      var rest := BackwardsAre(s[..n], wanted);
      PlacesNext(s, wanted, rest);
      places := (if wanted(s[n]) then [n] else []) + rest;
      forall k | 0 <= k < |places| ensures Backwards(s, wanted)[k] == s[places[k]] {
        var at := if wanted(s[n]) then k - 1 else k;
        if at >= 0 { assert Backwards(s[..n], wanted)[at] == s[..n][rest[at]]; }
      }
    }
  }

  function Wanted(q: Query): Entry -> bool
  {
    (e: Entry) => !TooOld(q, e) && Shown(q, e)
  }

  lemma {:induction false} MatchesAreWanted(s: seq<Entry>, q: Query)
    ensures Matches(s, q) == Backwards(s, Wanted(q))
  {
    if |s| > 0 { MatchesAreWanted(s[..|s| - 1], q); }
  }

  /** The plain filter lists all of those, the newest first. */
  lemma MatchesAre(s: seq<Entry>, q: Query) returns (places: seq<nat>)
    ensures |places| == |Matches(s, q)|
    ensures forall k :: 0 <= k < |places| ==> places[k] < |s| && Matches(s, q)[k] == s[places[k]]
    ensures forall j, k :: 0 <= j < k < |places| ==> places[j] > places[k]
    ensures forall i :: 0 <= i < |s| ==> (i in places <==> !TooOld(q, s[i]) && Shown(q, s[i]))
  {
    MatchesAreWanted(s, q);
    places := BackwardsAre(s, Wanted(q));
    forall i | 0 <= i < |s| ensures i in places <==> !TooOld(q, s[i]) && Shown(q, s[i]) {
      assert Wanted(q)(s[i]) <==> !TooOld(q, s[i]) && Shown(q, s[i]);
    }
  }

  /** Of which an answer has the first, as many as were asked for and never more
      than a thousand. */
  lemma AnswerIs(s: seq<Entry>, q: Query)
    ensures PlainFilter(s, q) <= Matches(s, q)
    ensures |PlainFilter(s, q)| <= q.limit && |PlainFilter(s, q)| <= 1000
    ensures |PlainFilter(s, q)| < q.limit && |PlainFilter(s, q)| < 1000 ==> PlainFilter(s, q) == Matches(s, q)
  {
  }

  lemma {:induction false} MatchesBoth(a: seq<Entry>, b: seq<Entry>, q: Query)
    ensures Matches(a + b, q) == Matches(b, q) + Matches(a, q)
    decreases |b|
  {
    if |b| == 0 {
      assert a + b == a;
    } else {
      var front := b[..|b| - 1];
      assert (a + b)[..|a + b| - 1] == a + front;
      MatchesBoth(a, front, q);
    }
  }

  /** Stopping early loses nothing exactly when the answer is full already, or
      nothing before the place it stopped at was asked for. */
  lemma EarlyStopIff(s: seq<Entry>, q: Query)
    ensures EarlyStop(s, q) == PlainFilter(s, q) <==>
            || |Matches(s[LooksBackTo(s, q)..], q)| >= Limit(q)
            || Matches(s[..LooksBackTo(s, q)], q) == []
  {
    var at := LooksBackTo(s, q);
    assert s == s[..at] + s[at..];
    MatchesBoth(s[..at], s[at..], q);
    var near, far := Matches(s[at..], q), Matches(s[..at], q);
    if |near| < Limit(q) {
      assert |FirstOf(near + far, Limit(q))| > |near| <==> |far| > 0;
    } else {
      assert FirstOf(near + far, Limit(q)) == FirstOf(near, Limit(q));
    }
  }

  ghost predicate TimeOrder(s: seq<Entry>)
  {
    forall i, j :: 0 <= i < j < |s| ==> s[i].written <= s[j].written
  }

  lemma {:induction false} NothingOldMatches(s: seq<Entry>, q: Query)
    requires forall i :: 0 <= i < |s| ==> TooOld(q, s[i])
    ensures Matches(s, q) == []
  {
    if |s| > 0 { NothingOldMatches(s[..|s| - 1], q); }
  }

  /** With arrival in time order the early stop is the plain filter. */
  lemma EarlyStopIsExact(s: seq<Entry>, q: Query)
    requires TimeOrder(s)
    ensures EarlyStop(s, q) == PlainFilter(s, q)
  {
    NothingOldMatches(s[..LooksBackTo(s, q)], q);
    EarlyStopIff(s, q);
  }

  lemma {:induction false} MatchesHolds(s: seq<Entry>, q: Query, i: nat)
    requires i < |s| && !TooOld(q, s[i]) && Shown(q, s[i])
    ensures s[i] in Matches(s, q)
  {
    if i < |s| - 1 { MatchesHolds(s[..|s| - 1], q, i); }
  }

  ghost predicate AnswersEveryQuery(s: seq<Entry>)
  {
    forall q :: EarlyStop(s, q) == PlainFilter(s, q)
  }

  /** How many entries are of this namespace. */
  function OfNamespace(s: seq<Entry>, namespace: string): nat
  {
    if |s| == 0 then 0
    else (if s[|s| - 1].namespace == namespace then 1 else 0) + OfNamespace(s[..|s| - 1], namespace)
  }

  lemma {:induction false} OfNamespaceFew(s: seq<Entry>, namespace: string)
    ensures OfNamespace(s, namespace) <= |s|
  {
    if |s| > 0 { OfNamespaceFew(s[..|s| - 1], namespace); }
  }

  lemma {:induction false} OfNamespaceBoth(a: seq<Entry>, b: seq<Entry>, namespace: string)
    ensures OfNamespace(a + b, namespace) == OfNamespace(a, namespace) + OfNamespace(b, namespace)
    decreases |b|
  {
    if |b| == 0 {
      assert a + b == a;
    } else {
      assert (a + b)[..|a + b| - 1] == a + b[..|b| - 1];
      OfNamespaceBoth(a, b[..|b| - 1], namespace);
    }
  }

  /** Everything in one namespace from the given time on. */
  function OnlyFrom(namespace: string, since: int): Query
  {
    Query(MAX_LIMIT, Some(since), "", n => n == namespace)
  }

  lemma {:induction false} MatchesOfNamespace(s: seq<Entry>, q: Query, namespace: string)
    requires forall i :: 0 <= i < |s| ==> !TooOld(q, s[i])
    requires forall e :: e in s && e.namespace == namespace ==> Shown(q, e)
    ensures |Matches(s, q)| >= OfNamespace(s, namespace)
    ensures (forall e :: e in s && Shown(q, e) ==> e.namespace == namespace) ==>
              |Matches(s, q)| == OfNamespace(s, namespace)
  {
    if |s| > 0 {
      assert s[|s| - 1] in s;
      MatchesOfNamespace(s[..|s| - 1], q, namespace);
    }
  }

  lemma {:induction false} MatchIsThere(s: seq<Entry>, q: Query)
    requires Matches(s, q) != []
    ensures exists i :: 0 <= i < |s| && !TooOld(q, s[i]) && Shown(q, s[i])
  {
    var e := s[|s| - 1];
    if TooOld(q, e) || !Shown(q, e) {
      MatchIsThere(s[..|s| - 1], q);
      var i: nat :| i < |s| - 1 && !TooOld(q, s[..|s| - 1][i]) && Shown(q, s[..|s| - 1][i]);
      assert s[i] == s[..|s| - 1][i];
    }
  }

  /** An older entry comes later. */
  ghost predicate Overtaken(s: seq<Entry>, i: nat)
    requires i < |s|
  {
    exists j :: i < j < |s| && s[j].written < s[i].written
  }

  /** What its namespace has after the place a query from its time on looks back to
      makes for a full answer without it. */
  predicate Crowded(s: seq<Entry>, i: nat)
    requires i < |s|
  {
    OfNamespace(s[LooksBackTo(s, OnlyFrom(s[i].namespace, s[i].written))..], s[i].namespace) >= MAX_LIMIT
  }

  /** Every query is answered exactly if and only if every entry that an older one
      follows would be crowded out of the answer anyway. */
  lemma EveryQueryIff(s: seq<Entry>)
    ensures AnswersEveryQuery(s) <==> forall i: nat :: i < |s| && Overtaken(s, i) ==> Crowded(s, i)
  {
    if AnswersEveryQuery(s) {
      forall i: nat | i < |s| && Overtaken(s, i) ensures Crowded(s, i) {
        AskedFor(s, i);
      }
    } else {
      var q :| EarlyStop(s, q) != PlainFilter(s, q);
      MissesUncrowded(s, q);
    }
  }

  /** Asking for everything of its namespace from the entry on. */
  lemma AskedFor(s: seq<Entry>, i: nat)
    requires i < |s| && Overtaken(s, i)
    requires var q := OnlyFrom(s[i].namespace, s[i].written); EarlyStop(s, q) == PlainFilter(s, q)
    ensures Crowded(s, i)
  {
    var q := OnlyFrom(s[i].namespace, s[i].written);
    var back := LooksBackTo(s, q);
    var j: nat :| i < j < |s| && s[j].written < s[i].written;
    assert TooOld(q, s[j]) && back > j;
    assert TrimSlashes("") == "";
    MatchesHolds(s[..back], q, i);
    EarlyStopIff(s, q);
    MatchesOfNamespace(s[back..], q, s[i].namespace);
  }

  /** What a query misses is followed by an older entry, and not crowded out. */
  lemma MissesUncrowded(s: seq<Entry>, q: Query)
    requires EarlyStop(s, q) != PlainFilter(s, q)
    ensures exists i: nat :: i < |s| && Overtaken(s, i) && !Crowded(s, i)
  {
    var back := LooksBackTo(s, q);
    EarlyStopIff(s, q);
    MatchIsThere(s[..back], q);
    var i: nat :| i < back && !TooOld(q, s[..back][i]) && Shown(q, s[..back][i]);
    assert s[..back][i] == s[i] && TooOld(q, s[back - 1]);
    assert i < back - 1 && Overtaken(s, i);
    MatchesOfNamespace(s[back..], q, s[i].namespace);
    FewerFurther(s, back, i);
  }

  /** The later the time asked for, the less far back the walk looks. */
  lemma FewerFurther(s: seq<Entry>, back: nat, i: nat)
    requires i < back <= |s| && s[back - 1].written < s[i].written
    ensures OfNamespace(s[LooksBackTo(s, OnlyFrom(s[i].namespace, s[i].written))..], s[i].namespace) <=
            OfNamespace(s[back..], s[i].namespace)
  {
    var q := OnlyFrom(s[i].namespace, s[i].written);
    var further := LooksBackTo(s, q);
    assert TooOld(q, s[back - 1]) && further >= back;
    assert s[back..] == s[back..further] + s[further..];
    OfNamespaceBoth(s[back..further], s[further..], s[i].namespace);
  }

  /** So time order is enough for a record of any size, and for one that fits into
      one answer nothing less is. */
  lemma EveryQueryIffTimeOrder(s: seq<Entry>)
    ensures TimeOrder(s) ==> AnswersEveryQuery(s)
    ensures |s| <= MAX_LIMIT && AnswersEveryQuery(s) ==> TimeOrder(s)
  {
    EveryQueryIff(s);
    if |s| <= MAX_LIMIT && !TimeOrder(s) {
      var i: nat, j: nat :| i < j < |s| && s[i].written > s[j].written;
      assert Overtaken(s, i);
      NotCrowded(s, i, j);
    }
  }

  lemma NotCrowded(s: seq<Entry>, i: nat, j: nat)
    requires |s| <= MAX_LIMIT && i < j < |s| && s[j].written < s[i].written
    ensures !Crowded(s, i)
  {
    var q := OnlyFrom(s[i].namespace, s[i].written);
    assert TooOld(q, s[j]) && LooksBackTo(s, q) > j;
    OfNamespaceFew(s[LooksBackTo(s, q)..], s[i].namespace);
  }

  /** A clock that steps back breaks the order, and a write is left out. */
  lemma ClockSteppedBack()
    ensures var s := [Entry("a", "x", 20), Entry("a", "y", 10)];
            var q := Query(100, Some(15), "", _ => true);
            EarlyStop(s, q) == [] && PlainFilter(s, q) == [Entry("a", "x", 20)]
  {
    var s := [Entry("a", "x", 20), Entry("a", "y", 10)];
    var q := Query(100, Some(15), "", _ => true);
    assert TooOld(q, s[1]) && LooksBackTo(s, q) == 2;
    assert s[..1][..0] == [] && Matches(s[..1], q) == [s[0]];
  }

  /** Writes that arrive in time order keep the record in time order. */
  lemma PushedKeepsTime(s: seq<Entry>, e: Entry, capacity: nat)
    requires TimeOrder(s) && Distinct(Joined, s) && forall i :: 0 <= i < |s| ==> s[i].written <= e.written
    ensures TimeOrder(Pushed(Joined, s, e, capacity))
    ensures forall i :: 0 <= i < |Pushed(Joined, s, e, capacity)| ==>
              Pushed(Joined, s, e, capacity)[i].written <= e.written
  {
    WithoutKeepsTime(s, Joined(e));
    WithoutHolds(Joined, s, Joined(e));
    var kept := Without(Joined, s, Joined(e));
    forall i | 0 <= i < |kept| ensures kept[i].written <= e.written {
      assert kept[i] in kept;
    }
    assert TimeOrder(kept + [e]);
  }

  lemma WithoutKeepsTime(s: seq<Entry>, key: string)
    requires TimeOrder(s) && Distinct(Joined, s)
    ensures TimeOrder(Without(Joined, s, key))
  {
    if WrittenAgain(Joined, s, key) {
      var i: nat :| i < |s| && Joined(s[i]) == key;
      WithoutAt(Joined, s, i);
    } else {
      WithoutAbsent(Joined, s, key);
    }
  }

  function OutsideOf(s: seq<Entry>, namespace: string): seq<Entry>
  {
    if |s| == 0 then []
    else if s[0].namespace == namespace then OutsideOf(s[1..], namespace)
    else [s[0]] + OutsideOf(s[1..], namespace)
  }

  lemma {:induction false} OutsideHolds(s: seq<Entry>, namespace: string)
    ensures |OutsideOf(s, namespace)| <= |s|
    ensures forall e :: e in OutsideOf(s, namespace) <==> e in s && e.namespace != namespace
  {
    if |s| > 0 {
      OutsideHolds(s[1..], namespace);
      assert s == [s[0]] + s[1..];
    }
  }

  // ---------------------------------------------------------------------
  // The record.
  // ---------------------------------------------------------------------

  class Latest {
    /** The ordered index, as its slots from the lowest number up. */
    var order: seq<Slot<Entry>>
    var position: map<string, nat>
    var next: nat
    var capacity: nat
    var dirty: bool

    ghost predicate Valid()
      reads this
    {
      Inverse(Joined, order, position, next) && |order| <= capacity
    }

    ghost function Contents(): seq<Entry>
      reads this
    {
      Entries(order)
    }

    constructor (size: nat)
      ensures Valid() && Contents() == [] && capacity == size && !dirty
    {
      order, position, next, capacity, dirty := [], map[], 0, size, false;
    }

    method Remove(key: string)
      requires Inverse(Joined, order, position, next)
      modifies this`order, this`position
      ensures Inverse(Joined, order, position, next) && key !in position
      ensures Contents() == Without(Joined, old(Contents()), key)
      ensures |order| <= old(|order|)
    {
      if key in position {
        var at := position[key];
        var i := Find(order, at);
        assert Joined(order[i].entry) == key by { SameSlot(Joined, order, position, next, key, i); }
        InverseRemove(Joined, order, position, next, i);
        ContentsRemove(Joined, order, position, next, i);
        position := position - {key};
        order := DropAt(order, i);
      } else {
        AbsentKey(Joined, order, position, next, key);
      }
    }

    method Trim(size: nat)
      requires Inverse(Joined, order, position, next)
      modifies this`order, this`position
      ensures Inverse(Joined, order, position, next)
      ensures Contents() == LastOf(old(Contents()), size)
    {
      ghost var all := Contents();
      while |order| > size
        invariant Inverse(Joined, order, position, next)
        invariant LastOf(Contents(), size) == LastOf(all, size)
        decreases |order|
      {
        DropOldest(Joined, order, position, next, size);
        position := position - {Joined(order[0].entry)};
        order := order[1..];
      }
    }

    method Push(e: Entry, size: nat)
      requires Inverse(Joined, order, position, next)
      modifies this`order, this`position, this`next
      ensures Inverse(Joined, order, position, next)
      ensures Contents() == Pushed(Joined, old(Contents()), e, size) && |order| <= size
    {
      var key := Joined(e);
      Remove(key);
      Append(key, e);
      Trim(size);
    }

    method Append(key: string, e: Entry)
      requires Inverse(Joined, order, position, next) && key == Joined(e) && key !in position
      modifies this`order, this`position, this`next
      ensures Inverse(Joined, order, position, next)
      ensures Contents() == old(Contents()) + [e]
    {
      InverseAppend(Joined, order, position, next, e);
      assert Entries(order + [Slot(next, e)]) == Contents() + [e];
      order := order + [Slot(next, e)];
      position := position[key := next];
      next := next + 1;
    }

    method SetCapacity(size: nat)
      requires Valid()
      modifies this
      ensures Valid() && capacity == size
      ensures Contents() == LastOf(old(Contents()), size)
      ensures dirty == (old(dirty) || |Contents()| != |old(Contents())|)
    {
      capacity := size;
      var before := |order|;
      Trim(size);
      if |order| != before { dirty := true; }
    }

    method RecordAt(namespace: string, value: string, written: int)
      requires Valid()
      modifies this
      ensures Valid() && capacity == old(capacity)
      ensures var kept := capacity > 0 && !IsInternal(namespace);
              && dirty == (old(dirty) || kept)
              && Contents() == (if kept then Pushed(Joined, old(Contents()), Entry(namespace, value, written), capacity)
                                else old(Contents()))
    {
      if capacity == 0 || IsInternal(namespace) { return; }
      Push(Entry(namespace, value, written), capacity);
      dirty := true;
    }

    method RemoveAll(gone: seq<string>)
      requires Inverse(Joined, order, position, next)
      modifies this`order, this`position
      ensures Inverse(Joined, order, position, next)
      ensures Contents() == WithoutAll(Joined, old(Contents()), gone)
    {
      ghost var all := Contents();
      for k := 0 to |gone|
        invariant Inverse(Joined, order, position, next)
        invariant WithoutAll(Joined, Contents(), gone[k..]) == WithoutAll(Joined, all, gone)
      {
        assert gone[k..][0] == gone[k] && gone[k..][1..] == gone[k + 1..];
        Remove(gone[k]);
      }
      assert gone[|gone|..] == [];
    }

    method ForgetNamespace(namespace: string)
      requires Valid()
      modifies this
      ensures Valid() && capacity == old(capacity)
      ensures Contents() == OutsideOf(old(Contents()), namespace)
      ensures dirty == (old(dirty) || |Contents()| != |old(Contents())|)
    {
      var gone := Gather(Entries(order), namespace);
      ghost var all := Contents();
      InverseDistinct(Joined, order, position, next);
      RemovingThemAll(all, namespace);
      if |gone| == 0 { return; }
      RemoveAll(gone);
      dirty := true;
    }

    /** Newest first, at most `limit`, stopping at the first entry too old. */
    method Recent(q: Query) returns (found: seq<Entry>)
      ensures found == EarlyStop(Contents(), q)
    {
      found := NewestFirst(Entries(order), q);
    }

    method TakeSnapshot(force: bool) returns (saved: Option<seq<Entry>>)
      requires Valid()
      modifies this`dirty
      ensures Valid()
      ensures saved == if old(dirty) || force then Some(Contents()) else None
      ensures !dirty
    {
      if !dirty && !force { return None; }
      dirty := false;
      return Some(Entries(order));
    }

    /** As if `saved` had been written before what is held now. */
    method Restore(saved: seq<Entry>)
      requires Valid()
      modifies this
      ensures Valid() && capacity == old(capacity) && dirty == old(dirty)
      ensures Contents() == LastOf(LastWrites(Joined, saved + old(Contents())), capacity)
    {
      var sinceStartup := Entries(order);
      order, position := [], map[];
      var replay := saved + sinceStartup;
      assert Contents() == [];
      for i := 0 to |replay|
        invariant Inverse(Joined, order, position, next) && |order| <= capacity
        invariant capacity == old(capacity) && dirty == old(dirty)
        invariant Contents() == PushAll(Joined, [], replay[..i], capacity)
      {
        Push(replay[i], capacity);
        PushAllNext(Joined, [], replay, i, capacity);
      }
      assert replay[..|replay|] == replay;
      KeepsLastDistinct(Joined, replay, capacity);
    }
  }

  method NewestFirst(s: seq<Entry>, q: Query) returns (found: seq<Entry>)
    ensures found == EarlyStop(s, q)
  {
    var prefix, limit := TrimSlashes(q.prefix), Limit(q);
    var allowed: map<string, bool> := map[];
    ghost var back := LooksBackTo(s, q);
    found := [];
    var i := |s|;
    assert s[i..] == [];
    while i > 0
      invariant back <= i <= |s|
      invariant forall n :: n in allowed ==> allowed[n] == q.visible(n)
      invariant found == Matches(s[i..], q) && |found| <= limit
    {
      if |found| >= limit {
        StopsFull(s, back, i, q);
        return;
      }
      var entry := s[i - 1];
      if TooOld(q, entry) { break; }
      i := i - 1;
      MatchesPrepend(s, i, q);
      if Under(entry.namespace, prefix) {
        if entry.namespace !in allowed {
          allowed := allowed[entry.namespace := q.visible(entry.namespace)];
        }
        if allowed[entry.namespace] { found := found + [entry]; }
      }
    }
  }

  method Gather(entries: seq<Entry>, namespace: string) returns (gone: seq<string>)
    ensures gone == KeysIn(entries, namespace)
  {
    gone := [];
    for i := 0 to |entries|
      invariant gone == KeysIn(entries[..i], namespace)
    {
      assert entries[..i + 1] == entries[..i] + [entries[i]];
      KeysInNext(entries[..i], entries[i], namespace);
      if entries[i].namespace == namespace { gone := gone + [Joined(entries[i])]; }
    }
    assert entries[..|entries|] == entries;
  }

  // ---------------------------------------------------------------------
  // Forgetting a namespace removes its keys one by one.
  // ---------------------------------------------------------------------

  function KeysIn(s: seq<Entry>, namespace: string): seq<string>
  {
    if |s| == 0 then []
    else (if s[0].namespace == namespace then [Joined(s[0])] else []) + KeysIn(s[1..], namespace)
  }

  lemma {:induction false} KeysInNext(s: seq<Entry>, e: Entry, namespace: string)
    ensures KeysIn(s + [e], namespace) == KeysIn(s, namespace) + if e.namespace == namespace then [Joined(e)] else []
  {
    if |s| == 0 {
      assert s + [e] == [e] && [e][1..] == [];
    } else {
      assert (s + [e])[1..] == s[1..] + [e];
      KeysInNext(s[1..], e, namespace);
    }
  }

  lemma {:induction false} KeysInAre(s: seq<Entry>, namespace: string)
    ensures forall k :: k in KeysIn(s, namespace) ==> WrittenAgain(Joined, s, k)
  {
    if |s| > 0 {
      KeysInAre(s[1..], namespace);
      forall k | k in KeysIn(s, namespace) ensures WrittenAgain(Joined, s, k) {
        if k == Joined(s[0]) {
          assert Joined(s[0]) == k;
        } else {
          assert k in KeysIn(s[1..], namespace);
          var i: nat :| i < |s[1..]| && Joined(s[1..][i]) == k;
          assert Joined(s[i + 1]) == k;
        }
      }
    }
  }

  lemma {:induction false} RemovingThemAll(s: seq<Entry>, namespace: string)
    requires Distinct(Joined, s)
    ensures WithoutAll(Joined, s, KeysIn(s, namespace)) == OutsideOf(s, namespace)
    ensures |KeysIn(s, namespace)| + |OutsideOf(s, namespace)| == |s|
  {
    if |s| > 0 {
      var rest := s[1..];
      var keys := KeysIn(rest, namespace);
      RemovingThemAll(rest, namespace);
      if s[0].namespace == namespace {
        assert KeysIn(s, namespace)[0] == Joined(s[0]) && KeysIn(s, namespace)[1..] == keys;
        WithoutAt(Joined, s, 0);
        assert s[..0] + s[1..] == rest;
      } else {
        KeysInAre(rest, namespace);
        assert !WrittenAgain(Joined, rest, Joined(s[0]));
        assert KeysIn(s, namespace) == keys;
        WithoutAllBehind(Joined, s[0], rest, keys);
        assert s == [s[0]] + rest;
      }
    }
  }

  // ---------------------------------------------------------------------
  // Steps of the walk.
  // ---------------------------------------------------------------------

  lemma MatchesPrepend(s: seq<Entry>, i: nat, q: Query)
    requires i < |s|
    ensures Matches(s[i..], q) == Matches(s[i + 1..], q) + if !TooOld(q, s[i]) && Shown(q, s[i]) then [s[i]] else []
  {
    assert s[i..] == [s[i]] + s[i + 1..];
    MatchesBoth([s[i]], s[i + 1..], q);
    assert [s[i]][..0] == [];
  }

  /** Once the answer is full, looking further back adds nothing to it. */
  lemma StopsFull(s: seq<Entry>, back: nat, i: nat, q: Query)
    requires back <= i <= |s| && back == LooksBackTo(s, q) && |Matches(s[i..], q)| == Limit(q)
    ensures Matches(s[i..], q) == EarlyStop(s, q)
  {
    assert s[back..] == s[back..i] + s[i..];
    MatchesBoth(s[back..i], s[i..], q);
  }
}
