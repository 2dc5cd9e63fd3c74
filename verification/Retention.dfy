/** Hourly statistics under a retention limit (src/attribute.rs:200-226, 441-471).

    Each sighting trims at once, but what is left at the end is what one trim of
    the complete statistics would have left, so arrival order does not show. */
module Retention {
  import opened Text
  import opened Sets
  import opened Attributes

  /** A sighting at `when`, counted for `node`. */
  datatype Sighting = Sighting(node: string, when: int)

  ghost function RecordAll(sightings: seq<Sighting>, retention: nat): Attr
  {
    if |sightings| == 0 then NEW
    else
      var last := sightings[|sightings| - 1];
      Incremented(RecordAll(sightings[..|sightings| - 1], retention), last.node, last.when, retention)
  }

  // ---------------------------------------------------------------------
  // The complete statistics, counted straight from the list of sightings.
  // ---------------------------------------------------------------------

  function HowMany<T>(s: seq<T>, wanted: T -> bool): nat
  {
    if |s| == 0 then 0
    else HowMany(s[..|s| - 1], wanted) + if wanted(s[|s| - 1]) then 1 else 0
  }

  function By(node: string): Sighting -> bool
  {
    (s: Sighting) => s.node == node
  }

  function InHour(node: string, hour: int): Sighting -> bool
  {
    (s: Sighting) => s.node == node && HourOf(s.when) == hour
  }

  function HoursOf(sightings: seq<Sighting>, node: string): set<int>
  {
    set s | s in sightings && s.node == node :: HourOf(s.when)
  }

  function AllHits(sightings: seq<Sighting>, node: string): map<int, nat>
  {
    map h | h in HoursOf(sightings, node) :: HowMany(sightings, InHour(node, h))
  }

  lemma {:induction false} NoHits(sightings: seq<Sighting>, node: string, h: int)
    requires h !in HoursOf(sightings, node)
    ensures HowMany(sightings, InHour(node, h)) == 0
  {
    if |sightings| > 0 {
      var front := sightings[..|sightings| - 1];
      assert sightings[|sightings| - 1] in sightings;
      assert HoursOf(front, node) <= HoursOf(sightings, node);
      NoHits(front, node, h);
    }
  }

  lemma HitsStep(front: seq<Sighting>, x: Sighting, node: string, h: int)
    ensures HowMany(front + [x], InHour(node, h))
            == HowMany(front, InHour(node, h)) + if x.node == node && HourOf(x.when) == h then 1 else 0
    ensures Entry(AllHits(front, node), h) == HowMany(front, InHour(node, h))
    ensures HoursOf(front + [x], node) == HoursOf(front, node) + (if x.node == node then {HourOf(x.when)} else {})
  {
    var s := front + [x];
    assert s[..|s| - 1] == front;
    if h !in HoursOf(front, node) { NoHits(front, node, h); }
  }

  lemma AllHitsStep(front: seq<Sighting>, x: Sighting, node: string)
    ensures AllHits(front + [x], node) ==
            if x.node == node then Bumped(AllHits(front, node), HourOf(x.when)) else AllHits(front, node)
  {
    var l := AllHits(front + [x], node);
    var r := if x.node == node then Bumped(AllHits(front, node), HourOf(x.when)) else AllHits(front, node);
    HitsStep(front, x, node, HourOf(x.when));
    assert l.Keys == r.Keys;
    forall h | h in l.Keys ensures l[h] == r[h] {
      HitsStep(front, x, node, h);
    }
  }

  // ---------------------------------------------------------------------
  // Trimming at every sighting is trimming once.
  // ---------------------------------------------------------------------

  lemma {:induction false} NewestSize(all: map<int, nat>, keep: nat)
    requires 0 < keep <= |all|
    ensures |Newest(all, keep)| == keep
    decreases |all| - keep
  {
    if keep == |all| {
      NewestAll(all, keep);
    } else {
      NewestSize(all, keep + 1);
      var more := Newest(all, keep + 1);
      OldestExists(more.Keys);
      var oldest :| oldest in more.Keys && forall h :: h in more.Keys ==> oldest <= h;
      NewestWithoutOldest(all, more, oldest);
    }
  }

  ghost predicate InTop(hours: set<int>, keep: nat, h: int)
  {
    h in hours && |NewerThan(hours, h)| < keep
  }

  /** Every bucket that was trimmed is older than every one kept, and `keep` were. */
  lemma TrimmedIsOlder(all: map<int, nat>, keep: nat, x: int)
    requires keep > 0 && x in all && x !in Newest(all, keep)
    ensures Newest(all, keep).Keys <= NewerThan(all.Keys, x)
    ensures |Newest(all, keep)| == keep
  {
    forall y | y in Newest(all, keep) ensures y > x {
      if y <= x {
        assert NewerThan(all.Keys, x) <= NewerThan(all.Keys, y);
        SubsetSize(NewerThan(all.Keys, x), NewerThan(all.Keys, y));
      }
    }
    SubsetSize(NewerThan(all.Keys, x), all.Keys);
    NewestSize(all, keep);
  }

  lemma TopOfTop(all: map<int, nat>, keep: nat, h: int, g: int)
    requires keep > 0
    ensures InTop(all.Keys + {h}, keep, g) <==> InTop(Newest(all, keep).Keys + {h}, keep, g)
  {
    var kept := Newest(all, keep);
    var big, small := all.Keys + {h}, kept.Keys + {h};
    assert NewerThan(small, g) <= NewerThan(big, g);
    SubsetSize(NewerThan(small, g), NewerThan(big, g));
    if InTop(big, keep, g) && g != h {
      assert NewerThan(all.Keys, g) <= NewerThan(big, g);
      SubsetSize(NewerThan(all.Keys, g), NewerThan(big, g));
    }
    if InTop(small, keep, g) && NewerThan(small, g) != NewerThan(big, g) {
      var x := Member(NewerThan(big, g) - NewerThan(small, g));
      TrimmedIsOlder(all, keep, x);
      assert kept.Keys <= NewerThan(small, g);
      SubsetSize(kept.Keys, NewerThan(small, g));
    }
  }

  lemma TrimAgain(all: map<int, nat>, keep: nat, h: int)
    ensures Newest(Bumped(Newest(all, keep), h), keep) == Newest(Bumped(all, h), keep)
  {
    if keep > 0 {
      var kept := Newest(all, keep);
      assert Bumped(kept, h).Keys == kept.Keys + {h};
      assert Bumped(all, h).Keys == all.Keys + {h};
      var l, r := Newest(Bumped(kept, h), keep), Newest(Bumped(all, h), keep);
      forall g ensures g in l <==> g in r {
        TopOfTop(all, keep, h, g);
      }
      // A bucket trimmed earlier is still too old, so its lost hits do not show.
      assert NewerThan(all.Keys + {h}, h) == NewerThan(all.Keys, h);
      assert l.Keys == r.Keys;
    }
  }

  /** After any sightings, from any servers in any order, each server's buckets
      are its newest hours with their exact hits, and its entry is its exact
      number of sightings. */
  lemma {:induction false} RetentionKeepsNewest(sightings: seq<Sighting>, retention: nat, node: string)
    ensures var a := RecordAll(sightings, retention);
            && Buckets(a.stats, node) == Newest(AllHits(sightings, node), retention)
            && (node in a.stats <==> HowMany(sightings, By(node)) > 0)
            && Entry(a.counts, node) == HowMany(sightings, By(node))
            && (node in a.counts <==> HowMany(sightings, By(node)) > 0)
  {
    if |sightings| == 0 {
      assert AllHits(sightings, node) == map[];
      NewestAll(map[], retention);
    } else {
      var front, x := sightings[..|sightings| - 1], sightings[|sightings| - 1];
      assert sightings == front + [x];
      RetentionKeepsNewest(front, retention, node);
      AllHitsStep(front, x, node);
      if x.node == node { TrimAgain(AllHits(front, node), retention, HourOf(x.when)); }
    }
  }

  /** The total and the window are exact over all of them, however little is retained. */
  lemma {:induction false} WindowIsExact(sightings: seq<Sighting>, retention: nat)
    ensures var a := RecordAll(sightings, retention);
            && Total(a.counts) == |sightings|
            && (forall s :: s in sightings ==> a.firstSeen <= s.when <= a.lastSeen)
            && (|sightings| > 0 ==>
                  && (exists s :: s in sightings && s.when == a.firstSeen)
                  && (exists s :: s in sightings && s.when == a.lastSeen))
            && a.tags == "" && a.tagsAt == 0 && a.ttl == 0
  {
    if |sightings| > 0 {
      var front, x := sightings[..|sightings| - 1], sightings[|sightings| - 1];
      assert sightings == front + [x];
      WindowIsExact(front, retention);
      var b := RecordAll(front, retention);
      IncrementCounts(b, x.node, x.when, retention);
      assert x in sightings;
      if |front| > 0 {
        var s :| s in front && s.when == b.firstSeen;
        assert s in sightings;
        var t :| t in front && t.when == b.lastSeen;
        assert t in sightings;
      }
    }
  }

  // ---------------------------------------------------------------------
  // Arrival order.
  // ---------------------------------------------------------------------

  lemma {:induction false} HowManySplit<T>(s: seq<T>, t: seq<T>, wanted: T -> bool)
    ensures HowMany(s + t, wanted) == HowMany(s, wanted) + HowMany(t, wanted)
    decreases |t|
  {
    if |t| == 0 {
      assert s + t == s;
    } else {
      assert (s + t)[..|s + t| - 1] == s + t[..|t| - 1];
      HowManySplit(s, t[..|t| - 1], wanted);
    }
  }

  lemma {:induction false} HowManyPermuted<T>(s: seq<T>, t: seq<T>, wanted: T -> bool)
    requires multiset(s) == multiset(t)
    ensures HowMany(s, wanted) == HowMany(t, wanted)
  {
    if |s| == 0 {
      assert |multiset(t)| == 0;
    } else {
      var front, x := s[..|s| - 1], s[|s| - 1];
      assert s == front + [x];
      assert x in multiset(t);
      var i :| 0 <= i < |t| && t[i] == x;
      TakeOut(t, i);
      TakeOut(s, |s| - 1);
      assert s[..|s| - 1] + s[|s|..] == front;
      assert multiset(front) == multiset(s) - multiset{x};
      assert multiset(t[..i] + t[i + 1..]) == multiset(t) - multiset{x};
      HowManyPermuted(front, t[..i] + t[i + 1..], wanted);
      HowManyTakeOut(t, i, wanted);
    }
  }

  lemma TakeOut<T>(t: seq<T>, i: nat)
    requires i < |t|
    ensures multiset(t) == multiset(t[..i] + t[i + 1..]) + multiset{t[i]}
  {
    assert t == t[..i] + ([t[i]] + t[i + 1..]);
  }

  lemma HowManyTakeOut<T>(t: seq<T>, i: nat, wanted: T -> bool)
    requires i < |t|
    ensures HowMany(t, wanted) == HowMany(t[..i] + t[i + 1..], wanted) + if wanted(t[i]) then 1 else 0
  {
    assert t == t[..i] + ([t[i]] + t[i + 1..]);
    HowManySplit(t[..i], [t[i]] + t[i + 1..], wanted);
    HowManySplit([t[i]], t[i + 1..], wanted);
    HowManySplit(t[..i], t[i + 1..], wanted);
    assert [t[i]][..0] == [];
  }

  lemma NodeIgnoresOrder(s: seq<Sighting>, t: seq<Sighting>, retention: nat, n: string)
    requires multiset(s) == multiset(t)
    ensures var a, b := RecordAll(s, retention), RecordAll(t, retention);
            && (n in a.counts <==> n in b.counts) && Entry(a.counts, n) == Entry(b.counts, n)
            && (n in a.stats <==> n in b.stats) && Buckets(a.stats, n) == Buckets(b.stats, n)
  {
    RetentionKeepsNewest(s, retention, n);
    RetentionKeepsNewest(t, retention, n);
    HowManyPermuted(s, t, By(n));
    SameHits(s, t, n);
  }

  lemma SameHits(s: seq<Sighting>, t: seq<Sighting>, n: string)
    requires multiset(s) == multiset(t)
    ensures AllHits(s, n) == AllHits(t, n)
  {
    assert forall x :: x in s <==> x in multiset(s);
    assert forall x :: x in t <==> x in multiset(t);
    assert HoursOf(s, n) == HoursOf(t, n);
    forall h | h in HoursOf(s, n) ensures AllHits(s, n)[h] == AllHits(t, n)[h] {
      HowManyPermuted(s, t, InHour(n, h));
    }
  }

  /** The same sightings in any other order leave the very same record. */
  lemma RetentionIgnoresOrder(s: seq<Sighting>, t: seq<Sighting>, retention: nat)
    requires multiset(s) == multiset(t)
    ensures RecordAll(s, retention) == RecordAll(t, retention)
  {
    var a, b := RecordAll(s, retention), RecordAll(t, retention);
    forall n ensures (n in a.counts <==> n in b.counts) && Entry(a.counts, n) == Entry(b.counts, n)
      ensures (n in a.stats <==> n in b.stats) && Buckets(a.stats, n) == Buckets(b.stats, n)
    {
      NodeIgnoresOrder(s, t, retention, n);
    }
    SameEntries(a.counts, b.counts);
    SameStats(a.stats, b.stats);
    SameWindow(s, t, retention);
  }

  lemma SameWindow(s: seq<Sighting>, t: seq<Sighting>, retention: nat)
    requires multiset(s) == multiset(t)
    ensures var a, b := RecordAll(s, retention), RecordAll(t, retention);
            && a.firstSeen == b.firstSeen && a.lastSeen == b.lastSeen
            && a.tags == b.tags && a.tagsAt == b.tagsAt && a.ttl == b.ttl
  {
    WindowIsExact(s, retention);
    WindowIsExact(t, retention);
    assert |s| == |multiset(s)| == |t|;
    assert forall x :: x in s <==> x in multiset(s);
    assert forall x :: x in t <==> x in multiset(t);
  }

  lemma SameStats(a: map<string, map<int, nat>>, b: map<string, map<int, nat>>)
    requires forall n :: (n in a <==> n in b) && Buckets(a, n) == Buckets(b, n)
    ensures a == b
  {
    assert forall n :: n in a ==> Buckets(a, n) == Buckets(b, n);
  }
}
