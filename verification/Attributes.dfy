/** The record kept about one value in one namespace (src/attribute.rs).

    `Attr` is the record as a value and `Offer` is a peer's copy of it. The
    functions say what each operation makes of a record; the class `Attribute`
    performs the operations in place and is proved against them. The value's
    own name is the key the record is stored under and is not repeated here.
    Times are whole seconds, as snapshots and offers carry them. */
module Attributes {
  import opened Text
  import opened Sets
  import opened Options

  const STATS_BUCKET_SECS := 3600
  const I64_MAX: int := 0x7FFF_FFFF_FFFF_FFFF

  datatype Attr = Attr(
    counts: map<string, nat>,
    stats: map<string, map<int, nat>>,
    firstSeen: int,
    lastSeen: int,
    tags: string,
    tagsAt: int,
    ttl: nat)

  datatype Offer = Offer(
    counts: map<string, nat>,
    stats: map<string, map<int, nat>>,
    firstSeen: int,
    lastSeen: int,
    tags: string,
    tagsAt: int,
    ttl: nat)

  datatype Outcome = Outcome(changed: bool, ignoredSelf: nat, count: nat)

  const NEW := Attr(map[], map[], 0, 0, "", 0, 0)

  function AsMerge(a: Attr): Offer
  {
    Offer(a.counts, a.stats, a.firstSeen, a.lastSeen, a.tags, a.tagsAt, a.ttl)
  }

  function Max(a: int, b: int): int { if a >= b then a else b }

  function Min(a: int, b: int): int { if a <= b then a else b }

  function MaxNat(a: nat, b: nat): nat { if a >= b then a else b }

  /** A map read with zero for what it does not hold. */
  function Entry<K>(m: map<K, nat>, k: K): nat { if k in m then m[k] else 0 }

  lemma SameEntries<K(!new)>(r: map<K, nat>, s: map<K, nat>)
    requires forall k :: (k in r <==> k in s) && Entry(r, k) == Entry(s, k)
    ensures r == s
  {
    assert forall k :: k in r ==> Entry(r, k) == Entry(s, k);
  }

  function Buckets(stats: map<string, map<int, nat>>, node: string): map<int, nat>
  {
    if node in stats then stats[node] else map[]
  }

  // ---------------------------------------------------------------------
  // The reported count: every server's entry added up.
  // ---------------------------------------------------------------------

  ghost function Total(counts: map<string, nat>): nat
  {
    if counts == map[] then 0
    else
      var n :| n in counts;
      counts[n] + Total(counts - {n})
  }

  lemma {:induction false} TotalTake(counts: map<string, nat>, k: string)
    requires k in counts
    ensures Total(counts) == counts[k] + Total(counts - {k})
    decreases |counts|
  {
    var n :| n in counts && Total(counts) == counts[n] + Total(counts - {n});
    if n != k {
      TotalTake(counts - {n}, k);
      TotalTake(counts - {k}, n);
      assert counts - {n} - {k} == counts - {k} - {n};
    }
  }

  lemma TotalSet(counts: map<string, nat>, k: string, x: nat)
    ensures Total(counts[k := x]) == Total(counts) - Entry(counts, k) + x
  {
    TotalTake(counts[k := x], k);
    assert counts[k := x] - {k} == counts - {k};
    if k in counts { TotalTake(counts, k); } else { assert counts - {k} == counts; }
  }

  lemma {:induction false} TotalZero(counts: map<string, nat>)
    ensures Total(counts) == 0 <==> forall n :: n in counts ==> counts[n] == 0
    decreases |counts|
  {
    if counts != map[] {
      var n :| n in counts && Total(counts) == counts[n] + Total(counts - {n});
      TotalZero(counts - {n});
      assert forall m :: m in counts && m != n ==> m in counts - {n};
    }
  }

  lemma AgreeWithout<K(!new)>(a: map<K, nat>, b: map<K, nat>, n: K)
    requires forall k :: Entry(a, k) == Entry(b, k)
    ensures forall k :: Entry(a - {n}, k) == Entry(b - {n}, k)
    ensures Entry(a, n) == Entry(b, n)
  {
    forall k ensures Entry(a - {n}, k) == Entry(b - {n}, k) {
      assert Entry(a, k) == Entry(b, k);
    }
  }

  /** Two counters that agree on every entry, zeros aside, add up the same. */
  lemma {:induction false} TotalAgree(a: map<string, nat>, b: map<string, nat>)
    requires forall n :: Entry(a, n) == Entry(b, n)
    ensures Total(a) == Total(b)
    decreases |a|
  {
    if a == map[] {
      forall n | n in b ensures b[n] == 0 { assert Entry(a, n) == Entry(b, n); }
      TotalZero(b);
    } else {
      var n :| n in a;
      TotalTake(a, n);
      AgreeWithout(a, b, n);
      TotalAgree(a - {n}, b - {n});
      if n in b { TotalTake(b, n); } else { assert b - {n} == b; }
    }
  }

  /** Entry by entry at most implies at most in total. */
  lemma {:induction false} TotalAtMost(a: map<string, nat>, b: map<string, nat>)
    requires forall n :: n in a ==> a[n] <= Entry(b, n)
    ensures Total(a) <= Total(b)
    decreases |a|
  {
    if a != map[] {
      var n :| n in a;
      TotalTake(a, n);
      TotalAtMost(a - {n}, b - {n});
      if n in b { TotalTake(b, n); } else { assert b - {n} == b; }
    }
  }

  // ---------------------------------------------------------------------
  // Sightings.
  // ---------------------------------------------------------------------

  function HourOf(when: int): int
  {
    when / STATS_BUCKET_SECS * STATS_BUCKET_SECS
  }

  /** The clock hour a moment falls in, by its first second. */
  lemma HourIs(when: int, hour: int)
    ensures HourOf(when) == hour <==> hour % 3600 == 0 && hour <= when < hour + 3600
  {
    if hour % 3600 == 0 && hour <= when < hour + 3600 { assert when / 3600 == hour / 3600; }
  }

  function Bumped<K>(m: map<K, nat>, k: K): map<K, nat>
  {
    m[k := Entry(m, k) + 1]
  }

  function NewerThan(hours: set<int>, h: int): set<int>
  {
    set g | g in hours && g > h
  }

  /** The `keep` newest buckets, or all of them when `keep` is zero. */
  function Newest(buckets: map<int, nat>, keep: nat): map<int, nat>
  {
    if keep == 0 then buckets
    else map h | h in buckets && |NewerThan(buckets.Keys, h)| < keep :: buckets[h]
  }

  ghost function Incremented(a: Attr, node: string, when: int, retention: nat): Attr
  {
    var first := Total(a.counts) == 0;
    a.(firstSeen := if first || when < a.firstSeen then when else a.firstSeen,
       lastSeen := if first || when > a.lastSeen then when else a.lastSeen,
       stats := a.stats[node := Newest(Bumped(Buckets(a.stats, node), HourOf(when)), retention)],
       counts := Bumped(a.counts, node))
  }

  /** One sighting raises the total by one, whichever server it is counted for. */
  lemma IncrementCounts(a: Attr, node: string, when: int, retention: nat)
    ensures Total(Incremented(a, node, when, retention).counts) == Total(a.counts) + 1
  {
    TotalSet(a.counts, node, Entry(a.counts, node) + 1);
  }

  function Decremented(a: Attr, node: string): Attr
  {
    if node !in a.counts then a
    else if a.counts[node] <= 1 then a.(counts := a.counts - {node})
    else a.(counts := a.counts[node := a.counts[node] - 1])
  }

  /** Taking back a server's own sighting undoes exactly one of its own. */
  lemma DecrementCounts(a: Attr, node: string)
    ensures Total(Decremented(a, node).counts)
            == Total(a.counts) - (if Entry(a.counts, node) > 0 then 1 else 0)
    ensures forall n :: n != node ==> Entry(Decremented(a, node).counts, n) == Entry(a.counts, n)
  {
    if node in a.counts {
      TotalTake(a.counts, node);
      TotalSet(a.counts, node, if a.counts[node] == 0 then 0 else a.counts[node] - 1);
    }
  }

  /** One sighting counted and then given back leaves the counters as they were. */
  lemma DecrementUndoesIncrement(a: Attr, node: string, when: int, retention: nat)
    ensures forall n :: Entry(Decremented(Incremented(a, node, when, retention), node).counts, n)
                     == Entry(a.counts, n)
  {
  }

  // ---------------------------------------------------------------------
  // Expiry.
  // ---------------------------------------------------------------------

  /** Saturating, as the source's 64-bit addition does. */
  function Deadline(a: Attr): int
  {
    Min(a.lastSeen + Min(a.ttl, I64_MAX), I64_MAX)
  }

  predicate IsExpired(a: Attr, now: int)
  {
    a.ttl > 0 && now > Deadline(a)
  }

  // ---------------------------------------------------------------------
  // Tags.
  // ---------------------------------------------------------------------

  function Tagged(a: Attr, tags: string): Attr
  {
    a.(tags := AddTags(a.tags, tags))
  }

  function Retagged(a: Attr, tags: string, at: int): Attr
  {
    a.(tags := CleanTags(tags), tagsAt := Max(a.tagsAt, at))
  }

  /** One write as it lands on a record: the expiry and tags it carries, then
      the sighting (src/db.rs:398-404, 419-425). */
  ghost function Sighted(a: Attr, node: string, when: int, ttl: Option<nat>, retention: nat, tags: string): Attr
  {
    var b := if ttl.Some? then a.(ttl := ttl.value) else a;
    var c := if tags != "" then Tagged(b, tags) else b;
    Incremented(c, node, when, retention)
  }

  lemma SightedCounts(a: Attr, node: string, when: int, ttl: Option<nat>, retention: nat, tags: string)
    ensures Sighted(a, node, when, ttl, retention, tags).counts == Bumped(a.counts, node)
    ensures Total(Sighted(a, node, when, ttl, retention, tags).counts) == Total(a.counts) + 1
  {
    TotalSet(a.counts, node, Entry(a.counts, node) + 1);
  }

  /** A write adds its tags and never moves the moment of the last replacement. */
  lemma SightedTags(a: Attr, node: string, when: int, ttl: Option<nat>, retention: nat, tags: string)
    ensures Sighted(a, node, when, ttl, retention, tags).tagsAt == a.tagsAt
    ensures TagSet(Sighted(a, node, when, ttl, retention, tags).tags) == TagSet(a.tags) + TagSet(tags)
    ensures Sighted(a, node, when, ttl, retention, tags).ttl == if ttl.Some? then ttl.value else a.ttl
  {
    if tags == "" {
      NoTags();
    } else {
      AddTagsIsUnion(a.tags, tags);
    }
  }

  // ---------------------------------------------------------------------
  // Merging a peer's copy.
  // ---------------------------------------------------------------------

  /** `ours` raised, entry by entry, to what `theirs` holds. */
  function MaxInto<K>(ours: map<K, nat>, theirs: map<K, nat>): map<K, nat>
  {
    ours + map k | k in theirs :: MaxNat(Entry(ours, k), theirs[k])
  }

  /** Raised by every entry offered but the one under `mine`. */
  function MergedCounts(ours: map<string, nat>, theirs: map<string, nat>, mine: string): map<string, nat>
  {
    MaxInto(ours, theirs - {mine})
  }

  function MergedStats(ours: map<string, map<int, nat>>, theirs: map<string, map<int, nat>>, mine: string)
    : map<string, map<int, nat>>
  {
    ours + map n | n in theirs && n != mine :: MaxInto(Buckets(ours, n), theirs[n])
  }

  ghost predicate Unseen(a: Attr)
  {
    Total(a.counts) == 0 && a.firstSeen == 0
  }

  function MergedTags(a: Attr, o: Offer): string
  {
    if o.tagsAt > a.tagsAt then o.tags
    else if o.tagsAt < a.tagsAt then a.tags
    else if o.tags == "" then a.tags
    else AddTags(a.tags, o.tags)
  }

  function MergedTtl(ours: nat, theirs: nat): nat
  {
    if ours == 0 then theirs else if theirs == 0 then ours else if ours <= theirs then ours else theirs
  }

  ghost function Merged(a: Attr, o: Offer, mine: string): Attr
  {
    Attr(
      MergedCounts(a.counts, o.counts, mine),
      MergedStats(a.stats, o.stats, mine),
      if Unseen(a) || o.firstSeen < a.firstSeen then o.firstSeen else a.firstSeen,
      if Unseen(a) || o.lastSeen > a.lastSeen then o.lastSeen else a.lastSeen,
      MergedTags(a, o),
      Max(a.tagsAt, o.tagsAt),
      MergedTtl(a.ttl, o.ttl))
  }

  /** The greater of the two entries, but that its own is never touched. */
  lemma MergedAt(a: Attr, o: Offer, mine: string, r: string)
    ensures Entry(Merged(a, o, mine).counts, r)
            == if r == mine then Entry(a.counts, r) else MaxNat(Entry(a.counts, r), Entry(o.counts, r))
  {
  }

  predicate Rises<K>(ours: map<K, nat>, theirs: map<K, nat>)
  {
    exists k :: k in theirs && theirs[k] > Entry(ours, k)
  }

  predicate StatsRise(ours: map<string, map<int, nat>>, theirs: map<string, map<int, nat>>, mine: string)
  {
    exists n :: n in theirs && n != mine && Rises(Buckets(ours, n), theirs[n])
  }

  /** Some server's entry, or bucket, that the peer holds more of. */
  predicate ContributionsRise(a: Attr, o: Offer, mine: string)
  {
    Rises(a.counts, o.counts - {mine}) || StatsRise(a.stats, o.stats, mine)
  }

  /** What a merge reports as `changed`. */
  ghost predicate ReportsChange(a: Attr, o: Offer, mine: string)
  {
    var m := Merged(a, o, mine);
    || ContributionsRise(a, o, mine)
    || m.firstSeen != a.firstSeen
    || m.lastSeen != a.lastSeen
    || m.tags != a.tags
    || m.ttl != a.ttl
  }

  // ---------------------------------------------------------------------
  // The record in place.
  // ---------------------------------------------------------------------

  class Attribute {
    var counts: map<string, nat>
    var stats: map<string, map<int, nat>>
    var firstSeen: int
    var lastSeen: int
    var tags: string
    var tagsAt: int
    var ttl: nat

    ghost function Model(): Attr
      reads this
    {
      Attr(counts, stats, firstSeen, lastSeen, tags, tagsAt, ttl)
    }

    constructor ()
      ensures Model() == NEW
    {
      counts, stats, firstSeen, lastSeen := map[], map[], 0, 0;
      tags, tagsAt, ttl := "", 0, 0;
    }

    constructor From(a: Attr)
      ensures Model() == a
    {
      counts, stats, firstSeen, lastSeen := a.counts, a.stats, a.firstSeen, a.lastSeen;
      tags, tagsAt, ttl := a.tags, a.tagsAt, a.ttl;
    }

    method Stored() returns (a: Attr)
      ensures a == Model()
    {
      a := Attr(counts, stats, firstSeen, lastSeen, tags, tagsAt, ttl);
    }

    method Count() returns (sum: nat)
      ensures sum == Total(counts)
    {
      sum := 0;
      var left := counts;
      while left != map[]
        invariant sum + Total(left) == Total(counts)
        decreases |left|
      {
        var n :| n in left;
        TotalTake(left, n);
        sum := sum + left[n];
        left := left - {n};
      }
    }

    method Increment(node: string, when: int, retention: nat)
      modifies this
      ensures Model() == Incremented(old(Model()), node, when, retention)
    {
      var seen := Count();
      if seen == 0 {
        firstSeen, lastSeen := when, when;
      } else {
        if when < firstSeen { firstSeen := when; }
        if when > lastSeen { lastSeen := when; }
      }
      var kept := TrimStats(Bumped(Buckets(stats, node), HourOf(when)), retention);
      stats := stats[node := kept];
      counts := Bumped(counts, node);
    }

    method Decrement(node: string) returns (remaining: nat)
      modifies this`counts
      ensures Model() == Decremented(old(Model()), node)
      ensures remaining == Total(counts)
    {
      if node in counts {
        var mine := if counts[node] == 0 then 0 else counts[node] - 1;
        if mine == 0 { counts := counts - {node}; } else { counts := counts[node := mine]; }
      }
      remaining := Count();
    }

    method AddTagsHere(more: string)
      modifies this`tags
      ensures Model() == Tagged(old(Model()), more)
    {
      var merged, changed := PushMissing(SplitTags(tags), SplitTags(more));
      if changed { tags := JoinTags(merged); }
    }

    method SetTags(replacement: string, at: int)
      modifies this`tags, this`tagsAt
      ensures Model() == Retagged(old(Model()), replacement, at)
    {
      var seen, _ := PushMissing([], SplitTags(replacement));
      tags := JoinTags(seen);
      tagsAt := Max(tagsAt, at);
    }

    method MergeContributions(incoming: Offer, mine: string) returns (changed: bool)
      modifies this`counts, this`stats
      ensures counts == MergedCounts(old(counts), incoming.counts, mine)
      ensures stats == MergedStats(old(stats), incoming.stats, mine)
      ensures changed <==> ContributionsRise(old(Model()), incoming, mine)
    {
      var mergedCounts, countsRose := RaiseTo(counts, incoming.counts - {mine});
      var mergedStats, bucketsRose := MergeStats(stats, incoming.stats, mine);
      counts, stats := mergedCounts, mergedStats;
      changed := countsRose || bucketsRose;
    }

    method MergeTags(incoming: Offer)
      modifies this`tags, this`tagsAt
      ensures tags == MergedTags(old(Model()), incoming)
      ensures tagsAt == Max(old(tagsAt), incoming.tagsAt)
    {
      if incoming.tagsAt > tagsAt {
        tags, tagsAt := incoming.tags, incoming.tagsAt;
      } else if incoming.tagsAt < tagsAt {
      } else if incoming.tags != "" {
        AddTagsHere(incoming.tags);
      }
    }

    /** The window, the tags and the expiry. */
    method MergeDescription(incoming: Offer, unseen: bool) returns (changed: bool)
      modifies this`firstSeen, this`lastSeen, this`tags, this`tagsAt, this`ttl
      ensures firstSeen == if unseen || incoming.firstSeen < old(firstSeen) then incoming.firstSeen else old(firstSeen)
      ensures lastSeen == if unseen || incoming.lastSeen > old(lastSeen) then incoming.lastSeen else old(lastSeen)
      ensures tags == MergedTags(old(Model()), incoming)
      ensures tagsAt == Max(old(tagsAt), incoming.tagsAt)
      ensures ttl == MergedTtl(old(ttl), incoming.ttl)
      ensures changed <==> firstSeen != old(firstSeen) || lastSeen != old(lastSeen)
                           || tags != old(tags) || ttl != old(ttl)
    {
      changed := false;
      if unseen || incoming.firstSeen < firstSeen {
        if incoming.firstSeen != firstSeen { changed := true; }
        firstSeen := incoming.firstSeen;
      }
      if unseen || incoming.lastSeen > lastSeen {
        if incoming.lastSeen != lastSeen { changed := true; }
        lastSeen := incoming.lastSeen;
      }
      var before := tags;
      MergeTags(incoming);
      if tags != before { changed := true; }
      var mergedTtl := MergedTtl(ttl, incoming.ttl);
      if mergedTtl != ttl {
        ttl := mergedTtl;
        changed := true;
      }
    }

    method Merge(incoming: Offer, mine: string) returns (outcome: Outcome)
      modifies this
      ensures Model() == Merged(old(Model()), incoming, mine)
      ensures outcome.changed <==> ReportsChange(old(Model()), incoming, mine)
      ensures outcome.ignoredSelf == if mine in incoming.counts then 1 else 0
      ensures outcome.count == Total(counts)
    {
      // `MergeDescription` needs the answer as of the old record.
      var seen := Count();
      var unseen := seen == 0 && firstSeen == 0;
      var rose := MergeContributions(incoming, mine);
      var changed := MergeDescription(incoming, unseen);
      var count := Count();
      outcome := Outcome(rose || changed, if mine in incoming.counts then 1 else 0, count);
    }
  }

  // ---------------------------------------------------------------------
  // The same operations on a record held in a map of values.
  // ---------------------------------------------------------------------

  /** The record a value has, or a new one (`or_insert_with`). */
  function Held(values: map<string, Attr>, v: string): Attr
  {
    if v in values then values[v] else NEW
  }

  method Merging(a: Attr, incoming: Offer, mine: string) returns (b: Attr, outcome: Outcome)
    ensures b == Merged(a, incoming, mine)
    ensures outcome.changed <==> ReportsChange(a, incoming, mine)
    ensures outcome.ignoredSelf == if mine in incoming.counts then 1 else 0
    ensures outcome.count == Total(b.counts)
  {
    var attr := new Attribute.From(a);
    outcome := attr.Merge(incoming, mine);
    b := attr.Stored();
  }

  method Sighting(a: Attr, node: string, when: int, ttl: Option<nat>, retention: nat, tags: string)
    returns (b: Attr, count: nat)
    ensures b == Sighted(a, node, when, ttl, retention, tags)
    ensures count == Total(b.counts)
  {
    var attr := new Attribute.From(a);
    if ttl.Some? { attr.ttl := ttl.value; }
    if tags != "" { attr.AddTagsHere(tags); }
    attr.Increment(node, when, retention);
    count := attr.Count();
    b := attr.Stored();
  }

  method Retagging(a: Attr, tags: string, at: int) returns (b: Attr)
    ensures b == Retagged(a, tags, at)
  {
    var attr := new Attribute.From(a);
    attr.SetTags(tags, at);
    b := attr.Stored();
  }

  method GivingBack(a: Attr, node: string) returns (b: Attr, remaining: nat)
    ensures b == Decremented(a, node)
    ensures remaining == Total(b.counts)
  {
    var attr := new Attribute.From(a);
    remaining := attr.Decrement(node);
    b := attr.Stored();
  }

  /** The loop of `add_tags` and `set_tags`. */
  method PushMissing(held: seq<string>, more: seq<string>) returns (merged: seq<string>, changed: bool)
    ensures merged == Absorb(held, more)
    ensures changed <==> merged != held
  {
    merged, changed := held, false;
    for i := 0 to |more|
      invariant Absorb(merged, more[i..]) == Absorb(held, more)
      invariant held <= merged
      invariant changed <==> merged != held
    {
      assert more[i..][0] == more[i] && more[i..][1..] == more[i + 1..];
      if more[i] !in merged {
        merged := merged + [more[i]];
        changed := true;
      }
    }
    assert more[|more|..] == [];
  }

  /** `merged` is `ours` on its way to `target`, with `todo` still to bring over. */
  ghost predicate Patched<K(!new), V>(ours: map<K, V>, target: map<K, V>, todo: set<K>, merged: map<K, V>)
  {
    && todo <= target.Keys
    && (forall k :: k in merged <==> k in target && (k in todo ==> k in ours))
    && (forall k :: k in merged ==> merged[k] == if k in todo then ours[k] else target[k])
  }

  lemma PatchStep<K(!new), V>(ours: map<K, V>, target: map<K, V>, todo: set<K>, merged: map<K, V>, k: K)
    requires Patched(ours, target, todo, merged) && k in todo
    ensures Patched(ours, target, todo - {k}, merged[k := target[k]])
  {
  }

  lemma PatchEnd<K(!new), V>(ours: map<K, V>, target: map<K, V>, merged: map<K, V>)
    requires Patched(ours, target, {}, merged)
    ensures merged == target
  {
  }

  /** The loop that raises each entry a peer holds more of. */
  method RaiseTo<K(!new)>(ours: map<K, nat>, theirs: map<K, nat>) returns (merged: map<K, nat>, rose: bool)
    ensures merged == MaxInto(ours, theirs)
    ensures rose <==> Rises(ours, theirs)
  {
    merged, rose := ours, false;
    var todo := theirs.Keys;
    while todo != {}
      invariant Raised(ours, theirs, todo, merged, rose)
      decreases |todo|
    {
      var k := Pick(todo);
      var entry := Entry(merged, k);
      RaiseStep(ours, theirs, todo, merged, rose, k);
      merged := merged[k := MaxNat(entry, theirs[k])];
      rose := rose || theirs[k] > entry;
      todo := todo - {k};
    }
    RaiseEnd(ours, theirs, merged, rose);
  }

  /** Everything but `todo` has been raised, and `todo` is untouched. */
  ghost predicate Raised<K(!new)>(ours: map<K, nat>, theirs: map<K, nat>, todo: set<K>,
                                  merged: map<K, nat>, rose: bool)
  {
    && todo <= theirs.Keys
    && Patched(ours, MaxInto(ours, theirs), todo, merged)
    && (rose <==> exists k :: k in theirs && k !in todo && theirs[k] > Entry(ours, k))
  }

  lemma RaiseStep<K(!new)>(ours: map<K, nat>, theirs: map<K, nat>, todo: set<K>,
                           merged: map<K, nat>, rose: bool, k: K)
    requires Raised(ours, theirs, todo, merged, rose) && k in todo
    ensures Raised(ours, theirs, todo - {k}, merged[k := MaxNat(Entry(merged, k), theirs[k])],
                   rose || theirs[k] > Entry(merged, k))
  {
    var left := todo - {k};
    PatchStep(ours, MaxInto(ours, theirs), todo, merged, k);
    assert Entry(merged, k) == Entry(ours, k);
    if rose {
      var j :| j in theirs && j !in todo && theirs[j] > Entry(ours, j);
      assert j in theirs && j !in left && theirs[j] > Entry(ours, j);
    }
    if theirs[k] > Entry(merged, k) { assert k in theirs && k !in left && theirs[k] > Entry(ours, k); }
  }

  lemma RaiseEnd<K(!new)>(ours: map<K, nat>, theirs: map<K, nat>, merged: map<K, nat>, rose: bool)
    requires Raised(ours, theirs, {}, merged, rose)
    ensures merged == MaxInto(ours, theirs)
    ensures rose <==> Rises(ours, theirs)
  {
    PatchEnd(ours, MaxInto(ours, theirs), merged);
    if Rises(ours, theirs) {
      var k :| k in theirs && theirs[k] > Entry(ours, k);
      assert k in theirs && k !in {} && theirs[k] > Entry(ours, k);
    }
  }

  method MergeStats(ours: map<string, map<int, nat>>, theirs: map<string, map<int, nat>>, mine: string)
    returns (merged: map<string, map<int, nat>>, rose: bool)
    ensures merged == MergedStats(ours, theirs, mine)
    ensures rose <==> StatsRise(ours, theirs, mine)
  {
    merged, rose := ours, false;
    var todo := theirs.Keys - {mine};
    while todo != {}
      invariant StatsRaised(ours, theirs, mine, todo, merged, rose)
      decreases |todo|
    {
      var n := Pick(todo);
      var buckets, grew := RaiseTo(Buckets(merged, n), theirs[n]);
      StatsStep(ours, theirs, mine, todo, merged, rose, n);
      merged := merged[n := buckets];
      rose := rose || grew;
      todo := todo - {n};
    }
    StatsEnd(ours, theirs, mine, merged, rose);
  }

  ghost predicate StatsRaised(ours: map<string, map<int, nat>>, theirs: map<string, map<int, nat>>, mine: string,
                              todo: set<string>, merged: map<string, map<int, nat>>, rose: bool)
  {
    && todo <= theirs.Keys - {mine}
    && Patched(ours, MergedStats(ours, theirs, mine), todo, merged)
    && (rose <==> exists n :: n in theirs && n != mine && n !in todo && Rises(Buckets(ours, n), theirs[n]))
  }

  lemma StatsStep(ours: map<string, map<int, nat>>, theirs: map<string, map<int, nat>>, mine: string,
                  todo: set<string>, merged: map<string, map<int, nat>>, rose: bool, n: string)
    requires StatsRaised(ours, theirs, mine, todo, merged, rose) && n in todo
    ensures StatsRaised(ours, theirs, mine, todo - {n},
                        merged[n := MaxInto(Buckets(merged, n), theirs[n])],
                        rose || Rises(Buckets(merged, n), theirs[n]))
  {
    var left := todo - {n};
    PatchStep(ours, MergedStats(ours, theirs, mine), todo, merged, n);
    assert Buckets(merged, n) == Buckets(ours, n);
    if rose {
      var j :| j in theirs && j != mine && j !in todo && Rises(Buckets(ours, j), theirs[j]);
      assert j in theirs && j != mine && j !in left && Rises(Buckets(ours, j), theirs[j]);
    }
    if Rises(Buckets(merged, n), theirs[n]) {
      assert n in theirs && n != mine && n !in left && Rises(Buckets(ours, n), theirs[n]);
    }
  }

  lemma StatsEnd(ours: map<string, map<int, nat>>, theirs: map<string, map<int, nat>>, mine: string,
                 merged: map<string, map<int, nat>>, rose: bool)
    requires StatsRaised(ours, theirs, mine, {}, merged, rose)
    ensures merged == MergedStats(ours, theirs, mine)
    ensures rose <==> StatsRise(ours, theirs, mine)
  {
    PatchEnd(ours, MergedStats(ours, theirs, mine), merged);
    if StatsRise(ours, theirs, mine) {
      var n :| n in theirs && n != mine && Rises(Buckets(ours, n), theirs[n]);
      assert n in theirs && n != mine && n !in {} && Rises(Buckets(ours, n), theirs[n]);
    }
  }

  /** Drop the oldest buckets until at most `keep` are left; zero keeps all. */
  method TrimStats(all: map<int, nat>, keep: nat) returns (left: map<int, nat>)
    ensures left == Newest(all, keep)
  {
    left := all;
    if keep == 0 || |all| <= keep {
      NewestAll(all, keep);
      return;
    }
    NewestAll(all, |all|);
    while |left| > keep
      invariant keep <= |left| <= |all|
      invariant left == Newest(all, |left|)
    {
      OldestExists(left.Keys);
      var oldest :| oldest in left.Keys && forall h :: h in left.Keys ==> oldest <= h;
      NewestWithoutOldest(all, left, oldest);
      left := left - {oldest};
    }
  }

  // ---------------------------------------------------------------------
  // Dropping the oldest buckets.
  // ---------------------------------------------------------------------

  lemma {:induction false} OldestExists(hours: set<int>)
    requires hours != {}
    ensures exists h :: h in hours && forall g :: g in hours ==> h <= g
    decreases |hours|
  {
    var h := Member(hours);
    if hours != {h} {
      var rest := hours - {h};
      OldestExists(rest);
      var m :| m in rest && forall g :: g in rest ==> m <= g;
      var least := Min(h, m);
      assert forall g :: g in hours ==> g == h || g in rest;
      assert least in hours && forall g :: g in hours ==> least <= g;
    }
  }

  /** Keeping as many as there are keeps all of them. */
  lemma NewestAll(all: map<int, nat>, keep: nat)
    requires keep == 0 || |all| <= keep
    ensures Newest(all, keep) == all
  {
    forall h | h in all ensures keep == 0 || |NewerThan(all.Keys, h)| < keep {
      SubsetSize(NewerThan(all.Keys, h), all.Keys - {h});
    }
  }

  lemma NewestWithoutOldest(all: map<int, nat>, left: map<int, nat>, oldest: int)
    requires |left| > 1 && left == Newest(all, |left|)
    requires oldest in left && forall h :: h in left ==> oldest <= h
    ensures left - {oldest} == Newest(all, |left| - 1)
  {
    var keep := |left|;
    // Everything newer than the oldest kept bucket is kept too.
    forall g | g in all && g > oldest ensures g in left {
      assert NewerThan(all.Keys, g) <= NewerThan(all.Keys, oldest);
      SubsetSize(NewerThan(all.Keys, g), NewerThan(all.Keys, oldest));
    }
    assert NewerThan(all.Keys, oldest) == left.Keys - {oldest};
    forall h | h in all ensures h in left - {oldest} <==> |NewerThan(all.Keys, h)| < keep - 1 {
      if h in left && h != oldest {
        assert NewerThan(all.Keys, h) <= NewerThan(all.Keys, oldest) - {h};
        SubsetSize(NewerThan(all.Keys, h), NewerThan(all.Keys, oldest) - {h});
      }
    }
  }
}
