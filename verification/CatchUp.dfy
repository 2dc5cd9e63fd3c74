/** Walking a peer's copy of a namespace page by page
    (src/galaxy.rs:1738-1805, src/db.rs:482-520, src/handlers.rs:225-229). */
module CatchUp {
  import opened Options
  import opened Sets
  import opened Text
  import opened Attributes

  const PAGE: nat := 500

  /** How many values one page may hold, whatever was asked for. */
  function PageLimit(asked: Option<nat>): (r: nat)
    ensures 1 <= r <= 5000
    ensures asked.None? ==> r == PAGE
    ensures asked.Some? && asked.value >= 1 ==> r <= asked.value && (r == asked.value || r == 5000)
    ensures asked == Some(0) ==> r == 1
  {
    var n := if asked.Some? then asked.value else 500;
    if n < 1 then 1 else if n > 5000 then 5000 else n
  }

  /** The peer's namespace at the moment it serves a request. */
  datatype Moment = Moment(values: map<string, Attr>, now: int)

  function Live(m: Moment): set<string>
  {
    set v | v in m.values && !IsExpired(m.values[v], m.now)
  }

  // ---------------------------------------------------------------------
  // One page: the live values in order.
  // ---------------------------------------------------------------------

  /** A copy of the namespace: what there is to offer, in order. */
  type Copy = seq<(string, Offer)>

  function Offered(m: Moment, names: seq<string>): (r: Copy)
    requires forall v :: v in names ==> v in m.values
    ensures |r| == |names|
    ensures forall k :: 0 <= k < |r| ==> r[k] == (names[k], AsMerge(m.values[names[k]]))
  {
    seq(|names|, k requires 0 <= k < |names| => (names[k], AsMerge(m.values[names[k]])))
  }

  ghost function CopyAt(m: Moment): Copy
  {
    ListedIsStored(m);
    Offered(m, Listing(Live(m)))
  }

  lemma ListedIsStored(m: Moment)
    ensures forall v :: v in Listing(Live(m)) ==> v in m.values
  {
    forall v | v in Listing(Live(m)) ensures v in m.values {
      assert v in Elements(Listing(Live(m)));
    }
  }

  /** `skip(offset).take(limit)` */
  function Slice<T>(all: seq<T>, offset: nat, limit: nat): seq<T>
  {
    if offset >= |all| then []
    else if offset + limit >= |all| then all[offset..]
    else all[offset..offset + limit]
  }

  /** `live` is what a scan of the first `i` sorted names has kept. */
  ghost predicate Scanned(m: Moment, names: seq<string>, i: nat, live: seq<string>)
    requires i <= |names|
  {
    Increasing(live) && Elements(live) == Elements(names[..i]) * Live(m)
  }

  method MergePage(m: Moment, offset: nat, limit: nat) returns (items: Copy, total: nat)
    ensures items == Slice(CopyAt(m), offset, limit)
    ensures total == |CopyAt(m)|
  {
    var names := Sorted(m.values.Keys);
    var live: seq<string> := [];
    ScanStart(m, names);
    for i := 0 to |names|
      invariant Scanned(m, names, i, live)
    {
      ScanStep(m, names, i, live);
      if !IsExpired(m.values[names[i]], m.now) {
        live := live + [names[i]];
      }
    }
    ScanEnd(m, names, live);
    ListedIsStored(m);
    items := Slice(Offered(m, live), offset, limit);
    total := |live|;
  }

  lemma ScanStart(m: Moment, names: seq<string>)
    ensures Scanned(m, names, 0, [])
  {
  }

  lemma ScanStep(m: Moment, names: seq<string>, i: nat, live: seq<string>)
    requires i < |names| && Increasing(names) && Elements(names) == m.values.Keys
    requires Scanned(m, names, i, live)
    ensures names[i] in m.values
    ensures Scanned(m, names, i + 1, if IsExpired(m.values[names[i]], m.now) then live else live + [names[i]])
  {
    assert names[i] in Elements(names);
    ElementsNext(names, i);
    if !IsExpired(m.values[names[i]], m.now) {
      AppendLast(names, i, live);
    }
  }

  lemma ScanEnd(m: Moment, names: seq<string>, live: seq<string>)
    requires Elements(names) == m.values.Keys && Scanned(m, names, |names|, live)
    ensures live == Listing(Live(m))
  {
    assert names[..|names|] == names;
    assert Live(m) <= m.values.Keys;
    IncreasingUnique(live, Listing(Live(m)));
  }

  lemma ElementsNext<T>(s: seq<T>, i: nat)
    requires i < |s|
    ensures Elements(s[..i + 1]) == Elements(s[..i]) + {s[i]}
  {
    assert s[..i + 1] == s[..i] + [s[i]];
  }

  lemma AppendLast(names: seq<string>, i: nat, live: seq<string>)
    requires i < |names| && Increasing(names) && Increasing(live) && Elements(live) <= Elements(names[..i])
    ensures Increasing(live + [names[i]])
    ensures Elements(live + [names[i]]) == Elements(live) + {names[i]}
  {
    forall j | 0 <= j < |live| ensures Less(live[j], names[i]) {
      assert live[j] in Elements(live);
      var k :| 0 <= k < |names[..i]| && names[..i][k] == live[j];
    }
  }

  // ---------------------------------------------------------------------
  // The walk.
  // ---------------------------------------------------------------------

  /** What a walk took, in order, and whether it stopped because the peer had
      no more rather than because a request failed. */
  datatype Pull<+T> = Pull(taken: seq<T>, finished: bool)

  /** One request: ask from as many as have been taken, and stop when nothing
      came or when that is all there is. */
  function Ask<T>(p: Pull<T>, copy: seq<T>, limit: nat): Pull<T>
  {
    if p.finished then p
    else
      var page := Slice(copy, |p.taken|, limit);
      Pull(p.taken + page, |page| == 0 || |p.taken| + |page| >= |copy|)
  }

  /** The first `n` requests; `copies[i]` is what the peer held when it served
      the i-th. */
  function WalkTo<T>(copies: seq<seq<T>>, n: nat, limit: nat): Pull<T>
    requires n <= |copies|
  {
    if n == 0 then Pull([], false) else Ask(WalkTo(copies, n - 1, limit), copies[n - 1], limit)
  }

  function Walk<T>(copies: seq<seq<T>>, limit: nat): Pull<T>
  {
    WalkTo(copies, |copies|, limit)
  }

  lemma {:induction false} FinishedStays<T>(copies: seq<seq<T>>, m: nat, n: nat, limit: nat)
    requires m <= n <= |copies| && WalkTo(copies, m, limit).finished
    ensures WalkTo(copies, n, limit) == WalkTo(copies, m, limit)
    decreases n
  {
    if m < n { FinishedStays(copies, m, n - 1, limit); }
  }

  ghost function Copies(moments: seq<Moment>): (r: seq<Copy>)
    ensures |r| == |moments|
    ensures forall i :: 0 <= i < |r| ==> r[i] == CopyAt(moments[i])
  {
    seq(|moments|, i requires 0 <= i < |moments| => CopyAt(moments[i]))
  }

  /** The requests that were served before the first that failed. */
  function Served(answers: seq<Option<Moment>>): (r: seq<Moment>)
    ensures |r| <= |answers|
    ensures forall i :: 0 <= i < |r| ==> answers[i] == Some(r[i])
    ensures |r| < |answers| ==> answers[|r|].None?
  {
    if |answers| == 0 || answers[0].None? then [] else [answers[0].value] + Served(answers[1..])
  }

  ghost function MergeItem(values: map<string, Attr>, item: (string, Offer), node: string): map<string, Attr>
  {
    values[item.0 := Merged(Held(values, item.0), item.1, node)]
  }

  ghost function MergeItems(values: map<string, Attr>, items: Copy, node: string): map<string, Attr>
    decreases |items|
  {
    if |items| == 0 then values
    else MergeItem(MergeItems(values, items[..|items| - 1], node), items[|items| - 1], node)
  }

  /** How many of the offers taken changed anything here. */
  ghost function Changes(values: map<string, Attr>, items: Copy, node: string): nat
    decreases |items|
  {
    if |items| == 0 then 0
    else
      var last := items[|items| - 1];
      var before := MergeItems(values, items[..|items| - 1], node);
      Changes(values, items[..|items| - 1], node) +
      if ReportsChange(Held(before, last.0), last.1, node) then 1 else 0
  }

  /** Where merging `items`, in order, into `values` has got to. */
  ghost predicate MergedSoFar(values: map<string, Attr>, items: Copy, node: string, after: map<string, Attr>,
                              count: nat)
  {
    after == MergeItems(values, items, node) && count == Changes(values, items, node)
  }

  lemma OneMoreItem(values: map<string, Attr>, items: Copy, item: (string, Offer), node: string,
                    after: map<string, Attr>, count: nat)
    requires MergedSoFar(values, items, node, after, count)
    ensures MergedSoFar(values, items + [item], node, MergeItem(after, item, node),
                        count + if ReportsChange(Held(after, item.0), item.1, node) then 1 else 0)
  {
    var more := items + [item];
    assert more[..|more| - 1] == items;
  }

  method MergeOnePage(ghost values: map<string, Attr>, ghost taken: Copy, items: Copy, node: string,
                      before: map<string, Attr>, merged: nat)
    returns (after: map<string, Attr>, count: nat)
    requires MergedSoFar(values, taken, node, before, merged)
    ensures MergedSoFar(values, taken + items, node, after, count)
  {
    after, count := before, merged;
    ghost var done := taken;
    Prefixes(taken, items, 0);
    for i := 0 to |items|
      invariant done == taken + items[..i]
      invariant MergedSoFar(values, done, node, after, count)
    {
      OneMoreItem(values, done, items[i], node, after, count);
      var attr, outcome := Merging(Held(after, items[i].0), items[i].1, node);
      after := after[items[i].0 := attr];
      if outcome.changed { count := count + 1; }
      Prefixes(taken, items, i);
      done := done + [items[i]];
    }
  }

  lemma Prefixes<T>(taken: seq<T>, items: seq<T>, i: nat)
    requires i <= |items|
    ensures taken + items[..0] == taken && taken + items[..|items|] == taken + items
    ensures i < |items| ==> taken + items[..i] + [items[i]] == taken + items[..i + 1]
  {
    assert items[..|items|] == items;
  }

  /** `pull` is the walk's first `i` requests. */
  ghost predicate WalkedTo<T>(copies: seq<seq<T>>, i: nat, limit: nat, pull: Pull<T>)
  {
    i <= |copies| && pull == WalkTo(copies, i, limit)
  }

  lemma WalkedNext<T>(copies: seq<seq<T>>, i: nat, limit: nat, pull: Pull<T>, copy: seq<T>)
    requires WalkedTo(copies, i, limit, pull) && i < |copies| && copy == copies[i]
    ensures WalkedTo(copies, i + 1, limit, Ask(pull, copy, limit))
  {
  }

  /** A walk that has ended, or whose next request fails, is the whole walk. */
  lemma WalkedAll<T>(copies: seq<seq<T>>, i: nat, limit: nat, pull: Pull<T>)
    requires WalkedTo(copies, i, limit, pull) && (pull.finished || i == |copies|)
    ensures pull == Walk(copies, limit)
  {
    if pull.finished { FinishedStays(copies, i, |copies|, limit); }
  }

  lemma CopiesServed(answers: seq<Option<Moment>>, i: nat)
    requires i <= |Copies(Served(answers))|
    ensures i < |answers| && answers[i].Some? ==>
              i < |Copies(Served(answers))| && Copies(Served(answers))[i] == CopyAt(answers[i].value)
    ensures i >= |answers| || answers[i].None? ==> i == |Copies(Served(answers))|
  {
  }

  /** The loop: ask from `offset`, merge what came, move on by as much as came. */
  method PullNamespace(values: map<string, Attr>, answers: seq<Option<Moment>>, node: string)
    returns (after: map<string, Attr>, merged: nat)
    ensures var taken := Walk(Copies(Served(answers)), PageLimit(Some(PAGE))).taken;
            MergedSoFar(values, taken, node, after, merged)
  {
    var limit := PageLimit(Some(PAGE));
    var offset: nat, i: nat := 0, 0;
    ghost var copies := Copies(Served(answers));
    ghost var pull: Pull<(string, Offer)> := Pull([], false);
    after, merged := values, 0;
    while true
      invariant WalkedTo(copies, i, limit, pull) && offset == |pull.taken| && !pull.finished
      invariant MergedSoFar(values, pull.taken, node, after, merged)
      decreases |answers| - i
    {
      CopiesServed(answers, i);
      if i >= |answers| || answers[i].None? { break; }
      WalkedNext(copies, i, limit, pull, CopyAt(answers[i].value));
      var taken, total;
      after, merged, taken, total, pull := AskOnce(values, answers[i].value, offset, limit, node, after, merged, pull);
      offset := offset + taken;
      i := i + 1;
      if taken == 0 || offset >= total { break; }
    }
    WalkedAll(copies, i, limit, pull);
  }

  /** One request, served and merged. */
  method AskOnce(ghost values: map<string, Attr>, m: Moment, offset: nat, limit: nat, node: string,
                 before: map<string, Attr>, mergedBefore: nat, ghost pull: Pull<(string, Offer)>)
    returns (after: map<string, Attr>, merged: nat, taken: nat, total: nat, ghost next: Pull<(string, Offer)>)
    requires offset == |pull.taken| && !pull.finished
    requires MergedSoFar(values, pull.taken, node, before, mergedBefore)
    ensures next == Ask(pull, CopyAt(m), limit)
    ensures taken == |next.taken| - offset && (next.finished <==> taken == 0 || offset + taken >= total)
    ensures MergedSoFar(values, next.taken, node, after, merged)
  {
    var items;
    items, total := MergePage(m, offset, limit);
    taken := |items|;
    after, merged := MergeOnePage(values, pull.taken, items, node, before, mergedBefore);
    next := Ask(pull, CopyAt(m), limit);
  }

  // ---------------------------------------------------------------------
  // A value's place in the listing.
  // ---------------------------------------------------------------------

  function Below(names: set<string>, v: string): set<string>
  {
    set w | w in names && Less(w, v)
  }

  /** A value is listed at the place that has as many values before it. */
  lemma PlaceIsRank(names: set<string>, i: nat)
    requires i < |Listing(names)|
    ensures |Below(names, Listing(names)[i])| == i
  {
    var listing := Listing(names);
    var front := listing[..i];
    assert Increasing(front);
    IncreasingSize(front);
    FrontIsBelow(listing, i);
  }

  lemma FrontIsBelow(listing: seq<string>, i: nat)
    requires Increasing(listing) && i < |listing|
    ensures Elements(listing[..i]) == Below(Elements(listing), listing[i])
  {
    var front := listing[..i];
    forall w | w in Below(Elements(listing), listing[i]) ensures w in front {
      BelowIsInFront(listing, i, w);
    }
    forall w | w in front ensures w in Below(Elements(listing), listing[i]) {
      var k :| 0 <= k < |front| && front[k] == w;
      assert w == listing[k];
    }
  }

  lemma BelowIsInFront(listing: seq<string>, i: nat, w: string)
    requires Increasing(listing) && i < |listing| && w in listing && Less(w, listing[i])
    ensures w in listing[..i]
  {
    var k :| 0 <= k < |listing| && listing[k] == w;
    LessTotal(listing[i], w);
    assert k < i;
    assert listing[..i][k] == w;
  }

  lemma RankIsPlace(names: set<string>, v: string)
    requires v in names
    ensures |Below(names, v)| < |Listing(names)|
    ensures Listing(names)[|Below(names, v)|] == v
  {
    var listing := Listing(names);
    assert v in Elements(listing);
    var i :| 0 <= i < |listing| && listing[i] == v;
    PlaceIsRank(names, i);
  }

  // ---------------------------------------------------------------------
  // Nothing live at the start is missed.
  // ---------------------------------------------------------------------

  ghost predicate Takes(items: Copy, v: string)
  {
    exists k :: 0 <= k < |items| && items[k].0 == v
  }

  /** Something is at `places[i]` when the i-th request is served, and never
      further forward than at the one before. */
  ghost predicate NeverSlipsBack<T>(copies: seq<seq<T>>, places: seq<nat>)
  {
    |places| == |copies| && forall i :: 0 <= i < |copies| ==> StaysAt(copies, places, i)
  }

  ghost predicate StaysAt<T>(copies: seq<seq<T>>, places: seq<nat>, i: nat)
    requires i < |places| == |copies|
  {
    places[i] < |copies[i]| && (i > 0 ==> places[i - 1] <= places[i])
  }

  /** After `n` requests it has been taken, or is still ahead. */
  ghost predicate TakenByNow<T>(copies: seq<seq<T>>, places: seq<nat>, p: Pull<T>, i: nat, k: nat)
  {
    && i < |copies| && i < |places| && places[i] < |copies[i]|
    && k < |p.taken| && p.taken[k] == copies[i][places[i]]
  }

  ghost predicate AheadOf<T>(copies: seq<seq<T>>, places: seq<nat>, p: Pull<T>, n: nat)
  {
    !p.finished && (n < |places| ==> places[n] >= |p.taken|)
  }

  /** Taken, or still ahead: if nothing before it disappears, the walk cannot
      have passed it by. */
  lemma {:induction false} TakenOrAhead<T>(copies: seq<seq<T>>, places: seq<nat>, n: nat, limit: nat)
      returns (taken: bool, i: nat, k: nat)
    requires limit >= 1 && n <= |copies| && NeverSlipsBack(copies, places)
    ensures TakenOrAheadAt(copies, places, WalkTo(copies, n, limit), n, taken, i, k)
    decreases n
  {
    if n == 0 {
      taken, i, k := false, 0, 0;
      AheadAtFirst(copies, places, limit);
    } else {
      taken, i, k := TakenOrAhead(copies, places, n - 1, limit);
      taken, i, k := OneMoreWalked(copies, places, n - 1, limit, taken, i, k);
    }
  }

  ghost predicate TakenOrAheadAt<T>(copies: seq<seq<T>>, places: seq<nat>, p: Pull<T>, n: nat, taken: bool, i: nat,
                                    k: nat)
  {
    if taken then TakenByNow(copies, places, p, i, k) else AheadOf(copies, places, p, n)
  }

  lemma AheadAtFirst<T>(copies: seq<seq<T>>, places: seq<nat>, limit: nat)
    ensures TakenOrAheadAt(copies, places, WalkTo(copies, 0, limit), 0, false, 0, 0)
  {
  }

  lemma OneMoreWalked<T>(copies: seq<seq<T>>, places: seq<nat>, n: nat, limit: nat, was: bool, j: nat, at: nat)
    returns (taken: bool, i: nat, k: nat)
    requires limit >= 1 && n < |copies| && NeverSlipsBack(copies, places)
    requires TakenOrAheadAt(copies, places, WalkTo(copies, n, limit), n, was, j, at)
    ensures TakenOrAheadAt(copies, places, WalkTo(copies, n + 1, limit), n + 1, taken, i, k)
  {
    taken, i, k := OneMoreRequest(copies, places, n, limit, WalkTo(copies, n, limit), was, j, at);
  }

  lemma OneMoreRequest<T>(copies: seq<seq<T>>, places: seq<nat>, n: nat, limit: nat, p: Pull<T>,
                          was: bool, j: nat, at: nat) returns (taken: bool, i: nat, k: nat)
    requires limit >= 1 && n < |copies| && NeverSlipsBack(copies, places)
    requires if was then TakenByNow(copies, places, p, j, at) else AheadOf(copies, places, p, n)
    ensures var q := Ask(p, copies[n], limit);
            if taken then TakenByNow(copies, places, q, i, k) else AheadOf(copies, places, q, n + 1)
  {
    taken, i, k := was, j, at;
    var copy, place := copies[n], places[n];
    assert StaysAt(copies, places, n);
    if was {
      AskGrows(p, copy, limit);
      AskAt(p, copy, limit, at);
    } else if PagePasses(p, copy, limit, place) {
      taken, i, k := true, n, place;
    } else {
      StillAhead(p, copy, limit, place);
      assert n + 1 < |copies| ==> StaysAt(copies, places, n + 1);
    }
  }

  /** The request takes what is at `place`. */
  ghost predicate PagePasses<T>(p: Pull<T>, copy: seq<T>, limit: nat, place: nat)
  {
    var q := Ask(p, copy, limit);
    place < |q.taken| && place < |copy| && q.taken[place] == copy[place]
  }

  lemma StillAhead<T>(p: Pull<T>, copy: seq<T>, limit: nat, place: nat)
    requires limit >= 1 && !p.finished && |p.taken| <= place < |copy| && !PagePasses(p, copy, limit, place)
    ensures !Ask(p, copy, limit).finished && |Ask(p, copy, limit).taken| <= place
  {
    PageReaches(p, copy, limit, place);
  }

  /** What a request leaves as it was, and what it adds. */
  lemma AskAt<T>(p: Pull<T>, copy: seq<T>, limit: nat, k: nat)
    requires k < |Ask(p, copy, limit).taken|
    ensures k < |p.taken| ==> Ask(p, copy, limit).taken[k] == p.taken[k]
    ensures k >= |p.taken| ==> k < |copy| && Ask(p, copy, limit).taken[k] == copy[k]
  {
  }

  lemma AskGrows<T>(p: Pull<T>, copy: seq<T>, limit: nat)
    ensures |p.taken| <= |Ask(p, copy, limit).taken|
  {
  }

  /** A page starts where the last one ended, so a place not yet passed is in it
      or still ahead. */
  lemma PageReaches<T>(p: Pull<T>, copy: seq<T>, limit: nat, place: nat)
    requires limit >= 1 && !p.finished && |p.taken| <= place < |copy|
    ensures var q := Ask(p, copy, limit);
            if place < |q.taken| then q.taken[place] == copy[place] else !q.finished
  {
  }

  /** Between requests values may arrive, anywhere in the order, but none leaves. */
  ghost predicate OnlyGrows(moments: seq<Moment>)
  {
    forall i, j :: 0 <= i < j < |moments| ==> Live(moments[i]) <= Live(moments[j])
  }

  /** `v` stays live and no fewer values come to be before it. */
  ghost predicate RankNeverFalls(moments: seq<Moment>, v: string)
  {
    && (forall i :: 0 <= i < |moments| ==> v in Live(moments[i]))
    && (forall i, j :: 0 <= i < j < |moments| ==> |Below(Live(moments[i]), v)| <= |Below(Live(moments[j]), v)|)
  }

  /** Then a walk that stops for want of more has taken it. */
  lemma SteadyValueIsTaken(moments: seq<Moment>, limit: nat, v: string)
    requires limit >= 1 && RankNeverFalls(moments, v)
    requires Walk(Copies(moments), limit).finished
    ensures Takes(Walk(Copies(moments), limit).taken, v)
  {
    var places := seq(|moments|, i requires 0 <= i < |moments| => |Below(Live(moments[i]), v)|);
    forall i | 0 <= i < |moments|
      ensures places[i] < |Copies(moments)[i]| && Copies(moments)[i][places[i]].0 == v
    {
      RankIsPlace(Live(moments[i]), v);
    }
    var taken, i, k := TakenOrAhead(Copies(moments), places, |moments|, limit);
    assert Walk(Copies(moments), limit).taken[k].0 == v;
  }

  /** A walk over a namespace that only grows, once it stops for want of more,
      has taken every value that was live when it began. */
  lemma CatchUpIsComplete(moments: seq<Moment>, limit: nat, v: string)
    requires limit >= 1 && OnlyGrows(moments)
    requires |moments| > 0 && v in Live(moments[0])
    requires Walk(Copies(moments), limit).finished
    ensures Takes(Walk(Copies(moments), limit).taken, v)
  {
    forall i, j | 0 <= i < j < |moments| ensures |Below(Live(moments[i]), v)| <= |Below(Live(moments[j]), v)| {
      SubsetSize(Below(Live(moments[i]), v), Below(Live(moments[j]), v));
    }
    SteadyValueIsTaken(moments, limit, v);
  }

  // ---------------------------------------------------------------------
  // An unchanging namespace: each live value once, and the walk ends.
  // ---------------------------------------------------------------------

  function Names(items: Copy): (r: seq<string>)
    ensures |r| == |items|
    ensures forall k :: 0 <= k < |r| ==> r[k] == items[k].0
  {
    seq(|items|, k requires 0 <= k < |items| => items[k].0)
  }

  ghost predicate OneLength<T>(copies: seq<seq<T>>, total: nat)
  {
    forall i :: 0 <= i < |copies| ==> |copies[i]| == total
  }

  /** Copies of one length: every request but the last takes a full page. */
  lemma {:induction false} WalkLength<T>(copies: seq<seq<T>>, n: nat, limit: nat, total: nat)
    requires limit >= 1 && n <= |copies| && OneLength(copies, total)
    ensures var p := WalkTo(copies, n, limit);
            if p.finished then |p.taken| == total else |p.taken| == limit * n && (n > 0 ==> |p.taken| < total)
    decreases n
  {
    if n > 0 {
      WalkLength(copies, n - 1, limit, total);
      MoreRequests(limit, n);
    }
  }

  /** Whatever it takes k-th comes from the k-th place of some copy. */
  lemma {:induction false} TakenIsServed<T>(copies: seq<seq<T>>, n: nat, limit: nat, k: nat) returns (i: nat)
    requires n <= |copies| && k < |WalkTo(copies, n, limit).taken|
    ensures i < |copies| && k < |copies[i]| && copies[i][k] == WalkTo(copies, n, limit).taken[k]
    decreases n
  {
    var p := WalkTo(copies, n - 1, limit);
    AskAt(p, copies[n - 1], limit, k);
    if k < |p.taken| {
      i := TakenIsServed(copies, n - 1, limit, k);
    } else {
      i := n - 1;
    }
  }

  lemma MoreRequests(limit: nat, n: nat)
    requires n > 0
    ensures limit * n == limit * (n - 1) + limit
  {
  }

  lemma PlaceOfCopy(m: Moment, k: nat)
    requires k < |CopyAt(m)|
    ensures CopyAt(m)[k].0 == Listing(Live(m))[k]
  {
  }

  /** Over an unchanging namespace the walk ends by itself and visits every live
      value exactly once, in order. */
  lemma UnchangingWalk(moments: seq<Moment>, limit: nat, names: set<string>)
    requires limit >= 1 && |moments| >= 1 && limit * |moments| >= |Listing(names)|
    requires forall i :: 0 <= i < |moments| ==> Live(moments[i]) == names
    ensures Walk(Copies(moments), limit).finished
    ensures Names(Walk(Copies(moments), limit).taken) == Listing(names)
  {
    var copies := Copies(moments);
    WalkLength(copies, |copies|, limit, |Listing(names)|);
    var taken := Walk(copies, limit).taken;
    forall k | 0 <= k < |taken| ensures taken[k].0 == Listing(names)[k] {
      var i := TakenIsServed(copies, |copies|, limit, k);
      PlaceOfCopy(moments[i], k);
    }
  }

  // ---------------------------------------------------------------------
  // What a walk leaves here.
  // ---------------------------------------------------------------------

  /** Merging never lowers another server's entry. */
  lemma {:induction false} ItemsOnlyRaise(values: map<string, Attr>, items: Copy, node: string, k: nat, n: string)
    requires k < |items| && n != node
    ensures items[k].0 in MergeItems(values, items, node)
    ensures Entry(MergeItems(values, items, node)[items[k].0].counts, n) >= Entry(items[k].1.counts, n)
    decreases |items|
  {
    var last := |items| - 1;
    var before := MergeItems(values, items[..last], node);
    MergedAt(Held(before, items[last].0), items[last].1, node, n);
    if k < last {
      ItemsOnlyRaise(values, items[..last], node, k, n);
    }
  }

  /** After a finished walk every value live at the start is here, counting for
      every other server at least what the peer counted all along. */
  lemma CatchUpBringsCounts(values: map<string, Attr>, moments: seq<Moment>, limit: nat, node: string,
                            v: string, n: string, least: nat)
    requires limit >= 1 && OnlyGrows(moments) && n != node
    requires |moments| > 0 && v in Live(moments[0])
    requires forall i :: 0 <= i < |moments| && v in moments[i].values ==>
               Entry(moments[i].values[v].counts, n) >= least
    requires Walk(Copies(moments), limit).finished
    ensures var after := MergeItems(values, Walk(Copies(moments), limit).taken, node);
            v in after && Entry(after[v].counts, n) >= least
  {
    CatchUpIsComplete(moments, limit, v);
    var taken := Walk(Copies(moments), limit).taken;
    var k: nat :| k < |taken| && taken[k].0 == v;
    var i := TakenIsServed(Copies(moments), |moments|, limit, k);
    ListedIsStored(moments[i]);
    ItemsOnlyRaise(values, taken, node, k, n);
  }

  // ---------------------------------------------------------------------
  // Exactly what is missed when something leaves.
  // ---------------------------------------------------------------------

  /** The request a walk ends with. */
  predicate EndsAt<T>(copies: seq<seq<T>>, last: nat, limit: nat)
  {
    last < |copies| && !WalkTo(copies, last, limit).finished && WalkTo(copies, last + 1, limit).finished
  }

  lemma {:induction false} FinishedEnds<T>(copies: seq<seq<T>>, n: nat, limit: nat) returns (last: nat)
    requires n <= |copies| && WalkTo(copies, n, limit).finished
    ensures last < n && EndsAt(copies, last, limit)
    decreases n
  {
    if WalkTo(copies, n - 1, limit).finished {
      last := FinishedEnds(copies, n - 1, limit);
    } else {
      last := n - 1;
    }
  }

  function Rest<T>(s: seq<T>, offset: nat): seq<T>
  {
    if offset <= |s| then s[offset..] else []
  }

  /** The last page holds whatever is from the offset on. */
  lemma EndsWithRest<T>(copies: seq<seq<T>>, last: nat, limit: nat)
    requires limit >= 1 && EndsAt(copies, last, limit)
    ensures var before := WalkTo(copies, last, limit).taken;
            Walk(copies, limit).taken == before + Rest(copies[last], |before|)
  {
    FinishedStays(copies, last + 1, |copies|, limit);
    LastPage(WalkTo(copies, last, limit), copies[last], limit);
  }

  lemma LastPage<T>(p: Pull<T>, copy: seq<T>, limit: nat)
    requires limit >= 1 && !p.finished && Ask(p, copy, limit).finished
    ensures Ask(p, copy, limit).taken == p.taken + Rest(copy, |p.taken|)
  {
  }

  lemma TakesBoth(a: Copy, b: Copy, v: string)
    ensures Takes(a + b, v) <==> Takes(a, v) || Takes(b, v)
  {
    if Takes(a, v) {
      var k: nat :| k < |a| && a[k].0 == v;
      assert (a + b)[k].0 == v;
    }
    if Takes(b, v) {
      var k: nat :| k < |b| && b[k].0 == v;
      assert (a + b)[|a| + k].0 == v;
    }
    if Takes(a + b, v) {
      var k: nat :| k < |a + b| && (a + b)[k].0 == v;
      assert if k < |a| then a[k].0 == v else b[k - |a|].0 == v;
    }
  }

  /** A value is in the rest of a listing exactly when its place is. */
  lemma RestTakesIff(m: Moment, offset: nat, v: string)
    requires v in Live(m)
    ensures Takes(Rest(CopyAt(m), offset), v) <==> |Below(Live(m), v)| >= offset
  {
    var copy, place := CopyAt(m), |Below(Live(m), v)|;
    RankIsPlace(Live(m), v);
    PlaceOfCopy(m, place);
    if offset <= |copy| {
      var rest := copy[offset..];
      if Takes(rest, v) {
        var k: nat :| k < |rest| && rest[k].0 == v;
        PlaceOfCopy(m, offset + k);
        PlaceIsRank(Live(m), offset + k);
      }
      if place >= offset { assert rest[place - offset].0 == v; }
    }
  }

  /** What decides: a value live at the last request is missed if and only if it
      had not been taken by then and stood before the offset. */
  lemma MissedIff(moments: seq<Moment>, limit: nat, last: nat, v: string)
    requires limit >= 1 && EndsAt(Copies(moments), last, limit) && v in Live(moments[last])
    ensures var before := WalkTo(Copies(moments), last, limit).taken;
            !Takes(Walk(Copies(moments), limit).taken, v) <==>
            !Takes(before, v) && |Below(Live(moments[last]), v)| < |before|
  {
    var before := WalkTo(Copies(moments), last, limit).taken;
    EndsWithRest(Copies(moments), last, limit);
    TakesBoth(before, Rest(CopyAt(moments[last]), |before|), v);
    RestTakesIff(moments[last], |before|, v);
  }

  /** Every request of a walk that has not ended took a full page. */
  lemma {:induction false} FullPages<T>(copies: seq<seq<T>>, n: nat, limit: nat)
    requires limit >= 1 && n <= |copies| && !WalkTo(copies, n, limit).finished
    ensures |WalkTo(copies, n, limit).taken| == limit * n
    decreases n
  {
    if n > 0 {
      FullPages(copies, n - 1, limit);
      MoreRequests(limit, n);
    }
  }

  lemma CopyHas(m: Moment, v: string, k: nat)
    requires k < |CopyAt(m)|
    ensures CopyAt(m)[k].0 == v <==> v in Live(m) && k == |Below(Live(m), v)|
  {
    PlaceOfCopy(m, k);
    PlaceIsRank(Live(m), k);
    assert Listing(Live(m))[k] in Elements(Listing(Live(m)));
    if v in Live(m) { RankIsPlace(Live(m), v); }
  }

  lemma SliceAt<T>(all: seq<T>, offset: nat, limit: nat)
    ensures forall k :: 0 <= k < |Slice(all, offset, limit)| ==>
              k < limit && offset + k < |all| && Slice(all, offset, limit)[k] == all[offset + k]
    ensures |Slice(all, offset, limit)| == limit || offset + |Slice(all, offset, limit)| >= |all|
  {
    var page := Slice(all, offset, limit);
    forall k | 0 <= k < |page| ensures k < limit && offset + k < |all| && page[k] == all[offset + k] {}
  }

  /** A page holds a value exactly when its place among the live ones is on it. */
  lemma SliceTakesIff(m: Moment, offset: nat, limit: nat, v: string)
    ensures Takes(Slice(CopyAt(m), offset, limit), v) <==>
            v in Live(m) && offset <= |Below(Live(m), v)| < offset + limit
  {
    var copy, page := CopyAt(m), Slice(CopyAt(m), offset, limit);
    SliceAt(copy, offset, limit);
    if Takes(page, v) {
      var k: nat :| k < |page| && page[k].0 == v;
      CopyHas(m, v, offset + k);
    } else if v in Live(m) && offset <= |Below(Live(m), v)| < offset + limit {
      OnSlice(m, offset, limit, v);
    }
  }

  lemma OnSlice(m: Moment, offset: nat, limit: nat, v: string)
    requires v in Live(m) && offset <= |Below(Live(m), v)| < offset + limit
    ensures Takes(Slice(CopyAt(m), offset, limit), v)
  {
    var page, place := Slice(CopyAt(m), offset, limit), |Below(Live(m), v)|;
    RankIsPlace(Live(m), v);
    CopyHas(m, v, place);
    SliceAt(CopyAt(m), offset, limit);
    assert page[place - offset] == CopyAt(m)[place];
  }

  /** The i-th page of a walk whose pages so far were full. */
  ghost predicate PageTakes(copies: seq<Copy>, i: nat, limit: nat, v: string)
    requires i < |copies|
  {
    Takes(Slice(copies[i], limit * i, limit), v)
  }

  ghost predicate SomePageTakes(copies: seq<Copy>, n: nat, limit: nat, v: string)
    requires n <= |copies|
  {
    exists i: nat :: i < n && PageTakes(copies, i, limit, v)
  }

  lemma {:induction false} TakenByPages(copies: seq<Copy>, limit: nat, n: nat, v: string)
    requires limit >= 1 && n <= |copies| && (n == 0 || !WalkTo(copies, n - 1, limit).finished)
    ensures Takes(WalkTo(copies, n, limit).taken, v) <==> SomePageTakes(copies, n, limit, v)
    decreases n
  {
    if n > 0 {
      TakenByPages(copies, limit, n - 1, v);
      TakenByPage(copies, limit, n - 1, v);
      OnePageMore(copies, limit, n - 1, v);
    }
  }

  lemma TakenByPage(copies: seq<Copy>, limit: nat, n: nat, v: string)
    requires limit >= 1 && n < |copies| && !WalkTo(copies, n, limit).finished
    ensures Takes(WalkTo(copies, n + 1, limit).taken, v) <==>
            Takes(WalkTo(copies, n, limit).taken, v) || PageTakes(copies, n, limit, v)
  {
    FullPages(copies, n, limit);
    TakesBoth(WalkTo(copies, n, limit).taken, Slice(copies[n], limit * n, limit), v);
  }

  lemma OnePageMore(copies: seq<Copy>, limit: nat, n: nat, v: string)
    requires n < |copies|
    ensures SomePageTakes(copies, n + 1, limit, v) <==>
            SomePageTakes(copies, n, limit, v) || PageTakes(copies, n, limit, v)
  {
    if SomePageTakes(copies, n + 1, limit, v) {
      var i: nat :| i < n + 1 && PageTakes(copies, i, limit, v);
      assert i < n || i == n;
    }
  }

  lemma TakenByAllPages(copies: seq<Copy>, limit: nat, last: nat, v: string)
    requires limit >= 1 && EndsAt(copies, last, limit)
    ensures Takes(Walk(copies, limit).taken, v) <==> SomePageTakes(copies, last + 1, limit, v)
  {
    FinishedStays(copies, last + 1, |copies|, limit);
    TakenByPages(copies, limit, last + 1, v);
  }

  /** Where a value has to stand to be on page i. */
  predicate OnPage(m: Moment, i: nat, limit: nat, v: string)
  {
    v in Live(m) && limit * i <= |Below(Live(m), v)| < limit * i + limit
  }

  ghost predicate OnSomePage(moments: seq<Moment>, last: nat, limit: nat, v: string)
    requires last < |moments|
  {
    exists i: nat :: i <= last && OnPage(moments[i], i, limit, v)
  }

  /** Exactly what a walk takes, told from where values stood: those that were on
      page i when the i-th request was served, for some request up to the last. */
  lemma TakenIff(moments: seq<Moment>, limit: nat, last: nat, v: string)
    requires limit >= 1 && EndsAt(Copies(moments), last, limit)
    ensures Takes(Walk(Copies(moments), limit).taken, v) <==> OnSomePage(moments, last, limit, v)
  {
    TakenByAllPages(Copies(moments), limit, last, v);
    PagesCorrespond(moments, limit, last, v);
  }

  lemma PageIsPlace(moments: seq<Moment>, i: nat, limit: nat, v: string)
    requires i < |moments|
    ensures PageTakes(Copies(moments), i, limit, v) <==> OnPage(moments[i], i, limit, v)
  {
    SliceTakesIff(moments[i], limit * i, limit, v);
  }

  lemma PagesCorrespond(moments: seq<Moment>, limit: nat, last: nat, v: string)
    requires last < |moments|
    ensures SomePageTakes(Copies(moments), last + 1, limit, v) <==> OnSomePage(moments, last, limit, v)
  {
    if SomePageTakes(Copies(moments), last + 1, limit, v) {
      var i: nat :| i < last + 1 && PageTakes(Copies(moments), i, limit, v);
      PageIsPlace(moments, i, limit, v);
    }
    if i: nat :| i <= last && OnPage(moments[i], i, limit, v) {
      PageIsPlace(moments, i, limit, v);
    }
  }

  /** A value live throughout is missed only if values before it were lost on the way. */
  lemma MissedHasSlipped(moments: seq<Moment>, limit: nat, v: string)
    requires limit >= 1 && Walk(Copies(moments), limit).finished
    requires forall i :: 0 <= i < |moments| ==> v in Live(moments[i])
    requires !Takes(Walk(Copies(moments), limit).taken, v)
    ensures exists i, j :: 0 <= i < j < |moments| && |Below(Live(moments[j]), v)| < |Below(Live(moments[i]), v)|
  {
    if forall i, j :: 0 <= i < j < |moments| ==> |Below(Live(moments[i]), v)| <= |Below(Live(moments[j]), v)| {
      SteadyValueIsTaken(moments, limit, v);
      assert false;
    }
  }

  /** Slipping under the offset is not yet being missed: while the walk goes on,
      values that arrive in front can push `b` back into a page. */
  lemma SlippedYetTaken()
    ensures var late := ["0", "1", "b", "c", "d"];
            var copies := [["a", "b", "c"], ["b", "c", "d"], late, late, late];
            && WalkTo(copies, 1, 1).taken == ["a"] && copies[1][0] == "b"
            && Walk(copies, 1) == Pull(["a", "c", "b", "c", "d"], true)
  {
    var late := ["0", "1", "b", "c", "d"];
    var copies := [["a", "b", "c"], ["b", "c", "d"], late, late, late];
    assert WalkTo(copies, 0, 1) == Pull([], false);
    assert WalkTo(copies, 1, 1) == Pull(["a"], false);
    assert WalkTo(copies, 2, 1) == Pull(["a", "c"], false);
    assert WalkTo(copies, 3, 1) == Pull(["a", "c", "b"], false);
    assert WalkTo(copies, 4, 1) == Pull(["a", "c", "b", "c"], false);
  }

  // ---------------------------------------------------------------------
  // A family that is missed, for every page size.
  // ---------------------------------------------------------------------

  function Letters(k: nat): (r: string)
    ensures |r| == k
  {
    if k == 0 then "" else "a" + Letters(k - 1)
  }

  lemma {:induction false} LettersInOrder(i: nat, j: nat)
    requires i < j
    ensures Less(Letters(i), Letters(j))
  {
    if i > 0 {
      LettersInOrder(i - 1, j - 1);
      assert Letters(i)[1..] == Letters(i - 1) && Letters(j)[1..] == Letters(j - 1);
    }
  }

  /** A namespace of names of `from` to `to - 1` letters. */
  function Crowd(from: nat, to: nat): Moment
  {
    Moment(map k | from <= k < to :: Letters(k) := NEW, 0)
  }

  lemma LiveInCrowd(from: nat, to: nat, v: string)
    ensures v in Live(Crowd(from, to)) <==> from <= |v| < to && v == Letters(|v|)
  {
  }

  function LettersUpTo(from: nat, to: nat): (r: seq<string>)
    requires from <= to
    ensures |r| == to - from && forall k :: 0 <= k < |r| ==> r[k] == Letters(from + k)
  {
    seq(to - from, i requires 0 <= i < to - from => Letters(from + i))
  }

  lemma LettersUpToIncrease(from: nat, to: nat)
    requires from <= to
    ensures Increasing(LettersUpTo(from, to))
  {
    var listing := LettersUpTo(from, to);
    forall i, j | 0 <= i < j < |listing| ensures Less(listing[i], listing[j]) {
      LettersInOrder(from + i, from + j);
    }
  }

  lemma LettersUpToAre(from: nat, to: nat)
    requires from <= to
    ensures Elements(LettersUpTo(from, to)) == Live(Crowd(from, to))
  {
    var listing := LettersUpTo(from, to);
    forall v ensures v in Elements(listing) <==> v in Live(Crowd(from, to)) {
      LiveInCrowd(from, to, v);
      if v in Live(Crowd(from, to)) { assert listing[|v| - from] == v; }
    }
  }

  lemma CrowdListing(from: nat, to: nat) returns (listing: seq<string>)
    requires from <= to
    ensures listing == Listing(Live(Crowd(from, to))) && |listing| == to - from
    ensures forall k :: 0 <= k < |listing| ==> listing[k] == Letters(from + k)
  {
    listing := LettersUpTo(from, to);
    LettersUpToIncrease(from, to);
    LettersUpToAre(from, to);
    IncreasingUnique(Listing(Live(Crowd(from, to))), listing);
  }

  lemma FullPageThenNothing<T>(a: seq<T>, b: seq<T>, limit: nat)
    requires limit >= 1 && |a| == limit + 1 && |b| == limit
    ensures WalkTo([a, b], 1, limit) == Pull(a[..limit], false) && EndsAt([a, b], 1, limit)
  {
    assert WalkTo([a, b], 0, limit) == Pull([], false);
    assert [] + a[0..limit] == a[..limit];
  }

  lemma ListedRank(names: set<string>, i: nat)
    requires i < |Listing(names)|
    ensures Listing(names)[i] in names && |Below(names, Listing(names)[i])| == i
  {
    assert Listing(names)[i] in Elements(Listing(names));
    PlaceIsRank(names, i);
  }

  lemma CopyIsListing(m: Moment, listing: seq<string>)
    requires listing == Listing(Live(m))
    ensures |CopyAt(m)| == |listing| && forall k :: 0 <= k < |listing| ==> CopyAt(m)[k].0 == listing[k]
  {
  }

  /** The family as a walk sees it. */
  lemma CrowdOf(from: nat, to: nat, last: string) returns (m: Moment, copy: Copy)
    requires from < to && last == Letters(to - 1)
    ensures copy == CopyAt(m) && |copy| == to - from
    ensures forall k :: 0 <= k < |copy| ==> |copy[k].0| == from + k
    ensures last in Live(m) && |Below(Live(m), last)| == to - 1 - from
  {
    m := Crowd(from, to);
    var listing := CrowdListing(from, to);
    copy := CopyAt(m);
    CrowdCopy(m, listing, from, copy);
    assert listing[to - 1 - from] == last;
    ListedRank(Live(m), to - 1 - from);
  }

  lemma CrowdCopy(m: Moment, listing: seq<string>, from: nat, copy: Copy)
    requires listing == Listing(Live(m)) && copy == CopyAt(m)
    requires forall k :: 0 <= k < |listing| ==> listing[k] == Letters(from + k)
    ensures |copy| == |listing| && forall k :: 0 <= k < |copy| ==> |copy[k].0| == from + k
  {
    CopyIsListing(m, listing);
  }

  lemma TooShort(page: Copy, v: string)
    requires forall k :: 0 <= k < |page| ==> |page[k].0| < |v|
    ensures !Takes(page, v)
  {
  }

  /** One value more than a page, then one fewer: the second request finds the
      offset past the end. */
  lemma HiddenLast(before: Moment, after: Moment, first: Copy, second: Copy, limit: nat, v: string)
    requires first == CopyAt(before) && second == CopyAt(after)
    requires limit >= 1 && |first| == limit + 1 && |second| == limit
    requires v in Live(after) && |Below(Live(after), v)| < limit && !Takes(first[..limit], v)
    ensures Walk(Copies([before, after]), limit).finished
    ensures !Takes(Walk(Copies([before, after]), limit).taken, v)
  {
    assert Copies([before, after]) == [first, second];
    FullPageThenNothing(first, second, limit);
    MissedIff([before, after], limit, 1, v);
  }

  /** Whatever the page size there is a namespace with one value more than a page
      such that, when another value is deleted after the first page, `v` slides
      under the offset. It is live throughout and never offered, and the walk
      ends as if complete. */
  lemma RemovalHidesAValue(limit: nat) returns (before: Moment, after: Moment, v: string)
    requires limit >= 1
    ensures v in Live(before) && v in Live(after)
    ensures Walk(Copies([before, after]), limit).finished
    ensures !Takes(Walk(Copies([before, after]), limit).taken, v)
  {
    v := Letters(limit);
    var first, second;
    before, first := CrowdOf(0, limit + 1, v);
    after, second := CrowdOf(1, limit + 1, v);
    TooShort(first[..limit], v);
    HiddenLast(before, after, first, second, limit, v);
  }
}
