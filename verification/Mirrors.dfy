/** The store of one mirror, seen from the galaxy: what the database does to one
    value of one namespace is a step of `GalaxyRuns` (src/db.rs:924-935, 983-992,
    1066-1103, 1322-1338; src/handlers.rs:950-1060). So what is proved of every run
    of that machine is true of mirrors that keep their copies in databases. */
module Mirrors {
  import opened Options
  import opened Namespaces
  import opened Attributes
  import opened GalaxyRuns
  import opened FlatStore
  import opened Databases
  import opened Histories

  /** The database holds what the galaxy says this mirror has. */
  ghost predicate Keeps(g: Galaxy, m: string, f: Flat, path: string, value: string)
  {
    && (m in g.copies <==> path in f && value in f[path])
    && CopyOf(g, m) == At(f, path, value)
  }

  /** Every other mirror is as it was. */
  ghost predicate OthersStay(g: Galaxy, h: Galaxy, m: string)
  {
    h.copies - {m} == g.copies - {m}
  }

  lemma OneCopy(copies: map<string, Attr>, m: string, a: Attr)
    ensures copies[m := a] - {m} == copies - {m}
  {
  }

  /** A write taken from a client is a local step; one passed on by another server
      is a delivery, and counts for that server. */
  function StepOf(p: Policy, path: string, w: Sight): Step
  {
    var ttl := if w.ttl.Some? then w.ttl
               else if SHADOW_PREFIX <= path && p.shadowTtl > 0 then Some(p.shadowTtl) else None;
    if w.origin == p.node then Local(p.node, w.when, ttl, p.retention, w.tags)
    else Deliver(p.node, w.origin, w.when, ttl, p.retention, w.tags)
  }

  lemma WriteIsStep(g: Galaxy, f: Flat, p: Policy, path: string, value: string, w: Sight, consensus: bool)
    requires Keeps(g, p.node, f, path, value) && path != ALL_NAMESPACE && p.node in g.holders
    requires w.origin != p.node ==> OnTheWay(g, p.node, w.origin) > 0
    ensures Enabled(g, StepOf(p, path, w))
    ensures var h := Apply(g, StepOf(p, path, w));
            Keeps(h, p.node, Written(f, p, path, value, w, consensus), path, value) && OthersStay(g, h, p.node)
  {
    WriteStays(f, p, path, value, w, consensus);
    assert At(f, path, value) == Held(In(f, path), value);
    OneCopy(g.copies, p.node, AfterSighting(f, p, path, value, w));
  }

  /** Taking a peer's offer in is the galaxy's step of that name. */
  lemma MergeIsStep(g: Galaxy, f: Flat, p: Policy, path: string, value: string, sent: Sent, now: int)
    requires Keeps(g, p.node, f, path, value) && path != ALL_NAMESPACE && p.node in g.holders && sent in g.offers
    ensures var h := Apply(g, Take(p.node, sent));
            Keeps(h, p.node, MergedIn(f, p, path, value, sent.body, now), path, value) && OthersStay(g, h, p.node)
  {
    MergeStays(f, p, path, value, sent.body, now);
    var a := Merged(CopyOf(g, p.node), sent.body, p.node);
    OneCopy(g.copies, p.node, a);
    assert Apply(g, Take(p.node, sent)).copies == g.copies[p.node := a];
  }

  /** Replacing the tags of what is shown, likewise. */
  lemma RetagIsStep(g: Galaxy, f: Flat, p: Policy, path: string, value: string, tags: string, now: int, at: int)
    requires Keeps(g, p.node, f, path, value) && Visible(f, path, value, now).Some?
    ensures Enabled(g, Step.Retag(p.node, tags, at))
    ensures var h := Apply(g, Step.Retag(p.node, tags, at));
            Keeps(h, p.node, RetaggedIn(f, path, value, tags, now, at), path, value) && OthersStay(g, h, p.node)
  {
  }

  /** Deleting the namespace drops this mirror's copy. */
  lemma DeleteIsStep(g: Galaxy, f: Flat, p: Policy, path: string, value: string)
    requires Keeps(g, p.node, f, path, value) && path != ALL_NAMESPACE && p.node in g.holders
    ensures var h := Apply(g, Drop(p.node));
            Keeps(h, p.node, Deleted(f, p, path), path, value) && OthersStay(g, h, p.node)
  {
    DeleteLands(f, p, path);
  }

  /** What a mirror offers is what its database holds. */
  lemma OfferIsStored(g: Galaxy, f: Flat, m: string, path: string, value: string)
    requires Keeps(g, m, f, path, value) && m in g.holders && path in f && value in f[path]
    ensures Enabled(g, Publish(m))
    ensures exists sent :: sent in Apply(g, Publish(m)).offers && sent.from == m && sent.body == AsMerge(f[path][value])
  {
    var sent := Sent(m, Entry(g.accepted, m), AsMerge(g.copies[m]));
    assert sent in Apply(g, Publish(m)).offers;
  }
}
