// What the cache's counters count: over every run they are the numbers of the operations they are
// named for, and every entry that came in is still there, was evicted, or left in another known way.
module CacheCounters {
  import opened CacheSpec
  import opened CacheRuns
  import opened CacheHits
  import opened Wrappers

  /** What happened in a run: lookups of an enabled store that hit and that missed, completed stores,
      clears; entries that came in, by stores and reloads; entries that went without being evicted. */
  datatype Tally = Tally(hits: nat, misses: nat, stores: nat, clears: nat, entered: nat, left: nat)

  const NOTHING := Tally(0, 0, 0, 0, 0, 0)

  function Entered(v: View, op: Op): nat {
    if op.Store? && Completes(v, op) then 1
    else if op.Reconfigure? && op.cfg.enabled then |op.order|
    else 0
  }

  /** Replaced by a store of the key that is taken up, removed by its key, found expired or without its
      body by a lookup, cleared, or given up for a reload. */
  function Left(v: View, op: Op, now: int): nat {
    match op
    case Store(key, _, _, _, _, _, _, _) => if Attempts(v, op) && key in Keys(v.queue) then 1 else 0
    case Get(key) => if key in Keys(v.queue) && Hit(v, key, now).None? then 1 else 0
    case Drop(key) => if key in Keys(v.queue) then 1 else 0
    case Clear => |v.queue|
    case Reconfigure(_, _) => |v.queue|
    case BodyLost(_) => 0
  }

  function One(happens: bool): nat {
    if happens then 1 else 0
  }

  function Counted(t: Tally, v: View, op: Op, now: int): Tally {
    var looks := op.Get? && v.cfg.enabled;
    Tally(t.hits + One(looks && Hit(v, op.key, now).Some?), t.misses + One(looks && Hit(v, op.key, now).None?),
          t.stores + One(op.Store? && Completes(v, op)), t.clears + One(op.Clear?),
          t.entered + Entered(v, op), t.left + Left(v, op, now))
  }

  function TallyOf(hash: string -> string, r: Run, ops: seq<(Op, int)>): Tally {
    if ops == [] then NOTHING
    else
      var n := |ops| - 1;
      Counted(TallyOf(hash, r, ops[..n]), After(hash, r, ops[..n]).view, ops[n].0, ops[n].1)
  }

  /** The counters moved by this tally from one view to another, and no entry is unaccounted for. */
  predicate Moved(v: View, w: View, t: Tally) {
    w.stats.hits == v.stats.hits + t.hits && w.stats.misses == v.stats.misses + t.misses &&
    w.stats.stores == v.stats.stores + t.stores && w.stats.clears == v.stats.clears + t.clears &&
    |w.queue| + (w.stats.evictions - v.stats.evictions) + t.left == |v.queue| + t.entered
  }

  // ----- How many entries each part leaves -------------------------------------------

  lemma WithoutCount(q: seq<Entry>, key: string)
    requires NoDup(Keys(q))
    ensures |Without(q, key)| == |q| - One(key in Keys(q))
  {
    if key in Keys(q) {
      var i :| 0 <= i < |q| && Keys(q)[i] == key;
      WithoutIsShorter(q, i);
    } else {
      WithoutAbsent(q, key);
    }
  }

  lemma {:induction false} WithoutIsShorter(q: seq<Entry>, i: nat)
    requires NoDup(Keys(q)) && i < |q|
    ensures |Without(q, q[i].meta.key)| == |q| - 1
    decreases |q|
  {
    var n, key := |q| - 1, q[i].meta.key;
    InitKeeps(q);
    if i == n {
      LastKeyNew(q);
      WithoutAbsent(q[..n], key);
    } else {
      Distinct(q, i, n);
      WithoutIsShorter(q[..n], i);
    }
  }

  lemma LimitCount(v: View, additional: nat)
    ensures LimitView(v, additional).stats == v.stats.(evictions := LimitView(v, additional).stats.evictions)
    ensures |LimitView(v, additional).queue| + LimitView(v, additional).stats.evictions == |v.queue| + v.stats.evictions
  {
  }

  lemma AgeCount(v: View, now: int)
    ensures AgeView(v, now).stats == v.stats.(evictions := AgeView(v, now).stats.evictions)
    ensures |AgeView(v, now).queue| + AgeView(v, now).stats.evictions == |v.queue| + v.stats.evictions
  {
    FilterSplits(v.queue, (e: Entry) => e.meta.expiresAt > now);
    FilterExt(v.queue, (e: Entry) => !((x: Entry) => x.meta.expiresAt > now)(e), (e: Entry) => e.meta.expiresAt <= now);
  }

  lemma DropCount(v: View, key: string)
    requires NoDup(Keys(v.queue))
    ensures DropView(v, key).stats == v.stats && |DropView(v, key).queue| == |v.queue| - One(key in Keys(v.queue))
  {
    LookupFinds(v.queue, key);
    WithoutCount(v.queue, key);
  }

  lemma RoomCount(v: View, key: string, size: nat, now: int)
    requires NoDup(Keys(v.queue))
    ensures
      var w := RoomView(v, key, size, now);
      w.stats == v.stats.(evictions := w.stats.evictions) &&
      |w.queue| + w.stats.evictions + One(key in Keys(v.queue)) == |v.queue| + v.stats.evictions
  {
    DropCount(v, key);
    AgeCount(DropView(v, key), now);
    LimitCount(AgeView(DropView(v, key), now), size);
  }

  lemma GetCount(v: View, key: string, now: int)
    requires NoDup(Keys(v.queue)) && (!v.cfg.enabled ==> v.queue == [])
    ensures
      var w, hit := LookupView(v, key, now).0, Hit(v, key, now).Some?;
      w.stats == v.stats.(hits := v.stats.hits + One(v.cfg.enabled && hit), misses := v.stats.misses + One(v.cfg.enabled && !hit)) &&
      |w.queue| == |v.queue| - One(key in Keys(v.queue) && !hit)
  {
    LookupFinds(v.queue, key);
    WithoutCount(v.queue, key);
  }

  lemma StepMoves(hash: string -> string, r: Run, op: Op, now: int)
    requires Inv(hash, r)
    ensures Moved(r.view, NextView(hash, r.view, op, now), Counted(NOTHING, r.view, op, now))
  {
    var v := r.view;
    match op
    case Store(key, _, _, _, _, _, size, _) => RoomCount(v, key, size, now);
    case Get(key) => GetCount(v, key, now);
    case Drop(key) => DropCount(v, key);
    case Clear => {}
    case Reconfigure(cfg, order) =>
      if cfg.enabled {
        LimitCount(View(cfg, order, Cleaned(v.disk, cfg.dir, now), v.stats), 0);
      }
    case BodyLost(_) => {}
  }

  lemma MovedTwice(u: View, v: View, w: View, t: Tally, op: Op, now: int)
    requires Moved(u, v, t) && Moved(v, w, Counted(NOTHING, v, op, now))
    ensures Moved(u, w, Counted(t, v, op, now))
  {
  }

  /** Over every run the counters of hits, misses, stores and clears grow by what they are named for, and
      the entries there and those evicted make up, with those that left otherwise, the entries there
      at first and those that came in. */
  lemma {:induction false} CountersAreTallies(hash: string -> string, r: Run, ops: seq<(Op, int)>)
    requires Injective(hash) && Inv(hash, r) && Legal(hash, r, ops)
    ensures Moved(r.view, After(hash, r, ops).view, TallyOf(hash, r, ops))
  {
    if ops != [] {
      var n := |ops| - 1;
      var before := After(hash, r, ops[..n]);
      CountersAreTallies(hash, r, ops[..n]);
      RunKeepsInvariant(hash, r, ops[..n]);
      StepMoves(hash, before, ops[n].0, ops[n].1);
      MovedTwice(r.view, before.view, After(hash, r, ops).view, TallyOf(hash, r, ops[..n]), ops[n].0, ops[n].1);
    }
  }
}
