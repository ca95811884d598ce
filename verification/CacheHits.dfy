// What a cache lookup answers, in terms of the operations before it: the response stored last under
// the key, until its lifetime is over, unless something has removed it.
module CacheHits {
  import opened CacheSpec
  import opened CacheRuns
  import opened Wrappers

  /** A store operation that the store takes up: neither ignored nor oversized. */
  predicate Attempts(v: View, op: Op) {
    op.Store? && op.bodyGiven && op.ttl > 0 && v.cfg.enabled && !(v.cfg.maxBytes > 0 && op.size > v.cfg.maxBytes)
  }

  /** And brings to its end. */
  predicate Completes(v: View, op: Op) {
    Attempts(v, op) && op.outcome.Written?
  }

  function Hit(v: View, key: string, now: int): Option<Entry> {
    LookupView(v, key, now).1
  }

  /** The response that a store operation was given, as a hit gives it back. */
  predicate Serves(d: Disk, e: Entry, op: Op, stored: int)
    requires op.Store?
  {
    e.meta.key == op.key && e.meta.status == op.status && e.meta.header == op.header && e.meta.size == op.size &&
    e.meta.createdAt == stored && e.meta.expiresAt == stored + op.ttl * SECOND &&
    e.path in d.bodies && d.bodies[e.path] == op.body
  }

  /** Right after a completed store a lookup hits if and only if the lifetime is not over, and gives
      what was stored. */
  lemma StoredHitsIff(hash: string -> string, v: View, op: Op, stored: int, now: int)
    requires Completes(v, op)
    ensures
      var w := NextView(hash, v, op, stored);
      (Hit(w, op.key, now).Some? <==> now < stored + op.ttl * SECOND) &&
      (Hit(w, op.key, now).Some? ==> Serves(w.disk, Hit(w, op.key, now).value, op, stored))
  {
    var w := NextView(hash, v, op, stored);
    assert w.cfg == v.cfg && w.queue[|w.queue| - 1].meta.key == op.key;
  }

  // ----- The last completed store ----------------------------------------------------

  predicate CompletesAt(hash: string -> string, r: Run, ops: seq<(Op, int)>, n: nat, dir: string, key: string)
    requires n < |ops|
  {
    var v := After(hash, r, ops[..n]).view;
    Completes(v, ops[n].0) && v.cfg.dir == dir && ops[n].0.key == key
  }

  /** The last operation that stored this key in this directory. */
  function LastStore(hash: string -> string, r: Run, ops: seq<(Op, int)>, dir: string, key: string): (i: Option<nat>)
    ensures i.Some? ==> i.value < |ops| && CompletesAt(hash, r, ops, i.value, dir, key)
  {
    if ops == [] then None
    else
      var n := |ops| - 1;
      if CompletesAt(hash, r, ops, n, dir, key) then Some(n)
      else
        var i := LastStore(hash, r, ops[..n], dir, key);
        assert i.Some? ==> ops[..n][..i.value] == ops[..i.value];
        i
  }

  lemma CompletesInPrefix(hash: string -> string, r: Run, ops: seq<(Op, int)>, n: nat, j: nat, dir: string, key: string)
    requires j < n <= |ops|
    ensures CompletesAt(hash, r, ops[..n], j, dir, key) == CompletesAt(hash, r, ops, j, dir, key)
  {
    assert ops[..n][..j] == ops[..j];
  }

  lemma {:induction false} LastStoreIs(hash: string -> string, r: Run, ops: seq<(Op, int)>, dir: string, key: string, i: nat)
    requires i < |ops| && CompletesAt(hash, r, ops, i, dir, key)
    requires forall j :: i < j < |ops| ==> !CompletesAt(hash, r, ops, j, dir, key)
    ensures LastStore(hash, r, ops, dir, key) == Some(i)
    decreases |ops|
  {
    var n := |ops| - 1;
    if i < n {
      forall j | i <= j < n ensures CompletesAt(hash, r, ops[..n], j, dir, key) == CompletesAt(hash, r, ops, j, dir, key) {
        CompletesInPrefix(hash, r, ops, n, j, dir, key);
      }
      LastStoreIs(hash, r, ops[..n], dir, key, i);
    }
  }

  /** What the store operation `op` put on disk at time `stored`. */
  predicate Wrote(what: (Meta, string), op: Op, stored: int)
    requires op.Store?
  {
    what.0.key == op.key && what.0.status == op.status && what.0.header == op.header && what.0.size == op.size &&
    what.0.createdAt == stored && what.0.expiresAt == stored + op.ttl * SECOND && what.1 == op.body
  }

  /** The record of what is written at a key's path is that of its last completed store. */
  lemma {:induction false} WrittenIsLastStore(hash: string -> string, r: Run, ops: seq<(Op, int)>, dir: string, key: string)
    requires Injective(hash)
    ensures
      var path, written := Path(dir, hash(key)), After(hash, r, ops).written;
      var i := LastStore(hash, r, ops, dir, key);
      if i.Some? then path in written && Wrote(written[path], ops[i.value].0, ops[i.value].1)
      else (path in written <==> path in r.written) && (path in written ==> written[path] == r.written[path])
  {
    if ops != [] {
      var n := |ops| - 1;
      WrittenIsLastStore(hash, r, ops[..n], dir, key);
      var before, op := After(hash, r, ops[..n]), ops[n].0;
      if op.Store? {
        assert SameDigest(hash, op.key, key) ==> op.key == key;
      }
    }
  }

  /** After any run that began with nothing stored, or stored the key, a hit gives the response of the last completed
      store of the key in the directory in force, and its lifetime is not over. */
  lemma HitIsLastStoreOperation(hash: string -> string, r: Run, ops: seq<(Op, int)>, key: string, now: int)
    requires Injective(hash) && Inv(hash, r) && Legal(hash, r, ops)
    requires Hit(After(hash, r, ops).view, key, now).Some?
    requires r.written == map[] || LastStore(hash, r, ops, After(hash, r, ops).view.cfg.dir, key).Some?
    ensures
      var v := After(hash, r, ops).view;
      var i := LastStore(hash, r, ops, v.cfg.dir, key);
      i.Some? && now < ops[i.value].1 + ops[i.value].0.ttl * SECOND &&
      Serves(v.disk, Hit(v, key, now).value, ops[i.value].0, ops[i.value].1)
  {
    HitIsLatestStore(hash, r, ops, key, now);
    WrittenIsLastStore(hash, r, ops, After(hash, r, ops).view.cfg.dir, key);
  }

  // ----- What removes an entry -------------------------------------------------------

  /** The bytes of an entry and of those used since. */
  function SizeSince(q: seq<Entry>, key: string): int {
    if q == [] then 0
    else
      var last := q[|q| - 1];
      if last.meta.key == key then last.meta.size else SizeSince(q[..|q| - 1], key) + last.meta.size
  }

  /** The live entries of other keys. */
  function Others(q: seq<Entry>, key: string, now: int): seq<Entry> {
    Filter(q, (e: Entry) => e.meta.key != key && e.meta.expiresAt > now)
  }

  /** Drops the key, clears, reloads from elsewhere or into too little room, takes the body away,
      stores the key anew, or stores another so large that this one and those used since do not fit
      beside it. */
  predicate Removes(hash: string -> string, v: View, op: Op, key: string, now: int) {
    match op
    case Store(k, _, _, _, _, _, size, _) =>
      Attempts(v, op) && (k == key || SizeSince(Others(v.queue, k, now), key) + size > v.cfg.maxBytes)
    case Get(_) => false
    case Drop(k) => k == key
    case Clear => true
    case Reconfigure(cfg, order) => !(cfg.enabled && cfg.dir == v.cfg.dir && SizeSince(order, key) <= cfg.maxBytes)
    case BodyLost(path) => path == Path(v.cfg.dir, hash(key))
  }

  /** The store is on, knows the key, and has its body. */
  predicate Present(hash: string -> string, v: View, key: string) {
    v.cfg.enabled && key in Keys(v.queue) && Path(v.cfg.dir, hash(key)) in v.disk.bodies
  }

  /** The same, with the entry itself. */
  ghost predicate Holds(v: View, e: Entry) {
    v.cfg.enabled && e in v.queue && e.path in v.disk.bodies
  }

  lemma PresentIs(hash: string -> string, v: View, key: string) returns (e: Entry)
    requires Mirror(hash, v) && Present(hash, v, key)
    ensures Holds(v, e) && e.meta.key == key && e.path == Path(v.cfg.dir, hash(key))
  {
    var i :| 0 <= i < |v.queue| && Keys(v.queue)[i] == key;
    e := v.queue[i];
    assert OnDisk(hash, v, e);
  }

  lemma HeldIsPresent(hash: string -> string, v: View, e: Entry)
    requires Mirror(hash, v) && Holds(v, e)
    ensures Present(hash, v, e.meta.key)
  {
    KeyIn(v.queue, e);
    assert OnDisk(hash, v, e);
  }

  /** Erasing the files of other entries leaves an entry's body. */
  lemma StaysHeld(hash: string -> string, v: View, w: View, e: Entry, gone: seq<Entry>)
    requires Injective(hash) && Mirror(hash, v) && NoDup(Keys(v.queue)) && Holds(v, e)
    requires w.cfg == v.cfg && e in w.queue && w.disk == Erase(v.disk, PathsOf(gone))
    requires e !in gone && forall g :: g in gone ==> g in v.queue
    ensures Holds(w, e)
  {
    forall g | g in gone ensures g.path != e.path {
      SamePathSameEntry(hash, v, e, g);
    }
  }

  lemma DropHolds(hash: string -> string, r: Run, e: Entry, key: string)
    requires Injective(hash) && Inv(hash, r) && Holds(r.view, e) && e.meta.key != key
    ensures Holds(DropView(r.view, key), e)
  {
    var v := r.view;
    DropKeeps(hash, r, key);
    LookupFinds(v.queue, key);
    FilterMember(v.queue, (x: Entry) => x.meta.key != key);
    var prior := Lookup(v.queue, key);
    if prior.Some? {
      assert PathsOf([prior.value]) == {prior.value.path};
      StaysHeld(hash, v, DropView(v, key), e, [prior.value]);
    }
  }

  lemma AgeHolds(hash: string -> string, r: Run, e: Entry, now: int)
    requires Injective(hash) && Inv(hash, r) && Holds(r.view, e) && e.meta.expiresAt > now
    ensures Holds(AgeView(r.view, now), e) && Inv(hash, r.(view := AgeView(r.view, now)))
  {
    var v := r.view;
    var gone := Expired(v.queue, now);
    FilterMember(v.queue, (x: Entry) => x.meta.expiresAt > now);
    FilterMember(v.queue, (x: Entry) => x.meta.expiresAt <= now);
    StaysHeld(hash, v, AgeView(v, now), e, gone);
    SelectKeeps(hash, r, AgeView(v, now), (x: Entry) => x.meta.expiresAt > now, gone);
  }

  /** The position of an entry, and the bytes from there on. */
  lemma {:induction false} SizeSinceIs(q: seq<Entry>, k: nat)
    requires k < |q| && NoDup(Keys(q))
    ensures SizeSince(q, q[k].meta.key) == Total(q[k..])
    decreases |q|
  {
    var n := |q| - 1;
    var init, last := q[..n], q[n];
    assert [last][..0] == [];
    if k == n {
      assert q[k..] == [last];
    } else {
      InitKeeps(q);
      Distinct(q, k, n);
      SizeSinceIs(init, k);
      assert q[k..] == init[k..] + [last];
      TotalConcat(init[k..], [last]);
    }
  }

  /** The trimming keeps an entry when it and those used since fit. */
  lemma TrimKeeps(q: seq<Entry>, e: Entry, budget: nat)
    requires Sized(q) && NoDup(Keys(q)) && e in q && SizeSince(q, e.meta.key) <= budget
    ensures e in Trim(q, budget) && e !in Trimmed(q, budget)
  {
    var k: nat :| k < |q| && q[k] == e;
    SizeSinceIs(q, k);
    TrimIsLongestFittingSuffix(q, budget);
    var cut := |q| - |Trim(q, budget)|;
    assert k >= cut;
    assert Trim(q, budget)[k - cut] == e;
    SplitMembers(q, cut);
  }

  lemma LimitHolds(hash: string -> string, v: View, e: Entry, additional: nat)
    requires Injective(hash) && Mirror(hash, v) && Sized(v.queue) && NoDup(Keys(v.queue)) && Holds(v, e)
    requires v.cfg.maxBytes > 0 && additional <= v.cfg.maxBytes
    requires SizeSince(v.queue, e.meta.key) + additional <= v.cfg.maxBytes
    ensures Holds(LimitView(v, additional), e)
  {
    var budget := v.cfg.maxBytes - additional;
    TrimKeeps(v.queue, e, budget);
    StaysHeld(hash, v, LimitView(v, additional), e, Trimmed(v.queue, budget));
  }

  lemma OthersAre(hash: string -> string, r: Run, key: string, now: int)
    requires Injective(hash) && Inv(hash, r)
    ensures AgeView(DropView(r.view, key), now).queue == Others(r.view.queue, key, now)
  {
    DropKeeps(hash, r, key);
    FilterFilter(r.view.queue, (e: Entry) => e.meta.key != key, (e: Entry) => e.meta.expiresAt > now);
    FilterExt(r.view.queue,
              (e: Entry) => ((x: Entry) => x.meta.key != key)(e) && ((x: Entry) => x.meta.expiresAt > now)(e),
              (e: Entry) => e.meta.key != key && e.meta.expiresAt > now);
  }

  lemma RoomHolds(hash: string -> string, r: Run, e: Entry, key: string, size: nat, now: int)
    requires Injective(hash) && Inv(hash, r) && Holds(r.view, e) && e.meta.key != key && e.meta.expiresAt > now
    requires size <= r.view.cfg.maxBytes && SizeSince(Others(r.view.queue, key, now), e.meta.key) + size <= r.view.cfg.maxBytes
    ensures Holds(RoomView(r.view, key, size, now), e)
  {
    DropKeeps(hash, r, key);
    DropHolds(hash, r, e, key);
    AgeHolds(hash, r.(view := DropView(r.view, key)), e, now);
    OthersAre(hash, r, key, now);
    LimitHolds(hash, AgeView(DropView(r.view, key), now), e, size);
  }

  // ----- Each operation keeps what it does not remove --------------------------------

  lemma StoreHolds(hash: string -> string, r: Run, e: Entry, op: Op, now: int)
    requires Injective(hash) && Inv(hash, r) && Holds(r.view, e) && e.meta.expiresAt > now
    requires op.Store? && !Removes(hash, r.view, op, e.meta.key, now)
    ensures Holds(NextView(hash, r.view, op, now), e)
  {
    if Attempts(r.view, op) {
      var room := RoomView(r.view, op.key, op.size, now);
      RoomHolds(hash, r, e, op.key, op.size, now);
      assert OnDisk(hash, r.view, e);
      assert !SameDigest(hash, e.meta.key, op.key);
      match op.outcome
      case Written => {}
      case MetaFailed => {}
      case MoveFailed(left) => {}
    }
  }

  lemma GetKeepsPresent(hash: string -> string, r: Run, e: Entry, key: string, now: int)
    requires Injective(hash) && Inv(hash, r) && Holds(r.view, e) && e.meta.expiresAt > now
    ensures Present(hash, LookupView(r.view, key, now).0, e.meta.key)
  {
    var v := r.view;
    var w := LookupView(v, key, now).0;
    LookupFinds(v.queue, key);
    HeldIsPresent(hash, v, e);
    if Lookup(v.queue, key).Some? {
      var x := Lookup(v.queue, key).value;
      FilterMember(v.queue, (y: Entry) => y.meta.key != key);
      if x.meta.expiresAt <= now || x.path !in v.disk.bodies {
        LookupUnique(v.queue, e);
        DropHolds(hash, r, e, key);
        assert w.queue == DropView(v, key).queue && w.disk == DropView(v, key).disk;
        KeyIn(w.queue, e);
      } else {
        var hit := x.(meta := x.meta.(accessedAt := now));
        assert hit in w.queue;
        KeyIn(w.queue, hit);
        if e.meta.key != key {
          assert e in w.queue;
          KeyIn(w.queue, e);
        }
      }
    }
  }

  lemma ReloadKeepsPresent(hash: string -> string, r: Run, e: Entry, cfg: Config, order: seq<Entry>, now: int)
    requires Injective(hash) && Inv(hash, r) && Holds(r.view, e) && e.meta.expiresAt > now
    requires Allowed(r, Reconfigure(cfg, order), now) && !Removes(hash, r.view, Reconfigure(cfg, order), e.meta.key, now)
    ensures Present(hash, ReconfigureView(r.view, cfg, now, order), e.meta.key)
  {
    var d := r.view.disk;
    LoadOrderIsClean(hash, d, cfg.dir, now, r.clock, r.written, order);
    assert OnDisk(hash, r.view, e);
    var filed := Entry(d.metas[e.path].meta, e.path);
    assert filed in LoadSet(d, cfg.dir, now) && filed in order;
    var loaded := View(cfg, order, Cleaned(d, cfg.dir, now), r.view.stats);
    TrimKeeps(order, filed, cfg.maxBytes);
    var gone := Trimmed(order, cfg.maxBytes);
    forall g | g in gone ensures g.path != filed.path {
      assert g in order && g in LoadSet(d, cfg.dir, now);
    }
    var w := ReconfigureView(r.view, cfg, now, order);
    assert w.queue == Trim(order, cfg.maxBytes);
    KeyIn(w.queue, filed);
  }

  lemma OtherKeepsPresent(hash: string -> string, r: Run, e: Entry, op: Op, now: int)
    requires Injective(hash) && Inv(hash, r) && Holds(r.view, e) && (op.Drop? || op.BodyLost?)
    requires !Removes(hash, r.view, op, e.meta.key, now)
    ensures Present(hash, NextView(hash, r.view, op, now), e.meta.key)
  {
    assert OnDisk(hash, r.view, e);
    if op.Drop? {
      DropKeeps(hash, r, op.key);
      DropHolds(hash, r, e, op.key);
      HeldIsPresent(hash, DropView(r.view, op.key), e);
    } else {
      HeldIsPresent(hash, r.view, e);
    }
  }

  /** While its lifetime is not over, an entry stays present through every operation that does not
      remove it. */
  lemma StepKeepsPresent(hash: string -> string, r: Run, e: Entry, op: Op, now: int)
    requires Injective(hash) && Inv(hash, r) && Holds(r.view, e) && e.meta.expiresAt > now && Allowed(r, op, now)
    requires !Removes(hash, r.view, op, e.meta.key, now)
    ensures Present(hash, NextView(hash, r.view, op, now), e.meta.key)
  {
    match op
    case Store(_, _, _, _, _, _, _, _) =>
      StepKeeps(hash, r, op, now);
      StoreHolds(hash, r, e, op, now);
      HeldIsPresent(hash, NextView(hash, r.view, op, now), e);
    case Get(key) => GetKeepsPresent(hash, r, e, key, now);
    case Reconfigure(cfg, order) => ReloadKeepsPresent(hash, r, e, cfg, order, now);
    case _ => OtherKeepsPresent(hash, r, e, op, now);
  }

  // ----- And removes what it removes -------------------------------------------------

  /** The trimming drops an entry when it and those used since do not fit. */
  lemma TrimDrops(q: seq<Entry>, e: Entry, budget: nat)
    requires Sized(q) && NoDup(Keys(q)) && e in q && SizeSince(q, e.meta.key) > budget
    ensures e.meta.key !in Keys(Trim(q, budget))
  {
    var k: nat :| k < |q| && q[k] == e;
    SizeSinceIs(q, k);
    TrimIsLongestFittingSuffix(q, budget);
    var t := Trim(q, budget);
    var cut := |q| - |t|;
    if k >= cut {
      assert t == q[cut..k] + q[k..];
      assert q[cut..] == q[cut..k] + q[k..];
      TotalConcat(q[cut..k], q[k..]);
      SizedPart(q, cut, k);
    }
    forall i | 0 <= i < |t| ensures Keys(t)[i] != e.meta.key {
      Distinct(q, cut + i, k);
    }
  }

  lemma {:induction false} SizedPart(q: seq<Entry>, lo: nat, hi: nat)
    requires Sized(q) && lo <= hi <= |q|
    ensures Total(q[lo..hi]) >= 0
  {
    if lo < hi {
      SizedPart(q, lo, hi - 1);
      assert q[lo..hi][..hi - 1 - lo] == q[lo..hi - 1];
    }
  }

  lemma RoomQueueIs(hash: string -> string, r: Run, key: string, size: nat, now: int)
    requires Injective(hash) && Inv(hash, r) && r.view.cfg.enabled
    ensures r.view.cfg.maxBytes > 0
    ensures RoomView(r.view, key, size, now).queue == Trim(Others(r.view.queue, key, now), r.view.cfg.maxBytes - size)
  {
    OthersAre(hash, r, key, now);
    assert AgeView(DropView(r.view, key), now).cfg == r.view.cfg;
  }

  lemma OthersKeep(hash: string -> string, r: Run, key: string, now: int)
    requires Inv(hash, r)
    ensures
      var q := Others(r.view.queue, key, now);
      Sized(q) && NoDup(Keys(q)) && forall x :: x in q <==> x in r.view.queue && x.meta.key != key && x.meta.expiresAt > now
  {
    var keep := (x: Entry) => x.meta.key != key && x.meta.expiresAt > now;
    FilterMember(r.view.queue, keep);
    FilterNoDup(r.view.queue, keep);
    FilterTotal(r.view.queue, keep);
  }

  lemma TrimLacks(q: seq<Entry>, budget: nat, key: string)
    requires Sized(q) && key !in Keys(q)
    ensures key !in Keys(Trim(q, budget))
  {
    TrimIsLongestFittingSuffix(q, budget);
    var t := Trim(q, budget);
    forall i | 0 <= i < |t| ensures Keys(t)[i] != key {
      assert Keys(q)[|q| - |t| + i] == Keys(t)[i];
    }
  }

  lemma OthersLack(hash: string -> string, r: Run, e: Entry, key: string, now: int)
    requires Inv(hash, r) && e in r.view.queue && e !in Others(r.view.queue, key, now)
    ensures e.meta.key !in Keys(Others(r.view.queue, key, now))
  {
    var q := Others(r.view.queue, key, now);
    OthersKeep(hash, r, key, now);
    forall i | 0 <= i < |q| ensures Keys(q)[i] != e.meta.key {
      assert q[i] in q && q[i] in r.view.queue;
      if q[i].meta.key == e.meta.key {
        SameKeySameEntry(r.view.queue, q[i], e);
      }
    }
  }

  lemma RoomDrops(hash: string -> string, r: Run, e: Entry, key: string, size: nat, now: int)
    requires Injective(hash) && Inv(hash, r) && r.view.cfg.enabled && e in r.view.queue && key != e.meta.key
    requires size <= r.view.cfg.maxBytes
    requires e.meta.expiresAt <= now || SizeSince(Others(r.view.queue, key, now), e.meta.key) + size > r.view.cfg.maxBytes
    ensures e.meta.key !in Keys(RoomView(r.view, key, size, now).queue)
  {
    var q, budget := Others(r.view.queue, key, now), r.view.cfg.maxBytes - size;
    RoomQueueIs(hash, r, key, size, now);
    OthersKeep(hash, r, key, now);
    if e in q {
      TrimDrops(q, e, budget);
    } else {
      OthersLack(hash, r, e, key, now);
      TrimLacks(q, budget, e.meta.key);
    }
  }

  /** A store that is taken up makes an entry of another key go if it has expired, or it and those used
      since do not fit beside the new one. */
  lemma StoreDrops(hash: string -> string, r: Run, e: Entry, op: Op, now: int)
    requires Injective(hash) && Inv(hash, r) && e in r.view.queue && Attempts(r.view, op) && op.key != e.meta.key
    requires e.meta.expiresAt <= now || SizeSince(Others(r.view.queue, op.key, now), e.meta.key) + op.size > r.view.cfg.maxBytes
    ensures e.meta.key !in Keys(NextView(hash, r.view, op, now).queue)
  {
    var t, w := RoomView(r.view, op.key, op.size, now).queue, NextView(hash, r.view, op, now);
    RoomDrops(hash, r, e, op.key, op.size, now);
    forall i | 0 <= i < |w.queue| ensures Keys(w.queue)[i] != e.meta.key {
      assert i < |t| ==> w.queue[i] == t[i] && Keys(t)[i] == t[i].meta.key;
    }
  }

  /** After one of these no lookup of the key hits: dropping it, clearing, taking its body away,
      switching the store off, and a store of the key that is taken up but fails. */
  predicate Forgets(hash: string -> string, v: View, op: Op, key: string) {
    match op
    case Drop(k) => k == key
    case Clear => true
    case BodyLost(path) => path == Path(v.cfg.dir, hash(key))
    case Reconfigure(cfg, _) => !cfg.enabled
    case Store(k, _, _, _, _, _, _, outcome) => k == key && Attempts(v, op) && !outcome.Written?
    case Get(_) => false
  }

  lemma ForgottenMisses(hash: string -> string, r: Run, op: Op, key: string, now: int, later: int)
    requires Injective(hash) && Inv(hash, r) && Allowed(r, op, now) && Forgets(hash, r.view, op, key)
    ensures Hit(NextView(hash, r.view, op, now), key, later).None?
  {
    var v, w := r.view, NextView(hash, r.view, op, now);
    LookupFinds(w.queue, key);
    match op
    case Drop(k) => DropKeeps(hash, r, key);
    case Clear => {}
    case BodyLost(path) =>
      if v.cfg.enabled && Lookup(v.queue, key).Some? {
        LookupFinds(v.queue, key);
        assert OnDisk(hash, v, Lookup(v.queue, key).value);
      }
    case Reconfigure(cfg, _) => {}
    case Store(_, _, _, _, _, _, size, _) => RoomKeeps(hash, r, key, size, now);
  }

  /** After a reload the store knows a key if and only if the directory has it, unexpired and with its
      body, and it and those stored since fit. */
  lemma ReloadedIff(hash: string -> string, r: Run, cfg: Config, order: seq<Entry>, now: int, key: string)
    requires Injective(hash) && Inv(hash, r) && Allowed(r, Reconfigure(cfg, order), now) && cfg.enabled
    ensures
      var d, path, w := r.view.disk, Path(cfg.dir, hash(key)), NextView(hash, r.view, Reconfigure(cfg, order), now);
      w.cfg == cfg &&
      (key in Keys(w.queue) <==>
       path in d.metas && d.metas[path].Readable? && d.metas[path].meta.key == key && d.metas[path].meta.expiresAt > now &&
       path in d.bodies && SizeSince(order, key) <= cfg.maxBytes)
  {
    var d, path, budget := r.view.disk, Path(cfg.dir, hash(key)), cfg.maxBytes;
    var t := Trim(order, budget);
    LoadOrderIsClean(hash, d, cfg.dir, now, r.clock, r.written, order);
    TrimIsLongestFittingSuffix(order, budget);
    assert NextView(hash, r.view, Reconfigure(cfg, order), now).queue == t;
    if key in Keys(t) {
      var i :| 0 <= i < |t| && Keys(t)[i] == key;
      var e := t[i];
      assert e in order && e in LoadSet(d, cfg.dir, now);
      assert e.path == path;
      if SizeSince(order, key) > budget {
        TrimDrops(order, e, budget);
      }
    }
    if path in d.metas && d.metas[path].Readable? && d.metas[path].meta.key == key && d.metas[path].meta.expiresAt > now &&
       path in d.bodies && SizeSince(order, key) <= budget
    {
      var e := Entry(d.metas[path].meta, path);
      assert e in LoadSet(d, cfg.dir, now) && e in order;
      TrimKeeps(order, e, budget);
      KeyIn(t, e);
    }
  }

  // ----- Whole runs ------------------------------------------------------------------

  predicate RemovesAt(hash: string -> string, r: Run, ops: seq<(Op, int)>, j: nat, key: string)
    requires j < |ops|
  {
    Removes(hash, After(hash, r, ops[..j]).view, ops[j].0, key, ops[j].1)
  }

  lemma {:induction false} LegalPrefix(hash: string -> string, r: Run, ops: seq<(Op, int)>, n: nat)
    requires Legal(hash, r, ops) && n <= |ops|
    ensures Legal(hash, r, ops[..n])
    decreases |ops|
  {
    if n == |ops| {
      assert ops[..n] == ops;
    } else {
      LegalPrefix(hash, r, ops[..|ops| - 1], n);
      assert ops[..|ops| - 1][..n] == ops[..n];
    }
  }

  lemma NthOp(hash: string -> string, r: Run, ops: seq<(Op, int)>, n: nat)
    requires Legal(hash, r, ops) && n < |ops|
    ensures Legal(hash, r, ops[..n]) && Allowed(After(hash, r, ops[..n]), ops[n].0, ops[n].1)
    ensures After(hash, r, ops[..n + 1]) == Next(hash, After(hash, r, ops[..n]), ops[n].0, ops[n].1)
  {
    LegalPrefix(hash, r, ops, n + 1);
    assert ops[..n + 1][..n] == ops[..n];
    LegalPrefix(hash, r, ops, n);
  }

  /** A present entry has what was written last at its path. */
  lemma PresentIsWritten(hash: string -> string, s: Run, key: string) returns (e: Entry)
    requires Inv(hash, s) && Present(hash, s.view, key)
    ensures Holds(s.view, e) && e.meta.key == key && e.path == Path(s.view.cfg.dir, hash(key))
    ensures e.path in s.written && SameButAccess(e.meta, s.written[e.path].0)
    ensures s.view.disk.bodies[e.path] == s.written[e.path].1
  {
    e := PresentIs(hash, s.view, key);
    assert OnDisk(hash, s.view, e);
  }

  /** From the store operation at `i` on, while nothing removes it. */
  ghost predicate Untouched(hash: string -> string, r: Run, ops: seq<(Op, int)>, i: nat, n: nat)
    requires i < n <= |ops|
  {
    Completes(After(hash, r, ops[..i]).view, ops[i].0) &&
    forall j :: i < j < n ==> !RemovesAt(hash, r, ops, j, ops[i].0.key)
  }

  /** The store operation is still the key's last one, in the directory still in force. */
  lemma UntouchedIsLast(hash: string -> string, r: Run, ops: seq<(Op, int)>, i: nat, n: nat)
    requires i < n <= |ops| && Untouched(hash, r, ops, i, n)
    ensures After(hash, r, ops[..n]).view.cfg.dir == After(hash, r, ops[..i]).view.cfg.dir
    ensures LastStore(hash, r, ops[..n], After(hash, r, ops[..n]).view.cfg.dir, ops[i].0.key) == Some(i)
  {
    var key, dir, part := ops[i].0.key, After(hash, r, ops[..i]).view.cfg.dir, ops[..n];
    forall j: nat | i <= j < n ensures part[..j] == ops[..j] {}
    SameDirectory(hash, r, ops, i, n);
    assert CompletesAt(hash, r, part, i, dir, key);
    forall j | i < j < n ensures !CompletesAt(hash, r, part, j, dir, key) {
      assert part[..j] == ops[..j] && !RemovesAt(hash, r, ops, j, key);
    }
    LastStoreIs(hash, r, part, dir, key, i);
  }

  lemma StepKeepsDirectory(hash: string -> string, v: View, op: Op, key: string, now: int)
    requires !Removes(hash, v, op, key, now)
    ensures NextView(hash, v, op, now).cfg.dir == v.cfg.dir
  {
  }

  lemma {:induction false} SameDirectory(hash: string -> string, r: Run, ops: seq<(Op, int)>, i: nat, n: nat)
    requires i < n <= |ops| && Untouched(hash, r, ops, i, n)
    ensures After(hash, r, ops[..n]).view.cfg.dir == After(hash, r, ops[..i]).view.cfg.dir
    decreases n
  {
    assert ops[..n][..n - 1] == ops[..n - 1];
    var before, op := After(hash, r, ops[..n - 1]), ops[n - 1].0;
    if i < n - 1 {
      SameDirectory(hash, r, ops, i, n - 1);
      assert !RemovesAt(hash, r, ops, n - 1, ops[i].0.key);
      StepKeepsDirectory(hash, before.view, op, ops[i].0.key, ops[n - 1].1);
    } else {
      assert NextView(hash, before.view, op, ops[n - 1].1).cfg == before.view.cfg;
    }
  }

  /** One operation that does not remove the key, within the lifetime of what was stored last. */
  lemma StaysPresent(hash: string -> string, s: Run, stored: Op, at: int, op: Op, now: int)
    requires Injective(hash) && stored.Store? && StandsAt(hash, s, stored, at)
    requires Present(hash, s.view, stored.key) && Allowed(s, op, now)
    requires !Removes(hash, s.view, op, stored.key, now) && now < at + stored.ttl * SECOND
    ensures Present(hash, NextView(hash, s.view, op, now), stored.key)
  {
    var e := PresentIsWritten(hash, s, stored.key);
    StepKeepsPresent(hash, s, e, op, now);
  }

  predicate PresentAt(hash: string -> string, r: Run, ops: seq<(Op, int)>, n: nat, key: string)
    requires n <= |ops|
  {
    Present(hash, After(hash, r, ops[..n]).view, key)
  }

  lemma PresentAfterStore(hash: string -> string, r: Run, ops: seq<(Op, int)>, i: nat, n: nat, key: string)
    requires Legal(hash, r, ops) && i < |ops| && n == i + 1 && Completes(After(hash, r, ops[..i]).view, ops[i].0)
    requires key == ops[i].0.key
    ensures PresentAt(hash, r, ops, n, key)
  {
    NthOp(hash, r, ops, i);
    JustStored(hash, After(hash, r, ops[..i]).view, ops[i].0, ops[i].1);
  }

  /** Where a run stands that has not touched what the operation at `i` stored. */
  ghost predicate StandsAt(hash: string -> string, s: Run, stored: Op, at: int)
    requires stored.Store?
  {
    var path := Path(s.view.cfg.dir, hash(stored.key));
    Inv(hash, s) && path in s.written && Wrote(s.written[path], stored, at)
  }

  lemma UntouchedStands(hash: string -> string, r: Run, ops: seq<(Op, int)>, i: nat, n: nat)
    requires Injective(hash) && Inv(hash, r) && Legal(hash, r, ops) && i < n <= |ops| && Untouched(hash, r, ops, i, n)
    ensures StandsAt(hash, After(hash, r, ops[..n]), ops[i].0, ops[i].1)
  {
    LegalPrefix(hash, r, ops, n);
    RunKeepsInvariant(hash, r, ops[..n]);
    UntouchedIsLast(hash, r, ops, i, n);
    LastIsWritten(hash, r, ops, i, n);
  }

  lemma NothingRemoves(hash: string -> string, r: Run, ops: seq<(Op, int)>, i: nat, before: nat, n: nat)
    requires i < before < n == before + 1 <= |ops| && Untouched(hash, r, ops, i, n)
    ensures Untouched(hash, r, ops, i, before) && !RemovesAt(hash, r, ops, before, ops[i].0.key)
  {
  }

  lemma PresentAfterStep(hash: string -> string, r: Run, ops: seq<(Op, int)>, i: nat, before: nat, n: nat, key: string)
    requires Injective(hash) && Inv(hash, r) && Legal(hash, r, ops) && i < before < n == before + 1 <= |ops|
    requires Untouched(hash, r, ops, i, n) && key == ops[i].0.key && PresentAt(hash, r, ops, before, key)
    requires Timely(ops, i, n)
    ensures PresentAt(hash, r, ops, n, key)
  {
    NothingRemoves(hash, r, ops, i, before, n);
    UntouchedStands(hash, r, ops, i, before);
    NthOp(hash, r, ops, before);
    StaysPresent(hash, After(hash, r, ops[..before]), ops[i].0, ops[i].1, ops[before].0, ops[before].1);
  }

  lemma ClockIsLast(hash: string -> string, r: Run, ops: seq<(Op, int)>, n: nat)
    requires Legal(hash, r, ops) && n < |ops|
    ensures After(hash, r, ops[..n + 1]).clock == ops[n].1 && (n > 0 ==> ops[n - 1].1 <= ops[n].1)
  {
    NthOp(hash, r, ops, n);
    if n > 0 {
      NthOp(hash, r, ops, n - 1);
    }
  }

  /** The last of the operations up to `n` falls within the lifetime of what the one at `i` stored. */
  predicate Timely(ops: seq<(Op, int)>, i: nat, n: nat)
    requires i < n <= |ops| && ops[i].0.Store?
  {
    ops[n - 1].1 < ops[i].1 + ops[i].0.ttl * SECOND
  }

  lemma StepBack(hash: string -> string, r: Run, ops: seq<(Op, int)>, i: nat, before: nat, n: nat)
    requires Legal(hash, r, ops) && i < before < n == before + 1 <= |ops|
    requires Untouched(hash, r, ops, i, n) && Timely(ops, i, n)
    ensures Untouched(hash, r, ops, i, before) && Timely(ops, i, before)
  {
    NothingRemoves(hash, r, ops, i, before, n);
    ClockIsLast(hash, r, ops, before);
  }

  /** Until its lifetime is over, nothing but those operations makes it absent. */
  lemma {:induction false} UntouchedIsPresent(hash: string -> string, r: Run, ops: seq<(Op, int)>, i: nat, n: nat, key: string)
    requires Injective(hash) && Inv(hash, r) && Legal(hash, r, ops) && i < n <= |ops|
    requires Untouched(hash, r, ops, i, n) && key == ops[i].0.key && Timely(ops, i, n)
    ensures PresentAt(hash, r, ops, n, key)
    decreases n
  {
    if i < n - 1 {
      StepBack(hash, r, ops, i, n - 1, n);
      UntouchedIsPresent(hash, r, ops, i, n - 1, key);
      PresentAfterStep(hash, r, ops, i, n - 1, n, key);
    } else {
      PresentAfterStore(hash, r, ops, i, n, key);
    }
  }

  lemma LastIsWritten(hash: string -> string, r: Run, ops: seq<(Op, int)>, i: nat, n: nat)
    requires Injective(hash) && i < n <= |ops| && ops[i].0.Store?
    requires LastStore(hash, r, ops[..n], After(hash, r, ops[..n]).view.cfg.dir, ops[i].0.key) == Some(i)
    ensures
      var s := After(hash, r, ops[..n]);
      var path := Path(s.view.cfg.dir, hash(ops[i].0.key));
      path in s.written && Wrote(s.written[path], ops[i].0, ops[i].1)
  {
    WrittenIsLastStore(hash, r, ops[..n], After(hash, r, ops[..n]).view.cfg.dir, ops[i].0.key);
  }

  lemma JustStored(hash: string -> string, v: View, op: Op, now: int)
    requires Completes(v, op)
    ensures Present(hash, NextView(hash, v, op, now), op.key)
  {
    var w := NextView(hash, v, op, now);
    var e := w.queue[|w.queue| - 1];
    assert e.meta.key == op.key && e.path == Path(v.cfg.dir, hash(op.key));
    KeyIn(w.queue, e);
  }

  lemma PresentHitsIff(hash: string -> string, s: Run, key: string, now: int)
    requires Inv(hash, s) && Present(hash, s.view, key)
    ensures
      var path := Path(s.view.cfg.dir, hash(key));
      path in s.written && (Hit(s.view, key, now).Some? <==> s.written[path].0.expiresAt > now)
  {
    var e := PresentIsWritten(hash, s, key);
    LookupUnique(s.view.queue, e);
  }

  /** A completed store that no later operation removes is what lookups of its key hit, at every time
      from then on, if and only if its lifetime is not over. */
  lemma UntouchedHitsIff(hash: string -> string, r: Run, ops: seq<(Op, int)>, i: nat, now: int)
    requires Injective(hash) && Inv(hash, r) && Legal(hash, r, ops)
    requires i < |ops| && Untouched(hash, r, ops, i, |ops|) && now >= After(hash, r, ops).clock
    ensures
      var v, op, stored := After(hash, r, ops).view, ops[i].0, ops[i].1;
      (Hit(v, op.key, now).Some? <==> now < stored + op.ttl * SECOND) &&
      (Hit(v, op.key, now).Some? ==> Serves(v.disk, Hit(v, op.key, now).value, op, stored))
  {
    var s, key := After(hash, r, ops), ops[i].0.key;
    assert ops[..|ops|] == ops;
    RunKeepsInvariant(hash, r, ops);
    UntouchedIsLast(hash, r, ops, i, |ops|);
    WrittenIsLastStore(hash, r, ops, s.view.cfg.dir, key);
    if now < ops[i].1 + ops[i].0.ttl * SECOND {
      ClockIsLast(hash, r, ops, |ops| - 1);
      UntouchedIsPresent(hash, r, ops, i, |ops|, key);
      PresentHitsIff(hash, s, key, now);
    }
    if Hit(s.view, key, now).Some? {
      HitIsLastStoreOperation(hash, r, ops, key, now);
    }
  }
}
