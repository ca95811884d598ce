// Every run of the response cache: capacity, agreement with the files, recency, freshness.
module CacheRuns {
  import opened CacheSpec
  import opened Wrappers

  datatype Op =
    | Store(key: string, ttl: int, status: int, header: Header, bodyGiven: bool, body: string,
            size: nat, outcome: WriteOutcome)
    | Get(key: string)
    | Drop(key: string)
    | Clear
    | Reconfigure(cfg: Config, order: seq<Entry>)
    | BodyLost(path: Path)  // someone else removes a body file

  /** `written` remembers, for each path, what the latest completed Store put there. */
  datatype Run = Run(view: View, clock: int, written: map<Path, (Meta, string)>)

  predicate SameDigest(hash: string -> string, a: string, b: string) {
    hash(a) == hash(b)
  }

  ghost predicate Injective(hash: string -> string) {
    forall a, b :: SameDigest(hash, a, b) ==> a == b
  }

  /** Clocks do not go back; a reload uses an order the directory allows. */
  ghost predicate Allowed(r: Run, op: Op, now: int) {
    now >= r.clock &&
    (op.Reconfigure? ==>
       (op.cfg.enabled ==> op.cfg.maxBytes > 0 && IsLoadOrder(op.order, r.view.disk, op.cfg.dir, now)))
  }

  function NextView(hash: string -> string, v: View, op: Op, now: int): View {
    match op
    case Store(key, ttl, status, header, given, body, size, outcome) =>
      StoreView(v, hash, key, ttl, status, header, given, body, size, now, outcome)
    case Get(key) => LookupView(v, key, now).0
    case Drop(key) => DropView(v, key)
    case Clear => ClearView(v)
    case Reconfigure(cfg, order) => ReconfigureView(v, cfg, now, order)
    case BodyLost(path) => v.(disk := Disk(v.disk.metas, v.disk.bodies - {path}))
  }

  function Next(hash: string -> string, r: Run, op: Op, now: int): Run {
    Run(NextView(hash, r.view, op, now), now,
        if op.Store? && op.outcome.Written? && Stores(r.view, op.bodyGiven, op.ttl, op.size) then
          r.written[Path(r.view.cfg.dir, hash(op.key)) :=
                    (NewMeta(op.key, op.ttl, op.status, op.header, op.size, now), op.body)]
        else r.written)
  }

  function After(hash: string -> string, r: Run, ops: seq<(Op, int)>): Run {
    if ops == [] then r
    else
      var n := |ops| - 1;
      Next(hash, After(hash, r, ops[..n]), ops[n].0, ops[n].1)
  }

  ghost predicate Legal(hash: string -> string, r: Run, ops: seq<(Op, int)>) {
    ops != [] ==>
      var n := |ops| - 1;
      Legal(hash, r, ops[..n]) && Allowed(After(hash, r, ops[..n]), ops[n].0, ops[n].1)
  }

  // ----- The invariant ---------------------------------------------------------------

  ghost predicate QueueInv(v: View, clock: int) {
    Sized(v.queue) && NoDup(Keys(v.queue)) && Recent(v.queue) &&
    (forall e :: e in v.queue ==> e.meta.accessedAt <= clock) &&
    (if v.cfg.enabled then v.cfg.maxBytes > 0 && Total(v.queue) <= v.cfg.maxBytes else v.queue == [])
  }

  /** Readable metadata sits under its key's digest and is the latest thing stored there. */
  ghost predicate DiskInv(hash: string -> string, d: Disk, clock: int, written: map<Path, (Meta, string)>) {
    forall p :: p in d.metas && d.metas[p].Readable? ==>
      var m := d.metas[p].meta;
      p.stem == hash(m.key) && m.size >= 0 && m.accessedAt <= clock &&
      p in written && written[p].0 == m && (p in d.bodies ==> d.bodies[p] == written[p].1)
  }

  predicate SameButAccess(a: Meta, b: Meta) {
    a == b.(accessedAt := a.accessedAt)
  }

  ghost predicate OnDisk(hash: string -> string, v: View, e: Entry) {
    e.path == Path(v.cfg.dir, hash(e.meta.key)) &&
    e.path in v.disk.metas && v.disk.metas[e.path].Readable? &&
    SameButAccess(v.disk.metas[e.path].meta, e.meta)
  }

  /** While enabled, the metadata files of the directory are exactly the entries'. */
  ghost predicate Mirror(hash: string -> string, v: View) {
    v.cfg.enabled ==>
      (forall e :: e in v.queue ==> OnDisk(hash, v, e)) &&
      (forall p :: p in v.disk.metas && p.dir == v.cfg.dir ==> p in PathsOf(v.queue))
  }

  ghost predicate Inv(hash: string -> string, r: Run) {
    QueueInv(r.view, r.clock) && Mirror(hash, r.view) && DiskInv(hash, r.view.disk, r.clock, r.written)
  }

  // ----- Removing entries ------------------------------------------------------------

  lemma SamePathSameEntry(hash: string -> string, v: View, a: Entry, b: Entry)
    requires Injective(hash) && v.cfg.enabled && Mirror(hash, v) && NoDup(Keys(v.queue))
    requires a in v.queue && b in v.queue
    ensures a.path == b.path ==> a == b
  {
    assert OnDisk(hash, v, a) && OnDisk(hash, v, b);
    if a.path == b.path {
      assert SameDigest(hash, a.meta.key, b.meta.key);
      SameKeySameEntry(v.queue, a, b);
    }
  }

  /** Dropping entries together with their files keeps the mirror. */
  lemma MirrorWithout(hash: string -> string, v: View, w: View, gone: seq<Entry>)
    requires Injective(hash) && Mirror(hash, v) && NoDup(Keys(v.queue))
    requires w.cfg == v.cfg && w.disk == Erase(v.disk, PathsOf(gone))
    requires forall e :: e in v.queue ==> e in w.queue || e in gone
    requires forall e :: e in w.queue ==> e in v.queue && e !in gone
    requires forall e :: e in gone ==> e in v.queue
    ensures Mirror(hash, w)
  {
    if v.cfg.enabled {
      forall e | e in w.queue ensures OnDisk(hash, w, e) {
        assert OnDisk(hash, v, e);
        forall g | g in gone ensures g.path != e.path {
          SamePathSameEntry(hash, v, e, g);
        }
      }
      forall p | p in w.disk.metas && p.dir == w.cfg.dir ensures p in PathsOf(w.queue) {
        assert p in PathsOf(v.queue);
        var e :| e in v.queue && e.path == p;
        assert e in w.queue;
      }
    }
  }

  /** What Inv says apart from the limit: where a reload starts from. */
  ghost predicate LooseInv(hash: string -> string, r: Run) {
    Sized(r.view.queue) && NoDup(Keys(r.view.queue)) && Recent(r.view.queue) &&
    (forall e :: e in r.view.queue ==> e.meta.accessedAt <= r.clock) &&
    Mirror(hash, r.view) && DiskInv(hash, r.view.disk, r.clock, r.written)
  }

  /** Keeping only some entries, and erasing the files of the rest. */
  lemma SelectKeeps(hash: string -> string, r: Run, w: View, keep: Entry -> bool, gone: seq<Entry>)
    requires Injective(hash) && Inv(hash, r)
    requires w.cfg == r.view.cfg && w.disk == Erase(r.view.disk, PathsOf(gone))
    requires w.queue == Filter(r.view.queue, keep)
    requires forall e :: e in gone <==> e in r.view.queue && !keep(e)
    ensures Inv(hash, r.(view := w))
  {
    var q := r.view.queue;
    FilterMember(q, keep);
    FilterTotal(q, keep);
    FilterNoDup(q, keep);
    FilterRecent(q, keep);
    MirrorWithout(hash, r.view, w, gone);
  }

  lemma DropKeeps(hash: string -> string, r: Run, key: string)
    requires Injective(hash) && Inv(hash, r)
    ensures Inv(hash, r.(view := DropView(r.view, key)))
    ensures DropView(r.view, key).queue == Without(r.view.queue, key)
    ensures key !in Keys(DropView(r.view, key).queue)
  {
    var q := r.view.queue;
    LookupFinds(q, key);
    WithoutLacks(q, key);
    match Lookup(q, key)
    case None =>
      WithoutAbsent(q, key);
    case Some(e) =>
      assert PathsOf([e]) == {e.path};
      forall x | x in q && x.meta.key == key ensures x == e { SameKeySameEntry(q, x, e); }
      SelectKeeps(hash, r, DropView(r.view, key), (x: Entry) => x.meta.key != key, [e]);
  }

  lemma WithoutLacks(q: seq<Entry>, key: string)
    ensures key !in Keys(Without(q, key))
  {
    FilterMember(q, (e: Entry) => e.meta.key != key);
    var rest := Without(q, key);
    forall i | 0 <= i < |rest| ensures Keys(rest)[i] != key { assert rest[i] in rest; }
  }

  lemma {:induction false} LimitQueue(q: seq<Entry>, budget: nat)
    requires Sized(q) && NoDup(Keys(q)) && Recent(q)
    ensures Sized(Trim(q, budget)) && NoDup(Keys(Trim(q, budget))) && Recent(Trim(q, budget))
    ensures Total(Trim(q, budget)) <= budget
    ensures forall e :: e in q <==> e in Trim(q, budget) || e in Trimmed(q, budget)
    ensures forall e :: e in Trim(q, budget) ==> e !in Trimmed(q, budget)
    ensures forall k :: k in Keys(Trim(q, budget)) ==> k in Keys(q)
  {
    TrimIsLongestFittingSuffix(q, budget);
    var k := |q| - |Trim(q, budget)|;
    SubKeeps(q, k, |q|);
    assert q[k..|q|] == q[k..];
    SplitMembers(q, k);
  }

  lemma EraseDisk(hash: string -> string, r: Run, gone: set<Path>)
    requires DiskInv(hash, r.view.disk, r.clock, r.written)
    ensures DiskInv(hash, Erase(r.view.disk, gone), r.clock, r.written)
  {
  }

  lemma LimitKeeps(hash: string -> string, r: Run, additional: nat)
    requires Injective(hash) && LooseInv(hash, r) && r.view.cfg.enabled
    requires additional <= r.view.cfg.maxBytes && r.view.cfg.maxBytes > 0
    ensures Inv(hash, r.(view := LimitView(r.view, additional)))
    ensures Total(LimitView(r.view, additional).queue) + additional <= r.view.cfg.maxBytes
    ensures forall k :: k in Keys(LimitView(r.view, additional).queue) ==> k in Keys(r.view.queue)
  {
    var v, w := r.view, LimitView(r.view, additional);
    var budget := v.cfg.maxBytes - additional;
    var gone := Trimmed(v.queue, budget);
    assert w.cfg == v.cfg && w.queue == Trim(v.queue, budget) && w.disk == Erase(v.disk, PathsOf(gone));
    LimitQueue(v.queue, budget);
    assert QueueInv(w, r.clock);
    MirrorWithout(hash, v, w, gone);
    EraseDisk(hash, r, PathsOf(gone));
  }

  lemma SplitMembers(q: seq<Entry>, k: nat)
    requires NoDup(Keys(q)) && k <= |q|
    ensures forall e :: e in q <==> e in q[..k] || e in q[k..]
    ensures forall e :: e in q[k..] ==> e !in q[..k]
  {
    assert q == q[..k] + q[k..];
    forall e | e in q[k..] ensures e !in q[..k] {
      var j :| k <= j < |q| && q[j] == e;
      forall i | 0 <= i < k ensures q[i] != e { Distinct(q, i, j); }
    }
  }

  lemma RoomKeeps(hash: string -> string, r: Run, key: string, size: nat, now: int)
    requires Injective(hash) && Inv(hash, r) && r.view.cfg.enabled && size <= r.view.cfg.maxBytes
    ensures Inv(hash, r.(view := RoomView(r.view, key, size, now)))
    ensures Total(RoomView(r.view, key, size, now).queue) + size <= r.view.cfg.maxBytes
    ensures key !in Keys(RoomView(r.view, key, size, now).queue)
  {
    DropKeeps(hash, r, key);
    var others := DropView(r.view, key);
    var q := others.queue;
    var aged := AgeView(others, now);
    FilterMember(q, (e: Entry) => e.meta.expiresAt <= now);
    SelectKeeps(hash, r.(view := others), aged, (e: Entry) => e.meta.expiresAt > now, Expired(q, now));
    FilterKeys(q, (e: Entry) => e.meta.expiresAt > now);
    LimitKeeps(hash, r.(view := aged), size);
  }

  // ----- Each operation keeps the invariant ------------------------------------------

  lemma {:induction false} PushQueue(v: View, w: View, e: Entry, clock: int)
    requires QueueInv(v, clock) && v.cfg.enabled && e.meta.key !in Keys(v.queue)
    requires e.meta.size >= 0 && e.meta.accessedAt == clock
    requires Total(v.queue) + e.meta.size <= v.cfg.maxBytes
    requires w.cfg == v.cfg && w.queue == v.queue + [e]
    ensures QueueInv(w, clock) && Total(w.queue) == Total(v.queue) + e.meta.size
  {
    TotalConcat(v.queue, [e]);
    assert [e][..0] == [];
    PushNoDup(v.queue, e);
    PushRecent(v.queue, e);
  }

  /** A new most recent entry, with its metadata at its path. */
  lemma PushMirror(hash: string -> string, v: View, w: View, e: Entry, body: string)
    requires Injective(hash) && Mirror(hash, v) && v.cfg.enabled
    requires e.path == Path(v.cfg.dir, hash(e.meta.key)) && e.meta.key !in Keys(v.queue)
    requires w.cfg == v.cfg && w.queue == v.queue + [e]
    requires w.disk == Disk(v.disk.metas[e.path := Readable(e.meta)], v.disk.bodies[e.path := body])
    ensures Mirror(hash, w)
  {
    forall x | x in w.queue ensures OnDisk(hash, w, x) {
      if x in v.queue {
        assert OnDisk(hash, v, x);
        KeyIn(v.queue, x);
        assert SameDigest(hash, x.meta.key, e.meta.key) ==> x.meta.key == e.meta.key;
      }
    }
    forall p | p in w.disk.metas && p.dir == w.cfg.dir ensures p in PathsOf(w.queue) {
      if p == e.path {
        assert e in w.queue;
      } else {
        assert p in PathsOf(v.queue);
        var x :| x in v.queue && x.path == p;
        assert x in w.queue;
      }
    }
  }

  /** The path of a key that is not cached holds no metadata. */
  lemma FreePath(hash: string -> string, v: View, key: string)
    requires Injective(hash) && Mirror(hash, v) && v.cfg.enabled && key !in Keys(v.queue)
    ensures Path(v.cfg.dir, hash(key)) !in v.disk.metas
  {
    forall x | x in v.queue ensures x.path != Path(v.cfg.dir, hash(key)) {
      assert OnDisk(hash, v, x);
      KeyIn(v.queue, x);
      assert SameDigest(hash, x.meta.key, key) ==> x.meta.key == key;
    }
  }

  lemma MirrorIgnoresBodies(hash: string -> string, v: View, w: View)
    requires Mirror(hash, v) && w.cfg == v.cfg && w.queue == v.queue && w.disk.metas == v.disk.metas
    ensures Mirror(hash, w)
  {
    if v.cfg.enabled {
      forall e | e in w.queue ensures OnDisk(hash, w, e) { assert OnDisk(hash, v, e); }
    }
  }

  lemma WrittenKeeps(hash: string -> string, r: Run, e: Entry, body: string, w: View)
    requires Injective(hash) && Inv(hash, r) && r.view.cfg.enabled && e.meta.key !in Keys(r.view.queue)
    requires e.meta.size >= 0 && e.meta.accessedAt == r.clock
    requires e.path == Path(r.view.cfg.dir, hash(e.meta.key))
    requires Total(r.view.queue) + e.meta.size <= r.view.cfg.maxBytes
    requires w.cfg == r.view.cfg && w.queue == r.view.queue + [e]
    requires w.disk == Disk(r.view.disk.metas[e.path := Readable(e.meta)], r.view.disk.bodies[e.path := body])
    ensures Inv(hash, Run(w, r.clock, r.written[e.path := (e.meta, body)]))
  {
    PushQueue(r.view, w, e, r.clock);
    PushMirror(hash, r.view, w, e, body);
  }

  lemma UnwrittenKeeps(hash: string -> string, r: Run, path: Path, w: View)
    requires Inv(hash, r) && path !in r.view.disk.metas
    requires w.cfg == r.view.cfg && w.queue == r.view.queue && w.disk.metas == r.view.disk.metas
    requires forall p :: p in w.disk.bodies && p != path ==>
               p in r.view.disk.bodies && r.view.disk.bodies[p] == w.disk.bodies[p]
    ensures Inv(hash, r.(view := w))
  {
    MirrorIgnoresBodies(hash, r.view, w);
  }

  lemma TickKeeps(hash: string -> string, r: Run, now: int)
    requires Inv(hash, r) && now >= r.clock
    ensures Inv(hash, r.(clock := now))
  {
  }

  lemma FailedStoreDisk(hash: string -> string, v: View, op: Op, now: int)
    requires op.Store? && Stores(v, op.bodyGiven, op.ttl, op.size) && !op.outcome.Written?
    ensures
      var room, w := RoomView(v, op.key, op.size, now), NextView(hash, v, op, now);
      w.cfg == room.cfg && w.queue == room.queue && w.disk.metas == room.disk.metas &&
      forall p :: p in w.disk.bodies && p != Path(v.cfg.dir, hash(op.key)) ==>
        p in room.disk.bodies && room.disk.bodies[p] == w.disk.bodies[p]
  {
    var room := RoomView(v, op.key, op.size, now);
    assert room.cfg == v.cfg;
    match op.outcome
    case MoveFailed(left) => {}
    case MetaFailed => {}
  }

  lemma {:induction false} StoreKeeps(hash: string -> string, r: Run, op: Op, now: int)
    requires Injective(hash) && Inv(hash, r) && op.Store? && Allowed(r, op, now)
    ensures Inv(hash, Next(hash, r, op, now))
  {
    TickKeeps(hash, r, now);
    if Stores(r.view, op.bodyGiven, op.ttl, op.size) {
      var room := Run(RoomView(r.view, op.key, op.size, now), now, r.written);
      RoomKeeps(hash, r.(clock := now), op.key, op.size, now);
      FreePath(hash, room.view, op.key);
      var w := NextView(hash, r.view, op, now);
      var e := Entry(NewMeta(op.key, op.ttl, op.status, op.header, op.size, now),
                     Path(r.view.cfg.dir, hash(op.key)));
      if op.outcome.Written? {
        WrittenKeeps(hash, room, e, op.body, w);
        assert Next(hash, r, op, now) == Run(w, now, r.written[e.path := (e.meta, op.body)]);
      } else {
        FailedStoreDisk(hash, r.view, op, now);
        UnwrittenKeeps(hash, room, e.path, w);
        assert Next(hash, r, op, now) == room.(view := w);
      }
    } else {
      assert Next(hash, r, op, now) == r.(clock := now);
    }
  }

  /** A hit moves its entry to the back with a new access time; the file keeps the old one. */
  lemma {:induction false} HitQueue(v: View, w: View, e: Entry, clock: int)
    requires QueueInv(v, clock) && v.cfg.enabled && e in v.queue && w.cfg == v.cfg
    requires w.queue == Without(v.queue, e.meta.key) + [e.(meta := e.meta.(accessedAt := clock))]
    ensures QueueInv(w, clock) && Total(w.queue) == Total(v.queue)
  {
    var key, keep := e.meta.key, (x: Entry) => x.meta.key != e.meta.key;
    FilterMember(v.queue, keep);
    FilterTotal(v.queue, keep);
    FilterNoDup(v.queue, keep);
    FilterRecent(v.queue, keep);
    WithoutTotal(v.queue, e);
    WithoutLacks(v.queue, key);
    assert e.meta.size >= 0;
    PushQueue(v.(queue := Without(v.queue, key)), w, e.(meta := e.meta.(accessedAt := clock)), clock);
  }

  lemma HitMirror(hash: string -> string, v: View, w: View, e: Entry, clock: int)
    requires Mirror(hash, v) && NoDup(Keys(v.queue)) && v.cfg.enabled && e in v.queue
    requires w.cfg == v.cfg && w.disk == v.disk
    requires w.queue == Without(v.queue, e.meta.key) + [e.(meta := e.meta.(accessedAt := clock))]
    ensures Mirror(hash, w)
  {
    var hit, rest := e.(meta := e.meta.(accessedAt := clock)), Without(v.queue, e.meta.key);
    FilterMember(v.queue, (x: Entry) => x.meta.key != e.meta.key);
    forall x | x in w.queue ensures OnDisk(hash, w, x) {
      assert OnDisk(hash, v, if x == hit then e else x);
    }
    forall p | p in w.disk.metas && p.dir == w.cfg.dir ensures p in PathsOf(w.queue) {
      var x :| x in v.queue && x.path == p;
      if x.meta.key == e.meta.key {
        SameKeySameEntry(v.queue, x, e);
        assert hit in w.queue && hit.path == p;
      } else {
        assert x in w.queue;
      }
    }
  }

  lemma GetKeeps(hash: string -> string, r: Run, op: Op, now: int)
    requires Injective(hash) && Inv(hash, r) && op.Get? && Allowed(r, op, now)
    ensures Inv(hash, Next(hash, r, op, now))
  {
    var r1 := r.(clock := now);
    var w := NextView(hash, r.view, op, now);
    LookupFinds(r.view.queue, op.key);
    if r.view.cfg.enabled && Lookup(r.view.queue, op.key).Some? {
      var e := Lookup(r.view.queue, op.key).value;
      if e.meta.expiresAt <= now || e.path !in r.view.disk.bodies {
        DropKeeps(hash, r1, op.key);
        assert w == DropView(r.view, op.key).(stats := w.stats);
        MirrorIgnoresBodies(hash, DropView(r.view, op.key), w);
      } else {
        HitQueue(r.view, w, e, now);
        HitMirror(hash, r.view, w, e, now);
      }
    } else {
      MirrorIgnoresBodies(hash, r.view, w);
    }
  }

  lemma NoRepeats<T>(q: seq<T>, s: set<T>)
    requires multiset(q) == multiset(s)
    ensures forall i: nat, j: nat :: i < j < |q| ==> q[i] != q[j]
    ensures forall x :: x in q <==> x in s
  {
    forall i: nat, j: nat | i < j < |q| ensures q[i] != q[j] {
      assert q == q[..i] + [q[i]] + q[i + 1..j] + [q[j]] + q[j + 1..];
      assert multiset(s)[q[i]] <= 1;
    }
    forall x ensures x in q <==> x in s {
      assert x in multiset(q) <==> x in multiset(s);
    }
  }

  lemma LoadOrderIsClean(hash: string -> string, d: Disk, dir: string, now: int, clock: int,
                         written: map<Path, (Meta, string)>, order: seq<Entry>)
    requires DiskInv(hash, d, clock, written) && IsLoadOrder(order, d, dir, now)
    ensures Sized(order) && NoDup(Keys(order))
    ensures forall e :: e in order <==> e in LoadSet(d, dir, now)
    ensures forall e :: e in order ==> e.path == Path(dir, hash(e.meta.key)) && e.meta.accessedAt <= clock
  {
    NoRepeats(order, LoadSet(d, dir, now));
    forall e | e in order
      ensures Loadable(d, e.path, dir, now) && d.metas[e.path].meta == e.meta
      ensures e.path == Path(dir, hash(e.meta.key)) && e.meta.accessedAt <= clock && e.meta.size >= 0
    {
      assert e in LoadSet(d, dir, now);
    }
    forall i: nat, j: nat | i < j < |order| ensures Differ(Keys(order), i, j) {
      assert order[i] in order && order[j] in order && order[i] != order[j];
      assert order[i].meta.key == order[j].meta.key ==> order[i].path == order[j].path;
    }
  }

  lemma ReconfigureKeeps(hash: string -> string, r: Run, op: Op, now: int)
    requires Injective(hash) && Inv(hash, r) && op.Reconfigure? && Allowed(r, op, now)
    ensures Inv(hash, Next(hash, r, op, now))
  {
    if op.cfg.enabled {
      var d, dir := r.view.disk, op.cfg.dir;
      LoadOrderIsClean(hash, d, dir, now, r.clock, r.written, op.order);
      var loaded := View(op.cfg, op.order, Cleaned(d, dir, now), r.view.stats);
      forall e | e in op.order ensures OnDisk(hash, loaded, e) {
        assert e in LoadSet(d, dir, now);
      }
      forall p | p in loaded.disk.metas && p.dir == dir ensures p in PathsOf(op.order) {
        assert Entry(d.metas[p].meta, p) in LoadSet(d, dir, now);
        assert Entry(d.metas[p].meta, p) in op.order;
      }
      LimitKeeps(hash, Run(loaded, now, r.written), 0);
    } else {
      assert Keys([]) == [];
    }
  }

  lemma OtherKeeps(hash: string -> string, r: Run, op: Op, now: int)
    requires Injective(hash) && Inv(hash, r) && Allowed(r, op, now)
    requires op.Drop? || op.Clear? || op.BodyLost?
    ensures Inv(hash, Next(hash, r, op, now))
  {
    var w := NextView(hash, r.view, op, now);
    match op
    case Drop(key) =>
      DropKeeps(hash, r.(clock := now), key);
    case Clear =>
      assert Keys([]) == [];
      MirrorWithout(hash, r.view, w, r.view.queue);
    case BodyLost(path) =>
      MirrorIgnoresBodies(hash, r.view, w);
  }

  // ----- Main results ----------------------------------------------------------------

  lemma StepKeeps(hash: string -> string, r: Run, op: Op, now: int)
    requires Injective(hash) && Inv(hash, r) && Allowed(r, op, now)
    ensures Inv(hash, Next(hash, r, op, now))
  {
    match op
    case Store(_, _, _, _, _, _, _, _) => StoreKeeps(hash, r, op, now);
    case Get(_) => GetKeeps(hash, r, op, now);
    case Reconfigure(_, _) => ReconfigureKeeps(hash, r, op, now);
    case _ => OtherKeeps(hash, r, op, now);
  }

  /** Over every run: bytes within the limit, keys unique, files mirror entries, recency sorted. */
  lemma {:induction false} RunKeepsInvariant(hash: string -> string, r: Run, ops: seq<(Op, int)>)
    requires Injective(hash) && Inv(hash, r) && Legal(hash, r, ops)
    ensures Inv(hash, After(hash, r, ops))
  {
    if ops != [] {
      var n := |ops| - 1;
      RunKeepsInvariant(hash, r, ops[..n]);
      StepKeeps(hash, After(hash, r, ops[..n]), ops[n].0, ops[n].1);
    }
  }

  /** A disabled store over an empty file system: where newProxyResponseCacheStore begins. */
  lemma FreshStoreIsConsistent(hash: string -> string, cfg: Config, clock: int)
    requires !cfg.enabled
    ensures Inv(hash, Run(View(cfg, [], Disk(map[], map[]), Stats(0, 0, 0, 0, 0)), clock, map[]))
  {
    assert Keys([]) == [];
  }

  /** After any run, a hit returns exactly what the latest Store of that key in this directory
      wrote (status, headers, size, expiry, body), and it has not expired. */
  lemma HitIsLatestStore(hash: string -> string, r: Run, ops: seq<(Op, int)>, key: string, now: int)
    requires Injective(hash) && Inv(hash, r) && Legal(hash, r, ops)
    ensures
      var s := After(hash, r, ops);
      var out := LookupView(s.view, key, now).1;
      var path := Path(s.view.cfg.dir, hash(key));
      out.Some? ==>
        out.value.path == path && out.value.meta.key == key && out.value.meta.expiresAt > now &&
        path in s.written && path in s.view.disk.bodies &&
        SameButAccess(out.value.meta, s.written[path].0) && s.view.disk.bodies[path] == s.written[path].1
  {
    RunKeepsInvariant(hash, r, ops);
    var s := After(hash, r, ops);
    LookupFinds(s.view.queue, key);
    if LookupView(s.view, key, now).1.Some? {
      assert OnDisk(hash, s.view, Lookup(s.view.queue, key).value);
    }
  }

  function Strip(e: Entry): Entry {
    e.(meta := e.meta.(accessedAt := 0))
  }

  function Stripped(q: seq<Entry>): set<Entry> {
    set e | e in q :: Strip(e)
  }

  function Survivors(v: View, now: int): seq<Entry> {
    Filter(v.queue, (e: Entry) => e.meta.expiresAt > now && e.path in v.disk.bodies)
  }

  lemma StrippedMember(q: seq<Entry>, e: Entry)
    requires e in q
    ensures Strip(e) in Stripped(q)
  {
  }

  /** Two lists with unique keys that agree up to access times have the same byte total. */
  lemma {:induction false} SameStrippedSameTotal(a: seq<Entry>, b: seq<Entry>)
    requires NoDup(Keys(a)) && NoDup(Keys(b)) && Stripped(a) == Stripped(b)
    ensures Total(a) == Total(b)
  {
    if a == [] {
      if b != [] {
        StrippedMember(b, b[0]);
      }
    } else {
      var init, x := a[..|a| - 1], a[|a| - 1];
      InitKeeps(a);
      StrippedMember(a, x);
      var y :| y in b && Strip(y) == Strip(x);
      var rest := Without(b, x.meta.key);
      WithoutTotal(b, y);
      FilterMember(b, (e: Entry) => e.meta.key != x.meta.key);
      FilterNoDup(b, (e: Entry) => e.meta.key != x.meta.key);
      StrippedRest(a, b);
      SameStrippedSameTotal(init, rest);
    }
  }

  lemma StrippedRest(a: seq<Entry>, b: seq<Entry>)
    requires a != [] && NoDup(Keys(a)) && Stripped(a) == Stripped(b)
    ensures Stripped(a[..|a| - 1]) == Stripped(Without(b, a[|a| - 1].meta.key))
  {
    var init, x := a[..|a| - 1], a[|a| - 1];
    var rest := Without(b, x.meta.key);
    InitKeeps(a);
    LastKeyNew(a);
    FilterMember(b, (e: Entry) => e.meta.key != x.meta.key);
    forall s | s in Stripped(init) ensures s in Stripped(rest) {
      var e :| e in init && Strip(e) == s;
      KeyIn(init, e);
      StrippedMember(a, e);
      var f :| f in b && Strip(f) == s;
      assert f in rest;
    }
    forall s | s in Stripped(rest) ensures s in Stripped(init) {
      var f :| f in rest && Strip(f) == s;
      StrippedMember(b, f);
      var e :| e in a && Strip(e) == s;
      assert e in init;
    }
  }

  /** Reloading the directory after any run gives back exactly the entries that are unexpired and
      still have a body, each key once, with the same byte total; only access times may differ. */
  lemma ReloadYieldsSurvivors(hash: string -> string, r: Run, ops: seq<(Op, int)>, now: int, order: seq<Entry>)
    requires Injective(hash) && Inv(hash, r) && Legal(hash, r, ops)
    requires After(hash, r, ops).view.cfg.enabled
    requires IsLoadOrder(order, After(hash, r, ops).view.disk, After(hash, r, ops).view.cfg.dir, now)
    ensures
      var v := After(hash, r, ops).view;
      Stripped(order) == Stripped(Survivors(v, now)) && NoDup(Keys(order)) &&
      Total(order) == Total(Survivors(v, now)) <= v.cfg.maxBytes
  {
    RunKeepsInvariant(hash, r, ops);
    var s := After(hash, r, ops);
    var keep := (e: Entry) => e.meta.expiresAt > now && e.path in s.view.disk.bodies;
    FilterTotal(s.view.queue, keep);
    FilterNoDup(s.view.queue, keep);
    LoadOrderIsClean(hash, s.view.disk, s.view.cfg.dir, now, s.clock, s.written, order);
    ReloadedAreSurvivors(hash, s, now, order);
    SameStrippedSameTotal(order, Survivors(s.view, now));
  }

  lemma ReloadedAreSurvivors(hash: string -> string, s: Run, now: int, order: seq<Entry>)
    requires Inv(hash, s) && s.view.cfg.enabled
    requires forall e :: e in order <==> e in LoadSet(s.view.disk, s.view.cfg.dir, now)
    ensures Stripped(order) == Stripped(Survivors(s.view, now))
  {
    var v := s.view;
    FilterMember(v.queue, (e: Entry) => e.meta.expiresAt > now && e.path in v.disk.bodies);
    forall x | x in Stripped(order) ensures x in Stripped(Survivors(v, now)) {
      var e :| e in order && Strip(e) == x;
      assert e in LoadSet(v.disk, v.cfg.dir, now);
      assert e.path in PathsOf(v.queue);
      var f :| f in v.queue && f.path == e.path;
      assert OnDisk(hash, v, f);
      assert Strip(f) == x && f in Survivors(v, now);
    }
    forall x | x in Stripped(Survivors(v, now)) ensures x in Stripped(order) {
      var f :| f in Survivors(v, now) && Strip(f) == x;
      assert OnDisk(hash, v, f);
      var e := Entry(v.disk.metas[f.path].meta, f.path);
      assert e in LoadSet(v.disk, v.cfg.dir, now);
      assert Strip(e) == x && e in order;
    }
  }
}
