// The order in which a reload puts the entries back. Hits move an entry in memory only; its file
// keeps the time it was stored, and the reload sorts by that.
module ReloadOrder {
  import opened CacheSpec
  import opened CacheRuns
  import opened Wrappers

  /** An entry as its metadata file has it. */
  function Filed(d: Disk, e: Entry): Entry {
    if e.path in d.metas && d.metas[e.path].Readable? then Entry(d.metas[e.path].meta, e.path) else e
  }

  function FiledAll(d: Disk, q: seq<Entry>): seq<Entry> {
    seq(|q|, i requires 0 <= i < |q| => Filed(d, q[i]))
  }

  predicate Sooner(q: seq<Entry>, i: nat, j: nat) {
    i < |q| && j < |q| && q[i].meta.accessedAt < q[j].meta.accessedAt
  }

  /** Sorted by last access, no two at the same time. */
  ghost predicate StrictlyRecent(q: seq<Entry>) {
    forall i: nat, j: nat :: i < j < |q| ==> Sooner(q, i, j)
  }

  lemma {:induction false} MultisetOfDistinct(q: seq<Entry>, s: set<Entry>)
    requires NoDup(q) && forall e :: e in q <==> e in s
    ensures multiset(q) == multiset(s)
  {
    if q == [] {
      assert s == {};
    } else {
      var init, last := q[..|q| - 1], q[|q| - 1];
      forall i: nat, j: nat | i < j < |init| ensures Differ(init, i, j) {
        assert Differ(q, i, j);
      }
      assert q == init + [last];
      assert last !in init by {
        forall i: nat | i < |init| ensures init[i] != last {
          assert Differ(q, i, |q| - 1);
        }
      }
      MultisetOfDistinct(init, s - {last});
      assert multiset(s) == multiset(s - {last}) + multiset{last};
    }
  }

  lemma LatestIsLast(a: seq<Entry>, b: seq<Entry>)
    requires a != [] && |a| == |b| && StrictlyRecent(a) && Recent(b) && multiset(a) == multiset(b)
    ensures a[|a| - 1] == b[|b| - 1]
  {
    var n := |a| - 1;
    var x, y := a[n], b[n];
    assert x in multiset(b) && y in multiset(a);
    var i: nat :| i < |b| && b[i] == x;
    var j: nat :| j < |a| && a[j] == y;
    if j < n {
      assert Sooner(a, j, n);
      assert i < n ==> NoLater(b, i, n);
    }
  }

  /** At different times there is one order only. */
  lemma {:induction false} SortedIsUnique(a: seq<Entry>, b: seq<Entry>)
    requires StrictlyRecent(a) && Recent(b) && multiset(a) == multiset(b)
    ensures a == b
    decreases |a|
  {
    assert |multiset(a)| == |a| && |multiset(b)| == |b|;
    if a != [] {
      var n := |a| - 1;
      LatestIsLast(a, b);
      assert a == a[..n] + [a[n]] && b == b[..n] + [b[n]];
      assert multiset(a[..n]) == multiset(a) - multiset{a[n]};
      assert multiset(b[..n]) == multiset(b) - multiset{b[n]};
      forall i: nat, j: nat | i < j < n ensures Sooner(a[..n], i, j) {
        assert Sooner(a, i, j);
      }
      forall i: nat, j: nat | i < j < n ensures NoLater(b[..n], i, j) {
        assert NoLater(b, i, j);
      }
      SortedIsUnique(a[..n], b[..n]);
    }
  }

  /** At equal times there is another. */
  lemma TiesSwap(q: seq<Entry>, i: nat, j: nat) returns (r: seq<Entry>)
    requires Recent(q) && i < j < |q| && q[i].meta.accessedAt == q[j].meta.accessedAt && q[i] != q[j]
    ensures Recent(r) && multiset(r) == multiset(q) && r != q
  {
    r := q[i := q[j]][j := q[i]];
    assert forall k :: 0 <= k < |q| ==> r[k].meta.accessedAt == q[k].meta.accessedAt;
    forall a: nat, b: nat | a < b < |r| ensures NoLater(r, a, b) {
      assert NoLater(q, a, b);
    }
    assert r[i] == q[j];
  }

  lemma FiledSurvivor(hash: string -> string, s: Run, now: int, e: Entry)
    requires Inv(hash, s) && s.view.cfg.enabled && e in Survivors(s.view, now)
    ensures Filed(s.view.disk, e) in LoadSet(s.view.disk, s.view.cfg.dir, now)
    ensures Filed(s.view.disk, e).meta.key == e.meta.key && Filed(s.view.disk, e).path == e.path
  {
    FilterMember(s.view.queue, (x: Entry) => x.meta.expiresAt > now && x.path in s.view.disk.bodies);
    assert OnDisk(hash, s.view, e);
  }

  lemma LoadedIsFiled(hash: string -> string, s: Run, now: int, x: Entry)
    requires Inv(hash, s) && s.view.cfg.enabled && x in LoadSet(s.view.disk, s.view.cfg.dir, now)
    ensures x in FiledAll(s.view.disk, Survivors(s.view, now))
  {
    var v := s.view;
    var q := Survivors(v, now);
    FilterMember(v.queue, (e: Entry) => e.meta.expiresAt > now && e.path in v.disk.bodies);
    assert x.path in PathsOf(v.queue);
    var e :| e in v.queue && e.path == x.path;
    assert OnDisk(hash, v, e);
    assert e in q && Filed(v.disk, e) == x;
    var i :| 0 <= i < |q| && q[i] == e;
    assert FiledAll(v.disk, q)[i] == x;
  }

  lemma FiledAreDistinct(hash: string -> string, s: Run, now: int)
    requires Inv(hash, s) && s.view.cfg.enabled
    ensures NoDup(FiledAll(s.view.disk, Survivors(s.view, now)))
  {
    var q := Survivors(s.view, now);
    var f := FiledAll(s.view.disk, q);
    FilterNoDup(s.view.queue, (e: Entry) => e.meta.expiresAt > now && e.path in s.view.disk.bodies);
    forall i: nat, j: nat | i < j < |f| ensures Differ(f, i, j) {
      Distinct(q, i, j);
      FiledSurvivor(hash, s, now, q[i]);
      FiledSurvivor(hash, s, now, q[j]);
    }
  }

  /** The survivors as filed are what a reload loads, order aside. */
  lemma FiledIsLoadSet(hash: string -> string, s: Run, now: int)
    requires Inv(hash, s) && s.view.cfg.enabled
    ensures multiset(FiledAll(s.view.disk, Survivors(s.view, now))) ==
            multiset(LoadSet(s.view.disk, s.view.cfg.dir, now))
  {
    var q, load := Survivors(s.view, now), LoadSet(s.view.disk, s.view.cfg.dir, now);
    var f := FiledAll(s.view.disk, q);
    FiledAreDistinct(hash, s, now);
    forall x ensures x in f <==> x in load {
      if x in f {
        var i :| 0 <= i < |f| && f[i] == x;
        FiledSurvivor(hash, s, now, q[i]);
      }
      if x in load {
        LoadedIsFiled(hash, s, now, x);
      }
    }
    MultisetOfDistinct(f, load);
  }

  /** A reload after any run can leave the survivors in their order of recency if and only if
      their files' times do not fall along it, and must if and only if these times rise. */
  lemma ReloadKeepsRecencyIff(hash: string -> string, r: Run, ops: seq<(Op, int)>, now: int)
    requires Injective(hash) && Inv(hash, r) && Legal(hash, r, ops) && After(hash, r, ops).view.cfg.enabled
    ensures
      var v := After(hash, r, ops).view;
      var filed := FiledAll(v.disk, Survivors(v, now));
      (IsLoadOrder(filed, v.disk, v.cfg.dir, now) <==> Recent(filed)) &&
      ((IsLoadOrder(filed, v.disk, v.cfg.dir, now) &&
        forall order :: IsLoadOrder(order, v.disk, v.cfg.dir, now) ==> order == filed) <==> StrictlyRecent(filed))
  {
    RunKeepsInvariant(hash, r, ops);
    var s := After(hash, r, ops);
    var d, dir := s.view.disk, s.view.cfg.dir;
    var filed := FiledAll(d, Survivors(s.view, now));
    FiledIsLoadSet(hash, s, now);
    FiledAreDistinct(hash, s, now);
    if StrictlyRecent(filed) {
      forall i: nat, j: nat | i < j < |filed| ensures NoLater(filed, i, j) {
        assert Sooner(filed, i, j);
      }
      forall order | IsLoadOrder(order, d, dir, now) ensures order == filed {
        SortedIsUnique(filed, order);
      }
    } else if Recent(filed) {
      var i: nat, j: nat :| i < j < |filed| && !Sooner(filed, i, j);
      assert NoLater(filed, i, j) && Differ(filed, i, j);
      var other := TiesSwap(filed, i, j);
      assert IsLoadOrder(other, d, dir, now);
    }
  }

  // ----- A hit that a reload forgets -------------------------------------------------

  const SMALL := Config(true, "d", 10)
  const START := Run(View(SMALL, [], Disk(map[], map[]), Stats(0, 0, 0, 0, 0)), 0, map[])

  function Stored(hash: string -> string, key: string, now: int): Entry {
    Entry(NewMeta(key, 10, 200, map[], 1, now), Path("d", hash(key)))
  }

  function StoreOf(key: string): Op {
    Store(key, 10, 200, map[], true, "", 1, Written)
  }

  lemma {:induction false} FilterNone(q: seq<Entry>, keep: Entry -> bool)
    requires forall e :: e in q ==> !keep(e)
    ensures Filter(q, keep) == []
  {
    if q != [] {
      assert forall e :: e in q[..|q| - 1] ==> e in q;
      FilterNone(q[..|q| - 1], keep);
      assert q[|q| - 1] in q;
    }
  }

  lemma NothingExpires(q: seq<Entry>, now: int)
    requires forall e :: e in q ==> e.meta.expiresAt > now
    ensures Live(q, now) == q && Expired(q, now) == []
  {
    FilterAll(q, (e: Entry) => e.meta.expiresAt > now);
    FilterNone(q, (e: Entry) => e.meta.expiresAt <= now);
  }

  /** Among few small live entries a new one is appended and nothing leaves. */
  lemma StoreAppends(hash: string -> string, v: View, key: string, now: int)
    requires v.cfg == SMALL && key !in Keys(v.queue) && Total(v.queue) <= 9
    requires forall e :: e in v.queue ==> e.meta.expiresAt > now
    ensures
      var w, e := NextView(hash, v, StoreOf(key), now), Stored(hash, key, now);
      w.cfg == SMALL && w.queue == v.queue + [e] &&
      w.disk == Disk(v.disk.metas[e.path := Readable(e.meta)], v.disk.bodies[e.path := ""])
  {
    LookupFinds(v.queue, key);
    NothingExpires(v.queue, now);
    EraseNone(v.disk);
    assert PathsOf([]) == {};
    var aged := AgeView(DropView(v, key), now);
    assert aged.queue == v.queue && aged.disk == v.disk;
    assert Trimmed(v.queue, 9) == [];
    assert RoomView(v, key, 1, now).disk == v.disk;
  }

  /** Store "a", store "b", hit "a": "b" is the least recent, and after a reload "a" is. */
  lemma ReloadForgetsHit(hash: string -> string)
    requires Injective(hash)
    ensures
      var r2 := Next(hash, Next(hash, START, StoreOf("a"), 1), StoreOf("b"), 2);
      var v := Next(hash, r2, Get("a"), 3).view;
      Keys(v.queue) == ["b", "a"] &&
      IsLoadOrder([Stored(hash, "a", 1), Stored(hash, "b", 2)], v.disk, "d", 3)
  {
    var a, b := Stored(hash, "a", 1), Stored(hash, "b", 2);
    assert SameDigest(hash, "a", "b") ==> "a" == "b";
    assert a.path != b.path;
    TwoStored(hash);
    var r2 := Next(hash, Next(hash, START, StoreOf("a"), 1), StoreOf("b"), 2);
    HitMoves(r2.view, a, b);
    TwoLoaded(r2.view.disk, a, b);
  }

  lemma TwoLoaded(d: Disk, a: Entry, b: Entry)
    requires a.path != b.path && a.path.dir == b.path.dir == "d"
    requires a.meta.expiresAt > 3 && b.meta.expiresAt > 3 && a.meta.accessedAt <= b.meta.accessedAt
    requires d.metas == map[a.path := Readable(a.meta), b.path := Readable(b.meta)]
    requires a.path in d.bodies && b.path in d.bodies
    ensures IsLoadOrder([a, b], d, "d", 3)
  {
    var order, load := [a, b], LoadSet(d, "d", 3);
    assert Entry(d.metas[a.path].meta, a.path) == a && Entry(d.metas[b.path].meta, b.path) == b;
    assert Loadable(d, a.path, "d", 3) && Loadable(d, b.path, "d", 3);
    assert load == {a, b};
    forall i: nat, j: nat | i < j < |order| ensures Differ(order, i, j) && NoLater(order, i, j) {}
    MultisetOfDistinct(order, load);
  }

  predicate Holds(v: View, a: Entry) {
    v.cfg == SMALL && v.queue == [a] && v.disk == Disk(map[a.path := Readable(a.meta)], map[a.path := ""])
  }

  predicate HoldsBoth(v: View, a: Entry, b: Entry) {
    v.cfg == SMALL && v.queue == [a, b] &&
    v.disk == Disk(map[a.path := Readable(a.meta), b.path := Readable(b.meta)], map[a.path := "", b.path := ""])
  }

  lemma FirstStored(hash: string -> string)
    ensures Holds(NextView(hash, START.view, StoreOf("a"), 1), Stored(hash, "a", 1))
  {
    assert Keys([]) == [];
    StoreAppends(hash, START.view, "a", 1);
    assert [] + [Stored(hash, "a", 1)] == [Stored(hash, "a", 1)];
  }

  lemma SecondStored(hash: string -> string, v: View, a: Entry)
    requires Holds(v, a) && a == Stored(hash, "a", 1) && a.path != Stored(hash, "b", 2).path
    ensures HoldsBoth(NextView(hash, v, StoreOf("b"), 2), a, Stored(hash, "b", 2))
  {
    assert Keys([a]) == ["a"];
    assert [a][..0] == [] && Total([a]) == Total([]) + 1;
    StoreAppends(hash, v, "b", 2);
  }

  lemma TwoStored(hash: string -> string)
    requires Stored(hash, "a", 1).path != Stored(hash, "b", 2).path
    ensures HoldsBoth(Next(hash, Next(hash, START, StoreOf("a"), 1), StoreOf("b"), 2).view,
                      Stored(hash, "a", 1), Stored(hash, "b", 2))
  {
    FirstStored(hash);
    SecondStored(hash, Next(hash, START, StoreOf("a"), 1).view, Stored(hash, "a", 1));
  }

  lemma HitMoves(v: View, a: Entry, b: Entry)
    requires v.cfg.enabled && v.queue == [a, b] && a.meta.key == "a" && b.meta.key == "b"
    requires a.meta.expiresAt > 3 && a.path in v.disk.bodies
    ensures LookupView(v, "a", 3).0.disk == v.disk && Keys(LookupView(v, "a", 3).0.queue) == ["b", "a"]
  {
    var q := [a, b];
    assert q[..1] == [a] && [a][..0] == [];
    assert Lookup([a], "a") == Some(a);
    WithoutStep([a], "a");
    WithoutStep(q, "a");
    assert Without(q, "a") == [b];
  }

  lemma WithoutStep(q: seq<Entry>, key: string)
    requires q != []
    ensures Without(q, key) == Without(q[..|q| - 1], key) + if q[|q| - 1].meta.key != key then [q[|q| - 1]] else []
    ensures Without([], key) == []
  {
  }
}
