// The response cache as one list of entries in recency order, and the files it keeps.
// ResponseCache.dfy proves that the mutable store (map, list, byte counter) refines this.
// Times are in nanoseconds, lifetimes in seconds.
module CacheSpec {
  import opened Wrappers

  const SECOND := 1_000_000_000

  type Header = map<string, seq<string>>

  /** A file `<dir>/<stem>.json` or `<dir>/<stem>.body`; the extension is the map it is in. */
  datatype Path = Path(dir: string, stem: string)

  datatype Meta = Meta(
    key: string, status: int, header: Header, size: int,
    expiresAt: int, createdAt: int, accessedAt: int)

  datatype MetaFile = Unreadable | Readable(meta: Meta)

  datatype Entry = Entry(meta: Meta, path: Path)

  datatype Disk = Disk(metas: map<Path, MetaFile>, bodies: map<Path, string>)

  datatype Config = Config(enabled: bool, dir: string, maxBytes: int)

  datatype Stats = Stats(hits: nat, misses: nat, stores: nat, evictions: nat, clears: nat)

  datatype View = View(cfg: Config, queue: seq<Entry>, disk: Disk, stats: Stats)

  /** How moving the temporary body and writing the metadata went. */
  datatype WriteOutcome = Written | MoveFailed(leftBehind: Option<string>) | MetaFailed

  // ----- Lists of entries ------------------------------------------------------------

  function Total(q: seq<Entry>): int {
    if q == [] then 0 else Total(q[..|q| - 1]) + q[|q| - 1].meta.size
  }

  function Keys(q: seq<Entry>): seq<string> {
    seq(|q|, i requires 0 <= i < |q| => q[i].meta.key)
  }

  predicate Differ<T(==)>(s: seq<T>, i: nat, j: nat) {
    i < |s| && j < |s| && s[i] != s[j]
  }

  ghost predicate NoDup<T>(s: seq<T>) {
    forall i: nat, j: nat :: i < j < |s| ==> Differ(s, i, j)
  }

  function PathsOf(q: seq<Entry>): set<Path> {
    set e | e in q :: e.path
  }

  function Filter(q: seq<Entry>, keep: Entry -> bool): seq<Entry> {
    if q == [] then []
    else
      var last := q[|q| - 1];
      Filter(q[..|q| - 1], keep) + if keep(last) then [last] else []
  }

  function Without(q: seq<Entry>, key: string): seq<Entry> {
    Filter(q, (e: Entry) => e.meta.key != key)
  }

  function Live(q: seq<Entry>, now: int): seq<Entry> {
    Filter(q, (e: Entry) => e.meta.expiresAt > now)
  }

  function Expired(q: seq<Entry>, now: int): seq<Entry> {
    Filter(q, (e: Entry) => e.meta.expiresAt <= now)
  }

  function Named(q: seq<Entry>, key: string): seq<Entry> {
    Filter(q, (e: Entry) => e.meta.key == key)
  }

  /** Drop least recently used entries until `budget` bytes suffice. */
  function Trim(q: seq<Entry>, budget: int): (r: seq<Entry>)
    ensures |r| <= |q|
  {
    if q == [] || Total(q) <= budget then q else Trim(q[1..], budget)
  }

  function Trimmed(q: seq<Entry>, budget: int): seq<Entry> {
    q[..|q| - |Trim(q, budget)|]
  }

  function Lookup(q: seq<Entry>, key: string): Option<Entry> {
    if q == [] then None
    else if q[|q| - 1].meta.key == key then Some(q[|q| - 1])
    else Lookup(q[..|q| - 1], key)
  }

  function Erase(d: Disk, gone: set<Path>): Disk {
    Disk(d.metas - gone, d.bodies - gone)
  }

  lemma EraseTwice(d: Disk, a: set<Path>, b: set<Path>)
    ensures Erase(Erase(d, a), b) == Erase(d, a + b)
  {
  }

  lemma EraseNone(d: Disk)
    ensures Erase(d, {}) == d
  {
  }

  // ----- Facts about the lists -------------------------------------------------------

  lemma TotalConcat(a: seq<Entry>, b: seq<Entry>)
    ensures Total(a + b) == Total(a) + Total(b)
  {
    if b == [] {
      assert a + b == a;
    } else {
      TotalConcat(a, b[..|b| - 1]);
      assert (a + b)[..|a + b| - 1] == a + b[..|b| - 1];
    }
  }

  lemma TotalHead(q: seq<Entry>)
    requires q != []
    ensures Total(q) == q[0].meta.size + Total(q[1..])
  {
    TotalConcat([q[0]], q[1..]);
    assert [q[0]] + q[1..] == q;
    assert [q[0]][..0] == [];
  }

  ghost predicate Sized(q: seq<Entry>) {
    forall i :: 0 <= i < |q| ==> q[i].meta.size >= 0
  }

  lemma FilterMember(q: seq<Entry>, keep: Entry -> bool)
    ensures forall e :: e in Filter(q, keep) <==> e in q && keep(e)
  {
    if q != [] {
      FilterMember(q[..|q| - 1], keep);
      assert q == q[..|q| - 1] + [q[|q| - 1]];
    }
  }

  lemma FilterExt(q: seq<Entry>, f: Entry -> bool, g: Entry -> bool)
    requires forall e :: e in q ==> f(e) == g(e)
    ensures Filter(q, f) == Filter(q, g)
  {
    if q != [] {
      assert forall e :: e in q[..|q| - 1] ==> e in q;
      FilterExt(q[..|q| - 1], f, g);
    }
  }

  lemma FilterPush(q: seq<Entry>, e: Entry, f: Entry -> bool)
    ensures Filter(q + [e], f) == Filter(q, f) + if f(e) then [e] else []
  {
    assert (q + [e])[..|q|] == q;
  }

  lemma {:induction false} FilterAll(q: seq<Entry>, f: Entry -> bool)
    requires forall e :: e in q ==> f(e)
    ensures Filter(q, f) == q
  {
    if q != [] {
      var init, last := q[..|q| - 1], q[|q| - 1];
      assert q == init + [last];
      assert last in q && forall e :: e in init ==> e in q;
      FilterAll(init, f);
      FilterPush(init, last, f);
    }
  }

  lemma FilterFilter(q: seq<Entry>, f: Entry -> bool, g: Entry -> bool)
    ensures Filter(Filter(q, f), g) == Filter(q, (e: Entry) => f(e) && g(e))
  {
    if q != [] {
      var init, last := q[..|q| - 1], q[|q| - 1];
      FilterFilter(init, f, g);
      if f(last) {
        assert (Filter(init, f) + [last])[..|Filter(init, f)|] == Filter(init, f);
      } else {
        assert Filter(init, f) + [] == Filter(init, f);
        assert Filter(Filter(init, f), g) + [] == Filter(Filter(init, f), g);
      }
    }
  }

  lemma {:induction false} FilterTotal(q: seq<Entry>, keep: Entry -> bool)
    requires Sized(q)
    ensures Sized(Filter(q, keep)) && 0 <= Total(Filter(q, keep)) <= Total(q)
    ensures |Filter(q, keep)| <= |q|
  {
    if q != [] {
      var init, last := q[..|q| - 1], q[|q| - 1];
      FilterTotal(init, keep);
      TotalConcat(Filter(init, keep), if keep(last) then [last] else []);
      assert [last][..0] == [];
    }
  }

  lemma LastKeyNew(q: seq<Entry>)
    requires NoDup(Keys(q)) && q != []
    ensures q[|q| - 1].meta.key !in Keys(q[..|q| - 1])
  {
    var init, n := q[..|q| - 1], |q| - 1;
    forall i | 0 <= i < n ensures Keys(init)[i] != q[n].meta.key {
      assert Differ(Keys(q), i, n);
    }
  }

  lemma FilterKeys(q: seq<Entry>, keep: Entry -> bool)
    ensures forall k :: k in Keys(Filter(q, keep)) ==> k in Keys(q)
  {
    FilterMember(q, keep);
    forall k | k in Keys(Filter(q, keep)) ensures k in Keys(q) {
      var i :| 0 <= i < |Filter(q, keep)| && Filter(q, keep)[i].meta.key == k;
      KeyIn(q, Filter(q, keep)[i]);
    }
  }

  lemma {:induction false} FilterNoDup(q: seq<Entry>, keep: Entry -> bool)
    requires NoDup(Keys(q))
    ensures NoDup(Keys(Filter(q, keep)))
  {
    if q != [] {
      var init, last := q[..|q| - 1], q[|q| - 1];
      InitKeeps(q);
      FilterNoDup(init, keep);
      var f := Filter(init, keep);
      if keep(last) {
        LastKeyNew(q);
        FilterKeys(init, keep);
        PushNoDup(f, last);
      } else {
        assert f + [] == f;
      }
    }
  }

  lemma {:induction false} FilterRecent(q: seq<Entry>, keep: Entry -> bool)
    requires Recent(q)
    ensures Recent(Filter(q, keep))
  {
    if q != [] {
      var init, last := q[..|q| - 1], q[|q| - 1];
      InitKeeps(q);
      FilterRecent(init, keep);
      var f := Filter(init, keep);
      if keep(last) {
        forall i | 0 <= i < |f| ensures f[i].meta.accessedAt <= last.meta.accessedAt {
          FilterMember(init, keep);
          assert f[i] in init;
          var j :| 0 <= j < |init| && init[j] == f[i];
          assert NoLater(q, j, |q| - 1);
        }
        PushRecent(f, last);
      } else {
        assert f + [] == f;
      }
    }
  }

  lemma InitKeeps(q: seq<Entry>)
    requires q != []
    ensures Keys(q) == Keys(q[..|q| - 1]) + [q[|q| - 1].meta.key]
    ensures q == q[..|q| - 1] + [q[|q| - 1]]
    ensures NoDup(Keys(q)) ==> NoDup(Keys(q[..|q| - 1]))
    ensures Recent(q) ==> Recent(q[..|q| - 1])
  {
    SubKeeps(q, 0, |q| - 1);
    assert q[0..|q| - 1] == q[..|q| - 1];
  }

  lemma SubKeeps(q: seq<Entry>, lo: nat, hi: nat)
    requires lo <= hi <= |q|
    ensures Keys(q[lo..hi]) == Keys(q)[lo..hi]
    ensures NoDup(Keys(q)) ==> NoDup(Keys(q[lo..hi]))
    ensures Recent(q) ==> Recent(q[lo..hi])
  {
    if NoDup(Keys(q)) {
      forall i: nat, j: nat | i < j < hi - lo ensures Differ(Keys(q[lo..hi]), i, j) {
        assert Differ(Keys(q), lo + i, lo + j);
      }
    }
    if Recent(q) {
      forall i: nat, j: nat | i < j < hi - lo ensures NoLater(q[lo..hi], i, j) {
        assert NoLater(q, lo + i, lo + j);
      }
    }
  }

  lemma PushNoDup(q: seq<Entry>, e: Entry)
    requires NoDup(Keys(q)) && e.meta.key !in Keys(q)
    ensures NoDup(Keys(q + [e])) && Keys(q + [e]) == Keys(q) + [e.meta.key]
  {
    assert Keys(q + [e]) == Keys(q) + [e.meta.key];
    forall i: nat, j: nat | i < j <= |q| ensures Differ(Keys(q + [e]), i, j) {
      if j < |q| {
        assert Differ(Keys(q), i, j);
      }
    }
  }

  lemma PushRecent(q: seq<Entry>, e: Entry)
    requires Recent(q) && forall x :: x in q ==> x.meta.accessedAt <= e.meta.accessedAt
    ensures Recent(q + [e])
  {
    forall i: nat, j: nat | i < j <= |q| ensures NoLater(q + [e], i, j) {
      if j < |q| {
        assert NoLater(q, i, j);
      }
    }
  }

  /** Two entries of one list with the same key are the same entry. */
  lemma SameKeySameEntry(q: seq<Entry>, a: Entry, b: Entry)
    requires NoDup(Keys(q)) && a in q && b in q && a.meta.key == b.meta.key
    ensures a == b
  {
    var i: nat, j: nat :| i < |q| && q[i] == a && j < |q| && q[j] == b;
    Distinct(q, i, j);
  }

  lemma Distinct(q: seq<Entry>, i: nat, j: nat)
    requires NoDup(Keys(q)) && i < |q| && j < |q|
    ensures q[i].meta.key == q[j].meta.key ==> i == j
  {
    if i < j {
      assert Differ(Keys(q), i, j);
    } else if j < i {
      assert Differ(Keys(q), j, i);
    }
  }

  lemma KeyIn(q: seq<Entry>, e: Entry)
    requires e in q
    ensures e.meta.key in Keys(q)
  {
    var i :| 0 <= i < |q| && q[i] == e;
    assert Keys(q)[i] == e.meta.key;
  }

  predicate NoLater(q: seq<Entry>, i: nat, j: nat) {
    i < |q| && j < |q| && q[i].meta.accessedAt <= q[j].meta.accessedAt
  }

  /** Sorted by last access, least recent first. */
  ghost predicate Recent(q: seq<Entry>) {
    forall i: nat, j: nat :: i < j < |q| ==> NoLater(q, i, j)
  }

  lemma FilterSplits(q: seq<Entry>, f: Entry -> bool)
    ensures |Filter(q, f)| + |Filter(q, (e: Entry) => !f(e))| == |q|
    ensures Total(Filter(q, f)) + Total(Filter(q, (e: Entry) => !f(e))) == Total(q)
  {
    if q != [] {
      var init, last := q[..|q| - 1], q[|q| - 1];
      FilterSplits(init, f);
      var a, b := Filter(init, f), Filter(init, (e: Entry) => !f(e));
      TotalConcat(a, [last]);
      TotalConcat(b, [last]);
      assert [last][..0] == [];
      assert a + [] == a && b + [] == b;
    }
  }

  lemma {:induction false} LookupFinds(q: seq<Entry>, key: string)
    ensures Lookup(q, key) == None <==> key !in Keys(q)
    ensures Lookup(q, key).Some? ==> Lookup(q, key).value in q && Lookup(q, key).value.meta.key == key
  {
    if q != [] {
      InitKeeps(q);
      LookupFinds(q[..|q| - 1], key);
    }
  }

  lemma LookupUnique(q: seq<Entry>, e: Entry)
    requires NoDup(Keys(q)) && e in q
    ensures Lookup(q, e.meta.key) == Some(e)
  {
    KeyIn(q, e);
    LookupFinds(q, e.meta.key);
    SameKeySameEntry(q, e, Lookup(q, e.meta.key).value);
  }

  lemma {:induction false} WithoutAbsent(q: seq<Entry>, key: string)
    requires key !in Keys(q)
    ensures Without(q, key) == q
  {
    forall e | e in q ensures e.meta.key != key {
      KeyIn(q, e);
    }
    FilterAll(q, (e: Entry) => e.meta.key != key);
  }

  lemma {:induction false} WithoutTotal(q: seq<Entry>, e: Entry)
    requires e in q && NoDup(Keys(q))
    ensures Total(Without(q, e.meta.key)) + e.meta.size == Total(q)
  {
    var init, last := q[..|q| - 1], q[|q| - 1];
    InitKeeps(q);
    LastKeyNew(q);
    var rest := Without(init, e.meta.key);
    if last.meta.key == e.meta.key {
      SameKeySameEntry(q, last, e);
      WithoutAbsent(init, last.meta.key);
      assert rest + [] == rest;
    } else {
      WithoutTotal(init, e);
      TotalConcat(rest, [last]);
      assert [last][..0] == [];
    }
  }

  /** Eviction keeps a suffix that fits, and it is the longest one that does. */
  lemma {:induction false} TrimIsLongestFittingSuffix(q: seq<Entry>, budget: int)
    requires Sized(q) && budget >= 0
    ensures |Trim(q, budget)| <= |q|
    ensures Trim(q, budget) == q[|q| - |Trim(q, budget)|..]
    ensures Total(Trim(q, budget)) <= budget
    ensures forall n :: 0 <= n < |q| - |Trim(q, budget)| ==> Total(q[n..]) > budget
  {
    if q != [] && Total(q) > budget {
      TrimIsLongestFittingSuffix(q[1..], budget);
      var k := |q| - |Trim(q, budget)|;
      assert q[1..][k - 1..] == q[k..];
      forall n | 0 <= n < k ensures Total(q[n..]) > budget {
        if n == 0 {
          assert q[0..] == q;
        } else {
          assert q[1..][n - 1..] == q[n..];
        }
      }
    }
  }

  lemma {:induction false} TrimStep(q: seq<Entry>, n: nat, budget: int)
    requires n <= |q|
    requires forall i :: 0 <= i < n ==> Total(q[i..]) > budget
    ensures Trim(q, budget) == Trim(q[n..], budget)
  {
    if n == 0 {
      assert q[0..] == q;
    } else {
      assert q[0..] == q;
      forall i | 0 <= i < n - 1 ensures Total(q[1..][i..]) > budget {
        assert q[1..][i..] == q[i + 1..];
      }
      TrimStep(q[1..], n - 1, budget);
      assert q[1..][n - 1..] == q[n..];
    }
  }

  // ----- One operation ---------------------------------------------------------------

  function LookupView(v: View, key: string, now: int): (View, Option<Entry>) {
    if !v.cfg.enabled then (v, None)
    else match Lookup(v.queue, key)
      case None => (v.(stats := v.stats.(misses := v.stats.misses + 1)), None)
      case Some(e) =>
        if e.meta.expiresAt <= now || e.path !in v.disk.bodies then
          (View(v.cfg, Without(v.queue, key), Erase(v.disk, {e.path}),
                v.stats.(misses := v.stats.misses + 1)), None)
        else
          var hit := e.(meta := e.meta.(accessedAt := now));
          (v.(queue := Without(v.queue, key) + [hit], stats := v.stats.(hits := v.stats.hits + 1)),
           Some(hit))
  }

  function DropView(v: View, key: string): View {
    match Lookup(v.queue, key)
    case None => v
    case Some(e) => v.(queue := Without(v.queue, key), disk := Erase(v.disk, {e.path}))
  }

  /** Whether Store gets as far as making room: neither ignored nor oversized. */
  predicate Stores(v: View, bodyGiven: bool, ttl: int, size: nat) {
    bodyGiven && ttl > 0 && v.cfg.enabled && !(v.cfg.maxBytes > 0 && size > v.cfg.maxBytes)
  }

  /** The old entry of the key leaves, then the expired ones, then the least recent. */
  function RoomView(v: View, key: string, size: nat, now: int): View {
    LimitView(AgeView(DropView(v, key), now), size)
  }

  function AgeView(v: View, now: int): View {
    var aged := Expired(v.queue, now);
    v.(queue := Live(v.queue, now), disk := Erase(v.disk, PathsOf(aged)),
       stats := v.stats.(evictions := v.stats.evictions + |aged|))
  }

  function LimitView(v: View, additional: nat): View {
    if v.cfg.maxBytes <= 0 then v
    else
      var evicted := Trimmed(v.queue, v.cfg.maxBytes - additional);
      v.(queue := Trim(v.queue, v.cfg.maxBytes - additional),
         disk := Erase(v.disk, PathsOf(evicted)),
         stats := v.stats.(evictions := v.stats.evictions + |evicted|))
  }

  function NewMeta(key: string, ttl: int, status: int, header: Header, size: nat, now: int): Meta {
    Meta(key, status, header, size, now + ttl * SECOND, now, now)
  }

  function StoreView(v: View, hash: string -> string, key: string, ttl: int, status: int, header: Header,
                     bodyGiven: bool, body: string, size: nat, now: int, outcome: WriteOutcome): View
  {
    if !Stores(v, bodyGiven, ttl, size) then v
    else
      var entry := Entry(NewMeta(key, ttl, status, header, size, now), Path(v.cfg.dir, hash(key)));
      WriteView(RoomView(v, key, size, now), entry, body, outcome)
  }

  function WriteView(room: View, entry: Entry, body: string, outcome: WriteOutcome): View {
    match outcome
    case MoveFailed(left) =>
      if left.None? then room
      else room.(disk := Disk(room.disk.metas, room.disk.bodies[entry.path := left.value]))
    case MetaFailed =>
      room.(disk := Disk(room.disk.metas, room.disk.bodies - {entry.path}))
    case Written =>
      room.(queue := room.queue + [entry],
            disk := Disk(room.disk.metas[entry.path := Readable(entry.meta)], room.disk.bodies[entry.path := body]),
            stats := room.stats.(stores := room.stats.stores + 1))
  }

  function ClearView(v: View): View {
    View(v.cfg, [], Erase(v.disk, PathsOf(v.queue)), v.stats.(clears := v.stats.clears + 1))
  }

  // ----- Reloading from the directory ------------------------------------------------

  predicate Loadable(d: Disk, p: Path, dir: string, now: int) {
    p in d.metas && p.dir == dir && d.metas[p].Readable? &&
    d.metas[p].meta.expiresAt > now && p in d.bodies
  }

  function LoadSet(d: Disk, dir: string, now: int): set<Entry> {
    set p | p in d.metas && Loadable(d, p, dir, now) :: Entry(d.metas[p].meta, p)
  }

  /** Reading the directory also cleans it: bad, expired and bodyless metadata go away. */
  function Cleaned(d: Disk, dir: string, now: int): Disk {
    Disk(map p | p in d.metas && (p.dir != dir || Loadable(d, p, dir, now)) :: d.metas[p],
         map p | p in d.bodies && !(p in d.metas && p.dir == dir && d.metas[p].Readable?
                                    && d.metas[p].meta.expiresAt <= now) :: d.bodies[p])
  }

  /** The entries in the order the sort by access time leaves them; ties are open. */
  ghost predicate IsLoadOrder(q: seq<Entry>, d: Disk, dir: string, now: int) {
    Recent(q) && multiset(q) == multiset(LoadSet(d, dir, now))
  }

  function ReconfigureView(v: View, cfg: Config, now: int, order: seq<Entry>): View {
    if !cfg.enabled then View(cfg, [], v.disk, v.stats)
    else LimitView(View(cfg, order, Cleaned(v.disk, cfg.dir, now), v.stats), 0)
  }
}
