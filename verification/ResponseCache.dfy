// The mutable response cache store: a map of entries, a recency list of keys and a running byte
// total, kept consistent by each locked operation. Every operation is proved to be the
// corresponding step of CacheSpec on the list of entries in recency order.
module ResponseCache {
  import opened CacheSpec
  import Text
  import opened Wrappers

  const DEFAULT_STORE_DIR := "logs/coraza/cache"
  const DEFAULT_MAX_BYTES := 2 * 1024 * 1024 * 1024

  /** The entries the recency list names, in its order. */
  function QueueOf(lru: seq<string>, entries: map<string, Entry>): seq<Entry> {
    if lru == [] then []
    else
      var last := lru[|lru| - 1];
      QueueOf(lru[..|lru| - 1], entries) + if last in entries then [entries[last]] else []
  }

  /** A key is listed exactly when it is mapped, and then to an entry of that key. */
  predicate Filed(lru: seq<string>, entries: map<string, Entry>, k: string) {
    (k in lru <==> k in entries) && (k in entries ==> entries[k].meta.key == k && entries[k].meta.size >= 0)
  }

  /** What the map, the list and the counter owe each other. */
  ghost predicate Agrees(lru: seq<string>, entries: map<string, Entry>, bytes: int) {
    NoDup(lru) && (forall k :: Filed(lru, entries, k)) && bytes == Total(QueueOf(lru, entries))
  }

  /** list.Remove on an entry's element: the last element pushed for that key. */
  function RemoveLast(lru: seq<string>, key: string): (r: seq<string>)
    ensures |r| <= |lru| && (key in lru ==> |r| < |lru|)
  {
    if lru == [] then []
    else if lru[|lru| - 1] == key then lru[..|lru| - 1]
    else RemoveLast(lru[..|lru| - 1], key) + [lru[|lru| - 1]]
  }

  // ----- The list and the map in step ------------------------------------------------

  lemma QueueOfExt(lru: seq<string>, a: map<string, Entry>, b: map<string, Entry>)
    requires forall k :: k in lru ==> (k in a <==> k in b) && (k in a ==> a[k] == b[k])
    ensures QueueOf(lru, a) == QueueOf(lru, b)
  {
    if lru != [] {
      assert forall k :: k in lru[..|lru| - 1] ==> k in lru;
      QueueOfExt(lru[..|lru| - 1], a, b);
    }
  }

  lemma {:induction false} QueueOfAt(lru: seq<string>, entries: map<string, Entry>)
    requires forall k :: k in lru ==> k in entries && entries[k].meta.key == k && entries[k].meta.size >= 0
    ensures |QueueOf(lru, entries)| == |lru|
    ensures forall i :: 0 <= i < |lru| ==> QueueOf(lru, entries)[i] == entries[lru[i]]
  {
    if lru != [] {
      var init := lru[..|lru| - 1];
      assert forall k :: k in init ==> k in lru;
      QueueOfAt(init, entries);
    }
  }

  lemma {:induction false} RemoveLastIsWithout(lru: seq<string>, entries: map<string, Entry>, key: string)
    requires NoDup(lru) && key in lru
    requires forall k :: k in lru ==> k in entries && entries[k].meta.key == k
    ensures QueueOf(RemoveLast(lru, key), entries - {key}) == Without(QueueOf(lru, entries), key)
    ensures NoDup(RemoveLast(lru, key))
    ensures forall k :: k in RemoveLast(lru, key) <==> k in lru && k != key
  {
    var n := |lru| - 1;
    var init, last := lru[..n], lru[n];
    NoDupInit(lru);
    assert lru == init + [last];
    var rest := Without(QueueOf(init, entries), key);
    if last == key {
      QueueOfExt(init, entries, entries - {key});
      KeysOfQueue(init, entries);
      WithoutAbsent(QueueOf(init, entries), key);
      assert rest + [] == rest;
    } else {
      RemoveLastIsWithout(init, entries, key);
      NoDupPush(RemoveLast(init, key), last);
      var r := RemoveLast(lru, key);
      assert r[..|r| - 1] == RemoveLast(init, key);
      assert (QueueOf(init, entries) + [entries[last]])[..|QueueOf(init, entries)|] == QueueOf(init, entries);
    }
  }

  lemma KeysOfQueue(lru: seq<string>, entries: map<string, Entry>)
    requires forall k :: k in lru ==> k in entries && entries[k].meta.key == k
    ensures Keys(QueueOf(lru, entries)) == lru
  {
    if lru != [] {
      assert forall k :: k in lru[..|lru| - 1] ==> k in lru;
      KeysOfQueue(lru[..|lru| - 1], entries);
      InitKeeps(QueueOf(lru, entries));
    }
  }

  lemma NoDupInit<T>(s: seq<T>)
    requires NoDup(s) && s != []
    ensures NoDup(s[..|s| - 1]) && s[|s| - 1] !in s[..|s| - 1]
  {
    var n := |s| - 1;
    forall i: nat, j: nat | i < j < n ensures Differ(s[..n], i, j) { assert Differ(s, i, j); }
    forall i: nat | i < n ensures s[..n][i] != s[n] { assert Differ(s, i, n); }
  }

  lemma NoDupPush<T>(s: seq<T>, x: T)
    requires NoDup(s) && x !in s
    ensures NoDup(s + [x])
  {
    forall i: nat, j: nat | i < j <= |s| ensures Differ(s + [x], i, j) {
      if j < |s| {
        assert Differ(s, i, j);
      }
    }
  }

  /** The queue of a consistent store lists the mapped entries, keys in the list's order. */
  lemma AgreesQueue(lru: seq<string>, entries: map<string, Entry>, bytes: int)
    requires Agrees(lru, entries, bytes)
    ensures |QueueOf(lru, entries)| == |lru| && Keys(QueueOf(lru, entries)) == lru
    ensures Sized(QueueOf(lru, entries))
  {
    assert forall k :: k in lru ==> Filed(lru, entries, k);
    QueueOfAt(lru, entries);
    KeysOfQueue(lru, entries);
  }

  lemma AgreesMember(lru: seq<string>, entries: map<string, Entry>, bytes: int)
    requires Agrees(lru, entries, bytes)
    ensures forall e :: e in QueueOf(lru, entries) ==> e.meta.key in entries && entries[e.meta.key] == e
    ensures forall k :: k in entries ==> entries[k] in QueueOf(lru, entries)
  {
    assert forall k :: k in lru ==> Filed(lru, entries, k);
    QueueOfAt(lru, entries);
    forall k | k in entries ensures entries[k] in QueueOf(lru, entries) {
      assert Filed(lru, entries, k);
      var i :| 0 <= i < |lru| && lru[i] == k;
      assert QueueOf(lru, entries)[i] == entries[k];
    }
  }

  lemma AgreesAt(lru: seq<string>, entries: map<string, Entry>, bytes: int, key: string)
    requires Agrees(lru, entries, bytes) && key in entries
    ensures entries[key].meta.key == key && entries[key].meta.size >= 0 && key in lru
    ensures entries[key] in QueueOf(lru, entries)
  {
    assert Filed(lru, entries, key);
    AgreesMember(lru, entries, bytes);
  }

  /** Removing one entry from all three keeps them in agreement. */
  lemma RemoveAgrees(lru: seq<string>, entries: map<string, Entry>, bytes: int, key: string)
    requires Agrees(lru, entries, bytes) && key in entries
    ensures Agrees(RemoveLast(lru, key), entries - {key}, bytes - entries[key].meta.size)
    ensures bytes - entries[key].meta.size >= 0
    ensures QueueOf(RemoveLast(lru, key), entries - {key}) == Without(QueueOf(lru, entries), key)
  {
    AgreesQueue(lru, entries, bytes);
    AgreesAt(lru, entries, bytes, key);
    assert forall k :: k in lru ==> Filed(lru, entries, k);
    RemoveLastIsWithout(lru, entries, key);
    WithoutSize(QueueOf(lru, entries), entries[key]);
    var l, es := RemoveLast(lru, key), entries - {key};
    forall k ensures Filed(l, es, k) { assert Filed(lru, entries, k); }
  }

  lemma WithoutSize(q: seq<Entry>, e: Entry)
    requires Sized(q) && NoDup(Keys(q)) && e in q
    ensures Total(Without(q, e.meta.key)) == Total(q) - e.meta.size >= 0
  {
    WithoutTotal(q, e);
    FilterTotal(q, (x: Entry) => x.meta.key != e.meta.key);
  }

  lemma {:induction false} OnlyOne(q: seq<Entry>, e: Entry)
    requires NoDup(Keys(q)) && e in q
    ensures Named(q, e.meta.key) == [e]
  {
    var init, last := q[..|q| - 1], q[|q| - 1];
    InitKeeps(q);
    LastKeyNew(q);
    if last.meta.key == e.meta.key {
      SameKeySameEntry(q, last, e);
      NamedAbsent(init, e.meta.key);
    } else {
      OnlyOne(init, e);
    }
  }

  lemma NamedAbsent(q: seq<Entry>, key: string)
    requires key !in Keys(q)
    ensures Named(q, key) == []
  {
    FilterMember(q, (x: Entry) => x.meta.key == key);
    if Named(q, key) != [] {
      KeyIn(q, Named(q, key)[0]);
    }
  }

  lemma WithoutFront(q: seq<Entry>)
    requires q != [] && NoDup(Keys(q))
    ensures Without(q, q[0].meta.key) == q[1..]
  {
    if |q| == 1 {
      assert q[..0] == [];
      assert Without([], q[0].meta.key) + [] == [];
    } else {
      var init, last := q[..|q| - 1], q[|q| - 1];
      InitKeeps(q);
      LastKeyNew(q);
      KeyIn(init, init[0]);
      WithoutFront(init);
      assert init[1..] + [last] == q[1..];
    }
  }

  // ----- Loading a directory ---------------------------------------------------------

  /** `entries[entry.Key] = entry` for each entry in order: a repeated key keeps the last. */
  function LastWins(q: seq<Entry>): map<string, Entry> {
    if q == [] then map[] else LastWins(q[..|q| - 1])[q[|q| - 1].meta.key := q[|q| - 1]]
  }

  lemma {:induction false} LoadedQueue(q: seq<Entry>)
    requires NoDup(Keys(q))
    ensures QueueOf(Keys(q), LastWins(q)) == q
    ensures forall k :: k in Keys(q) <==> k in LastWins(q)
    ensures forall k :: k in LastWins(q) ==> LastWins(q)[k].meta.key == k && LastWins(q)[k] in q
  {
    if q != [] {
      var init, last := q[..|q| - 1], q[|q| - 1];
      InitKeeps(q);
      LastKeyNew(q);
      LoadedQueue(init);
      QueueOfExt(Keys(init), LastWins(init), LastWins(q));
    }
  }

  /** Loading yields a consistent store exactly when no key is named by two metadata files. */
  lemma LoadAgreesIffKeysDistinct(q: seq<Entry>)
    requires Sized(q)
    ensures Agrees(Keys(q), LastWins(q), Total(q)) <==> NoDup(Keys(q))
  {
    if NoDup(Keys(q)) {
      LoadedQueue(q);
      var l, es := Keys(q), LastWins(q);
      forall k ensures Filed(l, es, k) {}
    }
  }

  lemma {:induction false} LastWinsKeyed(q: seq<Entry>)
    ensures forall k :: k in LastWins(q) ==> LastWins(q)[k].meta.key == k
  {
    if q != [] {
      LastWinsKeyed(q[..|q| - 1]);
    }
  }

  /** Two files naming one key: the counter counts both, the map holds the later one. */
  lemma DuplicateKeyOvercounts(a: Entry, b: Entry)
    requires a.meta.key == b.meta.key && a.meta.size > 0 && b.meta.size >= 0
    ensures !Agrees(Keys([a, b]), LastWins([a, b]), Total([a, b]))
    ensures LastWins([a, b]) == map[b.meta.key := b] && Total([a, b]) == a.meta.size + b.meta.size > b.meta.size
  {
    assert [a, b][..1] == [a] && [a][..0] == [];
    assert LastWins([a]) == map[a.meta.key := a];
    TotalConcat([a], [b]);
    TotalHead([a]);
    TotalHead([b]);
    assert [a] + [b] == [a, b];
    assert !Differ(Keys([a, b]), 0, 1);
  }

  method SortByAccess(q: seq<Entry>) returns (r: seq<Entry>)
    ensures Recent(r) && multiset(r) == multiset(q)
  {
    r := [];
    for n := 0 to |q|
      invariant Recent(r) && multiset(r) == multiset(q[..n])
    {
      assert q[..n + 1] == q[..n] + [q[n]];
      r := InsertByAccess(r, q[n]);
    }
    assert q[..|q|] == q;
  }

  method InsertByAccess(r: seq<Entry>, e: Entry) returns (s: seq<Entry>)
    requires Recent(r)
    ensures Recent(s) && multiset(s) == multiset(r) + multiset{e}
  {
    var i := |r|;
    while i > 0 && e.meta.accessedAt < r[i - 1].meta.accessedAt
      invariant 0 <= i <= |r|
      invariant i < |r| ==> e.meta.accessedAt < r[i].meta.accessedAt
    {
      i := i - 1;
    }
    InsertRecent(r, i, e);
    s := r[..i] + [e] + r[i..];
    assert r == r[..i] + r[i..];
  }

  lemma InsertRecent(r: seq<Entry>, i: nat, e: Entry)
    requires Recent(r) && i <= |r|
    requires i > 0 ==> r[i - 1].meta.accessedAt <= e.meta.accessedAt
    requires i < |r| ==> e.meta.accessedAt < r[i].meta.accessedAt
    ensures Recent(r[..i] + [e] + r[i..])
  {
    var s := r[..i] + [e] + r[i..];
    forall a: nat, b: nat | a < b < |s| ensures NoLater(s, a, b) {
      if b == i {
        assert a < i - 1 ==> NoLater(r, a, i - 1);
      } else if a == i {
        assert i < b - 1 ==> NoLater(r, i, b - 1);
      } else {
        assert NoLater(r, if a < i then a else a - 1, if b < i then b else b - 1);
      }
    }
  }

  // The metadata, the bodies and the entries once the files in `done` have been looked at.

  function MetasLeft(d: Disk, dir: string, now: int, done: set<Path>): map<Path, MetaFile> {
    map p | p in d.metas && (p in done ==> Loadable(d, p, dir, now)) :: d.metas[p]
  }

  predicate Outdated(d: Disk, p: Path, now: int) {
    p in d.metas && d.metas[p].Readable? && d.metas[p].meta.expiresAt <= now
  }

  function BodiesLeft(d: Disk, now: int, done: set<Path>): map<Path, string> {
    map p | p in d.bodies && !(p in done && Outdated(d, p, now)) :: d.bodies[p]
  }

  function Loaded(d: Disk, dir: string, now: int, done: set<Path>): set<Entry> {
    set p | p in done && Loadable(d, p, dir, now) :: Entry(d.metas[p].meta, p)
  }

  lemma ReadOne(d: Disk, dir: string, now: int, done: set<Path>, p: Path)
    requires p in d.metas && p !in done && p.dir == dir
    ensures MetasLeft(d, dir, now, done + {p}) ==
            if Loadable(d, p, dir, now) then MetasLeft(d, dir, now, done) else MetasLeft(d, dir, now, done) - {p}
    ensures BodiesLeft(d, now, done + {p}) ==
            if Outdated(d, p, now) then BodiesLeft(d, now, done) - {p} else BodiesLeft(d, now, done)
    ensures Loaded(d, dir, now, done + {p}) ==
            if Loadable(d, p, dir, now) then Loaded(d, dir, now, done) + {Entry(d.metas[p].meta, p)}
            else Loaded(d, dir, now, done)
    ensures Loadable(d, p, dir, now) ==> Entry(d.metas[p].meta, p) !in Loaded(d, dir, now, done)
    ensures p in MetasLeft(d, dir, now, done) && MetasLeft(d, dir, now, done)[p] == d.metas[p]
    ensures p in BodiesLeft(d, now, done) <==> p in d.bodies
  {
  }

  lemma ReadAll(d: Disk, dir: string, now: int, done: set<Path>)
    requires done == set p | p in d.metas && p.dir == dir
    ensures Disk(MetasLeft(d, dir, now, done), BodiesLeft(d, now, done)) == Cleaned(d, dir, now)
    ensures Loaded(d, dir, now, done) == LoadSet(d, dir, now)
  {
  }

  /** Reads every metadata file of the directory, removing the ones that cannot be used. */
  method ReadDirectory(d: Disk, dir: string, now: int) returns (loaded: seq<Entry>, cleaned: Disk)
    ensures multiset(loaded) == multiset(LoadSet(d, dir, now))
    ensures cleaned == Cleaned(d, dir, now)
  {
    loaded, cleaned := [], d;
    ghost var all := set p | p in d.metas && p.dir == dir;
    var todo := set p | p in d.metas && p.dir == dir;
    while todo != {}
      invariant todo <= all
      invariant cleaned == Disk(MetasLeft(d, dir, now, all - todo), BodiesLeft(d, now, all - todo))
      invariant multiset(loaded) == multiset(Loaded(d, dir, now, all - todo))
      decreases todo
    {
      var p :| p in todo;
      ReadOne(d, dir, now, all - todo, p);
      assert all - (todo - {p}) == all - todo + {p};
      todo := todo - {p};
      match cleaned.metas[p] {
        case Unreadable =>
          cleaned := cleaned.(metas := cleaned.metas - {p});
        case Readable(meta) =>
          if meta.expiresAt <= now {
            cleaned := Erase(cleaned, {p});
          } else if p !in cleaned.bodies {
            cleaned := cleaned.(metas := cleaned.metas - {p});
          } else {
            loaded := loaded + [Entry(meta, p)];
          }
      }
    }
    assert all - {} == all;
    ReadAll(d, dir, now, all);
  }

  lemma OneMoreGoes(q: seq<Entry>, n: nat, budget: int)
    requires n < |q| && Total(q[n..]) > budget
    ensures Trim(q[n..], budget) == Trim(q[n + 1..], budget)
  {
    assert q[n..][1..] == q[n + 1..];
  }

  lemma LimitReached(q: seq<Entry>, n: nat, budget: int)
    requires n <= |q| && Trim(q, budget) == Trim(q[n..], budget) && (n == |q| || Total(q[n..]) <= budget)
    ensures Trim(q, budget) == q[n..] && Trimmed(q, budget) == q[..n]
  {
  }

  function Normalized(cfg: Config): Config {
    var dir := Text.Trim(cfg.dir);
    Config(cfg.enabled, if dir == "" then DEFAULT_STORE_DIR else dir,
           if cfg.maxBytes == 0 then DEFAULT_MAX_BYTES else cfg.maxBytes)
  }

  function PathsFor(entries: map<string, Entry>, keys: set<string>): set<Path> {
    set k | k in keys && k in entries :: entries[k].path
  }

  lemma PathsForStep(entries: map<string, Entry>, todo: set<string>, key: string)
    requires key in todo && todo <= entries.Keys
    ensures PathsFor(entries, entries.Keys - (todo - {key})) ==
            PathsFor(entries, entries.Keys - todo) + {entries[key].path}
  {
  }

  // ----- The store -------------------------------------------------------------------

  class Store {
    const hash: string -> string
    var enabled: bool
    var dir: string
    var maxBytes: int
    var currentBytes: int
    var entries: map<string, Entry>
    var lru: seq<string>
    var disk: Disk
    var hits: nat
    var misses: nat
    var stores: nat
    var evictions: nat
    var clears: nat

    ghost predicate Valid()
      reads this`lru, this`entries, this`currentBytes, this`enabled, this`maxBytes
    {
      Agrees(lru, entries, currentBytes) && (enabled ==> maxBytes > 0)
    }

    ghost function Queue(): seq<Entry>
      reads this`lru, this`entries
    {
      QueueOf(lru, entries)
    }

    ghost function Abs(): View
      reads this
    {
      View(Config(enabled, dir, maxBytes), Queue(), disk, Stats(hits, misses, stores, evictions, clears))
    }

    /** The zero store over a given file system, before its first Reconfigure. */
    constructor (hash: string -> string, disk: Disk)
      ensures Valid() && this.hash == hash
      ensures Abs() == View(Config(false, "", 0), [], disk, Stats(0, 0, 0, 0, 0))
    {
      this.hash, this.disk := hash, disk;
      enabled, dir, maxBytes, currentBytes, entries, lru := false, "", 0, 0, map[], [];
      hits, misses, stores, evictions, clears := 0, 0, 0, 0, 0;
    }

    predicate Holds(entry: Entry)
      reads this`entries
    {
      entry.meta.key in entries && entries[entry.meta.key] == entry
    }

    /** Takes one entry out of the map, the list, the counter and the directory. The clamp at
        zero never fires on a consistent store. */
    method RemoveEntry(entry: Entry)
      modifies this`entries, this`lru, this`currentBytes, this`disk
      ensures lru == RemoveLast(old(lru), entry.meta.key) && entries == old(entries) - {entry.meta.key}
      ensures disk == Erase(old(disk), {entry.path})
      ensures old(Agrees(lru, entries, currentBytes) && Holds(entry)) ==>
                Agrees(lru, entries, currentBytes) && Queue() == Without(old(Queue()), entry.meta.key) &&
                currentBytes == old(currentBytes) - entry.meta.size
    {
      var key := entry.meta.key;
      if Agrees(lru, entries, currentBytes) && Holds(entry) {
        RemoveAgrees(lru, entries, currentBytes, key);
      }
      entries := entries - {key};
      lru := RemoveLast(lru, key);
      currentBytes := currentBytes - entry.meta.size;
      if currentBytes < 0 {
        currentBytes := 0;
      }
      disk := Erase(disk, {entry.path});
    }

    /** Every entry is filed under its own key, also in a store loaded from clashing files. */
    ghost predicate Keyed()
      reads this`entries
    {
      forall k :: k in entries ==> entries[k].meta.key == k
    }

    /** Pops least recently used entries until `additional` more bytes fit. */
    method EnforceLimit(additional: nat)
      requires Keyed()
      modifies this`entries, this`lru, this`currentBytes, this`disk, this`evictions
      ensures old(Valid()) ==> Valid() && Abs() == LimitView(old(Abs()), additional)
    {
      if maxBytes <= 0 {
        return;
      }
      ghost var consistent, v := Agrees(lru, entries, currentBytes), Abs();
      PopNone(disk, v.queue);
      ghost var n := PopUntilFits(v, additional, consistent);
      if consistent {
        LimitReached(v.queue, n, maxBytes - additional);
      }
    }

    method PopUntilFits(ghost v: View, additional: nat, ghost consistent: bool) returns (ghost n: nat)
      requires Keyed() && (consistent ==> Popped(v, 0))
      modifies this`entries, this`lru, this`currentBytes, this`disk, this`evictions
      ensures consistent ==>
                Popped(v, n) && Trim(v.queue, maxBytes - additional) == Trim(v.queue[n..], maxBytes - additional) &&
                (n == |v.queue| || Total(v.queue[n..]) <= maxBytes - additional)
    {
      n := 0;
      ghost var budget := maxBytes - additional;
      while currentBytes + additional > maxBytes && |lru| > 0
        invariant Keyed()
        invariant consistent ==> Popped(v, n) && Trim(v.queue, budget) == Trim(v.queue[n..], budget)
        decreases |lru|
      {
        if consistent {
          AgreesQueue(lru, entries, currentBytes);
          OneMoreGoes(v.queue, n, budget);
        }
        EvictFront(v, n, consistent);
        n := n + 1;
      }
      if consistent {
        AgreesQueue(lru, entries, currentBytes);
      }
    }

    /** The first `n` entries of the queue of `v` have been evicted. */
    ghost predicate Popped(v: View, n: nat)
      reads this
    {
      Agrees(lru, entries, currentBytes) && n <= |v.queue| && Queue() == v.queue[n..] &&
      disk == Erase(v.disk, PathsOf(v.queue[..n])) && evictions == v.stats.evictions + n
    }

    /** One round of the eviction loop; a list key without an entry is just dropped. */
    method EvictFront(ghost v: View, ghost n: nat, ghost consistent: bool)
      requires Keyed() && lru != [] && (consistent ==> Popped(v, n))
      modifies this`entries, this`lru, this`currentBytes, this`disk, this`evictions
      ensures Keyed() && |lru| < |old(lru)| && (consistent ==> Popped(v, n + 1))
    {
      var key := lru[0];
      if consistent {
        FrontOfQueue(lru, entries, currentBytes);
        assert v.queue[n..][1..] == v.queue[n + 1..];
        PathsPush(v.queue, n);
        EraseTwice(v.disk, PathsOf(v.queue[..n]), {v.queue[n].path});
      }
      if key !in entries {
        lru := lru[1..];
      } else {
        RemoveEntry(entries[key]);
        evictions := evictions + 1;
      }
    }

    method EvictExpired(now: int)
      requires Valid()
      modifies this`entries, this`lru, this`currentBytes, this`disk, this`evictions
      ensures Valid() && Abs() == AgeView(old(Abs()), now)
    {
      Sweep(now);
    }

    /** Walks the map in any order and removes what has expired. */
    method Sweep(now: int)
      requires Valid()
      modifies this`entries, this`lru, this`currentBytes, this`disk, this`evictions
      ensures Valid() && Queue() == Live(old(Queue()), now)
      ensures disk == Erase(old(disk), PathsOf(Expired(old(Queue()), now)))
      ensures evictions == old(evictions) + |Expired(old(Queue()), now)|
    {
      ghost var q := Queue();
      var todo := entries.Keys;
      AgreesQueue(lru, entries, currentBytes);
      AgreesMember(lru, entries, currentBytes);
      SweepStart(q, todo, now);
      EraseNone(disk);
      while todo != {}
        invariant Valid() && todo <= entries.Keys
        invariant Queue() == Unswept(q, todo, now)
        invariant disk == Erase(old(disk), PathsOf(Swept(q, todo, now)))
        invariant evictions == old(evictions) + |q| - |Queue()|
        decreases todo
      {
        var key :| key in todo;
        AgreesAt(lru, entries, currentBytes, key);
        SweepStep(q, todo, entries[key], now);
        EraseTwice(old(disk), PathsOf(Swept(q, todo, now)), {entries[key].path});
        EvictIfExpired(key, now);
        todo := todo - {key};
      }
      SweepEnd(q, now);
    }

    method EvictIfExpired(key: string, now: int)
      requires Valid() && key in entries
      modifies this`entries, this`lru, this`currentBytes, this`disk, this`evictions
      ensures Valid()
      ensures
        var entry := old(entries[key]);
        if entry.meta.expiresAt <= now then
          entries == old(entries) - {key} && Queue() == Without(old(Queue()), key) &&
          disk == Erase(old(disk), {entry.path}) && evictions - old(evictions) == |old(Queue())| - |Queue()|
        else
          entries == old(entries) && Queue() == old(Queue()) && disk == old(disk) && evictions == old(evictions)
    {
      var entry := entries[key];
      AgreesAt(lru, entries, currentBytes, key);
      AgreesQueue(lru, entries, currentBytes);
      if entry.meta.expiresAt <= now {
        WithoutLength(Queue(), entry);
        RemoveEntry(entry);
        evictions := evictions + 1;
      }
    }

    method Lookup(key: string, now: int) returns (hit: Option<Entry>)
      requires Valid()
      modifies this
      ensures Valid()
      ensures Abs() == LookupView(old(Abs()), key, now).0
      ensures hit == LookupView(old(Abs()), key, now).1
    {
      LookupIsMap(lru, entries, currentBytes, key);
      if !enabled {
        return None;
      }
      if key !in entries {
        misses := misses + 1;
        return None;
      }
      var entry := entries[key];
      if entry.meta.expiresAt <= now {
        Miss(entry);
        return None;
      } else if entry.path !in disk.bodies {
        Miss(entry);
        return None;
      }
      entry := entry.(meta := entry.meta.(accessedAt := now));
      Touch(entry);
      hits := hits + 1;
      return Some(entry);
    }

    /** An entry that is expired or has lost its body leaves, and the lookup misses. */
    method Miss(entry: Entry)
      requires Valid() && Holds(entry)
      modifies this`entries, this`lru, this`currentBytes, this`disk, this`misses
      ensures Valid() && misses == old(misses) + 1
      ensures Queue() == Without(old(Queue()), entry.meta.key) && disk == Erase(old(disk), {entry.path})
    {
      RemoveEntry(entry);
      misses := misses + 1;
    }

    /** Refreshes an entry and moves its element to the back of the list. */
    method Touch(entry: Entry)
      requires Valid() && entry.meta.key in entries && entry.meta.size == entries[entry.meta.key].meta.size
      modifies this`entries, this`lru
      ensures Valid() && Queue() == Without(old(Queue()), entry.meta.key) + [entry]
    {
      TouchAgrees(lru, entries, currentBytes, entry);
      entries := entries[entry.meta.key := entry];
      lru := RemoveLast(lru, entry.meta.key) + [entry.meta.key];
    }

    /** removeByKey */
    method Drop(key: string)
      requires Valid()
      modifies this
      ensures Valid() && Abs() == DropView(old(Abs()), key)
    {
      LookupIsMap(lru, entries, currentBytes, key);
      if key in entries {
        RemoveEntry(entries[key]);
      }
    }

    /** Returns whether the source returns no error. */
    method Put(key: string, ttl: int, status: int, header: Header, bodyPath: string, body: string,
               size: nat, now: int, outcome: WriteOutcome)
      returns (ok: bool)
      requires Valid()
      modifies this
      ensures Valid()
      ensures Abs() == StoreView(old(Abs()), hash, key, ttl, status, header, !Text.Blank(bodyPath), body,
                                 size, now, outcome)
      ensures ok <==> outcome.Written? || !Stores(old(Abs()), !Text.Blank(bodyPath), ttl, size)
    {
      if Text.Blank(bodyPath) || ttl <= 0 {
        return true;
      }
      if !enabled {
        return true;
      }
      if maxBytes > 0 && size > maxBytes {
        return true;
      }
      MakeRoom(key, size, now);
      ok := Write(Entry(NewMeta(key, ttl, status, header, size, now), Path(dir, hash(key))), body, outcome);
    }

    /** Store's second half: move the body, write the metadata, enter the entry. */
    method Write(entry: Entry, body: string, outcome: WriteOutcome) returns (ok: bool)
      requires Valid() && entry.meta.key !in entries && entry.meta.size >= 0
      modifies this`entries, this`lru, this`currentBytes, this`disk, this`stores
      ensures Valid() && Abs() == WriteView(old(Abs()), entry, body, outcome)
      ensures ok <==> outcome.Written?
    {
      match outcome {
        case MoveFailed(left) =>
          if left.Some? {
            disk := Disk(disk.metas, disk.bodies[entry.path := left.value]);
          }
          return false;
        case MetaFailed =>
          disk := Disk(disk.metas, disk.bodies - {entry.path});
          return false;
        case Written =>
          disk := Disk(disk.metas[entry.path := Readable(entry.meta)], disk.bodies[entry.path := body]);
          PushAgrees(lru, entries, currentBytes, entry);
          lru := lru + [entry.meta.key];
          entries := entries[entry.meta.key := entry];
          currentBytes := currentBytes + entry.meta.size;
          stores := stores + 1;
          return true;
      }
    }

    /** Store's first half: the old entry of the key, the expired and the least recent leave. */
    method MakeRoom(key: string, size: nat, now: int)
      requires Valid()
      modifies this
      ensures Valid() && Abs() == RoomView(old(Abs()), key, size, now) && key !in entries
    {
      Drop(key);
      EvictExpired(now);
      AllKeyed(lru, entries, currentBytes);
      EnforceLimit(size);
      RoomLacks(old(Abs()), key, size, now);
      AgreesQueue(lru, entries, currentBytes);
      assert Filed(lru, entries, key);
    }

    method Clear() returns (clearedEntries: nat, clearedBytes: int)
      requires Valid()
      modifies this
      ensures Valid() && Abs() == ClearView(old(Abs()))
      ensures clearedEntries == |old(Queue())| && clearedBytes == Total(old(Queue()))
    {
      clearedEntries, clearedBytes := |entries|, currentBytes;
      SizeOfQueue(lru, entries, currentBytes);
      Empty();
    }

    method Empty()
      requires Valid()
      modifies this
      ensures Valid() && Abs() == ClearView(old(Abs()))
    {
      RemoveFiles();
      Forget();
      clears := clears + 1;
    }

    method RemoveFiles()
      requires Valid()
      modifies this`disk
      ensures disk == Erase(old(disk), PathsOf(QueueOf(lru, entries)))
    {
      var todo := entries.Keys;
      EraseNone(disk);
      assert PathsFor(entries, entries.Keys - todo) == {};
      while todo != {}
        invariant todo <= entries.Keys
        invariant disk == Erase(old(disk), PathsFor(entries, entries.Keys - todo))
        decreases todo
      {
        var key :| key in todo;
        PathsForStep(entries, todo, key);
        EraseTwice(old(disk), PathsFor(entries, entries.Keys - todo), {entries[key].path});
        disk := Erase(disk, {entries[key].path});
        todo := todo - {key};
      }
      AllPaths(lru, entries, currentBytes);
      assert entries.Keys - {} == entries.Keys;
    }

    method Forget()
      modifies this`entries, this`lru, this`currentBytes
      ensures Agrees(lru, entries, currentBytes) && lru == [] && QueueOf(lru, entries) == []
    {
      entries, lru, currentBytes := map[], [], 0;
      EmptyAgrees();
    }

    /** Fails, changing nothing, on a negative size limit or when the directory cannot be made.
        `order` is the order the reload sorted the directory's entries into. */
    method Reconfigure(raw: Config, now: int, mkdirOk: bool) returns (ok: bool, ghost order: seq<Entry>)
      modifies this
      ensures ok <==> raw.maxBytes >= 0 && (raw.enabled ==> mkdirOk)
      ensures !ok ==> Abs() == old(Abs()) && (old(Valid()) ==> Valid())
      ensures ok && raw.enabled ==> IsLoadOrder(order, old(disk), Normalized(raw).dir, now)
      ensures ok && (raw.enabled ==> Sized(order) && NoDup(Keys(order))) ==>
                Valid() && Abs() == ReconfigureView(old(Abs()), Normalized(raw), now, order)
      ensures ok ==>
                enabled == raw.enabled && dir == (if Text.Blank(raw.dir) then "logs/coraza/cache" else Text.Trim(raw.dir)) &&
                maxBytes == if raw.maxBytes == 0 then 0x8000_0000 else raw.maxBytes
    {
      var cfg := Normalized(raw);
      order := [];
      if cfg.maxBytes < 0 || (cfg.enabled && !mkdirOk) {
        return false, order;
      }
      ok := true;
      if !cfg.enabled {
        enabled, dir, maxBytes := false, cfg.dir, cfg.maxBytes;
        Forget();
        return;
      }
      order := LoadFrom(cfg, now);
      EnforceLimit(0);
    }

    /** Replaces the map, the list and the counter by what the directory holds. */
    method LoadFrom(cfg: Config, now: int) returns (order: seq<Entry>)
      requires cfg.enabled && cfg.maxBytes > 0
      modifies this`enabled, this`dir, this`maxBytes, this`entries, this`lru, this`currentBytes, this`disk
      ensures Keyed() && IsLoadOrder(order, old(disk), cfg.dir, now)
      ensures Sized(order) ==> (Valid() <==> NoDup(Keys(order)))
      ensures enabled && dir == cfg.dir && maxBytes == cfg.maxBytes
      ensures disk == Cleaned(old(disk), cfg.dir, now) && (NoDup(Keys(order)) ==> Queue() == order)
    {
      var loaded, cleaned := ReadDirectory(disk, cfg.dir, now);
      order := SortByAccess(loaded);
      var newEntries, newLru, bytes := Index(order);
      disk, enabled, dir, maxBytes := cleaned, true, cfg.dir, cfg.maxBytes;
      entries, currentBytes, lru := newEntries, bytes, newLru;
      LastWinsKeyed(order);
      if Sized(order) {
        LoadAgreesIffKeysDistinct(order);
      }
      if NoDup(Keys(order)) {
        LoadedQueue(order);
      }
    }
  }

  /** Pushes every loaded entry: the list names them all, the map keeps the last of each key. */
  method Index(order: seq<Entry>) returns (entries: map<string, Entry>, lru: seq<string>, bytes: int)
    ensures lru == Keys(order) && entries == LastWins(order) && bytes == Total(order)
  {
    entries, lru, bytes := map[], [], 0;
    for i := 0 to |order|
      invariant lru == Keys(order[..i]) && entries == LastWins(order[..i])
      invariant bytes == Total(order[..i])
    {
      assert order[..i + 1] == order[..i] + [order[i]];
      assert order[..i + 1][..i] == order[..i];
      lru := lru + [order[i].meta.key];
      entries := entries[order[i].meta.key := order[i]];
      bytes := bytes + order[i].meta.size;
    }
    assert order[..|order|] == order;
  }

  // ----- Facts the methods use -------------------------------------------------------

  lemma PopNone(d: Disk, q: seq<Entry>)
    ensures q[0..] == q && Erase(d, PathsOf(q[..0])) == d
  {
    EraseNone(d);
    assert PathsOf(q[..0]) == {};
  }

  lemma FrontOfQueue(lru: seq<string>, entries: map<string, Entry>, bytes: int)
    requires Agrees(lru, entries, bytes) && lru != []
    ensures
      var q := QueueOf(lru, entries);
      q != [] && lru[0] in entries && entries[lru[0]] == q[0] && q[0].meta.key == lru[0] &&
      Without(q, lru[0]) == q[1..]
  {
    AgreesQueue(lru, entries, bytes);
    AgreesMember(lru, entries, bytes);
    var q := QueueOf(lru, entries);
    assert q[0] in q && Keys(q)[0] == lru[0];
    WithoutFront(q);
  }

  lemma PathsPush(q: seq<Entry>, n: nat)
    requires n < |q|
    ensures PathsOf(q[..n + 1]) == PathsOf(q[..n]) + {q[n].path}
  {
    assert q[..n + 1] == q[..n] + [q[n]];
  }

  function Unswept(q: seq<Entry>, todo: set<string>, now: int): seq<Entry> {
    Filter(q, (e: Entry) => e.meta.key in todo || e.meta.expiresAt > now)
  }

  function Swept(q: seq<Entry>, todo: set<string>, now: int): seq<Entry> {
    Filter(q, (e: Entry) => e.meta.key !in todo && e.meta.expiresAt <= now)
  }

  lemma SweepStart(q: seq<Entry>, todo: set<string>, now: int)
    requires forall e :: e in q ==> e.meta.key in todo
    ensures Unswept(q, todo, now) == q && PathsOf(Swept(q, todo, now)) == {}
  {
    FilterAll(q, (e: Entry) => e.meta.key in todo || e.meta.expiresAt > now);
    FilterMember(q, (e: Entry) => e.meta.key !in todo && e.meta.expiresAt <= now);
  }

  lemma SweepStep(q: seq<Entry>, todo: set<string>, entry: Entry, now: int)
    requires NoDup(Keys(q)) && entry.meta.key in todo && entry in Unswept(q, todo, now)
    ensures
      var left := todo - {entry.meta.key};
      if entry.meta.expiresAt <= now then
        Unswept(q, left, now) == Without(Unswept(q, todo, now), entry.meta.key) &&
        PathsOf(Swept(q, left, now)) == PathsOf(Swept(q, todo, now)) + {entry.path}
      else Unswept(q, left, now) == Unswept(q, todo, now) && Swept(q, left, now) == Swept(q, todo, now)
  {
    var left, key := todo - {entry.meta.key}, entry.meta.key;
    var keep, gone := (e: Entry) => e.meta.key in todo || e.meta.expiresAt > now,
                      (e: Entry) => e.meta.key !in todo && e.meta.expiresAt <= now;
    var keep', gone' := (e: Entry) => e.meta.key in left || e.meta.expiresAt > now,
                        (e: Entry) => e.meta.key !in left && e.meta.expiresAt <= now;
    FilterMember(q, keep);
    forall e | e in q && e.meta.key == key ensures e == entry { SameKeySameEntry(q, e, entry); }
    if entry.meta.expiresAt <= now {
      FilterFilter(q, keep, (e: Entry) => e.meta.key != key);
      FilterExt(q, (e: Entry) => keep(e) && ((x: Entry) => x.meta.key != key)(e), keep');
      FilterMember(q, gone);
      FilterMember(q, gone');
      assert forall e :: e in Filter(q, gone') <==> e in Filter(q, gone) || e == entry;
    } else {
      FilterExt(q, keep, keep');
      FilterExt(q, gone, gone');
    }
  }

  lemma SweepEnd(q: seq<Entry>, now: int)
    ensures Unswept(q, {}, now) == Live(q, now) && Swept(q, {}, now) == Expired(q, now)
    ensures |q| - |Live(q, now)| == |Expired(q, now)|
  {
    var none: set<string> := {};
    FilterExt(q, (e: Entry) => e.meta.key in none || e.meta.expiresAt > now, (e: Entry) => e.meta.expiresAt > now);
    FilterExt(q, (e: Entry) => e.meta.key !in none && e.meta.expiresAt <= now, (e: Entry) => e.meta.expiresAt <= now);
    var live := (e: Entry) => e.meta.expiresAt > now;
    FilterSplits(q, live);
    FilterExt(q, (e: Entry) => !live(e), (e: Entry) => e.meta.expiresAt <= now);
  }

  lemma WithoutLength(q: seq<Entry>, e: Entry)
    requires NoDup(Keys(q)) && e in q
    ensures |Without(q, e.meta.key)| == |q| - 1
  {
    var keep := (x: Entry) => x.meta.key != e.meta.key;
    FilterSplits(q, keep);
    FilterExt(q, (x: Entry) => !keep(x), (x: Entry) => x.meta.key == e.meta.key);
    OnlyOne(q, e);
  }

  lemma AllKeyed(lru: seq<string>, entries: map<string, Entry>, bytes: int)
    requires Agrees(lru, entries, bytes)
    ensures forall k :: k in entries ==> entries[k].meta.key == k
  {
    assert forall k :: k in entries ==> Filed(lru, entries, k);
  }

  lemma RoomLacks(v: View, key: string, size: nat, now: int)
    ensures key !in Keys(RoomView(v, key, size, now).queue)
  {
    var q := DropView(v, key).queue;
    LookupFinds(v.queue, key);
    assert key !in Keys(q) by {
      if Lookup(v.queue, key).Some? {
        FilterMember(v.queue, (e: Entry) => e.meta.key != key);
        forall i | 0 <= i < |q| ensures Keys(q)[i] != key { assert q[i] in q; }
      }
    }
    FilterKeys(q, (e: Entry) => e.meta.expiresAt > now);
    TrimKeys(Live(q, now), v.cfg.maxBytes - size);
  }

  /** Finding a key in the map is finding it in the list. */
  lemma LookupIsMap(lru: seq<string>, entries: map<string, Entry>, bytes: int, key: string)
    requires Agrees(lru, entries, bytes)
    ensures CacheSpec.Lookup(QueueOf(lru, entries), key) == if key in entries then Some(entries[key]) else None
    ensures key in entries ==> entries[key].meta.key == key
  {
    AgreesQueue(lru, entries, bytes);
    assert Filed(lru, entries, key);
    LookupFinds(QueueOf(lru, entries), key);
    if key in entries {
      AgreesAt(lru, entries, bytes, key);
      LookupUnique(QueueOf(lru, entries), entries[key]);
    }
  }

  lemma TouchAgrees(lru: seq<string>, entries: map<string, Entry>, bytes: int, hit: Entry)
    requires Agrees(lru, entries, bytes) && hit.meta.key in entries
    requires hit.meta.size == entries[hit.meta.key].meta.size
    ensures
      var touched := RemoveLast(lru, hit.meta.key) + [hit.meta.key];
      Agrees(touched, entries[hit.meta.key := hit], bytes) &&
      QueueOf(touched, entries[hit.meta.key := hit]) == Without(QueueOf(lru, entries), hit.meta.key) + [hit]
  {
    var key := hit.meta.key;
    var rest := entries - {key};
    assert rest[key := hit] == entries[key := hit];
    RemoveAgrees(lru, entries, bytes, key);
    assert hit.meta.size >= 0 by { AgreesAt(lru, entries, bytes, key); }
    PushAgrees(RemoveLast(lru, key), rest, bytes - hit.meta.size, hit);
  }

  lemma PushAgrees(lru: seq<string>, entries: map<string, Entry>, bytes: int, e: Entry)
    requires Agrees(lru, entries, bytes) && e.meta.key !in entries && e.meta.size >= 0
    ensures Agrees(lru + [e.meta.key], entries[e.meta.key := e], bytes + e.meta.size)
    ensures QueueOf(lru + [e.meta.key], entries[e.meta.key := e]) == QueueOf(lru, entries) + [e]
  {
    var key := e.meta.key;
    assert Filed(lru, entries, key);
    NoDupPush(lru, key);
    QueueOfExt(lru, entries, entries[key := e]);
    assert (lru + [key])[..|lru|] == lru;
    TotalConcat(QueueOf(lru, entries), [e]);
    assert [e][..0] == [];
    var l, es := lru + [key], entries[key := e];
    forall k ensures Filed(l, es, k) { assert Filed(lru, entries, k); }
  }

  lemma TrimKeys(q: seq<Entry>, budget: int)
    ensures forall k :: k in Keys(Trim(q, budget)) ==> k in Keys(q)
  {
    if q != [] && Total(q) > budget {
      TrimKeys(q[1..], budget);
      assert Keys(q) == [q[0].meta.key] + Keys(q[1..]);
    }
  }

  lemma EmptyAgrees()
    ensures Agrees([], map[], 0)
  {
    var l: seq<string>, es: map<string, Entry> := [], map[];
    forall k ensures Filed(l, es, k) {}
  }

  lemma AllPaths(lru: seq<string>, entries: map<string, Entry>, bytes: int)
    requires Agrees(lru, entries, bytes)
    ensures PathsFor(entries, entries.Keys) == PathsOf(QueueOf(lru, entries))
  {
    AgreesMember(lru, entries, bytes);
    var q := QueueOf(lru, entries);
    forall p | p in PathsOf(q) ensures p in PathsFor(entries, entries.Keys) {
      var e :| e in q && e.path == p;
      assert e.meta.key in entries;
    }
  }

  lemma SizeOfQueue(lru: seq<string>, entries: map<string, Entry>, bytes: int)
    requires Agrees(lru, entries, bytes)
    ensures |entries| == |QueueOf(lru, entries)|
  {
    AgreesQueue(lru, entries, bytes);
    assert forall k :: k in lru ==> Filed(lru, entries, k);
    assert forall k :: k in entries ==> Filed(lru, entries, k);
    MapSize(lru, entries.Keys);
  }

  lemma MapSize(lru: seq<string>, keys: set<string>)
    requires NoDup(lru) && forall k :: k in lru <==> k in keys
    ensures |keys| == |lru|
  {
    if lru == [] {
      assert keys == {};
    } else {
      NoDupInit(lru);
      assert lru == lru[..|lru| - 1] + [lru[|lru| - 1]];
      MapSize(lru[..|lru| - 1], keys - {lru[|lru| - 1]});
    }
  }
}
