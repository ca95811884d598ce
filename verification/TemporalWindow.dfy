// The temporal risk window: per client address, the recent observations, compacted in place in the
// array that holds them, and the counts drawn from them. Times are in nanoseconds.
module TemporalWindow {
  import opened Text

  const SECOND := 1_000_000_000
  const DEFAULT_WINDOW := 10
  const DEFAULT_MAX := 128

  datatype Obs = Obs(at: int, path: string, ua: string)

  datatype Snapshot = Snapshot(requests: nat, paths: nat, agents: nat)

  function NormalizePath(path: string): string {
    var p := Trim(path);
    if p == "" then "/" else if |p| > 256 then p[..256] else p
  }

  function NormalizeUserAgent(ua: string): string {
    var u := ToLower(Trim(ua));
    if |u| > 192 then u[..192] else u
  }

  function Normalized(path: string, ua: string, now: int): Obs {
    Obs(now, NormalizePath(path), NormalizeUserAgent(ua))
  }

  /** A blank path counts as "/", the agent's letter case and the white space around do not matter, and
      what comes after the first 256 or 192 characters does not either. */
  lemma NormalizedIs(path: string, ua: string, now: int)
    ensures
      var o, p, u := Normalized(path, ua, now), Trim(path), ToLower(Trim(ua));
      o.at == now && (o.path == "/" <==> p == "" || p == "/") && (p != "" ==> o.path <= p && o.path != "") &&
      o.ua <= u && |o.path| <= 256 && |o.ua| <= 192 && (|p| <= 256 && p != "" ==> o.path == p) && (|p| > 256 ==> |o.path| == 256) &&
      (|u| <= 192 ==> o.ua == u) && (|u| > 192 ==> |o.ua| == 192)
  {
    var o, p := Normalized(path, ua, now), Trim(path);
    if |p| > 256 {
      assert |o.path| == 256;
    }
  }

  /** The observations not older than the cutoff, in order. */
  function Recent(q: seq<Obs>, cutoff: int): seq<Obs> {
    if q == [] then []
    else Recent(q[..|q| - 1], cutoff) + if q[|q| - 1].at >= cutoff then [q[|q| - 1]] else []
  }

  function LastN(q: seq<Obs>, n: nat): seq<Obs> {
    if |q| > n then q[|q| - n..] else q
  }

  function Next(q: seq<Obs>, window: nat, max: nat, o: Obs): seq<Obs> {
    LastN(Recent(q, o.at - window) + [o], max)
  }

  function SnapshotOf(q: seq<Obs>): Snapshot {
    Snapshot(|q|, |set o | o in q :: o.path|, |set o | o in q && o.ua != "" :: o.ua|)
  }

  // ----- Slices ----------------------------------------------------------------------

  /** Some elements of an array; the array may hold more on either side. */
  datatype Slice = Slice(data: array<Obs>, off: nat, len: nat)

  ghost predicate Fits(s: Slice) {
    s.off + s.len <= s.data.Length
  }

  ghost function Contents(s: Slice): seq<Obs>
    requires Fits(s)
    reads s.data
  {
    s.data[s.off..s.off + s.len]
  }

  lemma LaterPart(s: Slice, d: nat)
    requires Fits(s) && d <= s.len
    ensures Contents(Slice(s.data, s.off + d, s.len - d)) == Contents(s)[d..]
  {
  }

  lemma RecentStep(q: seq<Obs>, i: nat, cutoff: int)
    requires i < |q|
    ensures Recent(q[..i + 1], cutoff) == Recent(q[..i], cutoff) + if q[i].at >= cutoff then [q[i]] else []
  {
    assert q[..i + 1][..i] == q[..i];
  }

  /** `recent` stands at `from`, and what was not looked at yet stands where it was. */
  ghost predicate Compacting(data: array<Obs>, from: nat, q: seq<Obs>, i: nat, recent: seq<Obs>)
    requires i <= |q| && |recent| <= i && from + |q| <= data.Length
    reads data
  {
    data[from..from + |recent|] == recent && data[from + i..from + |q|] == q[i..]
  }

  /** One element is kept or skipped. */
  method CompactOne(data: array<Obs>, from: nat, ghost q: seq<Obs>, i: nat, n: nat, cutoff: int, ghost recent: seq<Obs>)
      returns (m: nat)
    requires i < |q| && n == |recent| <= i && from + |q| <= data.Length && Compacting(data, from, q, i, recent)
    modifies data
    ensures m == n + if q[i].at >= cutoff then 1 else 0
    ensures Compacting(data, from, q, i + 1, recent + if q[i].at >= cutoff then [q[i]] else [])
  {
    var obs := data[from + i];
    assert obs == data[from + i..from + |q|][0] == q[i];
    assert data[from + i + 1..from + |q|] == data[from + i..from + |q|][1..] == q[i + 1..];
    m := n;
    if obs.at >= cutoff {
      data[from + n] := obs;
      m := n + 1;
    }
  }

  /** Moves the recent elements to the front of the slice, over the ones already looked at. */
  method Compact(s: Slice, cutoff: int) returns (kept: Slice)
    requires Fits(s)
    modifies s.data
    ensures Fits(kept) && kept.data == s.data && Contents(kept) == Recent(old(Contents(s)), cutoff)
  {
    ghost var q := Contents(s);
    var n := 0;
    for i := 0 to s.len
      invariant n == |Recent(q[..i], cutoff)| <= i && Compacting(s.data, s.off, q, i, Recent(q[..i], cutoff))
    {
      RecentStep(q, i, cutoff);
      n := CompactOne(s.data, s.off, q, i, n, cutoff, Recent(q[..i], cutoff));
    }
    assert q[..s.len] == q;
    kept := Slice(s.data, s.off, n);
  }

  /** Writes behind the slice where its array has room, and to a larger copy where it has not. */
  method Append(s: Slice, o: Obs) returns (r: Slice)
    requires Fits(s)
    modifies s.data
    ensures Fits(r) && Contents(r) == old(Contents(s)) + [o]
    ensures r.data == s.data || fresh(r.data)
  {
    ghost var q := Contents(s);
    if s.off + s.len < s.data.Length {
      s.data[s.off + s.len] := o;
      return Slice(s.data, s.off, s.len + 1);
    }
    var larger := new Obs[2 * s.len + 1];
    for i := 0 to s.len
      invariant larger[..i] == q[..i]
      invariant s.data[s.off..s.off + s.len] == q
    {
      larger[i] := s.data[s.off + i];
      assert larger[i] == q[i];
    }
    larger[s.len] := o;
    r := Slice(larger, 0, s.len + 1);
    assert larger[..s.len] == q;
    assert Contents(r) == larger[..s.len] + [o];
  }

  predicate Apart(m: map<string, Slice>, j: string, k: string) {
    j in m && k in m && j != k ==> m[j].data != m[k].data
  }

  ghost predicate Separate(m: map<string, Slice>) {
    forall j, k :: Apart(m, j, k)
  }

  lemma ReplacingKeepsSeparate(m: map<string, Slice>, key: string, s: Slice)
    requires Separate(m) && forall k :: k in m && k != key ==> m[k].data != s.data
    ensures Separate(m[key := s])
  {
    var next := m[key := s];
    forall j, k ensures Apart(next, j, k) {
      assert Apart(m, j, k);
    }
  }

  // ----- The store -------------------------------------------------------------------

  class Store {
    var window: nat
    var max: nat
    var byIP: map<string, Slice>

    /** Every slice lies in its array, and no two clients share one. */
    ghost predicate Valid()
      reads this
    {
      window > 0 && max > 0 && (forall k :: k in byIP ==> Fits(byIP[k])) && Separate(byIP)
    }

    ghost function Arrays(): set<object>
      reads this
    {
      set k | k in byIP :: byIP[k].data
    }

    ghost function Stored(ip: string): seq<Obs>
      requires Valid()
      reads this, Arrays()
    {
      if ip in byIP then Contents(byIP[ip]) else []
    }

    constructor (windowSeconds: int, maxEntries: int)
      ensures Valid() && fresh(Arrays()) && byIP == map[]
      ensures window == (if windowSeconds <= 0 then DEFAULT_WINDOW else windowSeconds) * SECOND
      ensures max == (if maxEntries <= 0 then DEFAULT_MAX else maxEntries)
    {
      window := (if windowSeconds <= 0 then DEFAULT_WINDOW else windowSeconds) * SECOND;
      max := if maxEntries <= 0 then DEFAULT_MAX else maxEntries;
      byIP := map[];
    }

    method Observe(ip: string, path: string, userAgent: string, now: int) returns (snap: Snapshot)
      requires Valid()
      modifies this`byIP, Arrays()
      ensures Valid() && fresh(Arrays() - old(Arrays()))
      ensures Blank(ip) ==> snap == Snapshot(0, 0, 0) && forall k :: Stored(k) == old(Stored(k))
      ensures !Blank(ip) ==>
                var key := Trim(ip);
                Stored(key) == Next(old(Stored(key)), window, max, Normalized(path, userAgent, now)) &&
                snap == SnapshotOf(Stored(key)) &&
                forall k :: k != key ==> Stored(k) == old(Stored(k))
    {
      var key := Trim(ip);
      if key == "" {
        return Snapshot(0, 0, 0);
      }
      Record(key, Normalized(path, userAgent, now));
      snap := Count(byIP[key]);
    }

    method Record(key: string, o: Obs)
      requires Valid()
      modifies this`byIP, Arrays()
      ensures Valid() && fresh(Arrays() - old(Arrays())) && key in byIP
      ensures Stored(key) == Next(old(Stored(key)), window, max, o)
      ensures forall k :: k != key ==> Stored(k) == old(Stored(k))
    {
      var slice: Slice;
      if key in byIP {
        slice := byIP[key];
      } else {
        var none := new Obs[0];
        slice := Slice(none, 0, 0);
      }
      var kept := Slide(slice, o);
      forall k | k in byIP && k != key ensures Contents(byIP[k]) == old(Contents(byIP[k])) && byIP[k].data != kept.data {
        assert Apart(byIP, key, k);
      }
      ReplacingKeepsSeparate(byIP, key, kept);
      byIP := byIP[key := kept];
    }

    /** Compacts, appends, and keeps the last `max`. */
    method Slide(s: Slice, o: Obs) returns (kept: Slice)
      requires Fits(s)
      modifies s.data
      ensures Fits(kept) && (kept.data == s.data || fresh(kept.data))
      ensures Contents(kept) == Next(old(Contents(s)), window, max, o)
    {
      kept := Compact(s, o.at - window);
      kept := Append(kept, o);
      kept := KeepLast(kept);
    }

    method KeepLast(s: Slice) returns (r: Slice)
      requires Fits(s)
      ensures Fits(r) && r.data == s.data && Contents(r) == LastN(Contents(s), max)
    {
      r := s;
      if s.len > max {
        LaterPart(s, s.len - max);
        r := Slice(s.data, s.off + (s.len - max), max);
      }
    }

    method Count(kept: Slice) returns (snap: Snapshot)
      requires Fits(kept)
      ensures snap == SnapshotOf(Contents(kept))
    {
      var paths: set<string>, uas: set<string> := {}, {};
      ghost var q := Contents(kept);
      for i := 0 to kept.len
        invariant paths == set o | o in q[..i] :: o.path
        invariant uas == set o | o in q[..i] && o.ua != "" :: o.ua
      {
        var obs := kept.data[kept.off + i];
        assert q[..i + 1] == q[..i] + [obs];
        paths := paths + {obs.path};
        if obs.ua != "" {
          uas := uas + {obs.ua};
        }
      }
      assert q[..kept.len] == q;
      snap := Snapshot(kept.len, |paths|, |uas|);
    }
  }

  // ----- Runs ------------------------------------------------------------------------

  datatype Event = Event(ip: string, path: string, ua: string, now: int)

  predicate Concerns(e: Event, ip: string) {
    !Blank(e.ip) && Trim(e.ip) == ip
  }

  /** What the store holds of a client after some requests. */
  function StoredAfter(es: seq<Event>, ip: string, window: nat, max: nat): seq<Obs> {
    if es == [] then []
    else
      var e := es[|es| - 1];
      var before := StoredAfter(es[..|es| - 1], ip, window, max);
      if Concerns(e, ip) then Next(before, window, max, Normalized(e.path, e.ua, e.now)) else before
  }

  /** Every observation ever made of a client. */
  function History(es: seq<Event>, ip: string): seq<Obs> {
    if es == [] then []
    else
      var e := es[|es| - 1];
      var before := History(es[..|es| - 1], ip);
      if Concerns(e, ip) then before + [Normalized(e.path, e.ua, e.now)] else before
  }

  predicate NotAfter(q: seq<Obs>, i: nat, j: nat) {
    i <= j < |q| ==> q[i].at <= q[j].at
  }

  ghost predicate Ordered(q: seq<Obs>) {
    forall i: nat, j: nat :: NotAfter(q, i, j)
  }

  ghost predicate InTime(es: seq<Event>) {
    forall i: nat, j: nat :: i <= j < |es| ==> es[i].now <= es[j].now
  }

  /** How many leading observations are too old. */
  function Stale(q: seq<Obs>, cutoff: int): (k: nat)
    ensures k <= |q|
    ensures k < |q| ==> q[k].at >= cutoff
    ensures forall i :: 0 <= i < k ==> q[i].at < cutoff
  {
    if q == [] || q[0].at >= cutoff then 0 else 1 + Stale(q[1..], cutoff)
  }

  lemma {:induction false} RecentOfAllRecent(q: seq<Obs>, cutoff: int)
    requires forall i :: 0 <= i < |q| ==> q[i].at >= cutoff
    ensures Recent(q, cutoff) == q
  {
    if q != [] {
      RecentOfAllRecent(q[..|q| - 1], cutoff);
      assert q == q[..|q| - 1] + [q[|q| - 1]];
    }
  }

  lemma {:induction false} RecentOfNoneRecent(q: seq<Obs>, cutoff: int)
    requires forall i :: 0 <= i < |q| ==> q[i].at < cutoff
    ensures Recent(q, cutoff) == []
  {
    if q != [] {
      RecentOfNoneRecent(q[..|q| - 1], cutoff);
    }
  }

  lemma {:induction false} RecentConcat(a: seq<Obs>, b: seq<Obs>, cutoff: int)
    ensures Recent(a + b, cutoff) == Recent(a, cutoff) + Recent(b, cutoff)
  {
    if b == [] {
      assert a + b == a;
    } else {
      var init := b[..|b| - 1];
      RecentConcat(a, init, cutoff);
      assert (a + b)[..|a + b| - 1] == a + init;
    }
  }

  lemma RecentBetween(stale: seq<Obs>, young: seq<Obs>, cutoff: int)
    requires forall i :: 0 <= i < |stale| ==> stale[i].at < cutoff
    requires forall i :: 0 <= i < |young| ==> young[i].at >= cutoff
    ensures Recent(stale + young, cutoff) == young
  {
    RecentConcat(stale, young, cutoff);
    RecentOfNoneRecent(stale, cutoff);
    RecentOfAllRecent(young, cutoff);
  }

  /** Of observations in time order, the recent ones are the last ones. */
  lemma RecentIsSuffix(q: seq<Obs>, cutoff: int)
    requires Ordered(q)
    ensures Recent(q, cutoff) == q[Stale(q, cutoff)..]
  {
    var k := Stale(q, cutoff);
    forall i | k <= i < |q| ensures q[i].at >= cutoff {
      assert NotAfter(q, k, i);
    }
    RecentBetween(q[..k], q[k..], cutoff);
    assert q == q[..k] + q[k..];
  }

  lemma SuffixIsOrdered(q: seq<Obs>, m: nat)
    requires Ordered(q) && m <= |q|
    ensures Ordered(q[m..])
  {
    forall i: nat, j: nat ensures NotAfter(q[m..], i, j) {
      assert NotAfter(q, m + i, m + j);
    }
  }

  lemma StaleIs(q: seq<Obs>, cutoff: int, k: nat)
    requires k <= |q| && (k < |q| ==> q[k].at >= cutoff) && forall i :: 0 <= i < k ==> q[i].at < cutoff
    ensures Stale(q, cutoff) == k
  {
  }

  /** Where the too old prefix ends, seen from a later start. */
  lemma StaleOfSuffix(q: seq<Obs>, m: nat, cutoff: int)
    requires Ordered(q) && m <= |q|
    ensures Stale(q[m..], cutoff) == if Stale(q, cutoff) >= m then Stale(q, cutoff) - m else 0
  {
    var k := Stale(q, cutoff);
    if k < m && m < |q| {
      assert NotAfter(q, k, m);
    }
    StaleIs(q[m..], cutoff, if k >= m then k - m else 0);
  }

  lemma DropTwice(q: seq<Obs>, m: nat, d: nat)
    requires m + d <= |q|
    ensures q[m..][d..] == q[m + d..]
  {
  }

  /** Cutting at `m`, the last n, before cutting at `k` changes nothing about the last n. */
  lemma SameLast(q: seq<Obs>, m: nat, k: nat, n: nat, o: Obs)
    requires m == (if |q| > n then |q| - n else 0) && k <= |q| && n > 0
    ensures LastN(q[if k >= m then k else m..] + [o], n) == LastN(q[k..] + [o], n)
  {
    if k < m {
      assert LastN(q[m..] + [o], n) == q[m + 1..] + [o];
      assert LastN(q[k..] + [o], n) == q[m + 1..] + [o];
    }
  }

  lemma RecentOfLate(q: seq<Obs>, m: nat, cutoff: int)
    requires Ordered(q) && m <= |q|
    ensures Recent(q[m..], cutoff) == q[if Stale(q, cutoff) >= m then Stale(q, cutoff) else m..]
  {
    var late := q[m..];
    SuffixIsOrdered(q, m);
    StaleOfSuffix(q, m, cutoff);
    RecentIsSuffix(late, cutoff);
    DropTwice(q, m, Stale(late, cutoff));
  }

  /** Dropping the surplus before or after dropping the old makes no difference. */
  lemma SurplusFirst(q: seq<Obs>, cutoff: int, n: nat, o: Obs)
    requires Ordered(q) && n > 0
    ensures LastN(Recent(LastN(q, n), cutoff) + [o], n) == LastN(Recent(q, cutoff) + [o], n)
  {
    var m := if |q| > n then |q| - n else 0;
    assert LastN(q, n) == q[m..];
    RecentOfLate(q, m, cutoff);
    RecentIsSuffix(q, cutoff);
    SameLast(q, m, Stale(q, cutoff), n, o);
  }

  lemma {:induction false} RecentTwice(q: seq<Obs>, c1: int, c2: int)
    requires c1 <= c2
    ensures Recent(Recent(q, c1), c2) == Recent(q, c2)
  {
    if q != [] {
      var init, last := q[..|q| - 1], q[|q| - 1];
      RecentTwice(init, c1, c2);
      RecentConcat(Recent(init, c1), if last.at >= c1 then [last] else [], c2);
      assert [last][..0] == [];
    }
  }

  lemma {:induction false} RecentIsOrdered(q: seq<Obs>, cutoff: int)
    requires Ordered(q)
    ensures Ordered(Recent(q, cutoff))
  {
    RecentIsSuffix(q, cutoff);
    SuffixIsOrdered(q, Stale(q, cutoff));
  }

  /** The last `max` observations that were in the window at the latest one. */
  function Window(h: seq<Obs>, window: nat, max: nat): seq<Obs> {
    LastN(Recent(h, Cutoff(h, window)), max)
  }

  function Cutoff(h: seq<Obs>, window: nat): int {
    if h == [] then 0 else h[|h| - 1].at - window
  }

  lemma RecentOfOneMore(h: seq<Obs>, cutoff: int, o: Obs)
    requires o.at >= cutoff
    ensures Recent(h + [o], cutoff) == Recent(h, cutoff) + [o]
  {
    assert (h + [o])[..|h|] == h;
  }

  lemma WindowOfOneMore(h: seq<Obs>, window: nat, max: nat, o: Obs)
    ensures Window(h + [o], window, max) == LastN(Recent(h, o.at - window) + [o], max)
  {
    RecentOfOneMore(h, o.at - window, o);
  }

  lemma CompactingTwice(h: seq<Obs>, c1: int, c2: int, max: nat, o: Obs, before: seq<Obs>)
    requires Ordered(h) && max > 0 && c1 <= c2 && before == LastN(Recent(h, c1), max)
    ensures LastN(Recent(before, c2) + [o], max) == LastN(Recent(h, c2) + [o], max)
  {
    RecentIsOrdered(h, c1);
    SurplusFirst(Recent(h, c1), c2, max, o);
    RecentTwice(h, c1, c2);
  }

  lemma WindowCompacts(h: seq<Obs>, window: nat, max: nat, o: Obs)
    requires Ordered(h) && max > 0 && h != [] && h[|h| - 1].at <= o.at
    requires Window(h + [o], window, max) == LastN(Recent(h, o.at - window) + [o], max)
    ensures Next(Window(h, window, max), window, max, o) == Window(h + [o], window, max)
  {
    CompactingTwice(h, Cutoff(h, window), o.at - window, max, o, Window(h, window, max));
  }

  /** One more observation keeps the window exact. */
  lemma WindowStep(h: seq<Obs>, window: nat, max: nat, o: Obs)
    requires Ordered(h) && max > 0 && (h != [] ==> h[|h| - 1].at <= o.at)
    ensures Next(Window(h, window, max), window, max, o) == Window(h + [o], window, max)
  {
    WindowOfOneMore(h, window, max, o);
    if h != [] {
      WindowCompacts(h, window, max, o);
    }
  }

  lemma {:induction false} HistoryIsOrdered(es: seq<Event>, ip: string)
    requires InTime(es)
    ensures Ordered(History(es, ip))
    ensures forall i :: 0 <= i < |History(es, ip)| ==> History(es, ip)[i].at <= es[|es| - 1].now
  {
    if es != [] {
      var init := es[..|es| - 1];
      HistoryIsOrdered(init, ip);
      var old', h, now := History(init, ip), History(es, ip), es[|es| - 1].now;
      forall i | 0 <= i < |old'| ensures old'[i].at <= now {
        assert init != [];
        assert init[|init| - 1].now <= now;
      }
      forall i: nat, j: nat ensures NotAfter(h, i, j) {
        assert NotAfter(old', i, j);
      }
    }
  }

  lemma LatestBefore(es: seq<Event>, ip: string, now: int)
    requires InTime(es) && (es != [] ==> es[|es| - 1].now <= now) && History(es, ip) != []
    ensures Ordered(History(es, ip)) && History(es, ip)[|History(es, ip)| - 1].at <= now
  {
    HistoryIsOrdered(es, ip);
  }

  /** In time order, the store holds exactly the last `max` observations of a client that were in
      the window at its latest one, out of all it ever made. */
  lemma {:induction false} StoreHoldsTheWindow(es: seq<Event>, ip: string, window: nat, max: nat)
    requires InTime(es) && max > 0
    ensures StoredAfter(es, ip, window, max) == Window(History(es, ip), window, max)
  {
    if es != [] {
      var init, e := es[..|es| - 1], es[|es| - 1];
      StoreHoldsTheWindow(init, ip, window, max);
      if Concerns(e, ip) {
        if History(init, ip) != [] {
          LatestBefore(init, ip, e.now);
        }
        WindowStep(History(init, ip), window, max, Normalized(e.path, e.ua, e.now));
      }
    }
  }
}
