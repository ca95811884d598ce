// Which upstream a request goes to first, and the order in which retries fall back: weighted
// shares from a global cursor or a hash, or least loaded, eligible targets before the rest.
module TargetSelection {
  import Text

  datatype Candidate = Candidate(key: string, name: string, weight: int, managed: bool)

  datatype Availability = Availability(selectable: bool, inFlight: nat)

  datatype Options = Options(hashing: bool, leastConn: bool)

  const CURSOR_LIMIT := 0x1_0000_0000_0000_0000

  function Positive(v: int): (r: int)
    ensures r > 0
  {
    if v <= 0 then 1 else v
  }

  // ----- Weighted shares -------------------------------------------------------------

  ghost predicate AllPositive(w: seq<int>) {
    forall i :: 0 <= i < |w| ==> w[i] > 0
  }

  function Sum(w: seq<int>): int {
    if w == [] then 0 else Sum(w[..|w| - 1]) + w[|w| - 1]
  }

  /** The weights before position `i`. */
  function Prefix(w: seq<int>, i: nat): int
    requires i <= |w|
  {
    Sum(w[..i])
  }

  lemma PrefixStep(w: seq<int>, i: nat)
    requires i < |w|
    ensures Prefix(w, i + 1) == Prefix(w, i) + w[i]
  {
    assert w[..i + 1][..i] == w[..i];
  }

  lemma {:induction false} PrefixGrows(w: seq<int>, i: nat, j: nat)
    requires AllPositive(w) && i <= j <= |w|
    ensures 0 <= Prefix(w, i) <= Prefix(w, j)
    ensures i < j ==> Prefix(w, i) < Prefix(w, j)
  {
    if i < j {
      PrefixGrows(w, i, j - 1);
      PrefixStep(w, j - 1);
    } else if i > 0 {
      PrefixGrows(w, i - 1, i - 1);
      PrefixStep(w, i - 1);
    }
  }

  predicate InBucket(w: seq<int>, bucket: int, i: nat) {
    i < |w| && Prefix(w, i) <= bucket < Prefix(w, i + 1)
  }

  /** The scan over running totals: the first position whose total exceeds the bucket. */
  method PickBucket(w: seq<int>, bucket: int) returns (pos: nat)
    requires AllPositive(w) && 0 <= bucket < Sum(w)
    ensures InBucket(w, bucket, pos)
  {
    var acc := 0;
    pos := 0;
    assert w[..|w|] == w;
    while true
      invariant pos < |w| && acc == Prefix(w, pos) <= bucket
      decreases |w| - pos
    {
      PrefixStep(w, pos);
      acc := acc + w[pos];
      if bucket < acc {
        return;
      }
      pos := pos + 1;
    }
  }

  lemma {:induction false} BucketUnique(w: seq<int>, bucket: int, i: nat, j: nat)
    requires AllPositive(w) && InBucket(w, bucket, i) && InBucket(w, bucket, j)
    ensures i == j
  {
    if i < j {
      PrefixGrows(w, i + 1, j);
    } else if j < i {
      PrefixGrows(w, j + 1, i);
    }
  }

  /** How many of the cursor values [from, from + n) fall to position `i`. */
  function Picks(w: seq<int>, from: nat, n: nat, i: nat): nat
    requires Sum(w) > 0
  {
    if n == 0 then 0
    else Picks(w, from, n - 1, i) + if InBucket(w, (from + n - 1) % Sum(w), i) then 1 else 0
  }

  function Min(a: int, b: int): int {
    if a < b then a else b
  }

  function Max(a: int, b: int): int {
    if a > b then a else b
  }

  lemma SmallRemainder(a: nat, t: nat)
    requires a < t
    ensures a % t == a
  {
  }

  lemma {:induction false} PicksFromZero(w: seq<int>, n: nat, i: nat)
    requires AllPositive(w) && Sum(w) > 0 && n <= Sum(w) && i < |w|
    ensures Picks(w, 0, n, i) == Max(0, Min(n, Prefix(w, i + 1)) - Prefix(w, i))
  {
    PrefixGrows(w, i, i + 1);
    if n > 0 {
      PicksFromZero(w, n - 1, i);
      SmallRemainder(n - 1, Sum(w));
    }
  }

  lemma SameRemainder(a: nat, t: nat)
    requires t > 0
    ensures (a + t) % t == a % t
  {
    var q, r := (a + t) / t, (a + t) % t;
    var d := q - a / t - 1;
    assert d * t == a % t - r by {
      assert a == (a / t) * t + a % t;
      assert a + t == q * t + r;
      assert d * t == q * t - (a / t) * t - t;
    }
    MulSmall(d, t);
  }

  lemma MulSmall(d: int, t: int)
    requires t > 0 && -t < d * t < t
    ensures d == 0
  {
    if d > 0 {
      MulOrder(1, d, t);
    } else if d < 0 {
      MulOrder(d, -1, t);
    }
  }

  /** Dropping the first value of a window. */
  lemma {:induction false} PicksFront(w: seq<int>, from: nat, n: nat, i: nat)
    requires Sum(w) > 0 && n > 0
    ensures Picks(w, from, n, i) ==
            (if InBucket(w, from % Sum(w), i) then 1 else 0) + Picks(w, from + 1, n - 1, i)
  {
    if n > 1 {
      PicksFront(w, from, n - 1, i);
    }
  }

  /** Exact weighted fairness: over any totalWeight consecutive cursor values every position is
      picked exactly as often as its weight says. */
  lemma {:induction false} ExactShares(w: seq<int>, from: nat, i: nat)
    requires AllPositive(w) && i < |w|
    ensures Sum(w) > 0 && Picks(w, from, Sum(w), i) == w[i]
  {
    assert w[..|w|] == w;
    PrefixGrows(w, 0, |w|);
    var t := Sum(w);
    if from == 0 {
      PicksFromZero(w, t, i);
      PrefixStep(w, i);
      PrefixGrows(w, i, i + 1);
      PrefixGrows(w, i + 1, |w|);
    } else {
      ExactShares(w, from - 1, i);
      PicksFront(w, from - 1, t, i);
      SameRemainder(from - 1, t);
    }
  }

  /** The same count over `n` draws of the real cursor, which wraps at 2^64. */
  function Draw(w: seq<int>, from: nat, n: nat, i: nat): nat
    requires Sum(w) > 0
  {
    if n == 0 then 0
    else Draw(w, from, n - 1, i) + if InBucket(w, ((from + n - 1) % CURSOR_LIMIT) % Sum(w), i) then 1 else 0
  }

  lemma {:induction false} ManyRemainders(r: nat, m: nat, t: nat)
    requires t > 0
    ensures (r + m * t) % t == r % t
  {
    if m > 0 {
      ManyRemainders(r, m - 1, t);
      SameRemainder(r + (m - 1) * t, t);
      assert r + m * t == r + (m - 1) * t + t;
    }
  }

  /** Taking the cursor modulo its range first leaves its bucket alone. */
  lemma CursorBucket(x: nat, t: nat)
    requires t > 0 && (x < CURSOR_LIMIT || (x < 2 * CURSOR_LIMIT && CURSOR_LIMIT % t == 0))
    ensures (x % CURSOR_LIMIT) % t == x % t
  {
    if x < CURSOR_LIMIT {
      SmallRemainder(x, CURSOR_LIMIT);
    } else {
      SameRemainder(x - CURSOR_LIMIT, CURSOR_LIMIT);
      SmallRemainder(x - CURSOR_LIMIT, CURSOR_LIMIT);
      var m := CURSOR_LIMIT / t;
      assert CURSOR_LIMIT == m * t;
      ManyRemainders(x - CURSOR_LIMIT, m, t);
    }
  }

  lemma {:induction false} DrawIsPicks(w: seq<int>, from: nat, n: nat, i: nat)
    requires Sum(w) > 0 && from < CURSOR_LIMIT && n <= CURSOR_LIMIT
    requires from + n <= CURSOR_LIMIT || CURSOR_LIMIT % Sum(w) == 0
    ensures Draw(w, from, n, i) == Picks(w, from, n, i)
  {
    if n > 0 {
      DrawIsPicks(w, from, n - 1, i);
      CursorBucket(from + n - 1, Sum(w));
    }
  }

  /** So real draws are exactly fair unless the window crosses the wrap of a cursor whose range
      the total weight does not divide. */
  lemma DrawsAreFair(w: seq<int>, from: nat, i: nat)
    requires AllPositive(w) && i < |w| && from < CURSOR_LIMIT && Sum(w) <= CURSOR_LIMIT
    requires from + Sum(w) <= CURSOR_LIMIT || (Sum(w) > 0 && CURSOR_LIMIT % Sum(w) == 0)
    ensures Sum(w) > 0 && Draw(w, from, Sum(w), i) == w[i]
  {
    ExactShares(w, from, i);
    DrawIsPicks(w, from, Sum(w), i);
  }

  /** A canary of `p` percent gets exactly `p` of 100 consecutive draws that do not cross the
      cursor's wrap, and its partner the other 100 - p. */
  lemma CanaryShare(p: int, from: nat)
    requires 0 < p < 100 && from + 100 <= CURSOR_LIMIT
    ensures Sum([100 - p, p]) == 100
    ensures Draw([100 - p, p], from, 100, 1) == p && Draw([100 - p, p], from, 100, 0) == 100 - p
  {
    var w := [100 - p, p];
    assert w[..1] == [100 - p] && w[..1][..0] == [];
    assert Sum([100 - p]) == Sum([]) + (100 - p);
    assert Sum(w) == 100;
    DrawsAreFair(w, from, 1);
    DrawsAreFair(w, from, 0);
  }

  // ----- Least loaded ----------------------------------------------------------------

  datatype Load = Load(inFlight: nat, weight: int, name: string)

  /** Cross-multiplied comparison of inFlight / weight, names breaking ties. */
  predicate LessLoaded(a: Load, b: Load) {
    var left, right := a.inFlight * b.weight, b.inFlight * a.weight;
    if left == right then Text.Less(a.name, b.name) else left < right
  }

  lemma RatioTransitive(a: int, wa: int, b: int, wb: int, c: int, wc: int)
    requires wa > 0 && wb > 0 && wc > 0
    requires a * wb <= b * wa && b * wc <= c * wb
    ensures a * wc <= c * wa
    ensures a * wc == c * wa ==> a * wb == b * wa && b * wc == c * wb
  {
    MulOrder(a * wb, b * wa, wc);
    MulOrder(b * wc, c * wb, wa);
    assert (a * wb) * wc == wb * (a * wc);
    assert (b * wa) * wc == (b * wc) * wa;
    assert (c * wb) * wa == wb * (c * wa);
    DivOrder(a * wc, c * wa, wb);
    if a * wc == c * wa {
      MulCancel(a * wb, b * wa, wc);
      MulCancel(b * wc, c * wb, wa);
    }
  }

  lemma MulOrder(x: int, y: int, k: int)
    requires x <= y && k > 0
    ensures x * k <= y * k
  {
  }

  lemma DivOrder(x: int, y: int, k: int)
    requires k > 0 && k * x <= k * y
    ensures x <= y
  {
    if x > y {
      MulOrder(y + 1, x, k);
    }
  }

  lemma MulCancel(x: int, y: int, k: int)
    requires k > 0 && x * k == y * k
    ensures x == y
  {
    DivOrder(x, y, k);
    DivOrder(y, x, k);
  }

  predicate Tied(a: Load, b: Load) {
    !LessLoaded(a, b) && !LessLoaded(b, a)
  }

  /** For positive weights the comparison is a strict weak order. */
  lemma LessLoadedIsStrictWeakOrder(a: Load, b: Load, c: Load)
    requires a.weight > 0 && b.weight > 0 && c.weight > 0
    ensures !LessLoaded(a, a)
    ensures LessLoaded(a, b) ==> !LessLoaded(b, a)
    ensures LessLoaded(a, b) && LessLoaded(b, c) ==> LessLoaded(a, c)
    ensures Tied(a, b) && Tied(b, c) ==> Tied(a, c)
  {
    Text.LessTotal(a.name, a.name);
    Text.LessTotal(a.name, b.name);
    Text.LessTotal(b.name, c.name);
    if a.inFlight * b.weight <= b.inFlight * a.weight && b.inFlight * c.weight <= c.inFlight * b.weight {
      RatioTransitive(a.inFlight, a.weight, b.inFlight, b.weight, c.inFlight, c.weight);
      if Text.Less(a.name, b.name) && Text.Less(b.name, c.name) {
        Text.LessTransitive(a.name, b.name, c.name);
      }
      if Tied(a, b) && Tied(b, c) {
        RatioTransitive(c.inFlight, c.weight, b.inFlight, b.weight, a.inFlight, a.weight);
      }
    }
  }

  // ----- Sorting by load -------------------------------------------------------------

  function LoadOf(cands: seq<Candidate>, avail: map<string, Availability>, i: nat): (l: Load)
    requires i < |cands|
    ensures l.weight > 0
  {
    Load(At(avail, cands[i].key).inFlight, Positive(cands[i].weight), cands[i].name)
  }

  /** A missing key reads as the zero value. */
  function At(avail: map<string, Availability>, key: string): Availability {
    if key in avail then avail[key] else Availability(false, 0)
  }

  predicate Before(cands: seq<Candidate>, avail: map<string, Availability>, i: nat, j: nat) {
    i < |cands| && j < |cands| && LessLoaded(LoadOf(cands, avail, i), LoadOf(cands, avail, j))
  }

  ghost predicate Indexes(cands: seq<Candidate>, s: seq<nat>) {
    forall k :: 0 <= k < |s| ==> s[k] < |cands|
  }

  /** Positions a < b of a stably sorted list: not out of order, and ties keep the input order. */
  predicate InOrder(cands: seq<Candidate>, avail: map<string, Availability>, s: seq<nat>, a: nat, b: nat) {
    a < |s| && b < |s| && !Before(cands, avail, s[b], s[a]) && (!Before(cands, avail, s[a], s[b]) ==> s[a] < s[b])
  }

  ghost predicate StablySorted(cands: seq<Candidate>, avail: map<string, Availability>, s: seq<nat>) {
    forall a: nat, b: nat :: a < b < |s| ==> InOrder(cands, avail, s, a, b)
  }

  /** sort.SliceStable on indexes: insert each one behind everything not above it. */
  method StableSort(cands: seq<Candidate>, avail: map<string, Availability>, input: seq<nat>) returns (s: seq<nat>)
    requires Indexes(cands, input) && Ascending(input)
    ensures Indexes(cands, s) && StablySorted(cands, avail, s) && multiset(s) == multiset(input)
  {
    s := [];
    for n := 0 to |input|
      invariant Indexes(cands, s) && StablySorted(cands, avail, s) && multiset(s) == multiset(input[..n])
      invariant forall k :: 0 <= k < |s| ==> s[k] in input[..n]
    {
      assert input[..n + 1] == input[..n] + [input[n]];
      forall k | 0 <= k < |s| ensures s[k] < input[n] {
        var j :| 0 <= j < n && input[j] == s[k];
        assert Rising(input, j, n);
      }
      s := InsertStable(cands, avail, s, input[n]);
    }
    assert input[..|input|] == input;
  }

  predicate Rising(s: seq<nat>, i: nat, j: nat) {
    i < |s| && j < |s| && s[i] < s[j]
  }

  ghost predicate Ascending(s: seq<nat>) {
    forall i: nat, j: nat :: i < j < |s| ==> Rising(s, i, j)
  }

  method InsertStable(cands: seq<Candidate>, avail: map<string, Availability>, s: seq<nat>, x: nat)
    returns (r: seq<nat>)
    requires Indexes(cands, s) && StablySorted(cands, avail, s) && x < |cands|
    requires forall k :: 0 <= k < |s| ==> s[k] < x
    ensures Indexes(cands, r) && StablySorted(cands, avail, r) && multiset(r) == multiset(s) + multiset{x}
    ensures forall k :: 0 <= k < |r| ==> r[k] in s || r[k] == x
  {
    var i := |s|;
    while i > 0 && Before(cands, avail, x, s[i - 1])
      invariant 0 <= i <= |s|
      invariant i < |s| ==> Before(cands, avail, x, s[i])
    {
      i := i - 1;
    }
    r := s[..i] + [x] + s[i..];
    InsertKeepsOrder(cands, avail, s, x, i);
    InsertKeepsMembers(s, x, i);
  }

  lemma InsertKeepsMembers(s: seq<nat>, x: nat, i: nat)
    requires i <= |s|
    ensures
      var r := s[..i] + [x] + s[i..];
      multiset(r) == multiset(s) + multiset{x} && forall k :: 0 <= k < |r| ==> r[k] in s || r[k] == x
  {
    assert s == s[..i] + s[i..];
  }

  lemma BeforeTransitive(cands: seq<Candidate>, avail: map<string, Availability>, i: nat, j: nat, k: nat)
    requires i < |cands| && j < |cands| && k < |cands|
    ensures Before(cands, avail, i, j) ==> !Before(cands, avail, j, i)
    ensures Before(cands, avail, i, j) && Before(cands, avail, j, k) ==> Before(cands, avail, i, k)
    ensures Before(cands, avail, i, j) && !Before(cands, avail, k, j) ==> Before(cands, avail, i, k)
    ensures !Before(cands, avail, i, j) && Before(cands, avail, k, j) ==> Before(cands, avail, k, i)
  {
    var a, b, c := LoadOf(cands, avail, i), LoadOf(cands, avail, j), LoadOf(cands, avail, k);
    LessLoadedIsStrictWeakOrder(a, b, c);
    LessLoadedIsStrictWeakOrder(a, c, b);
    LessLoadedIsStrictWeakOrder(b, a, c);
    LessLoadedIsStrictWeakOrder(b, c, a);
    LessLoadedIsStrictWeakOrder(c, a, b);
    LessLoadedIsStrictWeakOrder(c, b, a);
  }

  lemma InsertKeepsOrder(cands: seq<Candidate>, avail: map<string, Availability>, s: seq<nat>, x: nat, i: nat)
    requires Indexes(cands, s) && StablySorted(cands, avail, s) && x < |cands| && i <= |s|
    requires forall k :: 0 <= k < |s| ==> s[k] < x
    requires i > 0 ==> !Before(cands, avail, x, s[i - 1])
    requires i < |s| ==> Before(cands, avail, x, s[i])
    ensures StablySorted(cands, avail, s[..i] + [x] + s[i..])
  {
    var r := s[..i] + [x] + s[i..];
    forall a: nat, b: nat | a < b < |r| ensures InOrder(cands, avail, r, a, b) {
      if b == i {
        if a < i - 1 {
          assert InOrder(cands, avail, s, a, i - 1);
          BeforeTransitive(cands, avail, x, s[a], s[i - 1]);
        }
      } else if a == i {
        if i < b - 1 {
          assert InOrder(cands, avail, s, i, b - 1);
          BeforeTransitive(cands, avail, x, s[i], s[b - 1]);
        }
        BeforeTransitive(cands, avail, x, r[b], x);
      } else {
        assert InOrder(cands, avail, s, if a < i then a else a - 1, if b < i then b else b - 1);
      }
    }
  }

  // ----- The order of targets --------------------------------------------------------

  predicate IsEligible(cands: seq<Candidate>, avail: map<string, Availability>, i: nat) {
    i < |cands| && (!cands[i].managed || At(avail, cands[i].key).selectable)
  }

  /** The indexes below `n` that are (or are not) eligible, in order. */
  function Select(cands: seq<Candidate>, avail: map<string, Availability>, wanted: bool, n: nat): seq<nat>
    requires n <= |cands|
  {
    if n == 0 then []
    else Select(cands, avail, wanted, n - 1) + if IsEligible(cands, avail, n - 1) == wanted then [n - 1] else []
  }

  lemma {:induction false} SelectIs(cands: seq<Candidate>, avail: map<string, Availability>, wanted: bool, n: nat)
    requires n <= |cands|
    ensures forall i: nat :: i in Select(cands, avail, wanted, n) <==> i < n && IsEligible(cands, avail, i) == wanted
    ensures Indexes(cands, Select(cands, avail, wanted, n))
  {
    if n > 0 {
      SelectIs(cands, avail, wanted, n - 1);
    }
  }

  lemma {:induction false} SelectAscends(cands: seq<Candidate>, avail: map<string, Availability>, wanted: bool, n: nat)
    requires n <= |cands|
    ensures Ascending(Select(cands, avail, wanted, n))
  {
    if n > 0 {
      SelectAscends(cands, avail, wanted, n - 1);
      SelectIs(cands, avail, wanted, n - 1);
      AscendingPush(Select(cands, avail, wanted, n - 1), n - 1);
    }
  }

  lemma AscendingPush(s: seq<nat>, x: nat)
    requires Ascending(s) && forall i :: i in s ==> i < x
    ensures Ascending(s + [x]) && s + [] == s
  {
    var t := s + [x];
    forall i: nat, j: nat | i < j < |t| ensures Rising(t, i, j) {
      if j < |s| {
        assert Rising(s, i, j);
      } else {
        assert s[i] in s;
      }
    }
  }

  lemma {:induction false} AscendingCount(s: seq<nat>, x: nat)
    requires Ascending(s)
    ensures multiset(s)[x] == if x in s then 1 else 0
  {
    if s != [] {
      var n := |s| - 1;
      var init, last := s[..n], s[n];
      assert s == init + [last];
      forall i: nat, j: nat | i < j < n ensures Rising(init, i, j) { assert Rising(s, i, j); }
      AscendingCount(init, x);
      forall i: nat | i < n ensures init[i] != last { assert Rising(s, i, n); }
    }
  }

  lemma IdentityIs(n: nat)
    ensures Ascending(Identity(n)) && forall x: nat :: x in Identity(n) <==> x < n
  {
    var all := Identity(n);
    forall i: nat, j: nat | i < j < n ensures Rising(all, i, j) {}
    forall x: nat | x < n ensures x in all { assert all[x] == x; }
  }

  /** Every index is selected exactly once, as eligible or as not. */
  lemma SelectSplits(cands: seq<Candidate>, avail: map<string, Availability>)
    ensures multiset(Select(cands, avail, true, |cands|)) + multiset(Select(cands, avail, false, |cands|)) ==
            multiset(Identity(|cands|))
  {
    var n := |cands|;
    var a, b, all := Select(cands, avail, true, n), Select(cands, avail, false, n), Identity(n);
    IdentityIs(n);
    SelectIs(cands, avail, true, n);
    SelectIs(cands, avail, false, n);
    SelectAscends(cands, avail, true, n);
    SelectAscends(cands, avail, false, n);
    var ma: multiset<nat>, mb: multiset<nat>, mall: multiset<nat> := multiset(a), multiset(b), multiset(all);
    forall x: nat ensures ma[x] + mb[x] == mall[x] {
      AscendingCount(a, x);
      AscendingCount(b, x);
      AscendingCount(all, x);
    }
  }

  function Identity(n: nat): seq<nat> {
    seq(n, i requires 0 <= i < n => i as nat)
  }

  /** The targets that compete for the first place: the eligible ones, or all when there is none. */
  function Contenders(cands: seq<Candidate>, avail: map<string, Availability>): seq<nat> {
    var eligible := Select(cands, avail, true, |cands|);
    if eligible == [] then Identity(|cands|) else eligible
  }

  function WeightsOf(cands: seq<Candidate>, idx: seq<nat>): seq<int>
    requires forall k :: 0 <= k < |idx| ==> idx[k] < |cands|
  {
    seq(|idx|, k requires 0 <= k < |idx| => Positive(cands[idx[k]].weight))
  }

  /** The chosen contender, then the others in their order. */
  function Promoted(idx: seq<nat>, pos: nat): seq<nat>
    requires pos < |idx|
  {
    [idx[pos]] + idx[..pos] + idx[pos + 1..]
  }

  /** The contenders cyclically from the chosen one. */
  function Rotated(idx: seq<nat>, pos: nat): seq<nat>
    requires pos < |idx|
  {
    idx[pos..] + idx[..pos]
  }

  method Promote(idx: seq<nat>, pos: nat) returns (r: seq<nat>)
    requires pos < |idx|
    ensures r == Promoted(idx, pos)
  {
    r := [idx[pos]];
    for i := 0 to |idx|
      invariant r == [idx[pos]] + if i <= pos then idx[..i] else idx[..pos] + idx[pos + 1..i]
    {
      if i != pos {
        r := r + [idx[i]];
      }
    }
    assert idx[pos + 1..|idx|] == idx[pos + 1..];
  }

  method Rotate(idx: seq<nat>, pos: nat) returns (r: seq<nat>)
    requires pos < |idx|
    ensures r == Rotated(idx, pos)
  {
    r := [idx[pos]];
    for offset := 1 to |idx|
      invariant r == if pos + offset <= |idx| then idx[pos..pos + offset] else idx[pos..] + idx[..pos + offset - |idx|]
    {
      WrapIndex(pos + offset, |idx|);
      r := r + [idx[(pos + offset) % |idx|]];
    }
    if pos == 0 {
      assert idx[0..|idx|] == idx[0..] + idx[..0];
    }
  }

  lemma WrapIndex(a: nat, n: nat)
    requires 0 < n && a < 2 * n
    ensures a % n == if a < n then a else a - n
  {
    if a >= n {
      SameRemainder(a - n, n);
      SmallRemainder(a - n, n);
    }
  }

  /** No contender carries less per weight than the head. */
  ghost predicate LeastLoadedFirst(cands: seq<Candidate>, avail: map<string, Availability>, head: nat) {
    head in Contenders(cands, avail) && head < |cands| &&
    forall i :: i in Contenders(cands, avail) && i < |cands| ==>
      LoadOf(cands, avail, head).inFlight * LoadOf(cands, avail, i).weight <=
      LoadOf(cands, avail, i).inFlight * LoadOf(cands, avail, head).weight
  }

  /** The contenders come first, led by the one whose weight bucket the ticket falls into. */
  ghost predicate Draws(cands: seq<Candidate>, avail: map<string, Availability>, lead: seq<nat>, ticket: nat, hashing: bool) {
    var idx := Contenders(cands, avail);
    Indexes(cands, idx) && Sum(WeightsOf(cands, idx)) > 0 &&
    exists pos: nat :: pos < |idx| && InBucket(WeightsOf(cands, idx), ticket % Sum(WeightsOf(cands, idx)), pos) &&
      lead == if hashing then Promoted(idx, pos) else Rotated(idx, pos)
  }

  /** How the contenders are arranged, and what becomes of the cursor: sorted by load, or led by
      the draw of the hash, or led by the draw of the cursor, which then moves on. */
  ghost predicate Arranged(cands: seq<Candidate>, avail: map<string, Availability>, options: Options,
                           digest: string -> nat, value: string, before: nat, after: nat, lead: seq<nat>)
  {
    if options.leastConn && |Contenders(cands, avail)| > 1 then
      after == before && lead != [] && LeastLoadedFirst(cands, avail, lead[0]) && StablySorted(cands, avail, lead)
    else if options.hashing && !Text.Blank(value) then
      after == before && Draws(cands, avail, lead, digest(value), true)
    else
      after == (before + 1) % CURSOR_LIMIT && Draws(cands, avail, lead, before, options.hashing)
  }

  ghost predicate EligibleFirst(cands: seq<Candidate>, avail: map<string, Availability>, order: seq<nat>) {
    forall a: nat, b: nat :: a < b < |order| ==> Ranked(cands, avail, order, a, b)
  }

  predicate Ranked(cands: seq<Candidate>, avail: map<string, Availability>, order: seq<nat>, a: nat, b: nat) {
    a < |order| && b < |order| && (IsEligible(cands, avail, order[b]) ==> IsEligible(cands, avail, order[a]))
  }

  lemma ContendersAre(cands: seq<Candidate>, avail: map<string, Availability>)
    ensures Indexes(cands, Contenders(cands, avail)) && Ascending(Contenders(cands, avail))
    ensures cands != [] ==> Contenders(cands, avail) != []
    ensures Select(cands, avail, true, |cands|) == [] ==> Select(cands, avail, false, |cands|) == Identity(|cands|)
  {
    SelectIs(cands, avail, true, |cands|);
    SelectAscends(cands, avail, true, |cands|);
    if Select(cands, avail, true, |cands|) == [] {
      SelectNone(cands, avail, |cands|);
      IdentityIs(|cands|);
    }
  }

  lemma SelectNone(cands: seq<Candidate>, avail: map<string, Availability>, n: nat)
    requires n <= |cands| && Select(cands, avail, true, n) == []
    ensures Select(cands, avail, false, n) == Identity(n)
  {
    if n > 0 {
      SelectNone(cands, avail, n - 1);
    }
  }

  lemma HeadIsLeast(cands: seq<Candidate>, avail: map<string, Availability>, sorted: seq<nat>)
    requires Indexes(cands, sorted) && StablySorted(cands, avail, sorted) && sorted != []
    requires multiset(sorted) == multiset(Contenders(cands, avail))
    ensures LeastLoadedFirst(cands, avail, sorted[0])
  {
    var idx := Contenders(cands, avail);
    assert sorted[0] in multiset(sorted);
    forall i | i in idx && i < |cands|
      ensures LoadOf(cands, avail, sorted[0]).inFlight * LoadOf(cands, avail, i).weight <=
              LoadOf(cands, avail, i).inFlight * LoadOf(cands, avail, sorted[0]).weight
    {
      assert i in multiset(sorted);
      var k: nat :| k < |sorted| && sorted[k] == i;
      if k > 0 {
        assert InOrder(cands, avail, sorted, 0, k);
      }
    }
  }

  lemma OrderIsEligibleFirst(cands: seq<Candidate>, avail: map<string, Availability>, head: seq<nat>, rest: seq<nat>)
    requires multiset(head) == multiset(Contenders(cands, avail))
    requires rest == if Select(cands, avail, true, |cands|) == [] then [] else Select(cands, avail, false, |cands|)
    ensures EligibleFirst(cands, avail, head + rest)
    ensures multiset(head + rest) == multiset(Identity(|cands|))
  {
    SelectIs(cands, avail, true, |cands|);
    SelectIs(cands, avail, false, |cands|);
    var order, idx := head + rest, Contenders(cands, avail);
    var none := Select(cands, avail, true, |cands|) == [];
    ContendersAre(cands, avail);
    SelectSplits(cands, avail);
    assert forall i: nat :: none && i < |cands| ==> (i in Select(cands, avail, true, |cands|) <==> IsEligible(cands, avail, i));
    forall a: nat, b: nat | a < b < |order| ensures Ranked(cands, avail, order, a, b) {
      if !none && a < |head| {
        assert order[a] in multiset(head);
        assert order[a] in idx;
      } else if !none {
        assert order[b] == rest[b - |head|] && order[b] in rest;
      }
    }
  }

  // ----- Who leads, by the configured weights ----------------------------------------

  /** Unmanaged, or the monitor lets it be selected. */
  predicate Selectable(cands: seq<Candidate>, avail: map<string, Availability>, i: nat)
    requires i < |cands|
  {
    !cands[i].managed || (cands[i].key in avail && avail[cands[i].key].selectable)
  }

  /** A candidate competes for the first place if it is selectable, or none is. */
  predicate Competes(cands: seq<Candidate>, avail: map<string, Availability>, i: nat)
    requires i < |cands|
  {
    Selectable(cands, avail, i) || forall j: nat | j < |cands| :: !Selectable(cands, avail, j)
  }

  /** The weights of the competing candidates before position `n`; one that is not positive counts
      as 1. */
  function WeightBefore(cands: seq<Candidate>, avail: map<string, Availability>, n: nat): nat
    requires n <= |cands|
  {
    if n == 0 then 0
    else
      WeightBefore(cands, avail, n - 1) +
      if !Competes(cands, avail, n - 1) then 0 else if cands[n - 1].weight > 0 then cands[n - 1].weight else 1
  }

  /** The competing candidate whose share of the weights holds this ticket. */
  predicate Wins(cands: seq<Candidate>, avail: map<string, Availability>, ticket: nat, i: nat) {
    var total := WeightBefore(cands, avail, |cands|);
    i < |cands| && total > 0 && Competes(cands, avail, i) &&
    WeightBefore(cands, avail, i) <= ticket % total < WeightBefore(cands, avail, i + 1)
  }

  /** In-flight requests of a candidate the monitor knows; 0 otherwise. */
  function InFlightOf(cands: seq<Candidate>, avail: map<string, Availability>, i: nat): nat
    requires i < |cands|
  {
    if cands[i].key in avail then avail[cands[i].key].inFlight else 0
  }

  /** It competes, and no competing candidate has fewer in flight for its weight. */
  ghost predicate IsLeastLoaded(cands: seq<Candidate>, avail: map<string, Availability>, head: nat) {
    head < |cands| && Competes(cands, avail, head) &&
    forall i: nat | i < |cands| :: Competes(cands, avail, i) ==> LoadedNoMore(cands, avail, head, i)
  }

  predicate LoadedNoMore(cands: seq<Candidate>, avail: map<string, Availability>, a: nat, b: nat)
    requires a < |cands| && b < |cands|
  {
    var wa, wb := if cands[a].weight > 0 then cands[a].weight else 1, if cands[b].weight > 0 then cands[b].weight else 1;
    var left, right := InFlightOf(cands, avail, a) * wb, InFlightOf(cands, avail, b) * wa;
    left < right || (left == right && !Text.Less(cands[b].name, cands[a].name))
  }

  lemma ContendersCompete(cands: seq<Candidate>, avail: map<string, Availability>)
    ensures forall i: nat :: i in Contenders(cands, avail) <==> i < |cands| && Competes(cands, avail, i)
  {
    var eligible := Select(cands, avail, true, |cands|);
    SelectIs(cands, avail, true, |cands|);
    IdentityIs(|cands|);
    forall i: nat | i < |cands| ensures IsEligible(cands, avail, i) <==> Selectable(cands, avail, i) {}
    if eligible == [] {
      forall j: nat | j < |cands| ensures !Selectable(cands, avail, j) {
        assert j !in eligible;
      }
    } else {
      var e := eligible[0];
      assert e in eligible && Selectable(cands, avail, e);
    }
  }

  /** The contenders below `n`. */
  function ContendersBelow(cands: seq<Candidate>, avail: map<string, Availability>, n: nat): seq<nat>
    requires n <= |cands|
  {
    if n == 0 then []
    else ContendersBelow(cands, avail, n - 1) + if Competes(cands, avail, n - 1) then [n - 1] else []
  }

  lemma {:induction false} SelectedBelow(cands: seq<Candidate>, avail: map<string, Availability>, n: nat)
    requires n <= |cands| && exists j: nat :: j < |cands| && Selectable(cands, avail, j)
    ensures Select(cands, avail, true, n) == ContendersBelow(cands, avail, n)
  {
    if n > 0 {
      SelectedBelow(cands, avail, n - 1);
    }
  }

  lemma {:induction false} AllBelow(cands: seq<Candidate>, avail: map<string, Availability>, n: nat)
    requires n <= |cands| && forall j: nat | j < |cands| :: !Selectable(cands, avail, j)
    ensures Identity(n) == ContendersBelow(cands, avail, n)
  {
    if n > 0 {
      AllBelow(cands, avail, n - 1);
      assert Identity(n) == Identity(n - 1) + [n - 1];
    }
  }

  lemma ContendersAreBelow(cands: seq<Candidate>, avail: map<string, Availability>)
    ensures Contenders(cands, avail) == ContendersBelow(cands, avail, |cands|)
  {
    var eligible := Select(cands, avail, true, |cands|);
    SelectIs(cands, avail, true, |cands|);
    if eligible == [] {
      forall j: nat | j < |cands| ensures !Selectable(cands, avail, j) {
        assert j !in eligible && (IsEligible(cands, avail, j) <==> Selectable(cands, avail, j));
      }
      AllBelow(cands, avail, |cands|);
    } else {
      var e := eligible[0];
      assert e in eligible && Selectable(cands, avail, e);
      SelectedBelow(cands, avail, |cands|);
    }
  }

  lemma {:induction false} BelowIsInRange(cands: seq<Candidate>, avail: map<string, Availability>, n: nat)
    requires n <= |cands|
    ensures forall k :: 0 <= k < |ContendersBelow(cands, avail, n)| ==>
              ContendersBelow(cands, avail, n)[k] < n && Competes(cands, avail, ContendersBelow(cands, avail, n)[k])
  {
    if n > 0 {
      BelowIsInRange(cands, avail, n - 1);
    }
  }

  lemma WeightsPush(cands: seq<Candidate>, idx: seq<nat>, i: nat)
    requires (forall k :: 0 <= k < |idx| ==> idx[k] < |cands|) && i < |cands|
    ensures WeightsOf(cands, idx + [i]) == WeightsOf(cands, idx) + [if cands[i].weight > 0 then cands[i].weight else 1]
    ensures Sum(WeightsOf(cands, idx + [i])) == Sum(WeightsOf(cands, idx)) + if cands[i].weight > 0 then cands[i].weight else 1
  {
    var w, x := WeightsOf(cands, idx), if cands[i].weight > 0 then cands[i].weight else 1;
    assert WeightsOf(cands, idx + [i]) == w + [x];
    assert (w + [x])[..|w|] == w;
  }

  lemma OneMoreBelow(cands: seq<Candidate>, before: seq<nat>, n: nat, more: bool)
    requires n < |cands| && forall k :: 0 <= k < |before| ==> before[k] < n
    ensures
      var all := before + if more then [n] else [];
      (forall k :: 0 <= k < |all| ==> all[k] < |cands|) &&
      Sum(WeightsOf(cands, all)) ==
      Sum(WeightsOf(cands, before)) + if !more then 0 else if cands[n].weight > 0 then cands[n].weight else 1
  {
    if more {
      WeightsPush(cands, before, n);
    } else {
      assert before + [] == before;
    }
  }

  lemma {:induction false} WeightsBelow(cands: seq<Candidate>, avail: map<string, Availability>, n: nat)
    requires n <= |cands|
    ensures forall k :: 0 <= k < |ContendersBelow(cands, avail, n)| ==> ContendersBelow(cands, avail, n)[k] < |cands|
    ensures Sum(WeightsOf(cands, ContendersBelow(cands, avail, n))) == WeightBefore(cands, avail, n)
  {
    if n > 0 {
      WeightsBelow(cands, avail, n - 1);
      BelowIsInRange(cands, avail, n - 1);
      OneMoreBelow(cands, ContendersBelow(cands, avail, n - 1), n - 1, Competes(cands, avail, n - 1));
    }
  }

  /** The contenders before a position in their list are those below the one there. */
  lemma {:induction false} PrefixIsBelow(cands: seq<Candidate>, avail: map<string, Availability>, n: nat, pos: nat)
    requires n <= |cands| && pos < |ContendersBelow(cands, avail, n)|
    ensures ContendersBelow(cands, avail, n)[pos] < n
    ensures ContendersBelow(cands, avail, n)[..pos] ==
            ContendersBelow(cands, avail, ContendersBelow(cands, avail, n)[pos])
  {
    var idx, before := ContendersBelow(cands, avail, n), ContendersBelow(cands, avail, n - 1);
    if pos < |before| {
      PrefixIsBelow(cands, avail, n - 1, pos);
      assert idx[..pos] == before[..pos] && idx[pos] == before[pos];
    } else {
      assert idx == before + [n - 1] && idx[..pos] == before;
    }
  }

  lemma PrefixIsWeightBefore(cands: seq<Candidate>, avail: map<string, Availability>, pos: nat)
    requires pos < |Contenders(cands, avail)|
    ensures
      var idx := Contenders(cands, avail);
      Indexes(cands, idx) && idx[pos] < |cands| && Competes(cands, avail, idx[pos]) &&
      Prefix(WeightsOf(cands, idx), pos) == WeightBefore(cands, avail, idx[pos]) &&
      Prefix(WeightsOf(cands, idx), pos + 1) == WeightBefore(cands, avail, idx[pos] + 1) &&
      Sum(WeightsOf(cands, idx)) == WeightBefore(cands, avail, |cands|)
  {
    var idx := Contenders(cands, avail);
    ContendersAreBelow(cands, avail);
    ContendersAre(cands, avail);
    ContendersCompete(cands, avail);
    PrefixIsBelow(cands, avail, |cands|, pos);
    WeightsBelow(cands, avail, idx[pos]);
    WeightsBelow(cands, avail, |cands|);
    var w := WeightsOf(cands, idx);
    assert w[..pos] == WeightsOf(cands, idx[..pos]);
    assert idx[pos] in idx;
    PrefixStep(w, pos);
  }

  /** The position whose bucket holds the ticket is that of the winner. */
  lemma BucketWinsIff(cands: seq<Candidate>, avail: map<string, Availability>, ticket: nat, pos: nat)
    requires pos < |Contenders(cands, avail)| && Indexes(cands, Contenders(cands, avail))
    requires Sum(WeightsOf(cands, Contenders(cands, avail))) > 0
    ensures
      var idx := Contenders(cands, avail);
      InBucket(WeightsOf(cands, idx), ticket % Sum(WeightsOf(cands, idx)), pos) <==> Wins(cands, avail, ticket, idx[pos])
  {
    PrefixIsWeightBefore(cands, avail, pos);
  }

  lemma DrawsWinner(cands: seq<Candidate>, avail: map<string, Availability>, lead: seq<nat>, ticket: nat, hashing: bool)
    requires Draws(cands, avail, lead, ticket, hashing)
    ensures lead != [] && Wins(cands, avail, ticket, lead[0])
  {
    var idx := Contenders(cands, avail);
    var pos: nat :| pos < |idx| && InBucket(WeightsOf(cands, idx), ticket % Sum(WeightsOf(cands, idx)), pos) &&
      lead == if hashing then Promoted(idx, pos) else Rotated(idx, pos);
    BucketWinsIff(cands, avail, ticket, pos);
  }

  lemma LeastLoadedIs(cands: seq<Candidate>, avail: map<string, Availability>, sorted: seq<nat>)
    requires Indexes(cands, sorted) && StablySorted(cands, avail, sorted) && sorted != []
    requires multiset(sorted) == multiset(Contenders(cands, avail))
    ensures IsLeastLoaded(cands, avail, sorted[0])
  {
    var idx, head := Contenders(cands, avail), sorted[0];
    ContendersCompete(cands, avail);
    assert head in multiset(sorted);
    forall i: nat | i < |cands| && Competes(cands, avail, i) ensures LoadedNoMore(cands, avail, head, i) {
      assert i in idx && i in multiset(sorted);
      var k: nat :| k < |sorted| && sorted[k] == i;
      if k > 0 {
        assert InOrder(cands, avail, sorted, 0, k);
      } else {
        Text.LessTotal(cands[i].name, cands[i].name);
      }
    }
  }

  // ----- Shares over many calls ------------------------------------------------------

  /** The heads of consecutive calls that draw by the cursor, from this value on. */
  predicate Drawn(cands: seq<Candidate>, avail: map<string, Availability>, from: nat, heads: seq<nat>) {
    forall k :: 0 <= k < |heads| ==> DrawnAt(cands, avail, from, heads, k)
  }

  predicate DrawnAt(cands: seq<Candidate>, avail: map<string, Availability>, from: nat, heads: seq<nat>, k: nat)
    requires k < |heads|
  {
    Wins(cands, avail, (from + k) % CURSOR_LIMIT, heads[k])
  }

  lemma CountOfLast(heads: seq<nat>, n: nat, i: nat)
    requires |heads| == n + 1
    ensures multiset(heads)[i] == multiset(heads[..n])[i] + if heads[n] == i then 1 else 0
  {
    assert heads == heads[..n] + [heads[n]];
  }

  lemma WinnerIff(cands: seq<Candidate>, avail: map<string, Availability>, ticket: nat, head: nat, pos: nat)
    requires Wins(cands, avail, ticket, head) && pos < |Contenders(cands, avail)|
    requires Indexes(cands, Contenders(cands, avail)) && Sum(WeightsOf(cands, Contenders(cands, avail))) > 0
    ensures
      var idx := Contenders(cands, avail);
      head == idx[pos] <==> InBucket(WeightsOf(cands, idx), ticket % Sum(WeightsOf(cands, idx)), pos)
  {
    BucketWinsIff(cands, avail, ticket, pos);
    OneWinner(cands, avail, ticket, head, Contenders(cands, avail)[pos]);
  }

  lemma OneMoreHead(cands: seq<Candidate>, avail: map<string, Availability>, from: nat, heads: seq<nat>, n: nat, pos: nat)
    requires |heads| == n + 1 && DrawnAt(cands, avail, from, heads, n) && pos < |Contenders(cands, avail)|
    requires Indexes(cands, Contenders(cands, avail)) && Sum(WeightsOf(cands, Contenders(cands, avail))) > 0
    ensures
      var idx := Contenders(cands, avail);
      var w := WeightsOf(cands, idx);
      multiset(heads)[idx[pos]] ==
      multiset(heads[..n])[idx[pos]] + if InBucket(w, ((from + n) % CURSOR_LIMIT) % Sum(w), pos) then 1 else 0
  {
    CountOfLast(heads, n, Contenders(cands, avail)[pos]);
    WinnerIff(cands, avail, (from + n) % CURSOR_LIMIT, heads[n], pos);
  }

  lemma DrawnBefore(cands: seq<Candidate>, avail: map<string, Availability>, from: nat, heads: seq<nat>, n: nat)
    requires |heads| == n + 1 && Drawn(cands, avail, from, heads)
    ensures Drawn(cands, avail, from, heads[..n]) && DrawnAt(cands, avail, from, heads, n)
  {
    forall k | 0 <= k < n ensures DrawnAt(cands, avail, from, heads[..n], k) {
      assert DrawnAt(cands, avail, from, heads, k);
    }
  }

  lemma {:induction false} HeadsCount(cands: seq<Candidate>, avail: map<string, Availability>, from: nat, heads: seq<nat>, n: nat, pos: nat)
    requires |heads| == n && Drawn(cands, avail, from, heads) && pos < |Contenders(cands, avail)|
    requires Indexes(cands, Contenders(cands, avail)) && Sum(WeightsOf(cands, Contenders(cands, avail))) > 0
    ensures
      var idx := Contenders(cands, avail);
      multiset(heads)[idx[pos]] == Draw(WeightsOf(cands, idx), from, n, pos)
  {
    if n > 0 {
      DrawnBefore(cands, avail, from, heads, n - 1);
      HeadsCount(cands, avail, from, heads[..n - 1], n - 1, pos);
      OneMoreHead(cands, avail, from, heads, n - 1, pos);
    }
  }

  lemma {:induction false} WeightGrows(cands: seq<Candidate>, avail: map<string, Availability>, i: nat, j: nat)
    requires i <= j <= |cands|
    ensures WeightBefore(cands, avail, i) <= WeightBefore(cands, avail, j)
  {
    if i < j {
      WeightGrows(cands, avail, i, j - 1);
    }
  }

  lemma OneWinner(cands: seq<Candidate>, avail: map<string, Availability>, ticket: nat, i: nat, j: nat)
    requires Wins(cands, avail, ticket, i)
    ensures Wins(cands, avail, ticket, j) <==> i == j
  {
    if i < j < |cands| {
      WeightGrows(cands, avail, i + 1, j);
    } else if j < i {
      WeightGrows(cands, avail, j + 1, i);
    }
  }

  lemma TotalIsPositive(cands: seq<Candidate>, avail: map<string, Availability>, pos: nat)
    requires pos < |Contenders(cands, avail)|
    ensures Indexes(cands, Contenders(cands, avail))
    ensures 0 < Sum(WeightsOf(cands, Contenders(cands, avail))) == WeightBefore(cands, avail, |cands|)
  {
    PrefixIsWeightBefore(cands, avail, pos);
    WeightGrows(cands, avail, Contenders(cands, avail)[pos] + 1, |cands|);
  }

  /** Over as many consecutive calls that draw by the cursor as the competing candidates weigh in
      all, each of them stands first exactly as often as its configured weight says, unless the
      cursor wraps meanwhile and the total does not divide its range. */
  lemma ConfiguredShares(cands: seq<Candidate>, avail: map<string, Availability>, from: nat, heads: seq<nat>, i: nat)
    requires Drawn(cands, avail, from, heads) && |heads| == WeightBefore(cands, avail, |cands|)
    requires from < CURSOR_LIMIT && |heads| <= CURSOR_LIMIT
    requires from + |heads| <= CURSOR_LIMIT || (|heads| > 0 && CURSOR_LIMIT % |heads| == 0)
    requires i < |cands|
    ensures multiset(heads)[i] ==
            if !Competes(cands, avail, i) then 0 else if cands[i].weight > 0 then cands[i].weight else 1
  {
    if Competes(cands, avail, i) {
      var idx := Contenders(cands, avail);
      ContendersCompete(cands, avail);
      ContendersAre(cands, avail);
      assert i in idx;
      var pos: nat :| pos < |idx| && idx[pos] == i;
      TotalIsPositive(cands, avail, pos);
      HeadsCount(cands, avail, from, heads, |heads|, pos);
      DrawsAreFair(WeightsOf(cands, idx), from, pos);
    } else {
      forall k | 0 <= k < |heads| ensures heads[k] != i {
        assert DrawnAt(cands, avail, from, heads, k);
      }
    }
  }

  /** At least two candidates compete. */
  predicate SeveralCompete(cands: seq<Candidate>, avail: map<string, Availability>) {
    exists i: nat, j: nat | j < |cands| :: i < j && Competes(cands, avail, i) && Competes(cands, avail, j)
  }

  /** Who stands first, and what becomes of the cursor: the least loaded of several; or the winner of
      the hash of a value that is not blank; or the winner of the cursor, which then moves on. */
  ghost predicate Leads(cands: seq<Candidate>, avail: map<string, Availability>, options: Options,
                        digest: string -> nat, value: string, before: nat, after: nat, head: nat)
  {
    if options.leastConn && SeveralCompete(cands, avail) then after == before && IsLeastLoaded(cands, avail, head)
    else if options.hashing && !Text.Blank(value) then after == before && Wins(cands, avail, digest(value), head)
    else after == (before + 1) % CURSOR_LIMIT && Wins(cands, avail, before, head)
  }

  lemma SeveralContend(cands: seq<Candidate>, avail: map<string, Availability>)
    ensures SeveralCompete(cands, avail) <==> |Contenders(cands, avail)| > 1
  {
    var idx := Contenders(cands, avail);
    ContendersCompete(cands, avail);
    ContendersAre(cands, avail);
    if |idx| > 1 {
      assert Rising(idx, 0, 1) && idx[0] in idx && idx[1] in idx;
    }
    if i: nat, j: nat :| i < j < |cands| && Competes(cands, avail, i) && Competes(cands, avail, j) {
      assert i in idx && j in idx;
    }
  }

  lemma ArrangedLeads(cands: seq<Candidate>, avail: map<string, Availability>, options: Options,
                      digest: string -> nat, value: string, before: nat, after: nat, lead: seq<nat>)
    requires Arranged(cands, avail, options, digest, value, before, after, lead)
    requires multiset(lead) == multiset(Contenders(cands, avail))
    ensures lead != [] && Leads(cands, avail, options, digest, value, before, after, lead[0])
  {
    SeveralContend(cands, avail);
    if options.leastConn && |Contenders(cands, avail)| > 1 {
      ContendersAre(cands, avail);
      forall k | 0 <= k < |lead| ensures lead[k] < |cands| {
        assert lead[k] in multiset(lead);
        assert lead[k] in Contenders(cands, avail);
      }
      LeastLoadedIs(cands, avail, lead);
    } else if options.hashing && !Text.Blank(value) {
      DrawsWinner(cands, avail, lead, digest(value), true);
    } else {
      DrawsWinner(cands, avail, lead, before, options.hashing);
    }
  }

  /** What comes behind the first: the rest by load, ties by name and then by position; or in the order
      of the list; or in the order of the list from the first on, and then from its beginning. */
  ghost predicate Trails(cands: seq<Candidate>, avail: map<string, Availability>, options: Options, lead: seq<nat>) {
    Indexes(cands, lead) &&
    if options.leastConn && SeveralCompete(cands, avail) then
      forall a: nat, b: nat | b < |lead| :: a < b ==> LoadedBefore(cands, avail, lead, a, b)
    else if options.hashing then lead != [] && Ascending(lead[1..])
    else exists cut: nat :: WrapsAt(lead, cut)
  }

  /** Up to `cut` the list runs on, and there it begins again. */
  ghost predicate WrapsAt(lead: seq<nat>, cut: nat) {
    cut <= |lead| && Ascending(lead[..cut]) && Ascending(lead[cut..]) && Ascending(lead[cut..] + lead[..cut])
  }

  predicate LoadedBefore(cands: seq<Candidate>, avail: map<string, Availability>, lead: seq<nat>, a: nat, b: nat)
    requires Indexes(cands, lead) && a < |lead| && b < |lead|
  {
    LoadedNoMore(cands, avail, lead[a], lead[b]) && (LoadedNoMore(cands, avail, lead[b], lead[a]) ==> lead[a] < lead[b])
  }

  lemma BeforeIff(cands: seq<Candidate>, avail: map<string, Availability>, i: nat, j: nat)
    requires i < |cands| && j < |cands|
    ensures LoadedNoMore(cands, avail, i, j) <==> !Before(cands, avail, j, i)
  {
  }

  lemma PromotedTrails(idx: seq<nat>, pos: nat)
    requires Ascending(idx) && pos < |idx|
    ensures Ascending(Promoted(idx, pos)[1..])
  {
    var rest := Promoted(idx, pos)[1..];
    assert rest == idx[..pos] + idx[pos + 1..];
    forall i: nat, j: nat | i < j < |rest| ensures Rising(rest, i, j) {
      assert Rising(idx, if i < pos then i else i + 1, if j < pos then j else j + 1);
    }
  }

  lemma PartAscends(s: seq<nat>, i: nat, j: nat)
    requires Ascending(s) && i <= j <= |s|
    ensures Ascending(s[i..j])
  {
    forall a: nat, b: nat | a < b < j - i ensures Rising(s[i..j], a, b) {
      assert Rising(s, i + a, i + b);
    }
  }

  lemma RotatedTrails(idx: seq<nat>, pos: nat)
    requires Ascending(idx) && pos < |idx|
    ensures WrapsAt(Rotated(idx, pos), |idx| - pos)
  {
    var lead, cut := Rotated(idx, pos), |idx| - pos;
    assert lead[..cut] == idx[pos..|idx|] && lead[cut..] == idx[0..pos] && lead[cut..] + lead[..cut] == idx;
    PartAscends(idx, pos, |idx|);
    PartAscends(idx, 0, pos);
  }

  lemma SortedTrails(cands: seq<Candidate>, avail: map<string, Availability>, lead: seq<nat>)
    requires Indexes(cands, lead) && StablySorted(cands, avail, lead)
    ensures forall a: nat, b: nat | b < |lead| :: a < b ==> LoadedBefore(cands, avail, lead, a, b)
  {
    forall a: nat, b: nat | a < b < |lead| ensures LoadedBefore(cands, avail, lead, a, b) {
      assert InOrder(cands, avail, lead, a, b);
      BeforeIff(cands, avail, lead[a], lead[b]);
      BeforeIff(cands, avail, lead[b], lead[a]);
    }
  }

  lemma DrawnFrom(cands: seq<Candidate>, avail: map<string, Availability>, lead: seq<nat>, ticket: nat, hashing: bool)
    returns (pos: nat)
    requires Draws(cands, avail, lead, ticket, hashing)
    ensures pos < |Contenders(cands, avail)| && Ascending(Contenders(cands, avail)) && Indexes(cands, Contenders(cands, avail))
    ensures lead == if hashing then Promoted(Contenders(cands, avail), pos) else Rotated(Contenders(cands, avail), pos)
  {
    var idx := Contenders(cands, avail);
    ContendersAre(cands, avail);
    pos :| pos < |idx| && InBucket(WeightsOf(cands, idx), ticket % Sum(WeightsOf(cands, idx)), pos) &&
      lead == if hashing then Promoted(idx, pos) else Rotated(idx, pos);
  }

  lemma DrawsTrails(cands: seq<Candidate>, avail: map<string, Availability>, lead: seq<nat>, ticket: nat, hashing: bool)
    requires Draws(cands, avail, lead, ticket, hashing)
    ensures Indexes(cands, lead)
    ensures if hashing then lead != [] && Ascending(lead[1..]) else exists cut: nat :: WrapsAt(lead, cut)
  {
    var pos := DrawnFrom(cands, avail, lead, ticket, hashing);
    ArrangementKeepsRange(cands, Contenders(cands, avail), pos);
    if hashing {
      PromotedTrails(Contenders(cands, avail), pos);
    } else {
      RotatedTrails(Contenders(cands, avail), pos);
    }
  }

  lemma ArrangementKeepsRange(cands: seq<Candidate>, idx: seq<nat>, pos: nat)
    requires Indexes(cands, idx) && pos < |idx|
    ensures Indexes(cands, Promoted(idx, pos)) && Indexes(cands, Rotated(idx, pos))
  {
  }

  lemma ArrangedTrails(cands: seq<Candidate>, avail: map<string, Availability>, options: Options,
                       digest: string -> nat, value: string, before: nat, after: nat, lead: seq<nat>)
    requires Arranged(cands, avail, options, digest, value, before, after, lead)
    requires multiset(lead) == multiset(Contenders(cands, avail))
    ensures Trails(cands, avail, options, lead)
  {
    SeveralContend(cands, avail);
    if options.leastConn && |Contenders(cands, avail)| > 1 {
      ContendersAre(cands, avail);
      forall k | 0 <= k < |lead| ensures lead[k] < |cands| {
        assert lead[k] in multiset(lead);
        assert lead[k] in Contenders(cands, avail);
      }
      SortedTrails(cands, avail, lead);
    } else if options.hashing && !Text.Blank(value) {
      DrawsTrails(cands, avail, lead, digest(value), true);
    } else {
      DrawsTrails(cands, avail, lead, before, options.hashing);
    }
  }

  /** Consecutive calls with the same candidates: the heads they put first and the cursor before,
      between and after them. */
  ghost predicate Calls(cands: seq<Candidate>, avail: map<string, Availability>, options: Options,
                        digest: string -> nat, value: string, cursors: seq<nat>, heads: seq<nat>)
  {
    |cursors| == |heads| + 1 && cursors[0] < CURSOR_LIMIT &&
    forall k :: 0 <= k < |heads| ==> CallAt(cands, avail, options, digest, value, cursors, heads, k)
  }

  ghost predicate CallAt(cands: seq<Candidate>, avail: map<string, Availability>, options: Options,
                         digest: string -> nat, value: string, cursors: seq<nat>, heads: seq<nat>, k: nat)
    requires |cursors| == |heads| + 1 && k < |heads|
  {
    Leads(cands, avail, options, digest, value, cursors[k], cursors[k + 1], heads[k])
  }

  lemma {:induction false} CursorCounts(cands: seq<Candidate>, avail: map<string, Availability>, options: Options,
                                        digest: string -> nat, value: string, cursors: seq<nat>, heads: seq<nat>, k: nat)
    requires Calls(cands, avail, options, digest, value, cursors, heads) && k <= |heads|
    requires !(options.leastConn && SeveralCompete(cands, avail)) && !(options.hashing && !Text.Blank(value))
    ensures cursors[k] == (cursors[0] + k) % CURSOR_LIMIT
  {
    if k == 0 {
      SmallRemainder(cursors[0], CURSOR_LIMIT);
    } else {
      CursorCounts(cands, avail, options, digest, value, cursors, heads, k - 1);
      assert CallAt(cands, avail, options, digest, value, cursors, heads, k - 1);
      NextRemainder(cursors[0] + k - 1);
    }
  }

  lemma NextRemainder(x: nat)
    ensures (x % CURSOR_LIMIT + 1) % CURSOR_LIMIT == (x + 1) % CURSOR_LIMIT
  {
  }

  /** So over as many calls as the competing candidates weigh in all, by the cursor, each of them
      stands first exactly as often as its configured weight says. */
  lemma CallsAreFair(cands: seq<Candidate>, avail: map<string, Availability>, options: Options,
                     digest: string -> nat, value: string, cursors: seq<nat>, heads: seq<nat>, i: nat)
    requires Calls(cands, avail, options, digest, value, cursors, heads) && i < |cands|
    requires !(options.leastConn && SeveralCompete(cands, avail)) && !(options.hashing && !Text.Blank(value))
    requires |heads| == WeightBefore(cands, avail, |cands|) && cursors[0] + |heads| <= CURSOR_LIMIT
    ensures multiset(heads)[i] ==
            if !Competes(cands, avail, i) then 0 else if cands[i].weight > 0 then cands[i].weight else 1
  {
    forall k | 0 <= k < |heads| ensures DrawnAt(cands, avail, cursors[0], heads, k) {
      CursorCounts(cands, avail, options, digest, value, cursors, heads, k);
      assert CallAt(cands, avail, options, digest, value, cursors, heads, k);
    }
    ConfiguredShares(cands, avail, cursors[0], heads, i);
  }

  method Partition(cands: seq<Candidate>, avail: map<string, Availability>)
    returns (eligible: seq<nat>, fallback: seq<nat>)
    ensures eligible == Select(cands, avail, true, |cands|) && fallback == Select(cands, avail, false, |cands|)
  {
    eligible, fallback := [], [];
    for i := 0 to |cands|
      invariant eligible == Select(cands, avail, true, i) && fallback == Select(cands, avail, false, i)
    {
      if !cands[i].managed || At(avail, cands[i].key).selectable {
        eligible := eligible + [i];
      } else {
        fallback := fallback + [i];
      }
    }
  }

  class Selector {
    var cursor: nat

    ghost predicate Valid()
      reads this
    {
      cursor < CURSOR_LIMIT
    }

    constructor ()
      ensures Valid() && cursor == 0
    {
      cursor := 0;
    }

    /** Takes the next cursor value; the counter is a uint64. */
    method CursorIndex(w: seq<int>) returns (pos: nat)
      requires Valid() && AllPositive(w) && w != []
      modifies this
      ensures Valid() && cursor == (old(cursor) + 1) % CURSOR_LIMIT
      ensures Sum(w) > 0 && InBucket(w, old(cursor) % Sum(w), pos)
    {
      ExactShares(w, 0, 0);
      var total := Sum(w);
      var value := cursor;
      cursor := if cursor + 1 == CURSOR_LIMIT then 0 else cursor + 1;
      pos := PickBucket(w, value % total);
    }

    /** A blank value falls back to the cursor, any other leaves the cursor alone. */
    method HashIndex(w: seq<int>, digest: string -> nat, value: string) returns (pos: nat)
      requires Valid() && AllPositive(w) && w != []
      modifies this
      ensures Valid() && Sum(w) > 0
      ensures Text.Blank(value) ==> InBucket(w, old(cursor) % Sum(w), pos) && cursor == (old(cursor) + 1) % CURSOR_LIMIT
      ensures !Text.Blank(value) ==> InBucket(w, digest(value) % Sum(w), pos) && cursor == old(cursor)
    {
      if Text.Blank(value) {
        pos := CursorIndex(w);
        return;
      }
      ExactShares(w, 0, 0);
      var total := Sum(w);
      pos := PickBucket(w, digest(value) % total);
    }

    /** orderProxyRouteCandidates, as indexes into the candidates. */
    method Order(cands: seq<Candidate>, avail: map<string, Availability>, options: Options,
                 digest: string -> nat, value: string)
      returns (order: seq<nat>)
      requires Valid()
      modifies this
      ensures Valid() && multiset(order) == multiset(Identity(|cands|)) && EligibleFirst(cands, avail, order)
      ensures |cands| <= 1 ==> cursor == old(cursor)
      ensures |cands| > 1 ==>
                var n := |Contenders(cands, avail)|;
                n <= |order| &&
                Arranged(cands, avail, options, digest, value, old(cursor), cursor, order[..n]) && Ascending(order[n..])
      ensures |cands| > 1 ==> order != [] && Leads(cands, avail, options, digest, value, old(cursor), cursor, order[0])
      ensures |cands| > 1 ==> |Contenders(cands, avail)| <= |order| && Trails(cands, avail, options, order[..|Contenders(cands, avail)|])
    {
      if |cands| <= 1 {
        order := Identity(|cands|);
        return;
      }
      ghost var n;
      order, n := OrderMany(cands, avail, options, digest, value);
      assert n == |Contenders(cands, avail)|;
      assert order[..n][0] == order[0];
    }

    method OrderMany(cands: seq<Candidate>, avail: map<string, Availability>, options: Options,
                     digest: string -> nat, value: string)
      returns (order: seq<nat>, ghost n: nat)
      requires Valid() && |cands| > 1
      modifies this
      ensures Valid() && multiset(order) == multiset(Identity(|cands|)) && EligibleFirst(cands, avail, order)
      ensures n == |Contenders(cands, avail)| <= |order|
      ensures Arranged(cands, avail, options, digest, value, old(cursor), cursor, order[..n])
      ensures n > 0 && Leads(cands, avail, options, digest, value, old(cursor), cursor, order[0]) && Ascending(order[n..])
      ensures Trails(cands, avail, options, order[..n])
    {
      var eligible, fallback := Partition(cands, avail);
      ContendersAre(cands, avail);
      if |eligible| == 0 {
        eligible, fallback := eligible + fallback, [];
      }
      var head := Lead(cands, avail, eligible, options, digest, value);
      order, n := head + fallback, |eligible|;
      OrderIsEligibleFirst(cands, avail, head, fallback);
      assert order[..n] == head && order[n..] == fallback;
      SelectAscends(cands, avail, false, |cands|);
    }

    /** Arranges the contenders by the strategy in force. */
    method Lead(cands: seq<Candidate>, avail: map<string, Availability>, eligible: seq<nat>, options: Options,
                digest: string -> nat, value: string)
      returns (head: seq<nat>)
      requires Valid() && eligible == Contenders(cands, avail) && eligible != []
      requires Indexes(cands, eligible) && Ascending(eligible)
      modifies this
      ensures Valid() && multiset(head) == multiset(eligible) && |head| == |eligible|
      ensures Arranged(cands, avail, options, digest, value, old(cursor), cursor, head)
      ensures head != [] && Leads(cands, avail, options, digest, value, old(cursor), cursor, head[0])
      ensures Trails(cands, avail, options, head)
    {
      if options.leastConn && |eligible| > 1 {
        head := StableSort(cands, avail, eligible);
        SameSize(head, eligible);
        HeadIsLeast(cands, avail, head);
      } else if options.hashing {
        var pos := HashIndex(WeightsOf(cands, eligible), digest, value);
        head := Promote(eligible, pos);
        PromotedCounts(eligible, pos);
      } else {
        var pos := CursorIndex(WeightsOf(cands, eligible));
        head := Rotate(eligible, pos);
        RotatedCounts(eligible, pos);
      }
      ArrangedLeads(cands, avail, options, digest, value, old(cursor), cursor, head);
      ArrangedTrails(cands, avail, options, digest, value, old(cursor), cursor, head);
    }
  }

  lemma PromotedCounts(idx: seq<nat>, pos: nat)
    requires pos < |idx|
    ensures multiset(Promoted(idx, pos)) == multiset(idx) && |Promoted(idx, pos)| == |idx|
  {
    assert idx == idx[..pos] + [idx[pos]] + idx[pos + 1..];
  }

  lemma RotatedCounts(idx: seq<nat>, pos: nat)
    requires pos < |idx|
    ensures multiset(Rotated(idx, pos)) == multiset(idx) && |Rotated(idx, pos)| == |idx|
  {
    assert idx == idx[..pos] + idx[pos..];
  }

  lemma SameSize(a: seq<nat>, b: seq<nat>)
    requires multiset(a) == multiset(b)
    ensures |a| == |b|
  {
    assert |multiset(a)| == |a| && |multiset(b)| == |b|;
  }
}
