// The retrying transport: what one request does to the health monitor, and what any
// interleaving of requests, probes, stray releases and configuration updates adds up to.
module Transport {
  import opened UpstreamHealth
  import Text
  import opened Wrappers

  datatype Candidate = Candidate(key: string, name: string)

  datatype RetryPolicy = RetryPolicy(attempts: int, statusCodes: set<int>, methods: set<string>) {
    predicate Enabled() {
      attempts > 0
    }

    predicate AllowsMethod(verb: string) {
      Enabled() && Text.ToUpper(Text.Trim(verb)) in methods
    }

    predicate RetryableStatus(status: int) {
      status in statusCodes
    }
  }

  /** What the upstream answers to one send. */
  datatype Reply = SendError | Response(status: int, hasBody: bool)

  datatype Error = CloneFailed(position: nat) | Unavailable(position: nat) | SendFailed(position: nat)
                 | RetryStatus(status: int)

  /** One visible action of a request: a send to a target position, or a monitor operation. */
  datatype Act = Send(position: nat) | Track(key: string, event: Event)

  /** How one attempt goes: unmonitored, refused, acquired and released, or acquired and held
      by the response body. */
  datatype Shape = Plain | Refusal | Finished(event: Event) | OpenBody(event: Event)

  function ActsOf(shape: Shape, key: string, i: nat): seq<Act> {
    match shape
    case Plain => [Send(i)]
    case Refusal => [Track(key, Refused)]
    case Finished(event) => [Track(key, Acquired), Send(i), Track(key, event), Track(key, Released)]
    case OpenBody(event) => [Track(key, Acquired), Send(i), Track(key, event)]
  }

  /** A request's targets and policy, and the answers its surroundings will give at each
      position: whether the request can be cloned, whether the monitor grants, the reply. */
  datatype Call = Call(
    tracked: bool, targets: seq<Candidate>, policy: RetryPolicy, verb: string,
    clones: nat -> bool, grants: nat -> bool, replies: nat -> Reply)
  {
    /** maxAttempts for a non-empty target list. */
    function Limit(): (n: nat)
      ensures n <= |targets| && (targets != [] ==> 1 <= n)
      ensures policy.attempts >= 0 ==> n <= 1 + policy.attempts
      ensures !policy.AllowsMethod(verb) ==> n <= 1
      ensures policy.AllowsMethod(verb) ==> n == |targets| || n == 1 + policy.attempts
    {
      var n := if policy.AllowsMethod(verb) then 1 + policy.attempts else 1;
      if |targets| < n then |targets| else n
    }

    /** The position is granted and answered, for good: not by a retry code, or it is the last. */
    predicate Settles(i: nat, m: nat) {
      (tracked && i < |targets| && targets[i].key != "" ==> grants(i)) &&
      match replies(i)
      case SendError => false
      case Response(status, _) => status !in policy.statusCodes || i + 1 == m
    }

    /** The first `n` of `m` positions were tried, all but the last in vain, and the last one's answer
        is the response, if it settled the request. */
    ghost predicate Tried(m: nat, n: nat, resp: Option<Reply>) {
      n <= m && (forall i: nat :: i < n ==> clones(i)) && (forall i: nat :: i + 1 < n ==> !Settles(i, m)) &&
      resp == if n > 0 && Settles(n - 1, m) then Some(replies(n - 1)) else None
    }

    predicate Watched(i: nat) {
      tracked && i < |targets| && targets[i].key != ""
    }

    predicate Refuses(i: nat) {
      Watched(i) && !grants(i)
    }

    predicate BadStatus(i: nat) {
      replies(i).Response? && policy.RetryableStatus(replies(i).status)
    }

    /** The attempt that ends the request with a response. */
    predicate Answers(i: nat) {
      !Refuses(i) && replies(i).Response? && !(BadStatus(i) && policy.Enabled() && i + 1 < Limit())
    }

    function Shape(i: nat): Shape {
      if !Watched(i) then Plain
      else if !grants(i) then Refusal
      else
        var event := if replies(i).SendError? || BadStatus(i) then Failed else Succeeded;
        if Answers(i) && replies(i).hasBody then OpenBody(event) else Finished(event)
    }

    /** The actions of one attempt whose request could be cloned. */
    function Acts(i: nat): seq<Act> {
      ActsOf(Shape(i), if i < |targets| then targets[i].key else "", i)
    }

    /** The actions of the first `n` attempts. */
    function Transcript(n: nat): seq<Act> {
      if n == 0 then [] else Transcript(n - 1) + Acts(n - 1)
    }

    /** The backend a finished request still holds: that of a response whose body is open. */
    function StillHeld(n: nat): Option<string> {
      if n > 0 && Answers(n - 1) && Watched(n - 1) && replies(n - 1).hasBody
      then Some(targets[n - 1].key) else None
    }
  }

  // ----- Which answers count as failures ---------------------------------------------

  /** The settings the retry policy is built from, and the status codes that are to count against
      an upstream's health. */
  datatype Settings = Settings(attempts: int, statusCodes: seq<int>, methods: seq<string>, unhealthyCodes: seq<int>)

  function RetryCodes(s: Settings): set<int> {
    if s.statusCodes == [] then {502, 503, 504} else set c | c in s.statusCodes
  }

  function RetryMethods(s: Settings): set<string> {
    Verbs(if s.methods == [] then ["GET", "HEAD", "OPTIONS"] else s.methods)
  }

  function Verbs(methods: seq<string>): set<string> {
    set m | m in methods :: Text.ToUpper(Text.Trim(m))
  }

  lemma VerbsStep(methods: seq<string>, m: string)
    ensures Verbs(methods + [m]) == Verbs(methods) + {Text.ToUpper(Text.Trim(m))}
  {
    var all := methods + [m];
    assert m in all && forall x :: x in methods ==> x in all;
  }

  method BuildPolicy(s: Settings) returns (p: RetryPolicy)
    ensures p == RetryPolicy(s.attempts, RetryCodes(s), RetryMethods(s))
  {
    var codes: set<int> := {};
    if s.statusCodes == [] {
      codes := {502, 503, 504};
    }
    for i := 0 to |s.statusCodes|
      invariant codes == if s.statusCodes == [] then {502, 503, 504} else set c | c in s.statusCodes[..i]
    {
      assert s.statusCodes[..i + 1] == s.statusCodes[..i] + [s.statusCodes[i]];
      codes := codes + {s.statusCodes[i]};
    }
    assert s.statusCodes[..|s.statusCodes|] == s.statusCodes;
    var methods := if s.methods == [] then ["GET", "HEAD", "OPTIONS"] else s.methods;
    var verbs: set<string> := {};
    for i := 0 to |methods|
      invariant verbs == Verbs(methods[..i])
    {
      assert methods[..i + 1] == methods[..i] + [methods[i]];
      VerbsStep(methods[..i], methods[i]);
      verbs := verbs + {Text.ToUpper(Text.Trim(methods[i]))};
    }
    assert methods[..|methods|] == methods;
    p := RetryPolicy(s.attempts, codes, verbs);
  }

  /** What an attempt records, if it records anything. */
  function Records(call: Call, i: nat): Option<Event> {
    match call.Shape(i)
    case Finished(event) => Some(event)
    case OpenBody(event) => Some(event)
    case _ => None
  }

  predicate BuiltFrom(p: RetryPolicy, s: Settings) {
    p == RetryPolicy(s.attempts, RetryCodes(s), RetryMethods(s))
  }

  /** Whatever the settings, an attempt that got an answer records a failure for the retry codes
      and a success for all others. */
  lemma AnswerRecords(call: Call, i: nat, s: Settings)
    requires BuiltFrom(call.policy, s) && call.Watched(i) && call.grants(i) && call.replies(i).Response?
    ensures Records(call, i) == Some(if call.replies(i).status in RetryCodes(s) then Failed else Succeeded)
  {
  }

  /** A call to one monitored upstream that answers with this status. */
  function CallTo(s: Settings, status: int): Call {
    Call(true, [Candidate("k", "n")], RetryPolicy(s.attempts, RetryCodes(s), RetryMethods(s)), "GET",
         _ => true, _ => true, _ => Response(status, false))
  }

  predicate CountsAgainst(s: Settings, status: int) {
    Records(CallTo(s, status), 0) == Some(Failed)
  }

  /** The codes configured as unhealthy are the ones that count against the upstream if and only if
      they are the retry codes. */
  lemma UnhealthyCodesCountIff(s: Settings)
    ensures (forall status :: CountsAgainst(s, status) <==> status in s.unhealthyCodes) <==>
            RetryCodes(s) == set c | c in s.unhealthyCodes
  {
    forall status ensures CountsAgainst(s, status) <==> status in RetryCodes(s) {
      AnswerRecords(CallTo(s, status), 0, s);
    }
    if forall status :: CountsAgainst(s, status) <==> status in s.unhealthyCodes {
      forall c ensures c in RetryCodes(s) <==> c in s.unhealthyCodes {
        assert CountsAgainst(s, c) <==> c in s.unhealthyCodes;
      }
    }
  }

  /** Status 500, configured as unhealthy, is recorded as a success. */
  lemma UnhealthyStatusSucceeds()
    ensures
      var s := Settings(0, [], [], [500]);
      500 in s.unhealthyCodes && Records(CallTo(s, 500), 0) == Some(Succeeded)
  {
    var s := Settings(0, [], [], [500]);
    AnswerRecords(CallTo(s, 500), 0, s);
  }

  // ----- One request -----------------------------------------------------------------

  /** One attempt at a cloned request: acquire, send, record, and release unless a body stays
      open. `answer` is the response when this attempt ends the request. */
  method Attempt(call: Call, i: nat) returns (acts: seq<Act>, answer: Option<Reply>, err: Error)
    requires i < call.Limit() && call.targets != []
    ensures acts == call.Acts(i)
    ensures answer == if call.Answers(i) then Some(call.replies(i)) else None
    ensures err == if call.Refuses(i) then Unavailable(i)
                   else if call.replies(i).SendError? then SendFailed(i) else RetryStatus(call.replies(i).status)
  {
    var key := call.targets[i].key;
    var watched := call.tracked && key != "";
    acts := [];
    if watched {
      if !call.grants(i) {
        return [Track(key, Refused)], None, Unavailable(i);
      }
      acts := acts + [Track(key, Acquired)];
    }
    acts := acts + [Send(i)];
    match call.replies(i) {
      case SendError =>
        if watched {
          acts := acts + [Track(key, Failed), Track(key, Released)];
        }
        return acts, None, SendFailed(i);
      case Response(status, hasBody) =>
        err := RetryStatus(status);
        if call.policy.Enabled() && i + 1 < call.Limit() && call.policy.RetryableStatus(status) {
          if watched {
            acts := acts + [Track(key, Failed), Track(key, Released)];
          }
          return acts, None, err;
        }
        if watched {
          acts := acts + [Track(key, if call.policy.RetryableStatus(status) then Failed else Succeeded)];
          if !hasBody {
            acts := acts + [Track(key, Released)];
          }
        }
        return acts, Some(call.replies(i)), err;
    }
  }

  lemma SettlesIffAnswers(call: Call, i: nat)
    requires i < call.Limit() <= |call.targets|
    ensures call.Settles(i, call.Limit()) <==> call.Answers(i)
  {
  }

  lemma AnswersAreTried(call: Call, n: nat, resp: Option<Reply>)
    requires n <= call.Limit() && (forall i: nat :: i < n ==> call.clones(i)) && (forall i: nat :: i + 1 < n ==> !call.Answers(i))
    requires resp == if n > 0 && call.Answers(n - 1) then Some(call.replies(n - 1)) else None
    ensures call.Tried(call.Limit(), n, resp)
  {
    forall i: nat | i < n ensures call.Settles(i, call.Limit()) <==> call.Answers(i) {
      SettlesIffAnswers(call, i);
    }
  }

  /** What one attempt does: without monitoring only the send; refused, nothing but that; granted, it
      acquires, sends, records a failure if there was no answer or one with a retry code, else a
      success, and releases, unless the body of the response it settles on stays open. */
  lemma AttemptIs(call: Call, i: nat)
    requires i < call.Limit() <= |call.targets|
    ensures
      var key, answer := call.targets[i].key, call.replies(i);
      if !call.tracked || key == "" then call.Acts(i) == [Send(i)]
      else if !call.grants(i) then call.Acts(i) == [Track(key, Refused)]
      else
        var bad := answer == SendError || answer.status in call.policy.statusCodes;
        var open := answer.Response? && answer.hasBody && call.Settles(i, call.Limit());
        call.Acts(i) == [Track(key, Acquired), Send(i), Track(key, if bad then Failed else Succeeded)] +
                        if open then [] else [Track(key, Released)]
  {
    SettlesIffAnswers(call, i);
  }

  /** How many positions there are to try: one and the retries, if the policy retries the method, but
      no more than targets. */
  lemma LimitIs(call: Call)
    requires call.targets != []
    ensures
      var retries := call.policy.attempts > 0 && Text.ToUpper(Text.Trim(call.verb)) in call.policy.methods;
      call.Limit() == if retries && call.policy.attempts < |call.targets| then 1 + call.policy.attempts
                      else if retries then |call.targets| else 1
  {
  }

  /** The targets in order, up to the first answer that is not retried. */
  method TryTargets(call: Call)
    returns (trace: seq<Act>, n: nat, resp: Option<Reply>, err: Option<Error>)
    requires call.targets != []
    ensures resp.Some? <==> err.None?
    ensures n <= call.Limit() && trace == call.Transcript(n)
    ensures (forall i: nat :: i < n ==> call.clones(i)) && (forall i: nat :: i + 1 < n ==> !call.Answers(i))
    ensures resp == if n > 0 && call.Answers(n - 1) then Some(call.replies(n - 1)) else None
    ensures err.Some? ==> (n < call.Limit() ==> !call.clones(n)) && err == Some(FailureOf(call, n, call.Limit()))
  {
    trace, n := [], 0;
    var last := Unavailable(0);
    while n < call.Limit()
      invariant n <= call.Limit() && trace == call.Transcript(n)
      invariant forall i: nat :: i < n ==> call.clones(i) && !call.Answers(i)
      invariant n == call.Limit() ==> last == FailureOf(call, n, call.Limit())
    {
      if !call.clones(n) {
        return trace, n, None, Some(CloneFailed(n));
      }
      var acts, answer, failure := Attempt(call, n);
      trace, n := trace + acts, n + 1;
      if answer.Some? {
        return trace, n, answer, None;
      }
      last := failure;
    }
    return trace, n, None, Some(last);
  }

  /** Why a request failed after `n` of `m` positions: the next one could not be cloned, or else what
      went wrong at the last. */
  function FailureOf(call: Call, n: nat, m: nat): Error {
    if n < m || n == 0 then CloneFailed(n)
    else if call.Refuses(n - 1) then Unavailable(n - 1)
    else if call.replies(n - 1).SendError? then SendFailed(n - 1)
    else RetryStatus(call.replies(n - 1).status)
  }

  /** Tries the targets in order. `n` counts the attempts that could be cloned. A response and
      an error exclude each other. The positions are tried until one settles the request, and an
      error comes only when all were tried or the request could not be cloned. */
  method RoundTrip(call: Call)
    returns (trace: seq<Act>, n: nat, resp: Option<Reply>, err: Option<Error>)
    ensures resp.Some? <==> err.None?
    ensures call.targets == [] ==>
              trace == [Send(0)] && n == 0 && (resp == if call.replies(0).Response? then Some(call.replies(0)) else None)
    ensures call.targets != [] ==>
              var retries := call.policy.attempts > 0 && Text.ToUpper(Text.Trim(call.verb)) in call.policy.methods;
              var m := if retries && call.policy.attempts < |call.targets| then 1 + call.policy.attempts
                       else if retries then |call.targets| else 1;
              call.Tried(m, n, resp) && (n < m && resp.None? ==> !call.clones(n)) &&
              (err.Some? ==> err.value == FailureOf(call, n, m))
    ensures call.targets != [] ==>
              n <= call.Limit() && trace == call.Transcript(n) && (forall i: nat :: i + 1 < n ==> !call.Answers(i)) &&
              (resp.Some? <==> n > 0 && call.Answers(n - 1))
  {
    if call.targets == [] {
      trace, n := [Send(0)], 0;
      match call.replies(0) {
        case SendError => resp, err := None, Some(SendFailed(0));
        case Response(_, _) => resp, err := Some(call.replies(0)), None;
      }
      return;
    }
    trace, n, resp, err := TryTargets(call);
    LimitIs(call);
    AnswersAreTried(call, n, resp);
  }

  // ----- What one request's actions amount to ----------------------------------------

  /** What a holder of `held` may do next. */
  predicate Proper(held: Option<string>, a: Act) {
    match a
    case Send(_) => true
    case Track(key, event) =>
      if event == Acquired || event == Refused then held == None
      else !event.Probed? && held == Some(key)
  }

  function Moved(held: Option<string>, a: Act): Option<string> {
    if a.Track? && a.event == Acquired then Some(a.key)
    else if a.Track? && a.event == Released then None
    else held
  }

  /** What is held after these actions, if each of them was proper. */
  function Walk(held: Option<string>, t: seq<Act>): Option<Option<string>>
    decreases t
  {
    if t == [] then Some(held)
    else if !Proper(held, t[0]) then None
    else Walk(Moved(held, t[0]), t[1..])
  }

  /** Acquire only when holding nothing; record and release only what is held. */
  predicate Disciplined(t: seq<Act>) {
    Walk(None, t).Some?
  }

  /** The backend held after disciplined actions. */
  function Hold(t: seq<Act>): Option<string> {
    match Walk(None, t)
    case Some(held) => held
    case None => None
  }

  lemma {:induction false} WalkConcat(held: Option<string>, a: seq<Act>, b: seq<Act>)
    ensures Walk(held, a + b) == if Walk(held, a).None? then None else Walk(Walk(held, a).value, b)
    decreases a
  {
    if a == [] {
      assert a + b == b;
    } else {
      assert (a + b)[1..] == a[1..] + b;
      if Proper(held, a[0]) {
        WalkConcat(Moved(held, a[0]), a[1..], b);
      }
    }
  }

  lemma WalkPush(held: Option<string>, t: seq<Act>, a: Act)
    ensures Walk(held, t + [a]) ==
            if Walk(held, t).Some? && Proper(Walk(held, t).value, a) then Some(Moved(Walk(held, t).value, a)) else None
  {
    WalkConcat(held, t, [a]);
    assert [a][1..] == [];
  }

  lemma HoldStep(t: seq<Act>, a: Act)
    ensures Disciplined(t + [a]) <==> Disciplined(t) && Proper(Hold(t), a)
    ensures Disciplined(t + [a]) ==> Hold(t + [a]) == Moved(Hold(t), a)
  {
    WalkPush(None, t, a);
  }

  lemma AttemptWalk(shape: Shape, key: string, i: nat)
    requires shape.Finished? || shape.OpenBody? ==> shape.event == Failed || shape.event == Succeeded
    ensures Walk(None, ActsOf(shape, key, i)) == Some(if shape.OpenBody? then Some(key) else None)
  {
    var acts := ActsOf(shape, key, i);
    WalkPush(None, [], acts[0]);
    assert [] + [acts[0]] == [acts[0]];
    if |acts| > 1 {
      WalkPush(None, [acts[0]], acts[1]);
      WalkPush(None, [acts[0], acts[1]], acts[2]);
      assert [acts[0]] + [acts[1]] == [acts[0], acts[1]];
      assert [acts[0], acts[1]] + [acts[2]] == [acts[0], acts[1], acts[2]];
      if |acts| > 3 {
        WalkPush(None, [acts[0], acts[1], acts[2]], acts[3]);
        assert [acts[0], acts[1], acts[2]] + [acts[3]] == acts;
      } else {
        assert [acts[0], acts[1], acts[2]] == acts;
      }
    }
  }

  /** Every request acquires, records and releases in step, and ends holding nothing but the
      backend of an open response body. */
  lemma {:induction false} RequestIsDisciplined(call: Call, n: nat)
    requires forall i: nat :: i + 1 < n ==> !call.Answers(i)
    ensures Disciplined(call.Transcript(n)) && Hold(call.Transcript(n)) == call.StillHeld(n)
  {
    if n > 0 {
      var m := n - 1;
      RequestIsDisciplined(call, m);
      assert m > 0 ==> !call.Answers(m - 1);
      AttemptWalk(call.Shape(m), if m < |call.targets| then call.targets[m].key else "", m);
      WalkConcat(None, call.Transcript(m), call.Acts(m));
    }
  }

  /** The positions sent to, in order. */
  function Sends(t: seq<Act>): seq<nat> {
    if t == [] then []
    else Sends(t[..|t| - 1]) + if t[|t| - 1].Send? then [t[|t| - 1].position] else []
  }

  lemma SendsConcat(a: seq<Act>, b: seq<Act>)
    ensures Sends(a + b) == Sends(a) + Sends(b)
  {
    if b == [] {
      assert a + b == a;
    } else {
      SendsConcat(a, b[..|b| - 1]);
      assert (a + b)[..|a + b| - 1] == a + b[..|b| - 1];
    }
  }

  lemma {:induction false} SendsOfTracks(t: seq<Act>)
    requires forall i :: 0 <= i < |t| ==> t[i].Track?
    ensures Sends(t) == []
  {
    if t != [] {
      SendsOfTracks(t[..|t| - 1]);
    }
  }

  lemma {:induction false} OneSend(t: seq<Act>, k: nat, i: nat)
    requires k < |t| && t[k] == Send(i) && forall j :: 0 <= j < |t| && j != k ==> t[j].Track?
    ensures Sends(t) == [i]
  {
    if k == |t| - 1 {
      SendsOfTracks(t[..k]);
    } else {
      OneSend(t[..|t| - 1], k, i);
    }
  }

  lemma SendsOfAttempt(shape: Shape, key: string, i: nat)
    ensures Sends(ActsOf(shape, key, i)) == if shape == Refusal then [] else [i]
  {
    var acts := ActsOf(shape, key, i);
    if shape == Refusal {
      SendsOfTracks(acts);
    } else {
      OneSend(acts, if shape == Plain then 0 else 1, i);
    }
  }

  predicate Below(s: seq<nat>, i: nat, j: nat) {
    i < |s| && j < |s| && s[i] < s[j]
  }

  ghost predicate Increasing(s: seq<nat>) {
    forall i: nat, j: nat :: i < j < |s| ==> Below(s, i, j)
  }

  lemma IncreasingPush(s: seq<nat>, m: nat)
    requires Increasing(s) && forall p :: p in s ==> p < m
    ensures Increasing(s + [m]) && s + [] == s
  {
    forall i: nat, j: nat | i < j <= |s| ensures Below(s + [m], i, j) {
      if j < |s| {
        assert Below(s, i, j);
      } else {
        assert s[i] in s;
      }
    }
  }

  lemma SendsStep(call: Call, m: nat)
    ensures Sends(call.Transcript(m + 1)) == Sends(call.Transcript(m)) + if call.Refuses(m) then [] else [m]
  {
    SendsConcat(call.Transcript(m), call.Acts(m));
    SendsOfAttempt(call.Shape(m), if m < |call.targets| then call.targets[m].key else "", m);
    assert call.Shape(m) == Refusal <==> call.Refuses(m);
  }

  /** The first `n` attempts send once to each position whose backend did not refuse. */
  ghost predicate SendsEach(call: Call, n: nat, sends: seq<nat>) {
    Increasing(sends) && |sends| <= n && forall p: nat :: SentIff(call, n, sends, p)
  }

  predicate SentIff(call: Call, n: nat, sends: seq<nat>, p: nat) {
    p in sends <==> p < n && !call.Refuses(p)
  }

  lemma SendsEachStep(call: Call, m: nat, sends: seq<nat>)
    requires SendsEach(call, m, sends)
    ensures SendsEach(call, m + 1, sends + if call.Refuses(m) then [] else [m])
  {
    forall p: nat | p in sends ensures p < m { assert SentIff(call, m, sends, p); }
    IncreasingPush(sends, m);
    var n, next := m + 1, sends + if call.Refuses(m) then [] else [m];
    forall p: nat ensures SentIff(call, n, next, p) { assert SentIff(call, m, sends, p); }
  }

  /** The positions below `n` whose backend did not refuse. */
  function Granted(call: Call, n: nat): seq<nat> {
    if n == 0 then [] else Granted(call, n - 1) + if call.Refuses(n - 1) then [] else [n - 1]
  }

  lemma {:induction false} GrantedIsEach(call: Call, n: nat)
    ensures SendsEach(call, n, Granted(call, n))
  {
    if n == 0 {
      var none := Granted(call, 0);
      forall p: nat ensures SentIff(call, 0, none, p) {}
    } else {
      GrantedIsEach(call, n - 1);
      SendsEachStep(call, n - 1, Granted(call, n - 1));
    }
  }

  predicate Grows(sends: nat -> seq<nat>, call: Call, m: nat) {
    sends(m + 1) == sends(m) + if call.Refuses(m) then [] else [m]
  }

  lemma {:induction false} GrowthIsGranted(sends: nat -> seq<nat>, call: Call, n: nat)
    requires sends(0) == [] && forall m: nat :: Grows(sends, call, m)
    ensures sends(n) == Granted(call, n)
  {
    if n > 0 {
      var m: nat := n - 1;
      GrowthIsGranted(sends, call, m);
      assert Grows(sends, call, m);
    }
  }

  lemma SendsAreGranted(call: Call, n: nat)
    ensures Sends(call.Transcript(n)) == Granted(call, n)
  {
    var sends := (m: nat) => Sends(call.Transcript(m));
    forall m: nat ensures Grows(sends, call, m) { SendsStep(call, m); }
    GrowthIsGranted(sends, call, n);
  }

  /** A request sends to different positions in increasing order, skipping exactly those whose
      backend refused. */
  lemma SendsInOrder(call: Call, n: nat)
    ensures SendsEach(call, n, Sends(call.Transcript(n)))
  {
    SendsAreGranted(call, n);
    GrantedIsEach(call, n);
  }

  /** So it makes at most min(1 + Attempts, targets) sends, one for a method that is not retried. */
  lemma SendsWithinBudget(call: Call, n: nat)
    requires n <= call.Limit() && call.policy.attempts >= 0
    ensures |Sends(call.Transcript(n))| <= 1 + call.policy.attempts
    ensures |Sends(call.Transcript(n))| <= |call.targets|
    ensures !call.policy.AllowsMethod(call.verb) ==> |Sends(call.Transcript(n))| <= 1
  {
    SendsInOrder(call, n);
  }

  /** proxyTrackedReadCloser: the response body that gives the backend back when closed. */
  class TrackedBody {
    const key: Option<string>
    var done: bool
    var trace: seq<Act>

    constructor (key: Option<string>, trace: seq<Act>)
      ensures this.key == key && this.trace == trace && !done
    {
      this.key, this.trace, done := key, trace, false;
    }

    /** The first Close releases, every later one does nothing. */
    method Close()
      modifies this
      ensures done
      ensures trace == old(trace) + if old(done) || key.None? then [] else [Track(key.value, Released)]
    {
      if !done {
        done := true;
        if key.Some? {
          trace := trace + [Track(key.value, Released)];
        }
      }
    }
  }

  /** A request ends at its first answer. */
  ghost predicate Ends(call: Call, n: nat) {
    forall i: nat :: i + 1 < n ==> !call.Answers(i)
  }

  /** All actions of a request of `n` attempts, the closing of its body included. */
  function Served(call: Call, n: nat): seq<Act> {
    if call.targets == [] then [Send(0)]
    else call.Transcript(n) + if call.StillHeld(n).Some? then [Track(call.StillHeld(n).value, Released)] else []
  }

  lemma ServedIsDisciplined(call: Call, n: nat)
    requires Ends(call, n)
    ensures Disciplined(Served(call, n)) && Hold(Served(call, n)) == None
  {
    if call.targets == [] {
      HoldStep([], Send(0));
      assert [] + [Send(0)] == [Send(0)];
    } else {
      RequestIsDisciplined(call, n);
      var held := call.StillHeld(n);
      if held.Some? {
        HoldStep(call.Transcript(n), Track(held.value, Released));
      } else {
        assert call.Transcript(n) + [] == call.Transcript(n);
      }
    }
  }

  /** One request from start to any number of body closes: it ends holding nothing. */
  method Serve(call: Call, closes: nat) returns (trace: seq<Act>, n: nat)
    requires closes > 0
    ensures Ends(call, n) && trace == Served(call, n)
    ensures Disciplined(trace) && Hold(trace) == None
  {
    var resp, err;
    trace, n, resp, err := RoundTrip(call);
    ServedIsDisciplined(call, n);
    if call.targets == [] || resp.None? {
      assert call.targets != [] ==> trace + [] == trace;
      return;
    }
    var body := new TrackedBody(call.StillHeld(n), trace);
    for i := 0 to closes
      invariant body.key == call.StillHeld(n) && (i > 0 <==> body.done)
      invariant body.trace == trace + if i == 0 || body.key.None? then [] else [Track(body.key.value, Released)]
    {
      body.Close();
    }
    trace := body.trace;
  }

  // ----- Many requests at once -------------------------------------------------------

  datatype SysEvent =
    | Request(tid: nat, act: Act)
    | ProbeResult(target: string, ok: bool)
    | Stray(target: string)  // a blocked request's release without an acquire
    | Reconfigured(next: Policy, defs: seq<Definition>)

  datatype System = System(policy: Policy, backends: seq<Backend>, held: map<nat, string>)

  function HeldBy(s: System, tid: nat): Option<string> {
    if tid in s.held then Some(s.held[tid]) else None
  }

  /** The monitor's answer to an acquire is the one recorded. */
  predicate Answered(s: System, e: SysEvent, now: int) {
    e.Request? && e.act.Track? ==>
      (e.act.event == Acquired ==> Grants(s.policy, s.backends, e.act.key, now)) &&
      (e.act.event == Refused ==> !Grants(s.policy, s.backends, e.act.key, now))
  }

  /** And requests do only what they may do with what they hold. */
  predicate Possible(s: System, e: SysEvent, now: int) {
    Answered(s, e, now) && (e.Request? ==> Proper(HeldBy(s, e.tid), e.act))
  }

  function Next(s: System, e: SysEvent, now: int): System {
    match e
    case Request(tid, Send(_)) => s
    case Request(tid, Track(key, event)) =>
      System(s.policy, Tracked(s.policy, s.backends, key, event, now),
             if event == Acquired then s.held[tid := key]
             else if event == Released then s.held - {tid} else s.held)
    case ProbeResult(key, ok) => s.(backends := Touch(s.policy, s.backends, key, Probed(ok), now))
    case Stray(key) => s.(backends := Tracked(s.policy, s.backends, key, Released, now))
    case Reconfigured(policy, defs) => s.(policy := policy, backends := Rebuild(defs, s.backends))
  }

  function RunTo(s: System, es: seq<(SysEvent, int)>): System {
    if es == [] then s
    else Next(RunTo(s, es[..|es| - 1]), es[|es| - 1].0, es[|es| - 1].1)
  }

  predicate Run(s: System, es: seq<(SysEvent, int)>) {
    es != [] ==>
      Run(s, es[..|es| - 1]) && Possible(RunTo(s, es[..|es| - 1]), es[|es| - 1].0, es[|es| - 1].1)
  }

  function Holders(held: map<nat, string>, key: string): set<nat> {
    set t | t in held && held[t] == key
  }

  /** What the first backend with a key counts; later ones with the same key are not consulted. */
  function CountOf(backends: seq<Backend>, key: string): Option<nat> {
    match IndexOf(backends, key)
    case None => None
    case Some(i) =>
      IndexOfFirst(backends, key);
      Some(backends[i].inFlight)
  }

  predicate BoundedFor(s: System, key: string) {
    Text.Blank(key) || CountOf(s.backends, key).None? || CountOf(s.backends, key).value <= |Holders(s.held, key)|
  }

  predicate ExactFor(s: System, key: string) {
    Text.Blank(key) || CountOf(s.backends, key).None? || CountOf(s.backends, key).value == |Holders(s.held, key)|
  }

  /** No tracked key is counted more often than it is held. */
  ghost predicate Bounded(s: System) {
    forall key :: BoundedFor(s, key)
  }

  /** Every tracked key is counted exactly as often as it is held. */
  ghost predicate Exact(s: System) {
    forall key :: ExactFor(s, key)
  }

  lemma HoldersAfterAcquire(held: map<nat, string>, tid: nat, key: string, other: string)
    requires tid !in held
    ensures |Holders(held[tid := key], other)| == |Holders(held, other)| + if other == key then 1 else 0
  {
    if other == key {
      assert Holders(held[tid := key], other) == Holders(held, other) + {tid};
    } else {
      assert Holders(held[tid := key], other) == Holders(held, other);
    }
  }

  lemma HoldersAfterRelease(held: map<nat, string>, tid: nat, other: string)
    requires tid in held
    ensures |Holders(held, other)| == |Holders(held - {tid}, other)| + if other == held[tid] then 1 else 0
  {
    if other == held[tid] {
      assert Holders(held, other) == Holders(held - {tid}, other) + {tid};
    } else {
      assert Holders(held, other) == Holders(held - {tid}, other);
    }
  }

  /** Replacing a backend by one of the same key moves no key. */
  lemma ReplacingKeepsIndex(backends: seq<Backend>, i: nat, b: Backend, key: string)
    requires i < |backends| && b.key == backends[i].key
    ensures IndexOf(backends[i := b], key) == IndexOf(backends, key)
  {
    IndexOfFirst(backends, key);
    IndexOfFirst(backends[i := b], key);
    if IndexOf(backends, key).Some? {
      IndexOfIs(backends[i := b], key, IndexOf(backends, key).value);
    } else {
      IndexOfNone(backends[i := b], key);
    }
  }

  lemma TouchKeepsIndex(p: Policy, backends: seq<Backend>, key: string, e: Event, now: int, other: string)
    ensures IndexOf(Touch(p, backends, key, e, now), other) == IndexOf(backends, other)
  {
    IndexOfFirst(backends, key);
    if IndexOf(backends, key).Some? {
      var i := IndexOf(backends, key).value;
      ReplacingKeepsIndex(backends, i, Step(p, backends[i], e, now), other);
    }
  }

  /** How an event changes the in-flight number. */
  function CountAfter(n: nat, e: Event): nat {
    if e == Acquired then n + 1 else if e == Released && n > 0 then n - 1 else n
  }

  lemma TouchCounts(p: Policy, backends: seq<Backend>, key: string, e: Event, now: int, other: string)
    ensures CountOf(Touch(p, backends, key, e, now), other) ==
            if other == key && CountOf(backends, key).Some? then Some(CountAfter(CountOf(backends, key).value, e))
            else CountOf(backends, other)
  {
    TouchKeepsIndex(p, backends, key, e, now, other);
    IndexOfFirst(backends, key);
    IndexOfFirst(backends, other);
  }

  lemma RequestCounts(s: System, tid: nat, key: string, event: Event, now: int, other: string)
    requires Possible(s, Request(tid, Track(key, event)), now) && !Text.Blank(other)
    ensures
      var t := Next(s, Request(tid, Track(key, event)), now);
      (CountOf(t.backends, other).Some? <==> CountOf(s.backends, other).Some?) &&
      (CountOf(s.backends, other).Some? ==>
         var before, after := CountOf(s.backends, other).value, CountOf(t.backends, other).value;
         if other == key && event == Acquired then
           after == before + 1 && |Holders(t.held, other)| == |Holders(s.held, other)| + 1
         else if other == key && event == Released then
           after == (if before > 0 then before - 1 else 0) && |Holders(t.held, other)| == |Holders(s.held, other)| - 1
         else after == before && |Holders(t.held, other)| == |Holders(s.held, other)|)
  {
    if !Text.Blank(key) {
      TouchCounts(s.policy, s.backends, key, event, now, other);
    }
    if event == Acquired {
      HoldersAfterAcquire(s.held, tid, key, other);
    } else if event == Released {
      HoldersAfterRelease(s.held, tid, other);
    }
  }

  // ----- Updates ---------------------------------------------------------------------

  lemma {:induction false} LastIsTracked(backends: seq<Backend>, key: string)
    ensures LastWithKey(backends, key).Some? <==> CountOf(backends, key).Some?
  {
    IndexOfFirst(backends, key);
    if k :| 0 <= k < |backends| && backends[k].key == key {
      SomeLast(backends, key, k);
    } else {
      LastWithKeyNone(backends, key);
    }
  }

  lemma {:induction false} SomeLast(backends: seq<Backend>, key: string, k: nat)
    requires k < |backends| && backends[k].key == key
    ensures LastWithKey(backends, key).Some?
    decreases |backends|
  {
    if k < |backends| - 1 {
      SomeLast(backends[..|backends| - 1], key, k);
    }
  }

  /** What an update makes of a key that it lists: the count of the last backend with it, or zero. */
  function CarriedCount(backends: seq<Backend>, key: string): nat {
    match LastWithKey(backends, key)
    case None => 0
    case Some(b) => b.inFlight
  }

  predicate Lists(defs: seq<Definition>, key: string) {
    exists i :: 0 <= i < |defs| && defs[i].key == key
  }

  lemma RebuildCounts(defs: seq<Definition>, prev: seq<Backend>, key: string)
    ensures CountOf(Rebuild(defs, prev), key) == if Lists(defs, key) then Some(CarriedCount(prev, key)) else None
  {
    var next := Rebuild(defs, prev);
    IndexOfFirst(next, key);
    forall i | 0 <= i < |defs| ensures next[i].key == defs[i].key && next[i].inFlight == CarriedCount(prev, defs[i].key) {
      CarriedHasCount(defs[i], prev);
    }
  }

  lemma CarriedHasCount(d: Definition, prev: seq<Backend>)
    ensures Carried(d, prev).key == d.key && Carried(d, prev).inFlight == CarriedCount(prev, d.key)
  {
  }

  /** A key that the update lists: tracked already, its last backend counts what its first does; and
      if it is new, no request holds it. */
  predicate FitsExactly(s: System, key: string) {
    Text.Blank(key) ||
    if CountOf(s.backends, key).None? then Holders(s.held, key) == {}
    else CarriedCount(s.backends, key) == CountOf(s.backends, key).value
  }

  /** Its last backend, if there is one, counts no more than hold it. */
  predicate FitsBound(s: System, key: string) {
    Text.Blank(key) || CountOf(s.backends, key).None? || CarriedCount(s.backends, key) <= |Holders(s.held, key)|
  }

  lemma UpdateExactFor(s: System, policy: Policy, defs: seq<Definition>, now: int, key: string)
    requires ExactFor(s, key)
    ensures ExactFor(Next(s, Reconfigured(policy, defs), now), key) <==> (Lists(defs, key) ==> FitsExactly(s, key))
  {
    RebuildCounts(defs, s.backends, key);
    LastIsTracked(s.backends, key);
  }

  lemma UpdateBoundedFor(s: System, policy: Policy, defs: seq<Definition>, now: int, key: string)
    ensures BoundedFor(Next(s, Reconfigured(policy, defs), now), key) <==> (Lists(defs, key) ==> FitsBound(s, key))
  {
    RebuildCounts(defs, s.backends, key);
    LastIsTracked(s.backends, key);
  }

  // ----- One step --------------------------------------------------------------------

  /** What an exact count asks of an event: a stray release finds nothing in flight, and an update
      fits every key it lists. */
  predicate KeepsExact(s: System, e: SysEvent) {
    match e
    case Stray(key) => Text.Blank(key) || CountOf(s.backends, key).None? || CountOf(s.backends, key).value == 0
    case Reconfigured(_, defs) => forall i :: 0 <= i < |defs| ==> FitsExactly(s, defs[i].key)
    case _ => true
  }

  predicate KeepsBound(s: System, e: SysEvent) {
    e.Reconfigured? ==> forall i :: 0 <= i < |e.defs| ==> FitsBound(s, e.defs[i].key)
  }

  lemma UpdateIsExactIff(s: System, policy: Policy, defs: seq<Definition>, now: int)
    requires Exact(s)
    ensures Exact(Next(s, Reconfigured(policy, defs), now)) <==> KeepsExact(s, Reconfigured(policy, defs))
  {
    var e := Reconfigured(policy, defs);
    var t := Next(s, e, now);
    if KeepsExact(s, e) {
      forall key ensures ExactFor(t, key) {
        UpdateExactFor(s, policy, defs, now, key);
      }
    } else {
      var i :| 0 <= i < |defs| && !FitsExactly(s, defs[i].key);
      UpdateExactFor(s, policy, defs, now, defs[i].key);
      assert !ExactFor(t, defs[i].key);
    }
  }

  lemma UpdateIsBoundedIff(s: System, policy: Policy, defs: seq<Definition>, now: int)
    ensures Bounded(Next(s, Reconfigured(policy, defs), now)) <==> KeepsBound(s, Reconfigured(policy, defs))
  {
    var e := Reconfigured(policy, defs);
    var t := Next(s, e, now);
    if KeepsBound(s, e) {
      forall key ensures BoundedFor(t, key) {
        UpdateBoundedFor(s, policy, defs, now, key);
      }
    } else {
      var i :| 0 <= i < |defs| && !FitsBound(s, defs[i].key);
      UpdateBoundedFor(s, policy, defs, now, defs[i].key);
      assert !BoundedFor(t, defs[i].key);
    }
  }

  /** Outside of updates, how a step changes the count of one key and its holders. */
  lemma StepFor(s: System, e: SysEvent, now: int, key: string)
    requires Possible(s, e, now) && !e.Reconfigured?
    ensures BoundedFor(s, key) ==> BoundedFor(Next(s, e, now), key)
    ensures ExactFor(s, key) ==> (ExactFor(Next(s, e, now), key) <==> e != Stray(key) || KeepsExact(s, e))
  {
    match e
    case Request(tid, Send(_)) => {}
    case Request(tid, Track(k, event)) =>
      if !Text.Blank(key) {
        RequestCounts(s, tid, k, event, now, key);
      }
    case ProbeResult(k, ok) => TouchCounts(s.policy, s.backends, k, Probed(ok), now, key);
    case Stray(k) => TouchCounts(s.policy, s.backends, k, Released, now, key);
  }

  /** A step keeps the counts exact if and only if it is one that keeps them. */
  lemma StepIsExactIff(s: System, e: SysEvent, now: int)
    requires Exact(s) && Possible(s, e, now)
    ensures Exact(Next(s, e, now)) <==> KeepsExact(s, e)
  {
    if e.Reconfigured? {
      UpdateIsExactIff(s, e.next, e.defs, now);
    } else {
      var t := Next(s, e, now);
      forall key ensures ExactFor(t, key) <==> e != Stray(key) || KeepsExact(s, e) {
        StepFor(s, e, now, key);
      }
      assert e.Stray? ==> (ExactFor(t, e.target) <==> KeepsExact(s, e));
    }
  }

  lemma StepIsBoundedIff(s: System, e: SysEvent, now: int)
    requires Bounded(s) && Possible(s, e, now)
    ensures Bounded(Next(s, e, now)) <==> KeepsBound(s, e)
  {
    if e.Reconfigured? {
      UpdateIsBoundedIff(s, e.next, e.defs, now);
    } else {
      forall key ensures BoundedFor(Next(s, e, now), key) {
        StepFor(s, e, now, key);
      }
    }
  }

  /** In particular a stray release does if and only if it finds nothing in flight. */
  lemma StrayKeepsExactIff(s: System, key: string, now: int)
    requires Exact(s)
    ensures Exact(Next(s, Stray(key), now)) <==>
            Text.Blank(key) || CountOf(s.backends, key).None? || CountOf(s.backends, key).value == 0
  {
    StepIsExactIff(s, Stray(key), now);
  }

  // ----- Whole runs ------------------------------------------------------------------

  lemma {:induction false} RunPrefix(s: System, es: seq<(SysEvent, int)>, n: nat)
    requires Run(s, es) && n <= |es|
    ensures Run(s, es[..n])
    decreases |es|
  {
    if n == |es| {
      assert es[..n] == es;
    } else {
      RunPrefix(s, es[..|es| - 1], n);
      assert es[..|es| - 1][..n] == es[..n];
    }
  }

  lemma NthEvent(s: System, es: seq<(SysEvent, int)>, n: nat)
    requires Run(s, es) && n < |es|
    ensures RunTo(s, es[..n + 1]) == Next(RunTo(s, es[..n]), es[n].0, es[n].1)
    ensures Possible(RunTo(s, es[..n]), es[n].0, es[n].1)
  {
    RunPrefix(s, es, n + 1);
    assert es[..n + 1][..n] == es[..n];
  }

  ghost predicate ExactAt(s: System, es: seq<(SysEvent, int)>, n: nat)
    requires n <= |es|
  {
    Exact(RunTo(s, es[..n]))
  }

  predicate KeepsExactAt(s: System, es: seq<(SysEvent, int)>, n: nat)
    requires n < |es|
  {
    KeepsExact(RunTo(s, es[..n]), es[n].0)
  }

  ghost predicate BoundedAt(s: System, es: seq<(SysEvent, int)>, n: nat)
    requires n <= |es|
  {
    Bounded(RunTo(s, es[..n]))
  }

  predicate KeepsBoundAt(s: System, es: seq<(SysEvent, int)>, n: nat)
    requires n < |es|
  {
    KeepsBound(RunTo(s, es[..n]), es[n].0)
  }

  lemma NthIsExactIff(s: System, es: seq<(SysEvent, int)>, n: nat)
    requires Run(s, es) && n < |es| && ExactAt(s, es, n)
    ensures ExactAt(s, es, n + 1) <==> KeepsExactAt(s, es, n)
  {
    NthEvent(s, es, n);
    StepIsExactIff(RunTo(s, es[..n]), es[n].0, es[n].1);
  }

  lemma NthIsBoundedIff(s: System, es: seq<(SysEvent, int)>, n: nat)
    requires Run(s, es) && n < |es| && BoundedAt(s, es, n)
    ensures BoundedAt(s, es, n + 1) <==> KeepsBoundAt(s, es, n)
  {
    NthEvent(s, es, n);
    StepIsBoundedIff(RunTo(s, es[..n]), es[n].0, es[n].1);
  }

  lemma {:induction false} StaysExact(s: System, es: seq<(SysEvent, int)>, n: nat)
    requires Exact(s) && Run(s, es) && n <= |es| && forall k :: 0 <= k < n ==> KeepsExactAt(s, es, k)
    ensures ExactAt(s, es, n)
  {
    if n > 0 {
      StaysExact(s, es, n - 1);
      NthIsExactIff(s, es, n - 1);
    }
  }

  lemma {:induction false} StaysBounded(s: System, es: seq<(SysEvent, int)>, n: nat)
    requires Bounded(s) && Run(s, es) && n <= |es| && forall k :: 0 <= k < n ==> KeepsBoundAt(s, es, k)
    ensures BoundedAt(s, es, n)
  {
    if n > 0 {
      StaysBounded(s, es, n - 1);
      NthIsBoundedIff(s, es, n - 1);
    }
  }

  /** Over every interleaving of disciplined requests with probes, stray releases and updates, the
      counts are exact throughout if and only if every stray release finds nothing in flight, and
      every update finds each key it lists either new and unheld, or with its last backend counting
      as its first. */
  lemma InFlightIsHoldersIff(s: System, es: seq<(SysEvent, int)>)
    requires Exact(s) && Run(s, es)
    ensures (forall n :: 0 <= n <= |es| ==> ExactAt(s, es, n)) <==> forall n :: 0 <= n < |es| ==> KeepsExactAt(s, es, n)
  {
    if forall n :: 0 <= n < |es| ==> KeepsExactAt(s, es, n) {
      forall n | 0 <= n <= |es| ensures ExactAt(s, es, n) {
        StaysExact(s, es, n);
      }
    } else if forall n :: 0 <= n <= |es| ==> ExactAt(s, es, n) {
      forall n | 0 <= n < |es| ensures KeepsExactAt(s, es, n) {
        assert ExactAt(s, es, n) && ExactAt(s, es, n + 1);
        NthIsExactIff(s, es, n);
      }
    }
  }

  /** And they never exceed the holders if and only if no update finds a last backend of a key it
      lists that counts more than hold it. */
  lemma InFlightWithinHoldersIff(s: System, es: seq<(SysEvent, int)>)
    requires Bounded(s) && Run(s, es)
    ensures (forall n :: 0 <= n <= |es| ==> BoundedAt(s, es, n)) <==> forall n :: 0 <= n < |es| ==> KeepsBoundAt(s, es, n)
  {
    if forall n :: 0 <= n < |es| ==> KeepsBoundAt(s, es, n) {
      forall n | 0 <= n <= |es| ensures BoundedAt(s, es, n) {
        StaysBounded(s, es, n);
      }
    } else if forall n :: 0 <= n <= |es| ==> BoundedAt(s, es, n) {
      forall n | 0 <= n < |es| ensures KeepsBoundAt(s, es, n) {
        assert BoundedAt(s, es, n) && BoundedAt(s, es, n + 1);
        NthIsBoundedIff(s, es, n);
      }
    }
  }

  predicate AtTransport(e: SysEvent) {
    e.Request? || e.ProbeResult?
  }

  /** So at the transport boundary (no stray releases, one configuration) the counts are exact. */
  lemma InFlightIsHolders(s: System, es: seq<(SysEvent, int)>)
    requires Exact(s) && Run(s, es) && forall k :: 0 <= k < |es| ==> AtTransport(es[k].0)
    ensures Exact(RunTo(s, es))
  {
    forall n | 0 <= n < |es| ensures KeepsExactAt(s, es, n) {
      assert AtTransport(es[n].0);
    }
    StaysExact(s, es, |es|);
    assert es[..|es|] == es;
  }

  // ----- Keys that are not shared ----------------------------------------------------

  predicate SameKey(backends: seq<Backend>, i: nat, j: nat) {
    i < |backends| && j < |backends| && backends[i].key == backends[j].key
  }

  ghost predicate DistinctKeys(backends: seq<Backend>) {
    forall i: nat, j: nat :: SameKey(backends, i, j) ==> i == j
  }

  ghost predicate DistinctDefs(defs: seq<Definition>) {
    forall i, j :: 0 <= i < j < |defs| ==> defs[i].key != defs[j].key
  }

  /** No two upstreams of any applied configuration share a name and URL. */
  ghost predicate DistinctConfigs(es: seq<(SysEvent, int)>) {
    forall k :: 0 <= k < |es| && es[k].0.Reconfigured? ==> DistinctDefs(es[k].0.defs)
  }

  lemma ReplacingKeepsDistinct(backends: seq<Backend>, i: nat, b: Backend)
    requires i < |backends| && b.key == backends[i].key && DistinctKeys(backends)
    ensures DistinctKeys(backends[i := b])
  {
    var next := backends[i := b];
    forall j: nat, k: nat | SameKey(next, j, k) ensures j == k {
      assert SameKey(backends, j, k);
    }
  }

  lemma TouchKeepsDistinct(p: Policy, backends: seq<Backend>, key: string, e: Event, now: int)
    requires DistinctKeys(backends)
    ensures DistinctKeys(Touch(p, backends, key, e, now))
  {
    IndexOfFirst(backends, key);
    if IndexOf(backends, key).Some? {
      var i := IndexOf(backends, key).value;
      ReplacingKeepsDistinct(backends, i, Step(p, backends[i], e, now));
    }
  }

  lemma StepKeepsDistinct(s: System, e: SysEvent, now: int)
    requires DistinctKeys(s.backends) && (e.Reconfigured? ==> DistinctDefs(e.defs))
    ensures DistinctKeys(Next(s, e, now).backends)
  {
    match e
    case Request(tid, Send(_)) => {}
    case Request(tid, Track(key, event)) => TouchKeepsDistinct(s.policy, s.backends, key, event, now);
    case ProbeResult(key, ok) => TouchKeepsDistinct(s.policy, s.backends, key, Probed(ok), now);
    case Stray(key) => TouchKeepsDistinct(s.policy, s.backends, key, Released, now);
    case Reconfigured(policy, defs) =>
      var next := Rebuild(defs, s.backends);
      forall i: nat, j: nat | SameKey(next, i, j) ensures i == j {
        CarriedHasCount(defs[i], s.backends);
        CarriedHasCount(defs[j], s.backends);
      }
  }

  /** Where keys are not shared the last backend of a key is the first. */
  lemma DistinctCarries(backends: seq<Backend>, key: string)
    requires DistinctKeys(backends) && CountOf(backends, key).Some?
    ensures CarriedCount(backends, key) == CountOf(backends, key).value
  {
    IndexOfFirst(backends, key);
    var i := IndexOf(backends, key).value;
    forall j | i < j < |backends| ensures backends[j].key != key {
      assert !SameKey(backends, i, j);
    }
    LastWithKeyIs(backends, key, i);
  }

  lemma DistinctKeepsBound(s: System, e: SysEvent)
    requires Bounded(s) && DistinctKeys(s.backends)
    ensures KeepsBound(s, e)
  {
    if e.Reconfigured? {
      forall i | 0 <= i < |e.defs| ensures FitsBound(s, e.defs[i].key) {
        var key := e.defs[i].key;
        assert BoundedFor(s, key);
        if CountOf(s.backends, key).Some? {
          DistinctCarries(s.backends, key);
        }
      }
    }
  }

  /** So while no configuration shares a key, no count exceeds the number of requests holding its
      backend, whatever updates and stray releases come. */
  lemma {:induction false} InFlightNeverExceedsHolders(s: System, es: seq<(SysEvent, int)>)
    requires Bounded(s) && DistinctKeys(s.backends) && Run(s, es) && DistinctConfigs(es)
    ensures Bounded(RunTo(s, es)) && DistinctKeys(RunTo(s, es).backends)
  {
    if es != [] {
      var init, e, now := es[..|es| - 1], es[|es| - 1].0, es[|es| - 1].1;
      assert forall k :: 0 <= k < |init| ==> init[k] == es[k];
      InFlightNeverExceedsHolders(s, init);
      DistinctKeepsBound(RunTo(s, init), e);
      StepIsBoundedIff(RunTo(s, init), e, now);
      StepKeepsDistinct(RunTo(s, init), e, now);
    }
  }

  /** One request's actions within an interleaving. */
  function Project(es: seq<(SysEvent, int)>, tid: nat): seq<Act> {
    if es == [] then []
    else
      var e := es[|es| - 1].0;
      Project(es[..|es| - 1], tid) + if e.Request? && e.tid == tid then [e.act] else []
  }

  lemma ProjectStep(es: seq<(SysEvent, int)>, tid: nat)
    requires es != []
    ensures
      var init, e := es[..|es| - 1], es[|es| - 1].0;
      Project(es, tid) == if e.Request? && e.tid == tid then Project(init, tid) + [e.act] else Project(init, tid)
  {
  }

  lemma HeldByNext(s: System, e: SysEvent, now: int, tid: nat)
    ensures HeldBy(Next(s, e, now), tid) ==
            if e.Request? && e.tid == tid then Moved(HeldBy(s, tid), e.act) else HeldBy(s, tid)
  {
  }

  /** In a run from an idle system, what the system says a request holds is what the request's
      own actions say. */
  lemma {:induction false} RunIsDisciplined(s: System, es: seq<(SysEvent, int)>, tid: nat)
    requires s.held == map[] && Run(s, es)
    ensures Disciplined(Project(es, tid)) && HeldBy(RunTo(s, es), tid) == Hold(Project(es, tid))
  {
    if es != [] {
      var init, e, now := es[..|es| - 1], es[|es| - 1].0, es[|es| - 1].1;
      RunIsDisciplined(s, init, tid);
      ProjectStep(es, tid);
      HeldByNext(RunTo(s, init), e, now, tid);
      if e.Request? && e.tid == tid {
        HoldStep(Project(init, tid), e.act);
      }
    }
  }

  /** Every recorded answer of the monitor is the one it gives at that point. */
  predicate AllAnswered(s: System, es: seq<(SysEvent, int)>) {
    es != [] ==>
      AllAnswered(s, es[..|es| - 1]) && Answered(RunTo(s, es[..|es| - 1]), es[|es| - 1].0, es[|es| - 1].1)
  }

  /** Every request's own actions are disciplined. */
  ghost predicate Mixed(es: seq<(SysEvent, int)>) {
    forall tid: nat :: DisciplinedAt(es, tid)
  }

  predicate DisciplinedAt(es: seq<(SysEvent, int)>, tid: nat) {
    Disciplined(Project(es, tid))
  }

  lemma MixedInit(es: seq<(SysEvent, int)>)
    requires es != [] && Mixed(es)
    ensures Mixed(es[..|es| - 1])
  {
    var init, e := es[..|es| - 1], es[|es| - 1].0;
    forall tid: nat ensures DisciplinedAt(init, tid) {
      assert DisciplinedAt(es, tid);
      ProjectStep(es, tid);
      if e.Request? {
        HoldStep(Project(init, tid), e.act);
      }
    }
  }

  lemma {:induction false} DisciplinedMixIsRun(s: System, es: seq<(SysEvent, int)>)
    requires s.held == map[] && AllAnswered(s, es) && Mixed(es)
    ensures Run(s, es)
  {
    if es != [] {
      var init, e := es[..|es| - 1], es[|es| - 1].0;
      MixedInit(es);
      DisciplinedMixIsRun(s, init);
      if e.Request? {
        assert DisciplinedAt(es, e.tid);
        ProjectStep(es, e.tid);
        RunIsDisciplined(s, init, e.tid);
        HoldStep(Project(init, e.tid), e.act);
      }
    }
  }

  lemma {:induction false} RunIsAnswered(s: System, es: seq<(SysEvent, int)>)
    requires Run(s, es)
    ensures AllAnswered(s, es)
  {
    if es != [] {
      RunIsAnswered(s, es[..|es| - 1]);
    }
  }

  /** From an idle system, a run is exactly a mix of disciplined requests in which every grant and
      refusal is the monitor's. */
  lemma RunIffDisciplined(s: System, es: seq<(SysEvent, int)>)
    requires s.held == map[]
    ensures Run(s, es) <==> AllAnswered(s, es) && Mixed(es)
  {
    if Run(s, es) {
      RunIsAnswered(s, es);
      forall tid: nat ensures DisciplinedAt(es, tid) {
        RunIsDisciplined(s, es, tid);
      }
    } else if AllAnswered(s, es) && Mixed(es) {
      DisciplinedMixIsRun(s, es);
    }
  }

  /** Every request is one of the transport's, and has got somewhere in it. */
  ghost predicate Transported(es: seq<(SysEvent, int)>, calls: nat -> Call, ends: nat -> nat) {
    forall tid: nat :: TransportedAt(es, calls, ends, tid)
  }

  ghost predicate TransportedAt(es: seq<(SysEvent, int)>, calls: nat -> Call, ends: nat -> nat, tid: nat) {
    Ends(calls(tid), ends(tid)) && Project(es, tid) <= Served(calls(tid), ends(tid))
  }

  /** Requests of the transport, interleaved in any way and answered by the monitor, are a run. */
  lemma TransportedIsRun(s: System, es: seq<(SysEvent, int)>, calls: nat -> Call, ends: nat -> nat)
    requires s.held == map[] && AllAnswered(s, es) && Transported(es, calls, ends)
    ensures Run(s, es)
  {
    forall tid: nat ensures DisciplinedAt(es, tid) {
      assert TransportedAt(es, calls, ends, tid);
      var all, done := Served(calls(tid), ends(tid)), Project(es, tid);
      ServedIsDisciplined(calls(tid), ends(tid));
      WalkConcat(None, done, all[|done|..]);
      assert done + all[|done|..] == all;
    }
    DisciplinedMixIsRun(s, es);
  }

  /** So for every interleaving of round trips with probes, stray releases and updates, the counts are
      within the holders, and equal to them, exactly under those conditions. */
  lemma TransportCounts(s: System, es: seq<(SysEvent, int)>, calls: nat -> Call, ends: nat -> nat)
    requires s.held == map[] && Exact(s) && AllAnswered(s, es) && Transported(es, calls, ends)
    ensures (forall n :: 0 <= n <= |es| ==> BoundedAt(s, es, n)) <==> forall n :: 0 <= n < |es| ==> KeepsBoundAt(s, es, n)
    ensures (forall n :: 0 <= n <= |es| ==> ExactAt(s, es, n)) <==> forall n :: 0 <= n < |es| ==> KeepsExactAt(s, es, n)
  {
    TransportedIsRun(s, es, calls, ends);
    ExactIsBounded(s);
    InFlightWithinHoldersIff(s, es);
    InFlightIsHoldersIff(s, es);
  }

  lemma ExactIsBounded(s: System)
    requires Exact(s)
    ensures Bounded(s)
  {
    forall key ensures BoundedFor(s, key) {
      assert ExactFor(s, key);
    }
  }

  predicate Reaches(s: System, es: seq<(SysEvent, int)>, t: System) {
    Run(s, es) && RunTo(s, es) == t
  }

  /** One more action of a request on a system of one backend. */
  lemma ReachOne(s: System, es: seq<(SysEvent, int)>, p: Policy, b: Backend, held: map<nat, string>,
                 tid: nat, event: Event, now: int)
    requires Reaches(s, es, System(p, [b], held)) && !Text.Blank(b.key)
    requires if event == Acquired then tid !in held && Selectable(p, b, now)
             else event != Refused && !event.Probed? && tid in held && held[tid] == b.key
    ensures
      var next := if event == Acquired then held[tid := b.key]
                  else if event == Released then held - {tid} else held;
      Reaches(s, es + [(Request(tid, Track(b.key, event)), now)], System(p, [Step(p, b, event, now)], next))
  {
    var e := (Request(tid, Track(b.key, event)), now);
    assert (es + [e])[..|es|] == es;
    assert IndexOf([b], b.key) == Some(0);
  }

  /** One request holds the backend, one stray release, and the counter says nobody does. */
  lemma StrayReleaseUndercounts() returns (es: seq<(SysEvent, int)>)
    ensures
      var t := RunTo(System(SAMPLE, [BACKEND], map[]), es);
      Run(System(SAMPLE, [BACKEND], map[]), es) && t.held == map[1 := "k"] && t.backends == [BACKEND]
  {
    var s := System(SAMPLE, [BACKEND], map[]);
    assert Text.Trim("k") == "k";
    ReachOne(s, [], SAMPLE, BACKEND, map[], 1, Acquired, 0);
    var held := [] + [(Request(1, Track("k", Acquired)), 0)];
    es := held + [(Stray("k"), 0)];
    assert es[..|held|] == held;
    assert IndexOf([BACKEND.(inFlight := 1)], "k") == Some(0);
  }

  const SHARED := [Definition("k", "n", 1, true), Definition("k", "n", 1, true)]

  /** Two upstreams of one key, applied while a request is held and again after it was released: the
      second backend has kept the count, and the update brings it back for good. */
  lemma SharedKeyOvercounts() returns (es: seq<(SysEvent, int)>)
    ensures
      var t := RunTo(System(SAMPLE, [BACKEND], map[]), es);
      Run(System(SAMPLE, [BACKEND], map[]), es) && t.held == map[] && CountOf(t.backends, "k") == Some(1)
  {
    var s := System(SAMPLE, [BACKEND], map[]);
    var busy := BACKEND.(inFlight := 1);
    assert Text.Trim("k") == "k";
    ReachOne(s, [], SAMPLE, BACKEND, map[], 1, Acquired, 0);
    var es1 := [] + [(Request(1, Track("k", Acquired)), 0)];
    SharedUpdate([busy], busy);
    ReachMore(s, es1, System(SAMPLE, [busy], map[1 := "k"]), Reconfigured(SAMPLE, SHARED), 0);
    var es2 := es1 + [(Reconfigured(SAMPLE, SHARED), 0)];
    assert IndexOf([busy, busy], "k") == Some(0);
    assert [busy, busy][0 := BACKEND] == [BACKEND, busy] && map[1 := "k"] - {1} == map[];
    ReachMore(s, es2, System(SAMPLE, [busy, busy], map[1 := "k"]), Request(1, Track("k", Released)), 0);
    var es3 := es2 + [(Request(1, Track("k", Released)), 0)];
    SharedUpdate([BACKEND, busy], busy);
    ReachMore(s, es3, System(SAMPLE, [BACKEND, busy], map[]), Reconfigured(SAMPLE, SHARED), 0);
    es := es3 + [(Reconfigured(SAMPLE, SHARED), 0)];
  }

  lemma SharedUpdate(prev: seq<Backend>, last: Backend)
    requires prev != [] && prev[|prev| - 1] == last && last.key == "k" && last.name == "n" && last.weight == 1 && last.enabled
    ensures Rebuild(SHARED, prev) == [last, last]
  {
    assert Carried(SHARED[0], prev) == last;
  }

  lemma ReachMore(s: System, es: seq<(SysEvent, int)>, t: System, e: SysEvent, now: int)
    requires Reaches(s, es, t) && Possible(t, e, now)
    ensures Reaches(s, es + [(e, now)], Next(t, e, now))
  {
    assert (es + [(e, now)])[..|es|] == es;
  }

  /** Two real trials under a limit of one: a body left open from before the circuit tripped
      gives back a place it never took (1 succeeds and streams, 2 fails and trips, 3 is the
      trial, 1 closes, 4 is let in). Every request is disciplined, every failure releases. */
  lemma RealTrialsCanExceedLimit() returns (es: seq<(SysEvent, int)>)
    ensures Run(System(SAMPLE, [BACKEND], map[]), es) && HalfOpenLimit(SAMPLE) == 1
    ensures RunTo(System(SAMPLE, [BACKEND], map[]), es).held == map[3 := "k", 4 := "k"]
  {
    var s := System(SAMPLE, [BACKEND], map[]);
    assert Text.Trim("k") == "k";
    ReachOne(s, [], SAMPLE, BACKEND, map[], 1, Acquired, 0);
    var held := [] + [(Request(1, Track("k", Acquired)), 0)];
    ReachOne(s, held, SAMPLE, BACKEND.(inFlight := 1), map[1 := "k"], 2, Acquired, 0);
    held := held + [(Request(2, Track("k", Acquired)), 0)];
    Trip(s, held);
    held := held + [(Request(1, Track("k", Succeeded)), 0)] + [(Request(2, Track("k", Failed)), 0)]
      + [(Request(2, Track("k", Released)), 0)];
    TryTwice(s, held);
    es := held + [(Request(3, Track("k", Acquired)), 30 * SECOND)]
      + [(Request(1, Track("k", Released)), 31 * SECOND)] + [(Request(4, Track("k", Acquired)), 31 * SECOND)];
  }

  /** Request 1 succeeds and keeps its body open, request 2 fails and trips the circuit. */
  lemma Trip(s: System, es: seq<(SysEvent, int)>)
    requires Reaches(s, es, System(SAMPLE, [BACKEND.(inFlight := 2)], map[1 := "k", 2 := "k"]))
    ensures
      Reaches(s, es + [(Request(1, Track("k", Succeeded)), 0)] + [(Request(2, Track("k", Failed)), 0)]
                 + [(Request(2, Track("k", Released)), 0)],
              System(SAMPLE, [TRIPPED], map[1 := "k"]))
  {
    var b := BACKEND.(inFlight := 2);
    assert Text.Trim("k") == "k";
    ReachOne(s, es, SAMPLE, b, map[1 := "k", 2 := "k"], 1, Succeeded, 0);
    var es1 := es + [(Request(1, Track("k", Succeeded)), 0)];
    ReachOne(s, es1, SAMPLE, b, map[1 := "k", 2 := "k"], 2, Failed, 0);
    ReachOne(s, es1 + [(Request(2, Track("k", Failed)), 0)], SAMPLE, TRIPPED.(inFlight := 2),
             map[1 := "k", 2 := "k"], 2, Released, 0);
    assert map[1 := "k", 2 := "k"] - {2} == map[1 := "k"];
  }

  const TRIPPED := BACKEND.(inFlight := 1, passiveFailures := 1, circuit := Open, reopenAt := Some(30 * SECOND))

  /** Request 3 is the trial; request 1 closes its body; request 4 is let in beside it. */
  lemma TryTwice(s: System, es: seq<(SysEvent, int)>)
    requires Reaches(s, es, System(SAMPLE, [TRIPPED], map[1 := "k"]))
    ensures
      var all := es + [(Request(3, Track("k", Acquired)), 30 * SECOND)]
        + [(Request(1, Track("k", Released)), 31 * SECOND)] + [(Request(4, Track("k", Acquired)), 31 * SECOND)];
      Run(s, all) && RunTo(s, all).held == map[3 := "k", 4 := "k"]
  {
    assert Text.Trim("k") == "k";
    ReachOne(s, es, SAMPLE, TRIPPED, map[1 := "k"], 3, Acquired, 30 * SECOND);
    var es1 := es + [(Request(3, Track("k", Acquired)), 30 * SECOND)];
    ReachOne(s, es1, SAMPLE, TRIPPED.(inFlight := 2, circuit := HalfOpen, halfOpen := 1), map[1 := "k", 3 := "k"],
             1, Released, 31 * SECOND);
    assert map[1 := "k", 3 := "k"] - {1} == map[3 := "k"];
    ReachOne(s, es1 + [(Request(1, Track("k", Released)), 31 * SECOND)], SAMPLE,
             TRIPPED.(circuit := HalfOpen, halfOpen := 0), map[3 := "k"], 4, Acquired, 31 * SECOND);
  }
}
