/**
 * The outgoing request limiter: per key role a chain of slots at least 250 ms
 * apart, and a retry loop with bounded exponential backoff around it.
 */
module RateLimiter {
  import opened Basics
  import opened Wrappers

  const MIN_INTERVAL_MS := 250
  const MAX_RETRIES := 8

  // ----- slots -----

  /** One queued call: when it was made, how late its turn started, how much its sleep overran. */
  datatype Arrival = Arrival(at: int, lag: nat, oversleep: nat)

  /** When a slot is granted: its turn starts after its predecessor's, then it waits out the interval. */
  function Grant(previous: Option<int>, a: Arrival): int {
    var turn := (if previous.Some? then Max(a.at, previous.value) else a.at) + a.lag;
    var lastAt := if previous.Some? then previous.value else 0;
    var wait := Max(0, lastAt + MIN_INTERVAL_MS - turn);
    turn + wait + a.oversleep
  }

  function Grants(arrivals: seq<Arrival>): (g: seq<int>)
    ensures |g| == |arrivals|
  {
    if arrivals == [] then []
    else
      var before := Grants(arrivals[..|arrivals| - 1]);
      var previous := if before == [] then None else Some(before[|before| - 1]);
      before + [Grant(previous, arrivals[|arrivals| - 1])]
  }

  class SlotQueue {
    var lastAt: int
    var arrivals: seq<Arrival>

    ghost predicate Valid()
      reads this
    {
      lastAt == if arrivals == [] then 0 else Grants(arrivals)[|arrivals| - 1]
    }

    constructor ()
      ensures Valid() && arrivals == []
    {
      lastAt, arrivals := 0, [];
    }

    /** Runs when the call's turn in the chain has come. */
    method AcquireSlot(a: Arrival) returns (grantedAt: int)
      requires Valid()
      modifies this
      ensures Valid() && arrivals == old(arrivals) + [a]
      ensures grantedAt == Grants(arrivals)[|arrivals| - 1]
    {
      assert (arrivals + [a])[..|arrivals|] == arrivals;
      var now := (if arrivals == [] then a.at else Max(a.at, lastAt)) + a.lag;
      var wait := Max(0, lastAt + MIN_INTERVAL_MS - now);
      if wait > 0 {
        now := now + wait;
      }
      lastAt := now + a.oversleep;
      arrivals := arrivals + [a];
      grantedAt := lastAt;
    }
  }

  /** Slots are granted in the order of the calls, each at least 250 ms after the one before and never early. */
  lemma {:induction false} GrantsSpaced(arrivals: seq<Arrival>, i: nat)
    requires i < |arrivals|
    ensures Grants(arrivals)[i] >= arrivals[i].at
    ensures i > 0 ==> Grants(arrivals)[i] >= Grants(arrivals)[i - 1] + 250
    decreases |arrivals|
  {
    var before := arrivals[..|arrivals| - 1];
    if i < |before| {
      GrantsSpaced(before, i);
    }
  }

  lemma {:induction false} GrantsApart(arrivals: seq<Arrival>, i: nat, j: nat)
    requires i <= j < |arrivals|
    ensures Grants(arrivals)[j] >= Grants(arrivals)[i] + (j - i) * 250
    decreases j - i
  {
    if i < j {
      GrantsApart(arrivals, i, j - 1);
      GrantsSpaced(arrivals, j);
    }
  }

  ghost function InWindow(grants: seq<int>, from: int): set<int> {
    set i | 0 <= i < |grants| && from <= grants[i] < from + 1000
  }

  lemma {:induction false} SmallSet(s: set<int>, first: int, n: nat)
    requires forall i :: i in s ==> first <= i < first + n
    ensures |s| <= n
    decreases n
  {
    if n == 0 {
      forall i ensures i !in s {}
      assert s == {};
    } else {
      SmallSet(s - {first + n - 1}, first, n - 1);
    }
  }

  /** However the calls arrive, every half-open window of one second holds at most four grants. */
  lemma AtMostFourPerSecond(arrivals: seq<Arrival>, from: int)
    ensures |InWindow(Grants(arrivals), from)| <= 4
  {
    var grants := Grants(arrivals);
    var inside := InWindow(grants, from);
    if inside != {} {
      var first := Earliest(grants, from);
      forall i | i in inside ensures first <= i < first + 4 {
        if i >= first + 4 {
          GrantsApart(arrivals, first, i);
        }
      }
      SmallSet(inside, first, 4);
    }
  }

  lemma Earliest(grants: seq<int>, from: int) returns (first: nat)
    requires InWindow(grants, from) != {}
    ensures first in InWindow(grants, from) && forall i :: i in InWindow(grants, from) ==> first <= i
  {
    var some :| some in InWindow(grants, from);
    first := 0;
    while first !in InWindow(grants, from)
      invariant 0 <= first <= some
      invariant forall i :: i in InWindow(grants, from) ==> first <= i
      decreases some - first
    {
      first := first + 1;
    }
  }

  /**
   * When a slot is granted: its turn comes with the call or the grant before it, whichever is later, and any lag; it then
   * waits until 250 ms after that grant, no longer, and may oversleep.
   */
  lemma GrantRule(arrivals: seq<Arrival>)
    requires arrivals != []
    ensures var n, a := |arrivals|, arrivals[|arrivals| - 1];
            var before := if n > 1 then Grants(arrivals[..n - 1])[n - 2] else 0;
            var turn := (if n > 1 && before > a.at then before else a.at) + a.lag;
            Grants(arrivals)[n - 1] == (if turn >= before + 250 then turn else before + 250) + a.oversleep
  {
  }

  /** Without lag the limiter is as fast as its rule allows: no slot waits longer than the interval demands. */
  lemma NoNeedlessWait(arrivals: seq<Arrival>)
    requires arrivals != []
    requires var a := arrivals[|arrivals| - 1]; a.lag == 0 && a.oversleep == 0 && a.at >= 250
    ensures var n := |arrivals|;
            Grants(arrivals)[n - 1] ==
              if n == 1 then arrivals[0].at
              else Max(arrivals[n - 1].at, Grants(arrivals[..n - 1])[n - 2] + 250)
  {
  }

  // ----- retries -----

  /** What one request came back with; the text is the error detail and body message together. */
  datatype Answer = Response(status: int, text: string) | NetworkError(code: Option<int>)

  datatype Verdict = Success | QuotaExhausted | AuthRejected | RequestFailed | Unavailable503 | GaveUp | NoCredential

  predicate IsQuotaExhausted(status: int, text: string) {
    (status == 403 || status == 401) && (Contains(Lower(text), "over quota") || Contains(Lower(text), "quota limit"))
  }

  predicate IsRateLimited(status: int, text: string) {
    status == 429
    || (status == 403 && (Contains(Lower(text), "over rate limit") || Contains(Lower(text), "rate limit")))
  }

  /** The final verdict on an answer, or none if the request is to be tried again. */
  function Decide(a: Answer): Option<Verdict> {
    match a
    case NetworkError(code) => if code == Some(503) then Some(Unavailable503) else None
    case Response(status, text) =>
      if 200 <= status < 300 then Some(Success)
      else if IsQuotaExhausted(status, text) then Some(QuotaExhausted)
      else if IsRateLimited(status, text) then None
      else if status == 503 || status == 504 then None
      else if status == 401 || status == 403 then Some(AuthRejected)
      else Some(RequestFailed)
  }

  function PowerOfTwo(n: nat): nat { if n == 0 then 1 else 2 * PowerOfTwo(n - 1) }

  function Backoff(attempt: nat, jitter: nat): nat {
    var base := 1000 * PowerOfTwo(attempt);
    (if base > 60_000 then 60_000 else base) + jitter
  }

  function TotalBackoff(n: nat, jitter: nat -> nat): nat {
    if n == 0 then 0 else TotalBackoff(n - 1, jitter) + Backoff(n - 1, jitter(n - 1))
  }

  /** The first attempt that decides, or eight if none does. */
  function FirstDecisive(answers: nat -> Answer, from: nat): (k: nat)
    requires from <= MAX_RETRIES
    decreases MAX_RETRIES - from
  {
    if from == MAX_RETRIES || Decide(answers(from)).Some? then from else FirstDecisive(answers, from + 1)
  }

  method RequestWithRetry(hasKey: bool, answers: nat -> Answer, jitter: nat -> nat)
    returns (verdict: Verdict, requests: nat, slept: nat)
    requires forall i :: jitter(i) < 250
    ensures !hasKey ==> verdict == NoCredential && requests == 0 && slept == 0
    ensures hasKey ==>
              var k := FirstDecisive(answers, 0);
              && requests == (if k < MAX_RETRIES then k + 1 else MAX_RETRIES)
              && verdict == (if k < MAX_RETRIES then Decide(answers(k)).value else GaveUp)
              && slept == TotalBackoff(k, jitter)
  {
    requests, slept := 0, 0;
    if !hasKey {
      return NoCredential, 0, 0;
    }
    var attempt := 0;
    while attempt < MAX_RETRIES
      invariant requests == attempt <= MAX_RETRIES
      invariant slept == TotalBackoff(attempt, jitter)
      invariant FirstDecisive(answers, 0) == FirstDecisive(answers, attempt)
    {
      requests := requests + 1;
      var decision := Decide(answers(attempt));
      if decision.Some? {
        return decision.value, requests, slept;
      }
      slept := slept + Backoff(attempt, jitter(attempt));
      attempt := attempt + 1;
    }
    return GaveUp, requests, slept;
  }

  /** Whatever the answers, a call makes at most eight requests and sleeps at most 184,992 ms. */
  lemma RetryBounds(answers: nat -> Answer, jitter: nat -> nat)
    requires forall i :: jitter(i) < 250
    ensures var k := FirstDecisive(answers, 0);
            && k <= MAX_RETRIES
            && TotalBackoff(k, jitter) <= 184_992
            && (forall i :: 0 <= i < k ==> Decide(answers(i)).None?)
            && (k < MAX_RETRIES ==> Decide(answers(k)).Some?)
  {
    DecisiveIsFirst(answers, 0);
    BackoffGrows(FirstDecisive(answers, 0), MAX_RETRIES, jitter);
    EightBackoffs(jitter);
  }

  lemma {:induction false} DecisiveIsFirst(answers: nat -> Answer, from: nat)
    requires from <= MAX_RETRIES
    ensures var k := FirstDecisive(answers, from);
            && from <= k <= MAX_RETRIES
            && (forall i :: from <= i < k ==> Decide(answers(i)).None?)
            && (k < MAX_RETRIES ==> Decide(answers(k)).Some?)
    decreases MAX_RETRIES - from
  {
    if from < MAX_RETRIES && Decide(answers(from)).None? {
      DecisiveIsFirst(answers, from + 1);
    }
  }

  lemma {:induction false} BackoffGrows(n: nat, m: nat, jitter: nat -> nat)
    requires n <= m
    ensures TotalBackoff(n, jitter) <= TotalBackoff(m, jitter)
  {
    if n < m { BackoffGrows(n, m - 1, jitter); }
  }

  lemma EightBackoffs(jitter: nat -> nat)
    requires forall i :: jitter(i) < 250
    ensures TotalBackoff(8, jitter) <= 184_992
  {
    assert PowerOfTwo(1) == 2 && PowerOfTwo(2) == 4 && PowerOfTwo(3) == 8;
    assert PowerOfTwo(4) == 16 && PowerOfTwo(5) == 32;
    assert PowerOfTwo(6) == 64 && PowerOfTwo(7) == 128;
    assert TotalBackoff(2, jitter) <= 3_000 + 2 * 249;
    assert TotalBackoff(4, jitter) <= 15_000 + 4 * 249;
    assert TotalBackoff(6, jitter) <= 63_000 + 6 * 249;
    assert TotalBackoff(8, jitter) <= 183_000 + 8 * 249;
  }

  // ----- the rules in figures -----

  predicate Mentions(text: string, a: string, b: string) { Contains(Lower(text), a) || Contains(Lower(text), b) }

  predicate OverQuota(status: int, text: string) {
    (status == 401 || status == 403) && Mentions(text, "over quota", "quota limit")
  }

  predicate Throttled(status: int, text: string) {
    status == 429 || (status == 403 && Mentions(text, "over rate limit", "rate limit"))
  }

  /** Answers after which the request is made again. */
  predicate Retried(a: Answer) {
    match a
    case NetworkError(code) => code != Some(503)
    case Response(status, text) => !OverQuota(status, text) && (Throttled(status, text) || status == 503 || status == 504)
  }

  /** What each answer leads to. */
  lemma AnswerRule(a: Answer)
    ensures Decide(a).None? <==> Retried(a)
    ensures Decide(a) == Some(Success) <==> a.Response? && 200 <= a.status <= 299
    ensures Decide(a) == Some(QuotaExhausted) <==> a.Response? && OverQuota(a.status, a.text)
    ensures Decide(a) == Some(AuthRejected)
            <==> && a.Response? && (a.status == 401 || a.status == 403)
                 && !OverQuota(a.status, a.text) && !Throttled(a.status, a.text)
    ensures Decide(a) == Some(RequestFailed)
            <==> && a.Response? && !(200 <= a.status <= 299)
                 && a.status !in {401, 403, 429, 503, 504}
    ensures Decide(a) == Some(Unavailable503) <==> a == NetworkError(Some(503))
    ensures Decide(a) != Some(GaveUp) && Decide(a) != Some(NoCredential)
  {
  }

  /** The answer that ends a call is the first of eight that is not retried, if there is one. */
  lemma CallEnds(answers: nat -> Answer)
    ensures var k := FirstDecisive(answers, 0);
            && k <= 8
            && (forall i :: 0 <= i < k ==> Retried(answers(i)))
            && (k < 8 ==> !Retried(answers(k)))
  {
    DecisiveIsFirst(answers, 0);
    forall i: nat ensures Decide(answers(i)).None? <==> Retried(answers(i)) {
      AnswerRule(answers(i));
    }
  }

  /** The waits between attempts: one second doubled each time up to a minute, and the jitter on top. */
  lemma BackoffTable(attempt: nat, jitter: nat)
    requires attempt < 8
    ensures Backoff(attempt, jitter) - jitter == [1000, 2000, 4000, 8000, 16_000, 32_000, 60_000, 60_000][attempt]
  {
    assert PowerOfTwo(1) == 2 && PowerOfTwo(2) == 4 && PowerOfTwo(3) == 8 && PowerOfTwo(4) == 16;
    assert PowerOfTwo(5) == 32 && PowerOfTwo(6) == 64 && PowerOfTwo(7) == 128;
  }

  lemma {:induction false} WaitsAddUp(n: nat, jitter: nat -> nat)
    requires n > 0
    ensures TotalBackoff(n, jitter) == TotalBackoff(n - 1, jitter) + Backoff(n - 1, jitter(n - 1))
    ensures TotalBackoff(0, jitter) == 0
  {
  }
}
