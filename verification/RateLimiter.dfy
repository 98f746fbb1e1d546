/** The token bucket of `hard-eval/results/h4_ratelimiter.verified.js`, with times
    and amounts as reals. */
module RateLimiter {

  function Min(a: real, b: real): real {
    if a <= b then a else b
  }

  datatype Bucket = Bucket(cap: real, rate: real, tokens: real, last: Time)
  datatype Time = Never | At(t: real)

  // ---------- one call at a time ----------

  /** What the time between two instants brings. */
  function Credit(from: real, to: real, rate: real): real {
    (to - from) / 1000.0 * rate
  }

  function Refill(b: Bucket, now: real): Bucket {
    if b.last.Never? then b.(last := At(now))
    else if now > b.last.t then b.(tokens := Min(b.cap, b.tokens + Credit(b.last.t, now, b.rate)), last := At(now))
    else b
  }

  datatype Call = TryRemove(n: real, now: real) | Available(now: real)

  datatype Answer = Granted(yes: bool) | Tokens(amount: real)

  function Step(b: Bucket, c: Call): (Bucket, Answer) {
    var r := Refill(b, c.now);
    match c
    case TryRemove(n, _) => if r.tokens >= n then (r.(tokens := r.tokens - n), Granted(true)) else (r, Granted(false))
    case Available(_) => (r, Tokens(r.tokens))
  }

  class Limiter {
    const cap: real
    const rate: real
    var tokens: real
    var last: Time

    ghost function Model(): Bucket
      reads this
    {
      Bucket(cap, rate, tokens, last)
    }

    constructor (capacity: real, refillPerSec: real)
      ensures Model() == Bucket(capacity, refillPerSec, capacity, Never)
    {
      cap, rate, tokens, last := capacity, refillPerSec, capacity, Never;
    }

    method RefillTo(now: real)
      modifies this
      ensures Model() == Refill(old(Model()), now)
    {
      if last == Never {
        last := At(now);
        return;
      }
      if now > last.t {
        tokens := Min(cap, tokens + (now - last.t) / 1000.0 * rate);
        last := At(now);
      }
    }

    method TryRemove(n: real, now: real) returns (granted: bool)
      modifies this
      ensures (Model(), Granted(granted)) == Step(old(Model()), Call.TryRemove(n, now))
    {
      RefillTo(now);
      if tokens >= n {
        tokens := tokens - n;
        return true;
      }
      return false;
    }

    method Available(now: real) returns (amount: real)
      modifies this
      ensures (Model(), Tokens(amount)) == Step(old(Model()), Call.Available(now))
    {
      RefillTo(now);
      return tokens;
    }
  }

  // ---------- runs ----------

  function Run(b: Bucket, calls: seq<Call>): (r: (Bucket, seq<Answer>))
    ensures |r.1| == |calls|
    decreases |calls|
  {
    if calls == [] then (b, [])
    else
      var (next, a) := Step(b, calls[0]);
      var (end, more) := Run(next, calls[1..]);
      (end, [a] + more)
  }

  /** A bucket as any run leaves it: between empty and full, and still full if never used. */
  predicate Valid(b: Bucket) {
    0.0 <= b.rate && 0.0 <= b.tokens <= b.cap && (b.last.Never? ==> b.tokens == b.cap)
  }

  predicate Sensible(calls: seq<Call>) {
    forall c :: c in calls && c.TryRemove? ==> 0.0 <= c.n
  }

  /** What the granted calls of a run took out. */
  function TotalGranted(calls: seq<Call>, answers: seq<Answer>): real
    requires |calls| == |answers|
    decreases |calls|
  {
    if calls == [] then 0.0
    else
      (if calls[0].TryRemove? && answers[0] == Granted(true) then calls[0].n else 0.0)
      + TotalGranted(calls[1..], answers[1..])
  }

  lemma {:induction false} ProductGrows(d: real, rate: real)
    requires 0.0 <= d && 0.0 <= rate
    ensures 0.0 <= d / 1000.0 * rate
  {
  }

  lemma {:induction false} RefillValid(b: Bucket, now: real)
    requires Valid(b)
    ensures Valid(Refill(b, now)) && Refill(b, now).cap == b.cap && Refill(b, now).rate == b.rate
    ensures Refill(b, now).last.At? && now <= Refill(b, now).last.t
  {
    if b.last.At? && now > b.last.t {
      ProductGrows(now - b.last.t, b.rate);
    }
  }

  /** Tokens stay between zero and the capacity over any run. */
  lemma {:induction false} RunValid(b: Bucket, calls: seq<Call>)
    requires Valid(b) && Sensible(calls)
    ensures Valid(Run(b, calls).0)
    decreases |calls|
  {
    if calls != [] {
      assert calls[0] in calls && forall c :: c in calls[1..] ==> c in calls;
      RefillValid(b, calls[0].now);
      RunValid(Step(b, calls[0]).0, calls[1..]);
    }
  }

  // ---------- the rate bound ----------

  lemma {:induction false} Distributes(x: real, y: real, rate: real)
    ensures (x + y) * rate == x * rate + y * rate
  {
  }

  lemma {:induction false} CreditAdds(a: real, b: real, c: real, rate: real)
    ensures Credit(a, b, rate) + Credit(b, c, rate) == Credit(a, c, rate)
  {
    var x, y := (b - a) / 1000.0, (c - b) / 1000.0;
    assert (c - a) / 1000.0 == x + y;
    Distributes(x, y, rate);
  }

  /** A call leaves no more than there was plus what time brought, less what it took. */
  lemma {:induction false} StepWithinCredit(b: Bucket, c: Call)
    requires Valid(b) && b.last.At?
    ensures var (next, a) := Step(b, c);
      next.last.At? && b.last.t <= next.last.t
      && next.tokens + (if a == Granted(true) then c.n else 0.0) <= b.tokens + Credit(b.last.t, next.last.t, b.rate)
  {
    if c.now > b.last.t {
      assert Refill(b, c.now).tokens == Min(b.cap, b.tokens + Credit(b.last.t, c.now, b.rate));
    } else {
      NoTimeNoCredit(b.last.t, b.rate);
    }
  }

  /** Tokens left plus tokens taken never exceed what was there plus what time brought. */
  lemma {:induction false} GrantedWithinCredit(b: Bucket, calls: seq<Call>, until: real)
    requires Valid(b) && Sensible(calls) && b.last.At? && b.last.t <= until
    requires forall c :: c in calls ==> c.now <= until
    ensures var (end, answers) := Run(b, calls);
      && end.last.At? && end.last.t <= until
      && end.tokens + TotalGranted(calls, answers) <= b.tokens + Credit(b.last.t, end.last.t, b.rate)
    decreases |calls|
  {
    if calls != [] {
      assert calls[0] in calls && forall c :: c in calls[1..] ==> c in calls;
      RefillValid(b, calls[0].now);
      StepWithinCredit(b, calls[0]);
      var (next, a) := Step(b, calls[0]);
      GrantedWithinCredit(next, calls[1..], until);
      var (end, later) := Run(next, calls[1..]);
      assert Run(b, calls).1[1..] == later;
      assert end.tokens + ((if a == Granted(true) then calls[0].n else 0.0) + TotalGranted(calls[1..], later)) <=
             b.tokens + (Credit(b.last.t, next.last.t, b.rate) + Credit(next.last.t, end.last.t, b.rate));
      CreditAdds(b.last.t, next.last.t, end.last.t, b.rate);
    }
  }

  lemma {:induction false} CreditMonotone(a: real, b: real, c: real, d: real, rate: real)
    requires a <= b && c <= d && 0.0 <= rate
    ensures Credit(b, c, rate) <= Credit(a, d, rate)
  {
    CreditAdds(a, b, d, rate);
    CreditAdds(b, c, d, rate);
    ProductGrows(b - a, rate);
    ProductGrows(d - c, rate);
  }

  lemma {:induction false} NoCreditBackwards(from: real, to: real, rate: real)
    requires to <= from && 0.0 <= rate
    ensures Credit(from, to, rate) <= 0.0
  {
    ProductGrows(from - to, rate);
    assert Credit(from, to, rate) == -((from - to) / 1000.0 * rate);
  }

  /** Over any stretch of calls, wherever it starts in a run and in whatever order
      its times come, the total granted is at most the capacity plus what the rate
      allows from the first call's time to the latest time. */
  lemma {:induction false} RateBound(b: Bucket, calls: seq<Call>, until: real)
    requires Valid(b) && Sensible(calls) && calls != []
    requires forall c :: c in calls ==> c.now <= until
    ensures TotalGranted(calls, Run(b, calls).1) <= b.cap + Credit(calls[0].now, until, b.rate)
  {
    var now := calls[0].now;
    assert calls[0] in calls;
    var r := Refill(b, now);
    RefillValid(b, now);
    RefillTwice(b, now, now);
    assert Step(r, calls[0]) == Step(b, calls[0]);
    assert Run(r, calls) == Run(b, calls);
    GrantedWithinCredit(r, calls, if r.last.t <= until then until else r.last.t);
    RunValid(r, calls);
    var end := Run(r, calls).0;
    if r.last.t <= until {
      CreditMonotone(now, r.last.t, end.last.t, until, b.rate);
    } else {
      NoCreditBackwards(r.last.t, end.last.t, b.rate);
      NoCreditBackwards(until, now, b.rate);
      CreditAdds(now, until, now, b.rate);
      assert Credit(now, now, b.rate) == 0.0 by {
        assert (now - now) / 1000.0 == 0.0;
      }
    }
  }

  // ---------- polling is free ----------

  /** Refilling on the way to a later time makes no difference there. */
  lemma {:induction false} RefillTwice(b: Bucket, p: real, t: real)
    requires Valid(b) && p <= t
    ensures Refill(Refill(b, p), t) == Refill(b, t)
  {
    if b.last.At? && p > b.last.t {
      CreditAdds(b.last.t, p, t, b.rate);
      ProductGrows(t - p, b.rate);
    } else if b.last.Never? && t > p {
      ProductGrows(t - p, b.rate);
    }
  }

  lemma {:induction false} RunAppend(b: Bucket, a: seq<Call>, c: seq<Call>)
    ensures Run(b, a + c).0 == Run(Run(b, a).0, c).0
    ensures Run(b, a + c).1 == Run(b, a).1 + Run(Run(b, a).0, c).1
    decreases |a|
  {
    if a == [] {
      assert a + c == c;
    } else {
      assert (a + c)[1..] == a[1..] + c;
      RunAppend(Step(b, a[0]).0, a[1..], c);
    }
  }

  lemma {:induction false} RunPoll(b: Bucket, p: real)
    ensures Run(b, [Available(p)]) == (Refill(b, p), [Tokens(Refill(b, p).tokens)])
  {
    var (next, a) := Step(b, Available(p));
    assert [Available(p)][1..] == [] && Run(next, []) == (next, []);
    assert [a] + [] == [a];
  }

  /** A poll put in anywhere, at a time no later than the next call's, changes none
      of the other answers and nothing that follows. */
  lemma {:induction false} PollChangesNothing(b: Bucket, a: seq<Call>, p: real, c: seq<Call>)
    requires Valid(b) && Sensible(a)
    requires c != [] ==> p <= c[0].now
    ensures var with, without := Run(b, a + [Available(p)] + c), Run(b, a + c);
      && |with.1| == |without.1| + 1
      && with.1[..|a|] == without.1[..|a|] && with.1[|a| + 1..] == without.1[|a|..]
      && (c != [] ==> with.0 == without.0)
  {
    var m := Run(b, a).0;
    var poll := [Available(p)];
    RunValid(b, a);
    RunAppend(b, a, c);
    RunAppend(b, a, poll);
    RunAppend(b, a + poll, c);
    RunPoll(m, p);
    if c != [] {
      RefillTwice(m, p, c[0].now);
      assert Step(Refill(m, p), c[0]) == Step(m, c[0]);
      assert Run(Refill(m, p), c) == Run(m, c);
    }
  }

  // ---------- exactly when a request is granted ----------

  function Took(c: Call, a: Answer): real {
    if c.TryRemove? && a == Granted(true) then c.n else 0.0
  }

  /** Times do not run back, and do not begin before the bucket was last refilled. */
  predicate Forward(b: Bucket, calls: seq<Call>) {
    && (forall i, j :: 0 <= i < j < |calls| ==> calls[i].now <= calls[j].now)
    && (calls != [] && b.last.At? ==> b.last.t <= calls[0].now)
  }

  function Start(b: Bucket, calls: seq<Call>): real
    requires calls != []
  {
    if b.last.At? then b.last.t else calls[0].now
  }

  /** What may still be taken at call i if no more than the capacity is to be there at call j. */
  function Bound(b: Bucket, calls: seq<Call>, j: nat, i: nat): real
    requires j <= i < |calls|
  {
    b.cap + Credit(calls[j].now, calls[i].now, b.rate) - TotalGranted(calls[j..i], Run(b, calls).1[j..i])
  }

  /** The same for the tokens there at the start. */
  function StartBound(b: Bucket, calls: seq<Call>, i: nat): real
    requires i < |calls|
  {
    b.tokens + Credit(Start(b, calls), calls[i].now, b.rate) - TotalGranted(calls[..i], Run(b, calls).1[..i])
  }

  /** The bucket as call i finds it. */
  function Found(b: Bucket, calls: seq<Call>, i: nat): Bucket
    requires i < |calls|
  {
    Refill(Run(b, calls[..i]).0, calls[i].now)
  }

  lemma {:induction false} TotalAppend(calls: seq<Call>, answers: seq<Answer>, c: Call, a: Answer)
    requires |calls| == |answers|
    ensures TotalGranted(calls + [c], answers + [a]) == TotalGranted(calls, answers) + Took(c, a)
    decreases |calls|
  {
    if calls == [] {
      assert [c][1..] == [] && [a][1..] == [];
      assert calls + [c] == [c] && answers + [a] == [a];
    } else {
      assert (calls + [c])[1..] == calls[1..] + [c] && (answers + [a])[1..] == answers[1..] + [a];
      TotalAppend(calls[1..], answers[1..], c, a);
    }
  }

  lemma {:induction false} RunOneMore(b: Bucket, calls: seq<Call>, i: nat)
    requires i < |calls|
    ensures var (next, a) := Step(Run(b, calls[..i]).0, calls[i]);
      Run(b, calls[..i + 1]).0 == next && Run(b, calls).1[i] == a
  {
    var m := Run(b, calls[..i]).0;
    assert calls[..i + 1] == calls[..i] + [calls[i]];
    assert calls == calls[..i] + calls[i..];
    RunAppend(b, calls[..i], [calls[i]]);
    RunAppend(b, calls[..i], calls[i..]);
    assert [calls[i]][1..] == [];
    assert Run(m, [calls[i]]).0 == Step(m, calls[i]).0;
  }

  lemma {:induction false} NoTimeNoCredit(t: real, rate: real)
    ensures Credit(t, t, rate) == 0.0
  {
    assert (t - t) / 1000.0 == 0.0;
  }

  /** Both kinds of bound move on with time and shrink with what is taken. */
  lemma {:induction false} BoundsMove(b: Bucket, calls: seq<Call>, i: nat, d: real)
    requires i + 1 < |calls|
    requires d == Credit(calls[i].now, calls[i + 1].now, b.rate) - Took(calls[i], Run(b, calls).1[i])
    ensures StartBound(b, calls, i + 1) == StartBound(b, calls, i) + d
    ensures forall j :: 0 <= j <= i ==> Bound(b, calls, j, i + 1) == Bound(b, calls, j, i) + d
    ensures Bound(b, calls, i + 1, i + 1) == b.cap
  {
    var answers := Run(b, calls).1;
    assert calls[..i + 1] == calls[..i] + [calls[i]] && answers[..i + 1] == answers[..i] + [answers[i]];
    TotalAppend(calls[..i], answers[..i], calls[i], answers[i]);
    CreditAdds(Start(b, calls), calls[i].now, calls[i + 1].now, b.rate);
    forall j | 0 <= j <= i
      ensures Bound(b, calls, j, i + 1) ==
              Bound(b, calls, j, i) + (Credit(calls[i].now, calls[i + 1].now, b.rate) - Took(calls[i], answers[i]))
    {
      assert calls[j..i + 1] == calls[j..i] + [calls[i]] && answers[j..i + 1] == answers[j..i] + [answers[i]];
      TotalAppend(calls[j..i], answers[j..i], calls[i], answers[i]);
      CreditAdds(calls[j].now, calls[i].now, calls[i + 1].now, b.rate);
    }
    NoTimeNoCredit(calls[i + 1].now, b.rate);
    assert calls[i + 1..i + 1] == [];
  }

  /** With times that do not run back, a refill fills up to the capacity. */
  lemma {:induction false} RefillFills(b: Bucket, now: real)
    requires Valid(b) && b.last.At? && b.last.t <= now
    ensures Refill(b, now) == b.(tokens := Min(b.cap, b.tokens + Credit(b.last.t, now, b.rate)), last := At(now))
  {
    NoTimeNoCredit(now, b.rate);
  }

  lemma {:induction false} FoundFirst(b: Bucket, calls: seq<Call>)
    requires Valid(b) && calls != [] && Forward(b, calls)
    ensures Found(b, calls, 0) == Bucket(b.cap, b.rate, Min(b.cap, StartBound(b, calls, 0)), At(calls[0].now))
    ensures Bound(b, calls, 0, 0) == b.cap
  {
    assert calls[..0] == [] && calls[0..0] == [];
    NoTimeNoCredit(calls[0].now, b.rate);
    if b.last.At? {
      RefillFills(b, calls[0].now);
    }
  }

  lemma {:induction false} FoundNext(b: Bucket, calls: seq<Call>, i: nat, d: real)
    requires Valid(b) && Sensible(calls) && Forward(b, calls) && i + 1 < |calls|
    requires Found(b, calls, i).last == At(calls[i].now)
    requires Found(b, calls, i).cap == b.cap && Found(b, calls, i).rate == b.rate
    requires d == Credit(calls[i].now, calls[i + 1].now, b.rate) - Took(calls[i], Run(b, calls).1[i])
    ensures Found(b, calls, i + 1) ==
            Bucket(b.cap, b.rate, Min(b.cap, Found(b, calls, i).tokens + d), At(calls[i + 1].now))
  {
    RunOneMore(b, calls, i);
    assert forall c :: c in calls[..i + 1] ==> c in calls;
    RunValid(b, calls[..i + 1]);
    RefillFills(Run(b, calls[..i + 1]).0, calls[i + 1].now);
  }

  /** What a call finds is the least of all bounds. */
  lemma {:induction false} FindsTheLeast(b: Bucket, calls: seq<Call>, i: nat)
    requires Valid(b) && Sensible(calls) && Forward(b, calls) && i < |calls|
    ensures var f := Found(b, calls, i); f.last == At(calls[i].now) && f.cap == b.cap && f.rate == b.rate
    ensures IsLeast(Found(b, calls, i).tokens, Bounds(b, calls, i))
  {
    if i == 0 {
      FoundFirst(b, calls);
      assert Bounds(b, calls, 0) == [StartBound(b, calls, 0), b.cap];
    } else {
      var h: nat := i - 1;
      var d := Credit(calls[h].now, calls[h + 1].now, b.rate) - Took(calls[h], Run(b, calls).1[h]);
      FindsTheLeast(b, calls, h);
      FoundNext(b, calls, h, d);
      NextBounds(b, calls, h, d);
      LeastMoves(Found(b, calls, h).tokens, Bounds(b, calls, h), d, b.cap, Bounds(b, calls, i));
    }
  }

  /** All bounds at call i, the one at the start first. */
  function Bounds(b: Bucket, calls: seq<Call>, i: nat): (bs: seq<real>)
    requires i < |calls|
    ensures |bs| == i + 2
  {
    [StartBound(b, calls, i)] + seq(i + 1, j requires 0 <= j < i + 1 => Bound(b, calls, j, i))
  }

  ghost predicate IsLeast(x: real, bs: seq<real>) {
    x in bs && forall k :: 0 <= k < |bs| ==> x <= bs[k]
  }

  lemma {:induction false} LeastMoves(x: real, bs: seq<real>, d: real, cap: real, next: seq<real>)
    requires IsLeast(x, bs) && |next| == |bs| + 1 && next[|bs|] == cap
    requires forall k :: 0 <= k < |bs| ==> next[k] == bs[k] + d
    ensures IsLeast(Min(cap, x + d), next)
  {
    var k :| 0 <= k < |bs| && bs[k] == x;
    assert next[k] == x + d;
  }

  lemma {:induction false} NextBounds(b: Bucket, calls: seq<Call>, i: nat, d: real)
    requires i + 1 < |calls|
    requires d == Credit(calls[i].now, calls[i + 1].now, b.rate) - Took(calls[i], Run(b, calls).1[i])
    ensures var bs, next := Bounds(b, calls, i), Bounds(b, calls, i + 1);
      next[|bs|] == b.cap && forall k :: 0 <= k < |bs| ==> next[k] == bs[k] + d
  {
    BoundsMove(b, calls, i, d);
    var bs, next := Bounds(b, calls, i), Bounds(b, calls, i + 1);
    forall k | 0 <= k < |bs| ensures next[k] == bs[k] + d {
      assert k > 0 ==> bs[k] == Bound(b, calls, k - 1, i) && next[k] == Bound(b, calls, k - 1, i + 1);
    }
  }

  /** An amount breaks none of the bounds that hold at call i. */
  ghost predicate Allowed(b: Bucket, calls: seq<Call>, i: nat, n: real)
    requires i < |calls|
  {
    n <= StartBound(b, calls, i) && forall j :: 0 <= j <= i ==> n <= Bound(b, calls, j, i)
  }

  lemma {:induction false} BoundsAllow(b: Bucket, calls: seq<Call>, i: nat, n: real)
    requires i < |calls|
    ensures Allowed(b, calls, i, n) <==> forall k :: 0 <= k < |Bounds(b, calls, i)| ==> n <= Bounds(b, calls, i)[k]
  {
    var bs := Bounds(b, calls, i);
    assert bs[0] == StartBound(b, calls, i);
    if forall k :: 0 <= k < |bs| ==> n <= bs[k] {
      forall j | 0 <= j <= i ensures n <= Bound(b, calls, j, i) {
        assert bs[j + 1] == Bound(b, calls, j, i);
      }
    }
    if Allowed(b, calls, i, n) {
      forall k | 0 <= k < |bs| ensures n <= bs[k] {
        assert bs[k] == if k == 0 then StartBound(b, calls, i) else Bound(b, calls, k - 1, i);
      }
    }
  }

  /** A request is granted exactly if it breaks none of the bounds: from no earlier call on, nor from itself, may
      more be taken than the capacity and what the rate brings since then, and from the start no more than
      was there. So it is refused only where granting it would take too much. */
  lemma {:induction false} GrantedExactly(b: Bucket, calls: seq<Call>, i: nat)
    requires Valid(b) && Sensible(calls) && Forward(b, calls) && i < |calls| && calls[i].TryRemove?
    ensures Run(b, calls).1[i] == Granted(Allowed(b, calls, i, calls[i].n))
  {
    FindsTheLeast(b, calls, i);
    RunOneMore(b, calls, i);
    BoundsAllow(b, calls, i, calls[i].n);
    assert Run(b, calls).1[i] == Granted(Found(b, calls, i).tokens >= calls[i].n);
  }

  /** And a poll answers the least of the bounds. */
  lemma {:induction false} PollTellsExactly(b: Bucket, calls: seq<Call>, i: nat, x: real)
    requires Valid(b) && Sensible(calls) && Forward(b, calls) && i < |calls| && calls[i].Available?
    ensures Run(b, calls).1[i].Tokens? && (x <= Run(b, calls).1[i].amount <==> Allowed(b, calls, i, x))
  {
    FindsTheLeast(b, calls, i);
    RunOneMore(b, calls, i);
    BoundsAllow(b, calls, i, x);
  }
}
