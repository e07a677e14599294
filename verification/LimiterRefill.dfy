/** Token refill (crates/noxide-authority/src/limiter.rs, `Buckets::charge` and `RateWindow::at`):
    integer arithmetic that neither loses nor invents fractions, and for which rates. */
module LimiterRefill {
  import opened Prelude

  const BILLION: nat := 1_000_000_000
  const U128_MAX: nat := 0xFFFF_FFFF_FFFF_FFFF_FFFF_FFFF_FFFF_FFFF

  /** `u128::saturating_mul`. */
  function Times(a: nat, b: nat): nat {
    if a * b <= U128_MAX then a * b else U128_MAX
  }

  /** `saturating_duration_since`, in nanoseconds. */
  function Since(now: nat, before: nat): nat {
    if now >= before then now - before else 0
  }

  datatype Bucket = Bucket(tokens: nat, last: nat)

  /** Capacity and refill per second; the source divides by the rate. */
  datatype Rate = Rate(capacity: nat, perSecond: nat)

  predicate ValidRate(r: Rate) {
    0 < r.perSecond <= U64_MAX && r.capacity <= U64_MAX
  }

  function Earned(r: Rate, b: Bucket, now: nat): nat {
    Times(Since(now, b.last), r.perSecond) / BILLION
  }

  /** How far whole tokens move the refill clock, as a `u64` of nanoseconds. */
  function Nanos(r: Rate, earned: nat): nat
    requires r.perSecond > 0
  {
    var nanos := Times(earned, BILLION) / r.perSecond;
    if nanos <= U64_MAX then nanos else U64_MAX
  }

  /** The refill at the start of every charge. */
  function Refill(r: Rate, b: Bucket, now: nat): (after: Bucket)
    requires ValidRate(r)
    ensures after.tokens <= r.capacity
  {
    var earned := Earned(r, b, now);
    var tokens := if b.tokens + earned <= r.capacity then b.tokens + earned else r.capacity;
    if tokens == r.capacity then Bucket(tokens, now) else Bucket(tokens, b.last + Nanos(r, earned))
  }

  /** One charge: refill, then take the cost if it is covered, or all there is when draining. */
  function Charge(r: Rate, b: Bucket, cost: nat, drain: bool, now: nat): (result: (Bucket, bool))
    requires ValidRate(r)
    ensures result.0.tokens <= r.capacity
  {
    var full := Refill(r, b, now);
    var allowed := full.tokens >= cost;
    if allowed then (full.(tokens := full.tokens - cost), true)
    else if drain then (full.(tokens := 0), false)
    else (full, false)
  }

  datatype Op = Op(cost: nat, drain: bool, now: nat)

  predicate Ordered(ops: seq<Op>, from: nat) {
    ops == [] || (from <= ops[0].now && Ordered(ops[1..], ops[0].now))
  }

  function LastTime(ops: seq<Op>, from: nat): nat {
    if ops == [] then from else ops[|ops| - 1].now
  }

  /** The bucket after a run of charges. */
  function After(r: Rate, b: Bucket, ops: seq<Op>): Bucket
    requires ValidRate(r)
    decreases |ops|
  {
    if ops == [] then b else After(r, Charge(r, b, ops[0].cost, ops[0].drain, ops[0].now).0, ops[1..])
  }

  /** What the run took out, and what it allowed. */
  function Deducted(r: Rate, b: Bucket, ops: seq<Op>): nat
    requires ValidRate(r)
    decreases |ops|
  {
    if ops == [] then 0
    else
      var full := Refill(r, b, ops[0].now);
      var next := Charge(r, b, ops[0].cost, ops[0].drain, ops[0].now).0;
      (if full.tokens >= next.tokens then full.tokens - next.tokens else 0) + Deducted(r, next, ops[1..])
  }

  function AllowedCost(r: Rate, b: Bucket, ops: seq<Op>): nat
    requires ValidRate(r)
    decreases |ops|
  {
    if ops == [] then 0
    else
      var step := Charge(r, b, ops[0].cost, ops[0].drain, ops[0].now);
      (if step.1 then ops[0].cost else 0) + AllowedCost(r, step.0, ops[1..])
  }

  /** No charge of the run found the bucket full. */
  predicate Uncapped(r: Rate, b: Bucket, ops: seq<Op>)
    requires ValidRate(r)
    decreases |ops|
  {
    ops == [] ||
    (&& Refill(r, b, ops[0].now).tokens < r.capacity
     && Uncapped(r, Charge(r, b, ops[0].cost, ops[0].drain, ops[0].now).0, ops[1..]))
  }

  /** Tokens earned over an interval by exact arithmetic, rounded down once. */
  function Exact(perSecond: nat, elapsed: nat): nat {
    elapsed * perSecond / BILLION
  }

  /** Rates that keep whole tokens a whole number of nanoseconds apart, or whole tokens per
      nanosecond. */
  predicate Even(perSecond: nat)
    requires perSecond > 0
  {
    BILLION % perSecond == 0 || perSecond % BILLION == 0
  }

  lemma ConfiguredRatesAreEven()
    ensures Even(2_000) && Even(30 * 1000 / 60)
  {
  }

  // ----- even rates -----

  lemma MulDiv(a: nat, n: nat)
    requires n > 0
    ensures a * n / n == a
  {
    DivUnique(a * n, n, a, 0);
  }

  /** Earning over a split interval: whole tokens move the clock by exactly their own time. */
  lemma EvenSplit(rate: nat, elapsed: nat, later: nat)
    requires rate > 0 && Even(rate)
    ensures var earned := Exact(rate, elapsed);
            var nanos := earned * BILLION / rate;
            nanos <= elapsed && Exact(rate, elapsed + later) == earned + Exact(rate, elapsed - nanos + later)
  {
    if BILLION % rate == 0 {
      var n := BILLION / rate;
      assert BILLION == n * rate;
      Quotient(elapsed, rate, n);
      var earned := elapsed / n;
      assert earned * BILLION == (earned * n) * rate by { MulAssoc(earned, n, rate); }
      MulDiv(earned * n, rate);
      Quotient(elapsed + later, rate, n);
      Quotient(elapsed - earned * n + later, rate, n);
      DivShift(elapsed - earned * n + later, earned, n);
    } else {
      var k := rate / BILLION;
      assert rate == k * BILLION;
      Whole(elapsed, k);
      Whole(elapsed + later, k);
      assert Exact(rate, elapsed) * BILLION == elapsed * rate by { MulAssoc(elapsed, k, BILLION); }
      MulDiv(elapsed, rate);
      Whole(later, k);
      Distribute(elapsed, later, k);
    }
  }

  lemma MulAssoc(a: nat, b: nat, c: nat)
    ensures a * (b * c) == (a * b) * c
  {
  }

  lemma Distribute(a: nat, b: nat, k: nat)
    ensures (a + b) * k == a * k + b * k
  {
  }

  /** `e·rate / (n·rate)` is `e / n`. */
  lemma Quotient(e: nat, rate: nat, n: nat)
    requires rate > 0 && n > 0 && BILLION == n * rate
    ensures Exact(rate, e) == e / n
  {
    var q, m := e / n, e % n;
    assert e == q * n + m;
    assert e * rate == q * BILLION + m * rate by {
      assert (q * n) * rate == q * (n * rate) by { MulAssoc(q, n, rate); }
      Distribute(q * n, m, rate);
    }
    assert m * rate < BILLION by { MulLess(m, n, rate); }
    DivUnique(e * rate, BILLION, q, m * rate);
  }

  lemma MulLess(a: nat, b: nat, c: nat)
    requires a < b && c > 0
    ensures a * c < b * c
  {
  }

  lemma DivUnique(x: nat, d: nat, q: nat, m: nat)
    requires d > 0 && x == q * d + m && m < d
    ensures x / d == q
  {
    var k := x / d;
    assert x == k * d + x % d;
    if k < q {
      MulAtMost(k + 1, q, d);
      Distribute(k, 1, d);
    }
    if k > q {
      MulAtMost(q + 1, k, d);
      Distribute(q, 1, d);
    }
  }

  lemma MulAtMost(a: nat, b: nat, c: nat)
    requires a <= b
    ensures a * c <= b * c
  {
  }

  lemma DivShift(x: nat, k: nat, n: nat)
    requires n > 0
    ensures (x + k * n) / n == k + x / n
  {
    DivUnique(x + k * n, n, k + x / n, x % n);
  }

  lemma Whole(e: nat, k: nat)
    ensures Exact(k * BILLION, e) == e * k
  {
    assert e * (k * BILLION) == (e * k) * BILLION by { MulAssoc(e, k, BILLION); }
    MulDiv(e * k, BILLION);
  }

  lemma ExactGrows(rate: nat, a: nat, b: nat)
    ensures Exact(rate, a) + Exact(rate, b) <= Exact(rate, a + b)
  {
    Distribute(a, b, rate);
    var x, y := a * rate, b * rate;
    assert x + y == (x / BILLION + y / BILLION) * BILLION + (x % BILLION + y % BILLION);
  }

  /** Within 2^64 nanoseconds nothing saturates. */
  lemma NothingSaturates(r: Rate, b: Bucket, now: nat)
    requires ValidRate(r) && b.last <= now <= U64_MAX
    ensures Earned(r, b, now) == Exact(r.perSecond, now - b.last)
  {
    MulAtMost(now - b.last, U64_MAX, r.perSecond);
    MulAtMost(r.perSecond, U64_MAX, U64_MAX);
    assert (now - b.last) * r.perSecond <= U64_MAX * U64_MAX;
  }

  /** One refill: the clock never passes the reading; below the cap nothing earned by any later
      time is lost or added, and at the cap nothing is added. */
  lemma RefillKeeps(r: Rate, b: Bucket, now: nat, end: nat)
    requires ValidRate(r) && Even(r.perSecond) && b.last <= now <= end && now <= U64_MAX
    ensures var full := Refill(r, b, now);
            && full.last <= now
            && full.tokens + Exact(r.perSecond, end - full.last) <= b.tokens + Exact(r.perSecond, end - b.last)
            && (full.tokens < r.capacity ==>
                  && full.tokens + Exact(r.perSecond, end - full.last) == b.tokens + Exact(r.perSecond, end - b.last)
                  && Exact(r.perSecond, now - full.last) == 0)
  {
    NothingSaturates(r, b, now);
    var rate, elapsed := r.perSecond, now - b.last;
    var earned := Exact(rate, elapsed);
    var full := Refill(r, b, now);
    if full.tokens == r.capacity {
      ExactGrows(rate, elapsed, end - now);
      assert elapsed + (end - now) == end - b.last;
    } else {
      EvenSplit(rate, elapsed, end - now);
      EvenSplit(rate, elapsed, 0);
      EarnedFits(r, earned);
      var nanos := earned * BILLION / rate;
      assert Nanos(r, earned) == nanos && full.last == b.last + nanos;
      assert elapsed - nanos + (end - now) == end - full.last && elapsed + (end - now) == end - b.last;
    }
  }

  lemma EarnedFits(r: Rate, earned: nat)
    requires earned <= U64_MAX
    ensures Times(earned, BILLION) == earned * BILLION
  {
  }

  predicate Timely(b: Bucket, ops: seq<Op>) {
    Ordered(ops, b.last) && LastTime(ops, b.last) <= U64_MAX
  }

  lemma {:induction false} OrderedEnds(ops: seq<Op>, from: nat)
    requires Ordered(ops, from)
    ensures from <= LastTime(ops, from)
    ensures ops != [] ==> ops[0].now <= LastTime(ops, from) && LastTime(ops[1..], ops[0].now) == LastTime(ops, from)
  {
    if ops != [] {
      OrderedEnds(ops[1..], ops[0].now);
    }
  }

  /** A run can start earlier than it was written for. */
  lemma OrderedFrom(ops: seq<Op>, from: nat, earlier: nat)
    requires Ordered(ops, from) && earlier <= from
    ensures Ordered(ops, earlier)
  {
  }

  /** Taking a cost out conserves tokens. */
  lemma ChargeTakes(r: Rate, b: Bucket, op: Op)
    requires ValidRate(r)
    ensures var full := Refill(r, b, op.now);
            var step := Charge(r, b, op.cost, op.drain, op.now);
            && step.0.last == full.last && step.0.tokens <= full.tokens
            && (step.1 ==> full.tokens == step.0.tokens + op.cost)
  {
  }

  /** For an even rate, over any run of charges at nondecreasing times, all that was taken plus
      what is left never exceeds the starting balance plus the exact refill; the allowed cost is
      part of what was taken. */
  lemma {:induction false} TakenIsBounded(r: Rate, b: Bucket, ops: seq<Op>, end: nat)
    requires ValidRate(r) && Even(r.perSecond) && Timely(b, ops) && b.last <= end && LastTime(ops, b.last) <= end
    ensures var z := After(r, b, ops);
            && z.last <= end
            && AllowedCost(r, b, ops) <= Deducted(r, b, ops)
            && z.tokens + Deducted(r, b, ops) + Exact(r.perSecond, end - z.last) <= b.tokens + Exact(r.perSecond, end - b.last)
    decreases |ops|
  {
    if ops != [] {
      var op := ops[0];
      OrderedEnds(ops, b.last);
      RefillKeeps(r, b, op.now, end);
      ChargeTakes(r, b, op);
      var next := Charge(r, b, op.cost, op.drain, op.now).0;
      OrderedFrom(ops[1..], op.now, next.last);
      OrderedEnds(ops[1..], next.last);
      SameEnd(ops[1..], op.now, next.last);
      TakenIsBounded(r, next, ops[1..], end);
    }
  }

  lemma SameEnd(ops: seq<Op>, from: nat, earlier: nat)
    requires earlier <= from
    ensures LastTime(ops, earlier) <= LastTime(ops, from)
  {
  }

  /** Total allowed cost is at most the starting balance plus the refill of the elapsed time. */
  lemma AllowedIsBounded(r: Rate, b: Bucket, ops: seq<Op>)
    requires ValidRate(r) && Even(r.perSecond) && Timely(b, ops)
    ensures b.last <= LastTime(ops, b.last)
    ensures AllowedCost(r, b, ops) <= b.tokens + Exact(r.perSecond, LastTime(ops, b.last) - b.last)
  {
    OrderedEnds(ops, b.last);
    TakenIsBounded(r, b, ops, LastTime(ops, b.last));
  }

  lemma {:induction false} UncappedKeeps(r: Rate, b: Bucket, ops: seq<Op>, end: nat)
    requires ValidRate(r) && Even(r.perSecond) && Timely(b, ops) && Uncapped(r, b, ops) && b.last <= end && LastTime(ops, b.last) <= end
    ensures var z := After(r, b, ops);
            && z.last <= end
            && z.tokens + Deducted(r, b, ops) + Exact(r.perSecond, end - z.last) == b.tokens + Exact(r.perSecond, end - b.last)
            && (ops != [] ==> z.last <= LastTime(ops, b.last) && Exact(r.perSecond, LastTime(ops, b.last) - z.last) == 0)
    decreases |ops|
  {
    if ops != [] {
      var op := ops[0];
      OrderedEnds(ops, b.last);
      RefillKeeps(r, b, op.now, end);
      ChargeTakes(r, b, op);
      var next := Charge(r, b, op.cost, op.drain, op.now).0;
      OrderedFrom(ops[1..], op.now, next.last);
      OrderedEnds(ops[1..], next.last);
      SameEnd(ops[1..], op.now, next.last);
      UncappedKeeps(r, next, ops[1..], end);
    }
  }

  /** Until the cap is reached the balance is exact, however often it is polled. */
  predicate Balanced(r: Rate, b: Bucket, ops: seq<Op>)
    requires ValidRate(r) && Ordered(ops, b.last)
  {
    OrderedEnds(ops, b.last);
    After(r, b, ops).tokens + Deducted(r, b, ops) == b.tokens + Exact(r.perSecond, LastTime(ops, b.last) - b.last)
  }

  lemma BalanceIsExact(r: Rate, b: Bucket, ops: seq<Op>)
    requires ValidRate(r) && Even(r.perSecond) && Timely(b, ops) && Uncapped(r, b, ops)
    ensures Balanced(r, b, ops)
  {
    OrderedEnds(ops, b.last);
    UncappedKeeps(r, b, ops, LastTime(ops, b.last));
  }

  // ----- other rates -----

  ghost predicate AlwaysExact(rate: nat)
    requires 0 < rate <= U64_MAX
  {
    forall capacity: nat, b: Bucket, ops: seq<Op> ::
      capacity <= U64_MAX && Timely(b, ops) && Uncapped(Rate(capacity, rate), b, ops) ==> Balanced(Rate(capacity, rate), b, ops)
  }

  /** Polls just after each token becomes due. */
  function Polls(q: nat, last: nat, n: nat): seq<Op>
    decreases n
  {
    if n == 0 then [] else [Op(0, false, last + q + 1)] + Polls(q, last + q, n - 1)
  }

  /** Below a billion, a rate that does not divide it. */
  predicate Uneven(rate: nat, q: nat) {
    0 < rate < BILLION && BILLION % rate != 0 && q == BILLION / rate
  }

  lemma TokenTime(rate: nat, q: nat)
    requires Uneven(rate, q)
    ensures Exact(rate, q + 1) == 1 && rate * q < BILLION
  {
    var m := BILLION % rate;
    assert BILLION == rate * q + m;
    assert (q + 1) * rate == 1 * BILLION + (rate - m) by { Distribute(q, 1, rate); }
    DivUnique((q + 1) * rate, BILLION, 1, rate - m);
  }

  /** Such a rate earns each token a fraction of a nanosecond early. */
  lemma EarlyToken(r: Rate, q: nat, b: Bucket)
    requires ValidRate(r) && Uneven(r.perSecond, q) && b.tokens + 1 < r.capacity && b.last + q + 1 <= U64_MAX
    ensures Refill(r, b, b.last + q + 1) == Bucket(b.tokens + 1, b.last + q)
  {
    NothingSaturates(r, b, b.last + q + 1);
    assert b.last + q + 1 - b.last == q + 1;
    TokenTime(r.perSecond, q);
    EarnedFits(r, 1);
    assert Nanos(r, 1) == q;
  }

  lemma {:induction false} EarlyPolls(r: Rate, q: nat, b: Bucket, n: nat)
    requires ValidRate(r) && Uneven(r.perSecond, q) && b.tokens + n < r.capacity && b.last + n * q + 1 <= U64_MAX
    ensures var ops := Polls(q, b.last, n);
            && After(r, b, ops).tokens == b.tokens + n && Deducted(r, b, ops) == 0 && Uncapped(r, b, ops)
            && Ordered(ops, b.last) && (n > 0 ==> LastTime(ops, b.last) == b.last + n * q + 1)
    decreases n
  {
    if n > 0 {
      Distribute(n - 1, 1, q);
      var next := Bucket(b.tokens + 1, b.last + q);
      assert b.last + q + 1 <= U64_MAX by { MulAtMost(1, n, q); }
      EarlyToken(r, q, b);
      EarlyPolls(r, q, next, n - 1);
      var ops, rest := Polls(q, b.last, n), Polls(q, b.last + q, n - 1);
      assert ops[0].now == b.last + q + 1 && ops[1..] == rest;
      assert Charge(r, b, 0, false, b.last + q + 1).0 == next;
      LaterOrdered(q, b.last + q, n - 1);
      if n > 1 {
        assert rest != [] && ops[|ops| - 1] == rest[|rest| - 1];
      }
    }
  }

  lemma {:induction false} LaterOrdered(q: nat, last: nat, n: nat)
    ensures Ordered(Polls(q, last, n), last + 1)
    decreases n
  {
    if n > 0 {
      LaterOrdered(q, last + q, n - 1);
      assert Polls(q, last, n)[1..] == Polls(q, last + q, n - 1);
    }
  }

  /** Polled twice per second's worth of tokens, it has earned more than it should. */
  lemma SlowRateInvents(rate: nat)
    requires 0 < rate < BILLION && BILLION % rate != 0
    ensures !AlwaysExact(rate)
  {
    var q := BILLION / rate;
    var n := 2 * rate;
    var r := Rate(n + 1, rate);
    TokenTime(rate, q);
    assert n * q == 2 * (rate * q) by { MulAssoc(2, rate, q); }
    var b, ops := Bucket(0, 0), Polls(q, 0, n);
    EarlyPolls(r, q, b, n);
    assert Exact(rate, n * q + 1) < n by {
      MulAtMost(n * q + 1, 2 * BILLION - 1, rate);
      BelowQuotient((n * q + 1) * rate, BILLION, n);
    }
    assert Timely(b, ops) && Uncapped(r, b, ops) && !Balanced(r, b, ops);
  }

  lemma BelowQuotient(x: nat, d: nat, n: nat)
    requires d > 0 && x < n * d
    ensures x / d < n
  {
    if x / d >= n {
      MulAtMost(n, x / d, d);
    }
  }

  /** Above a billion, whole tokens are earned without moving the clock at all. */
  lemma FastRateInvents(rate: nat)
    requires BILLION < rate <= U64_MAX && rate % BILLION != 0
    ensures !AlwaysExact(rate)
  {
    var k := rate / BILLION;
    var r := Rate(2 * k + 1, rate);
    var b := Bucket(0, 0);
    var poll := Op(0, false, 1);
    var ops := [poll, poll];
    assert Exact(rate, 1) == k;
    NothingSaturates(r, b, 1);
    EarnedFits(r, k);
    assert k * BILLION < rate;
    assert Nanos(r, k) == 0 by { DivUnique(k * BILLION, rate, 0, k * BILLION); }
    var once := Bucket(k, 0);
    assert Charge(r, b, 0, false, 1).0 == once;
    NothingSaturates(r, once, 1);
    var twice := Bucket(2 * k, 0);
    assert Charge(r, once, 0, false, 1).0 == twice;
    assert ops[1..] == [poll] && [poll][1..] == [];
    assert After(r, once, [poll]) == After(r, twice, []) == twice;
    assert Deducted(r, twice, []) == 0 && Deducted(r, once, [poll]) == 0;
    assert Uncapped(r, twice, []) && Uncapped(r, once, [poll]);
    assert Ordered([poll], 1);
    assert Timely(b, ops) && Uncapped(r, b, ops) && !Balanced(r, b, ops);
  }

  /** The integer refill is exact over every run, polled however often, if and only if the rate
      divides a billion or is a multiple of it. */
  lemma ExactIffEven(rate: nat)
    requires 0 < rate <= U64_MAX
    ensures AlwaysExact(rate) <==> Even(rate)
  {
    if Even(rate) {
      forall capacity: nat, b: Bucket, ops: seq<Op> |
        capacity <= U64_MAX && Timely(b, ops) && Uncapped(Rate(capacity, rate), b, ops)
        ensures Balanced(Rate(capacity, rate), b, ops)
      {
        BalanceIsExact(Rate(capacity, rate), b, ops);
      }
    } else if rate < BILLION {
      SlowRateInvents(rate);
    } else {
      FastRateInvents(rate);
    }
  }

  // ----- draining -----

  /** What one charge answers and leaves: it is allowed exactly when the refilled balance covers it,
      and then takes it; refused, it takes everything if it drains and nothing otherwise. */
  lemma ChargeSays(r: Rate, b: Bucket, cost: nat, drain: bool, now: nat)
    requires ValidRate(r)
    ensures var held := Min(b.tokens + Times(Since(now, b.last), r.perSecond) / BILLION, r.capacity);
            var (after, allowed) := Charge(r, b, cost, drain, now);
            && (allowed <==> cost <= held)
            && (allowed ==> after.tokens == held - cost)
            && (!allowed && drain ==> after.tokens == 0)
            && (!allowed && !drain ==> after.tokens == held)
  {
  }

  lemma ExactAlmostGrows(rate: nat, a: nat, b: nat)
    requires Exact(rate, b) == 0
    ensures Exact(rate, a + b) <= Exact(rate, a) + 1
  {
    Distribute(a, b, rate);
    var x, y := a * rate, b * rate;
    assert x + y == (x / BILLION) * BILLION + (x % BILLION + y);
    assert x % BILLION + y < 2 * BILLION;
  }

  /** A refused drain leaves nothing: what is allowed afterwards was earned since, but for the one
      token whose time had begun. */
  lemma DrainedEarnsAnew(r: Rate, b: Bucket, op: Op, later: seq<Op>)
    requires ValidRate(r) && Even(r.perSecond) && b.last <= op.now <= U64_MAX
    requires op.drain && !Charge(r, b, op.cost, true, op.now).1
    requires Ordered(later, op.now) && LastTime(later, op.now) <= U64_MAX
    ensures var after := Charge(r, b, op.cost, true, op.now).0;
            var end := LastTime(later, op.now);
            && after.last <= op.now <= end
            && Timely(after, later)
            && AllowedCost(r, after, later) <= Exact(r.perSecond, end - op.now) + 1
  {
    var full := Refill(r, b, op.now);
    var after := Charge(r, b, op.cost, true, op.now).0;
    var end := LastTime(later, op.now);
    OrderedEnds(later, op.now);
    RefillKeeps(r, b, op.now, end);
    OrderedFrom(later, op.now, after.last);
    TakenIsBounded(r, after, later, end);
    assert end - after.last == (end - op.now) + (op.now - full.last);
    if full.tokens < r.capacity {
      ExactAlmostGrows(r.perSecond, end - op.now, op.now - full.last);
    }
  }

  // ----- the rate window -----

  const TOKEN: nat := 60_000_000_000

  datatype Window = Window(credit: nat, last: nat)

  /** `RateWindow::at`. */
  function WindowAt(perMinute: nat, w: Window, now: nat): (Window, bool) {
    var credit := w.credit + Times(Since(now, w.last), perMinute);
    var capped := if credit <= perMinute * TOKEN then credit else perMinute * TOKEN;
    if capped < TOKEN then (Window(capped, now), false) else (Window(capped - TOKEN, now), true)
  }

  predicate Rising(times: seq<nat>, from: nat) {
    times == [] || (from <= times[0] && Rising(times[1..], times[0]))
  }

  function WindowAfter(perMinute: nat, w: Window, times: seq<nat>): Window
    decreases |times|
  {
    if times == [] then w else WindowAfter(perMinute, WindowAt(perMinute, w, times[0]).0, times[1..])
  }

  function WindowAllowed(perMinute: nat, w: Window, times: seq<nat>): nat
    decreases |times|
  {
    if times == [] then 0
    else
      var step := WindowAt(perMinute, w, times[0]);
      (if step.1 then 1 else 0) + WindowAllowed(perMinute, step.0, times[1..])
  }

  /** Every allowed attempt is paid for by starting credit or elapsed time. */
  lemma {:induction false} WindowIsBounded(perMinute: nat, w: Window, times: seq<nat>)
    requires Rising(times, w.last)
    ensures var z := WindowAfter(perMinute, w, times);
            && w.last <= z.last
            && WindowAllowed(perMinute, w, times) * TOKEN + z.credit <= w.credit + (z.last - w.last) * perMinute
    decreases |times|
  {
    if times != [] {
      var step := WindowAt(perMinute, w, times[0]);
      WindowIsBounded(perMinute, step.0, times[1..]);
      var z := WindowAfter(perMinute, w, times);
      Distribute(times[0] - w.last, z.last - times[0], perMinute);
      assert z.last - w.last == (times[0] - w.last) + (z.last - times[0]);
      Distribute(if step.1 then 1 else 0, WindowAllowed(perMinute, step.0, times[1..]), TOKEN);
    }
  }
}
