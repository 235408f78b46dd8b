/** The hosted API's rate limiter (platform/api/src/lib/auth.js:101-112). */
module TokenBucket {
  /* One token bucket per key, kept as a row of a table and refilled by elapsed time when it is read.

     Tokens are reals and the clock counts whole milliseconds. The clock is whatever each call reads; only
     the theorems about time windows ask that it does not run backwards. */

  import opened Options

  datatype Row = Row(tokens: real, updatedAt: int)

  type Rows = map<string, Row>

  /** RATE_BURST and RATE_PER_SEC. */
  datatype Rate = Rate(capacity: real, refill: real)

  datatype Call = Call(bucket: string, now: int, cost: real)

  /** A refused caller is told the seconds to wait; dividing by no refill at all gives no number. */
  datatype Answer = Admitted | TooMany(retryAfter: Option<int>)

  predicate Configured(rate: Rate) {
    rate.capacity >= 0.0 && rate.refill >= 0.0
  }

  function Min(x: real, y: real): real {
    if x <= y then x else y
  }

  /** The least integer not below x. */
  function Ceil(x: real): int {
    if x.Floor as real == x then x.Floor else x.Floor + 1
  }

  /** The tokens that time alone adds. */
  function Refilled(rate: Rate, ms: int): real {
    (ms as real / 1000.0) * rate.refill
  }

  /** What is in a bucket when a call reads it; a bucket without a row is full. */
  function Level(rate: Rate, rows: Rows, bucket: string, now: int): real {
    if bucket in rows then Min(rate.capacity, rows[bucket].tokens + Refilled(rate, now - rows[bucket].updatedAt))
    else rate.capacity
  }

  predicate Admits(rate: Rate, rows: Rows, c: Call) {
    c.cost <= Level(rate, rows, c.bucket, c.now)
  }

  /** The table after a call. A refused call writes nothing. */
  function After(rate: Rate, rows: Rows, c: Call): Rows {
    if Admits(rate, rows, c) then rows[c.bucket := Row(Level(rate, rows, c.bucket, c.now) - c.cost, c.now)]
    else rows
  }

  class Limiter {
    const rate: Rate
    var rows: Rows

    constructor (rate: Rate)
      ensures this.rate == rate && rows == map[]
    {
      this.rate := rate;
      rows := map[];
    }

    /** Takes the cost from the bucket, or says how many seconds to wait. */
    method RateLimit(bucket: string, cost: real, now: int) returns (r: Answer)
      modifies this`rows
      ensures rows == After(rate, old(rows), Call(bucket, now, cost))
      ensures r.Admitted? <==> Admits(rate, old(rows), Call(bucket, now, cost))
      ensures r.TooMany? ==> r.retryAfter == Advice(rate, old(rows), Call(bucket, now, cost))
    {
      var tokens := rate.capacity;
      if bucket in rows {
        tokens := Min(rate.capacity, rows[bucket].tokens + Refilled(rate, now - rows[bucket].updatedAt));
      }
      if tokens < cost {
        return TooMany(if rate.refill == 0.0 then None else Some(Ceil((cost - tokens) / rate.refill)));
      }
      tokens := tokens - cost;
      rows := rows[bucket := Row(tokens, now)];
      return Admitted;
    }
  }

  /** The seconds a refused caller is told to wait. */
  function Advice(rate: Rate, rows: Rows, c: Call): Option<int> {
    if rate.refill == 0.0 then None
    else Some(Ceil((c.cost - Level(rate, rows, c.bucket, c.now)) / rate.refill))
  }

  /* ---------- refilling ---------- */

  lemma RefilledAdds(rate: Rate, x: int, y: int)
    requires Configured(rate)
    ensures Refilled(rate, x) + Refilled(rate, y) == Refilled(rate, x + y)
    ensures x <= y ==> Refilled(rate, x) <= Refilled(rate, y)
    ensures Refilled(rate, 0) == 0.0
  {
    assert (x + y) as real / 1000.0 == x as real / 1000.0 + y as real / 1000.0;
    Distributes(x as real / 1000.0, y as real / 1000.0, rate.refill);
  }

  lemma Distributes(a: real, b: real, r: real)
    requires r >= 0.0
    ensures (a + b) * r == a * r + b * r
    ensures a <= b ==> a * r <= b * r
    ensures a < b && r > 0.0 ==> a * r < b * r
  {
    assert (b - a) * r == b * r - a * r;
  }

  /* ---------- the level ---------- */

  predicate InRange(rate: Rate, rows: Rows) {
    forall b :: b in rows ==> 0.0 <= rows[b].tokens <= rate.capacity
  }

  predicate AllCost(calls: seq<Call>) {
    forall c :: c in calls ==> c.cost >= 0.0
  }

  function Replay(rate: Rate, rows: Rows, calls: seq<Call>): Rows
    decreases |calls|
  {
    if calls == [] then rows else Replay(rate, After(rate, rows, calls[0]), calls[1..])
  }

  /** Whatever the clock does, every stored level stays between nothing and the capacity. */
  lemma {:induction false} LevelsStayInRange(rate: Rate, rows: Rows, calls: seq<Call>)
    requires Configured(rate) && InRange(rate, rows) && AllCost(calls)
    ensures InRange(rate, Replay(rate, rows, calls))
    decreases |calls|
  {
    if calls != [] {
      LevelsStayInRange(rate, After(rate, rows, calls[0]), calls[1..]);
    }
  }

  /* ---------- the window bound ---------- */

  /** What one call takes from a bucket inside a window. */
  function Taken(rate: Rate, rows: Rows, c: Call, bucket: string, from: int, upTo: int): real {
    if c.bucket == bucket && from <= c.now <= upTo && Admits(rate, rows, c) then c.cost else 0.0
  }

  /** The total cost a history of calls, over any number of buckets, takes from one of them inside a window. */
  function Spent(rate: Rate, rows: Rows, calls: seq<Call>, bucket: string, from: int, upTo: int): real
    decreases |calls|
  {
    if calls == [] then 0.0
    else
      Taken(rate, rows, calls[0], bucket, from, upTo)
      + Spent(rate, After(rate, rows, calls[0]), calls[1..], bucket, from, upTo)
  }

  /** The clock does not run backwards, from the stored times on. */
  predicate Forward(rows: Rows, calls: seq<Call>) {
    && (forall b, i :: b in rows && 0 <= i < |calls| ==> rows[b].updatedAt <= calls[i].now)
    && (forall i, j :: 0 <= i < j < |calls| ==> calls[i].now <= calls[j].now)
  }

  /** The most a bucket can still give up inside the window. */
  function Budget(rate: Rate, rows: Rows, bucket: string, from: int, upTo: int): real {
    if bucket !in rows || rows[bucket].updatedAt < from then rate.capacity + Refilled(rate, upTo - from)
    else if rows[bucket].updatedAt <= upTo then rows[bucket].tokens + Refilled(rate, upTo - rows[bucket].updatedAt)
    else 0.0
  }

  lemma BudgetStep(rate: Rate, rows: Rows, c: Call, bucket: string, from: int, upTo: int)
    requires Configured(rate) && InRange(rate, rows) && c.cost >= 0.0 && from <= upTo
    requires bucket in rows ==> rows[bucket].updatedAt <= c.now
    ensures InRange(rate, After(rate, rows, c))
    ensures Taken(rate, rows, c, bucket, from, upTo) + Budget(rate, After(rate, rows, c), bucket, from, upTo)
         <= Budget(rate, rows, bucket, from, upTo)
  {
    hide Refilled;
    RefilledAdds(rate, 0, upTo - from);
    RefilledAdds(rate, upTo - c.now, upTo - from);
    if bucket in rows {
      var t := rows[bucket].updatedAt;
      RefilledAdds(rate, c.now - t, upTo - c.now);
      RefilledAdds(rate, 0, upTo - t);
    }
  }

  lemma {:induction false} SpentWithinBudget(rate: Rate, rows: Rows, calls: seq<Call>, bucket: string, from: int,
                                             upTo: int)
    requires Configured(rate) && InRange(rate, rows) && AllCost(calls) && Forward(rows, calls) && from <= upTo
    ensures Spent(rate, rows, calls, bucket, from, upTo) <= Budget(rate, rows, bucket, from, upTo)
    decreases |calls|
  {
    hide Taken, Budget, Refilled, Level;
    if calls == [] {
      BudgetPositive(rate, rows, bucket, from, upTo);
    } else {
      BudgetStep(rate, rows, calls[0], bucket, from, upTo);
      SpentWithinBudget(rate, After(rate, rows, calls[0]), calls[1..], bucket, from, upTo);
    }
  }

  lemma BudgetPositive(rate: Rate, rows: Rows, bucket: string, from: int, upTo: int)
    requires Configured(rate) && InRange(rate, rows) && from <= upTo
    ensures 0.0 <= Budget(rate, rows, bucket, from, upTo) <= rate.capacity + Refilled(rate, upTo - from)
  {
    hide Refilled;
    RefilledAdds(rate, 0, upTo - from);
    if bucket in rows {
      RefilledAdds(rate, 0, upTo - rows[bucket].updatedAt);
      RefilledAdds(rate, upTo - rows[bucket].updatedAt, upTo - from);
    }
  }

  /** In any history of calls over any number of buckets, the cost admitted on one bucket inside a window
      is at most the capacity plus what the window's length refills. */
  lemma WindowBound(rate: Rate, rows: Rows, calls: seq<Call>, bucket: string, from: int, upTo: int)
    requires Configured(rate) && InRange(rate, rows) && AllCost(calls) && Forward(rows, calls) && from <= upTo
    ensures Spent(rate, rows, calls, bucket, from, upTo)
         <= rate.capacity + ((upTo - from) as real / 1000.0) * rate.refill
  {
    hide Budget, Spent;
    SpentWithinBudget(rate, rows, calls, bucket, from, upTo);
    BudgetPositive(rate, rows, bucket, from, upTo);
  }

  /* ---------- when the bound is reached ---------- */

  /** A history the window bound speaks of. */
  ghost predicate History(rate: Rate, rows: Rows, calls: seq<Call>) {
    InRange(rate, rows) && AllCost(calls) && Forward(rows, calls)
  }

  ghost predicate Reaches(rate: Rate, rows: Rows, calls: seq<Call>, bucket: string, from: int, upTo: int) {
    History(rate, rows, calls)
    && Spent(rate, rows, calls, bucket, from, upTo) == rate.capacity + Refilled(rate, upTo - from)
  }

  /** One call a millisecond, for what that millisecond refills. */
  function Drip(rate: Rate, bucket: string, at: int, n: nat): seq<Call>
    decreases n
  {
    if n == 0 then [] else [Call(bucket, at + 1, Refilled(rate, 1))] + Drip(rate, bucket, at + 1, n - 1)
  }

  lemma {:induction false} DripTimes(rate: Rate, bucket: string, at: int, n: nat)
    requires Configured(rate)
    ensures var calls := Drip(rate, bucket, at, n);
            AllCost(calls) && (forall i :: 0 <= i < |calls| ==> at < calls[i].now)
            && (forall i, j :: 0 <= i < j < |calls| ==> calls[i].now <= calls[j].now)
    decreases n
  {
    hide Refilled;
    RefilledAdds(rate, 0, 1);
    if n > 0 { DripTimes(rate, bucket, at + 1, n - 1); }
  }

  lemma {:induction false} DripSpends(rate: Rate, rows: Rows, bucket: string, at: int, n: nat, from: int, upTo: int)
    requires Configured(rate) && Refilled(rate, 1) <= rate.capacity
    requires bucket in rows && rows[bucket] == Row(0.0, at) && from <= at && at + n <= upTo
    ensures Spent(rate, rows, Drip(rate, bucket, at, n), bucket, from, upTo) == Refilled(rate, n)
    decreases n
  {
    hide Refilled;
    RefilledAdds(rate, 0, 1);
    if n > 0 {
      var calls := Drip(rate, bucket, at, n);
      assert calls[1..] == Drip(rate, bucket, at + 1, n - 1);
      RefilledAdds(rate, 1, n - 1);
      DripSpends(rate, After(rate, rows, calls[0]), bucket, at + 1, n - 1, from, upTo);
    }
  }

  lemma BurstThenDrip(rate: Rate, bucket: string, from: int, n: nat)
    requires Configured(rate) && (n == 0 || Refilled(rate, 1) <= rate.capacity)
    ensures var calls := [Call(bucket, from, rate.capacity)] + Drip(rate, bucket, from, n);
            Reaches(rate, map[], calls, bucket, from, from + n)
  {
    hide Refilled;
    RefilledAdds(rate, 0, n);
    var burst, drip := Call(bucket, from, rate.capacity), Drip(rate, bucket, from, n);
    var calls := [burst] + drip;
    assert calls[1..] == drip;
    DripTimes(rate, bucket, from, n);
    var rows := After(rate, map[], burst);
    assert rows[bucket] == Row(0.0, from);
    RefilledAdds(rate, 0, 0);
    if n > 0 { DripSpends(rate, rows, bucket, from, n, from, from + n); } else { assert drip == []; }
    assert calls[0] == burst && Taken(rate, map[], burst, bucket, from, from + n) == rate.capacity;
    assert Spent(rate, map[], calls, bucket, from, from + n)
        == rate.capacity + Spent(rate, rows, drip, bucket, from, from + n);
    assert History(rate, map[], calls);
  }

  /** A full bucket for every millisecond. */
  function Full(rate: Rate, ms: int): real {
    ms as real * rate.capacity
  }

  /** No millisecond gives more than a full bucket, so this is a second bound. */
  function Ticks(rate: Rate, rows: Rows, bucket: string, from: int, upTo: int): real {
    if bucket !in rows || rows[bucket].updatedAt < from then rate.capacity + Full(rate, upTo - from)
    else if rows[bucket].updatedAt <= upTo then rows[bucket].tokens + Full(rate, upTo - rows[bucket].updatedAt)
    else 0.0
  }

  lemma FullAdds(rate: Rate, x: int, y: int)
    requires Configured(rate)
    ensures Full(rate, x) + Full(rate, y) == Full(rate, x + y)
    ensures x <= y ==> Full(rate, x) <= Full(rate, y)
    ensures Full(rate, 0) == 0.0 && Full(rate, 1) == rate.capacity
  {
    Distributes(x as real, y as real, rate.capacity);
  }

  lemma TicksStep(rate: Rate, rows: Rows, c: Call, bucket: string, from: int, upTo: int)
    requires Configured(rate) && InRange(rate, rows) && c.cost >= 0.0 && from <= upTo
    requires bucket in rows ==> rows[bucket].updatedAt <= c.now
    ensures InRange(rate, After(rate, rows, c))
    ensures Taken(rate, rows, c, bucket, from, upTo) + Ticks(rate, After(rate, rows, c), bucket, from, upTo)
         <= Ticks(rate, rows, bucket, from, upTo)
  {
    hide Refilled, Full;
    RefilledAdds(rate, 0, 0);
    FullAdds(rate, 0, upTo - from);
    FullAdds(rate, upTo - c.now, upTo - from);
    if bucket in rows {
      var t := rows[bucket].updatedAt;
      FullAdds(rate, c.now - t, upTo - c.now);
      FullAdds(rate, 1, c.now - t);
      FullAdds(rate, 0, upTo - t);
    }
  }

  lemma {:induction false} SpentWithinTicks(rate: Rate, rows: Rows, calls: seq<Call>, bucket: string, from: int,
                                            upTo: int)
    requires Configured(rate) && History(rate, rows, calls) && from <= upTo
    ensures Spent(rate, rows, calls, bucket, from, upTo) <= rate.capacity + Full(rate, upTo - from)
    ensures Spent(rate, rows, calls, bucket, from, upTo) <= Ticks(rate, rows, bucket, from, upTo)
    decreases |calls|
  {
    hide Taken, Ticks, Refilled, Level, Full;
    TicksPositive(rate, rows, bucket, from, upTo);
    if calls != [] {
      TicksStep(rate, rows, calls[0], bucket, from, upTo);
      SpentWithinTicks(rate, After(rate, rows, calls[0]), calls[1..], bucket, from, upTo);
    }
  }

  lemma TicksPositive(rate: Rate, rows: Rows, bucket: string, from: int, upTo: int)
    requires Configured(rate) && InRange(rate, rows) && from <= upTo
    ensures 0.0 <= Ticks(rate, rows, bucket, from, upTo) <= rate.capacity + Full(rate, upTo - from)
  {
    hide Full;
    FullAdds(rate, 0, upTo - from);
    if bucket in rows {
      FullAdds(rate, 0, upTo - rows[bucket].updatedAt);
      FullAdds(rate, upTo - rows[bucket].updatedAt, upTo - from);
    }
  }

  /** Some history spends the whole bound exactly when the window is an instant or a millisecond refills no
      more than the bucket holds. */
  lemma WindowBoundReached(rate: Rate, bucket: string, from: int, upTo: int)
    requires Configured(rate) && from <= upTo
    ensures (exists rows, calls :: Reaches(rate, rows, calls, bucket, from, upTo))
            <==> from == upTo || Refilled(rate, 1) <= rate.capacity
  {
    hide Refilled, Full, Reaches;
    var n := upTo - from;
    if from == upTo || Refilled(rate, 1) <= rate.capacity {
      BurstThenDrip(rate, bucket, from, n);
      var calls := [Call(bucket, from, rate.capacity)] + Drip(rate, bucket, from, n);
      assert Reaches(rate, map[], calls, bucket, from, upTo);
    } else {
      forall rows: Rows, calls: seq<Call> ensures !Reaches(rate, rows, calls, bucket, from, upTo) {
        NotReached(rate, rows, calls, bucket, from, upTo);
      }
    }
  }

  lemma NotReached(rate: Rate, rows: Rows, calls: seq<Call>, bucket: string, from: int, upTo: int)
    requires Configured(rate) && from < upTo && Refilled(rate, 1) > rate.capacity
    ensures !Reaches(rate, rows, calls, bucket, from, upTo)
  {
    hide Refilled, Full, Spent, History;
    if Reaches(rate, rows, calls, bucket, from, upTo) { SpentWithinTicks(rate, rows, calls, bucket, from, upTo); }
    RefillsMore(rate, upTo - from);
  }

  lemma {:induction false} RefillsMore(rate: Rate, n: nat)
    requires Configured(rate) && Refilled(rate, 1) > rate.capacity && n > 0
    ensures Refilled(rate, n) > Full(rate, n)
  {
    hide Refilled, Full;
    FullAdds(rate, 1, n - 1);
    RefilledAdds(rate, 1, n - 1);
    if n > 1 { RefillsMore(rate, n - 1); } else { RefilledAdds(rate, 0, 1); FullAdds(rate, 0, 1); }
  }

  /* ---------- the advice ---------- */

  lemma CeilIsLeast(x: real, k: int)
    ensures x <= k as real <==> Ceil(x) <= k
  {
  }

  lemma DivideOut(x: real, k: real, r: real)
    requires r > 0.0
    ensures x / r <= k <==> x <= k * r
  {
    Undone(x, r);
    SameOrder(x / r, k, r);
  }

  lemma Undone(x: real, r: real)
    requires r != 0.0
    ensures (x / r) * r == x
  {
  }

  lemma SameOrder(a: real, b: real, r: real)
    requires r > 0.0
    ensures a <= b <==> a * r <= b * r
  {
    Distributes(a, b, r);
    Distributes(b, a, r);
  }

  /** The same call made a whole number of seconds later, nothing else having been admitted, passes exactly
      when the caller waited at least as long as it was told and the bucket can ever hold the cost. */
  lemma AdviceIsExact(rate: Rate, rows: Rows, c: Call, seconds: nat)
    requires Configured(rate) && InRange(rate, rows) && !Admits(rate, rows, c)
    ensures match Advice(rate, rows, c)
            case None => !Admits(rate, rows, c.(now := c.now + 1000 * seconds))
            case Some(n) =>
              n > 0
              && (Admits(rate, rows, c.(now := c.now + 1000 * seconds)) <==> c.cost <= rate.capacity && n <= seconds)
  {
    if rate.refill > 0.0 { AdviceExact(rate, rows, c, seconds); }
  }

  lemma AdviceExact(rate: Rate, rows: Rows, c: Call, seconds: nat)
    requires Configured(rate) && rate.refill > 0.0 && InRange(rate, rows) && !Admits(rate, rows, c)
    ensures Advice(rate, rows, c).value > 0
    ensures Admits(rate, rows, c.(now := c.now + 1000 * seconds)) <==>
              c.cost <= rate.capacity && Advice(rate, rows, c).value <= seconds
  {
    hide Ceil;
    var short := c.cost - Level(rate, rows, c.bucket, c.now);
    CeilIsLeast(short / rate.refill, seconds);
    CeilIsLeast(short / rate.refill, 0);
    DivideOut(short, seconds as real, rate.refill);
    DivideOut(short, 0.0, rate.refill);
    if c.bucket in rows {
      RefilledAdds(rate, c.now - rows[c.bucket].updatedAt, 1000 * seconds);
      assert (1000 * seconds) as real / 1000.0 == seconds as real;
    }
  }

  /** Waiting longer than advised never hurts. */
  lemma WaitingAdmits(rate: Rate, rows: Rows, c: Call, later: int)
    requires Configured(rate) && InRange(rate, rows) && !Admits(rate, rows, c) && c.cost <= rate.capacity
    requires Advice(rate, rows, c).Some? && later >= c.now + 1000 * Advice(rate, rows, c).value
    ensures Admits(rate, rows, c.(now := later))
  {
    hide Advice, Refilled;
    var n := Advice(rate, rows, c).value;
    assert n > 0 by { AdviceIsExact(rate, rows, c, 0); }
    AdviceIsExact(rate, rows, c, n);
    if c.bucket in rows {
      var t := rows[c.bucket].updatedAt;
      RefilledAdds(rate, c.now + 1000 * n - t, later - t);
    }
  }
}
