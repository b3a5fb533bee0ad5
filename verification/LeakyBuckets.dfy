/** Go's int32: conversions and results of arithmetic wrap around. */
module Int32 {
  const MAX_INT32 := 0x7FFF_FFFF
  const MIN_INT32 := -0x8000_0000
  const TWO_TO_32 := 0x1_0000_0000

  type int32 = x: int | MIN_INT32 <= x <= MAX_INT32

  predicate InRange(x: int) {
    MIN_INT32 <= x <= MAX_INT32
  }

  /** The int32 with the same low 32 bits. */
  function I32(x: int): (r: int32)
    ensures InRange(x) ==> r == x
  {
    x - Wraps(x) * TWO_TO_32
  }

  function Wraps(x: int): int {
    (x - MIN_INT32) / TWO_TO_32
  }

  lemma Period(x: int, k: int)
    ensures I32(x + k * TWO_TO_32) == I32(x)
  {
    assert x + k * TWO_TO_32 - MIN_INT32 == (x - MIN_INT32) + k * TWO_TO_32;
  }

  /** Wrapping early or late makes no difference. */
  lemma WrapOnce(x: int, y: int)
    ensures I32(I32(x) + y) == I32(x + y) && I32(y - I32(x)) == I32(y - x)
  {
    Period(x + y, -Wraps(x));
    Period(y - x, Wraps(x));
  }

  lemma SumModulo(x: int, y: int, z: int)
    requires I32(x) == I32(y)
    ensures I32(x + z) == I32(y + z)
  {
    WrapOnce(x, z);
    WrapOnce(y, z);
  }
}

/** The token bucket of one rate limit key. */
module LeakyBuckets {
  import opened Wrappers
  import opened Int32

  datatype Bucket = Bucket(max: int32, token: int32)

  function FullBucket(max: int32): Bucket {
    Bucket(max, max)
  }

  /** Raising the limit adds the difference; lowering it removes nothing. */
  function AfterUpdateMax(b: Bucket, newMax: int32): Bucket {
    Bucket(newMax, if newMax > b.max then I32(b.token + I32(newMax - b.max)) else b.token)
  }

  function AfterRefill(b: Bucket): Bucket {
    b.(token := b.max)
  }

  predicate CanTake(b: Bucket, count: int) {
    I32(b.token - I32(count)) >= 0
  }

  function Subtracted(b: Bucket, count: int): Bucket {
    b.(token := I32(b.token - I32(count)))
  }

  function AfterTake(b: Bucket, count: int): (Bucket, bool) {
    if CanTake(b, count) then (Subtracted(b, count), true) else (b, false)
  }

  /** What one sequential limiter call does to an existing bucket. */
  function AfterCall(b: Bucket, count: int, limit: int32): (Bucket, bool) {
    AfterTake(if b.max != limit then AfterUpdateMax(b, limit) else b, count)
  }

  class LeakyBucket {
    var max: int32
    var token: int32

    ghost function State(): Bucket
      reads this
    {
      Bucket(max, token)
    }

    constructor (max: int32)
      ensures State() == FullBucket(max)
    {
      this.max, token := max, max;
    }

    method UpdateMax(newMax: int32)
      modifies this
      ensures State() == AfterUpdateMax(old(State()), newMax)
    {
      if newMax > max {
        token := I32(token + I32(newMax - max));
      }
      max := newMax;
    }

    method Refill()
      modifies this`token
      ensures State() == AfterRefill(old(State()))
    {
      token := max;
    }

    method Take(count: int) returns (taken: bool)
      modifies this`token
      ensures (State(), taken) == AfterTake(old(State()), count)
    {
      if I32(token - I32(count)) < 0 {
        return false;
      }
      token := I32(token - I32(count));
      return true;
    }
  }

  // ----------------------------------------------------------- conservation

  /** A sequential limiter call: how many tokens, under which limit. */
  datatype Call = Call(count: int, limit: int32)

  predicate SaneCounts(calls: seq<Call>) {
    forall i :: 0 <= i < |calls| ==> 0 <= calls[i].count <= MAX_INT32
  }

  /** The bucket and the tokens granted after a sequence of calls. */
  function Served(b: Bucket, calls: seq<Call>): (Bucket, int) {
    if calls == [] then (b, 0)
    else
      var (b', granted) := Served(b, calls[..|calls| - 1]);
      var c := calls[|calls| - 1];
      var (b'', taken) := AfterCall(b', c.count, c.limit);
      (b'', granted + if taken then c.count else 0)
  }

  /** The limit in force after some calls, and the sum of all rises of the limit. */
  function CurrentMax(max: int32, calls: seq<Call>): int32 {
    if calls == [] then max else calls[|calls| - 1].limit
  }

  function Rises(max: int32, calls: seq<Call>): nat {
    if calls == [] then 0
    else
      var earlier := calls[..|calls| - 1];
      var before, after := CurrentMax(max, earlier), CurrentMax(max, calls);
      Rises(max, earlier) + Rise(before, after)
  }

  function Rise(before: int, after: int): nat {
    if after > before then after - before else 0
  }

  /** Conservation with no assumption at all, modulo 2^32: tokens left and
      tokens granted add up to the tokens at the start and all rises since. */
  lemma {:induction false} ConservationModulo(b: Bucket, calls: seq<Call>)
    ensures var (b', granted) := Served(b, calls);
            && b'.max == CurrentMax(b.max, calls)
            && I32(b'.token + granted) == I32(b.token + Rises(b.max, calls))
  {
    if calls != [] {
      var n := |calls| - 1;
      var (b', granted) := Served(b, calls[..n]);
      var c := calls[n];
      ConservationModulo(b, calls[..n]);
      CallConserves(b', c.count, c.limit, granted, b.token + Rises(b.max, calls[..n]));
    }
  }

  lemma CallConserves(b: Bucket, count: int, limit: int32, granted: int, funds: int)
    requires I32(b.token + granted) == I32(funds)
    ensures var (b', taken) := AfterCall(b, count, limit);
            && b'.max == limit
            && I32(b'.token + granted + if taken then count else 0) == I32(funds + Rise(b.max, limit))
  {
    CallModulo(b, count, limit, granted);
    SumModulo(b.token + granted, funds, Rise(b.max, limit));
  }

  lemma CallModulo(b: Bucket, count: int, limit: int32, granted: int)
    ensures var (b', taken) := AfterCall(b, count, limit);
            && b'.max == limit
            && I32(b'.token + granted + if taken then count else 0) == I32(b.token + granted + Rise(b.max, limit))
  {
    var updated := if b.max != limit then AfterUpdateMax(b, limit) else b;
    UpdateModulo(b, limit);
    assert updated.token == I32(b.token + Rise(b.max, limit));
    SumModulo(updated.token, b.token + Rise(b.max, limit), granted);
    if CanTake(updated, count) {
      TakeModulo(updated, count);
      SumModulo(Subtracted(updated, count).token, updated.token - count, granted + count);
    }
  }

  lemma UpdateModulo(b: Bucket, limit: int32)
    ensures AfterUpdateMax(b, limit).token == I32(b.token + Rise(b.max, limit))
  {
    WrapOnce(limit - b.max, b.token);
  }

  lemma TakeModulo(b: Bucket, count: int)
    ensures Subtracted(b, count).token == I32(b.token - count)
  {
    WrapOnce(count, b.token);
  }

  /** The same bucket over unbounded integers. */
  datatype IdealBucket = IdealBucket(max: int, token: int)

  function IdealCall(b: IdealBucket, count: int, limit: int): (IdealBucket, bool) {
    var token := b.token + Rise(b.max, limit);
    if token - count < 0 then (IdealBucket(limit, token), false) else (IdealBucket(limit, token - count), true)
  }

  function IdealServed(b: IdealBucket, calls: seq<Call>): (IdealBucket, int) {
    if calls == [] then (b, 0)
    else
      var (b', granted) := IdealServed(b, calls[..|calls| - 1]);
      var c := calls[|calls| - 1];
      var (b'', taken) := IdealCall(b', c.count, c.limit);
      (b'', granted + if taken then c.count else 0)
  }

  function Ideal(b: Bucket): IdealBucket {
    IdealBucket(b.max, b.token)
  }

  lemma {:induction false} IdealConservation(b: IdealBucket, calls: seq<Call>)
    requires b.token >= 0 && InRange(b.max)
    ensures var (b', granted) := IdealServed(b, calls);
            && b'.max == CurrentMax(b.max, calls) && b'.token >= 0
            && b'.token + granted == b.token + Rises(b.max, calls)
  {
    if calls != [] {
      IdealConservation(b, calls[..|calls| - 1]);
    }
  }

  ghost predicate AgreesThroughout(b: Bucket, calls: seq<Call>) {
    forall n | 0 <= n <= |calls| ::
      var (b', granted) := Served(b, calls[..n]);
      IdealServed(Ideal(b), calls[..n]) == (Ideal(b'), granted)
  }

  /** The balance that exact arithmetic would have stays below 2^31. */
  ghost predicate FitsThroughout(b: Bucket, calls: seq<Call>) {
    forall n | 0 <= n <= |calls| :: IdealServed(Ideal(b), calls[..n]).0.token <= MAX_INT32
  }

  lemma CallAgreesIffFits(b: Bucket, c: Call)
    requires b.token >= 0 && 0 <= c.count <= MAX_INT32
    ensures var (b', taken) := AfterCall(b, c.count, c.limit);
            var (ideal, idealTaken) := IdealCall(Ideal(b), c.count, c.limit);
            (Ideal(b') == ideal && taken == idealTaken) <==> ideal.token <= MAX_INT32
  {
    var updated := if b.max != c.limit then AfterUpdateMax(b, c.limit) else b;
    UpdateModulo(b, c.limit);
    var token := b.token + Rise(b.max, c.limit);
    TakeModulo(updated, c.count);
    WrapOnce(token, -c.count);
  }

  /** The int32 bucket is exact on a run if and only if the exact balance never
      leaves the int32 range. */
  lemma {:induction false} AgreesIffFits(b: Bucket, calls: seq<Call>)
    requires b.token >= 0 && SaneCounts(calls)
    ensures AgreesThroughout(b, calls) <==> FitsThroughout(b, calls)
  {
    if AgreesThroughout(b, calls) {
      forall n | 0 <= n <= |calls|
        ensures IdealServed(Ideal(b), calls[..n]).0.token <= MAX_INT32
      {
      }
    }
    if FitsThroughout(b, calls) {
      forall n | 0 <= n <= |calls|
        ensures IdealServed(Ideal(b), calls[..n]) == (Ideal(Served(b, calls[..n]).0), Served(b, calls[..n]).1)
      {
        FitsMeansAgrees(b, calls, n);
      }
    }
  }

  lemma {:induction false} FitsMeansAgrees(b: Bucket, calls: seq<Call>, n: nat)
    requires b.token >= 0 && SaneCounts(calls) && FitsThroughout(b, calls) && n <= |calls|
    ensures IdealServed(Ideal(b), calls[..n]) == (Ideal(Served(b, calls[..n]).0), Served(b, calls[..n]).1)
  {
    if n == 0 {
      assert calls[..0] == [];
    } else {
      FitsMeansAgrees(b, calls, n - 1);
      assert calls[..n][..n - 1] == calls[..n - 1];
      IdealConservation(Ideal(b), calls[..n - 1]);
      CallAgreesIffFits(Served(b, calls[..n - 1]).0, calls[n - 1]);
    }
  }

  /** Every limit of the schedule is at least the one before it. */
  predicate NeverLowered(max: int32, calls: seq<Call>) {
    calls == [] ||
    var n := |calls| - 1;
    NeverLowered(max, calls[..n]) && CurrentMax(max, calls[..n]) <= calls[n].limit
  }

  /** The sum of all falls of the limit, the counterpart of Rises. */
  function Falls(max: int32, calls: seq<Call>): nat {
    if calls == [] then 0
    else
      var earlier := calls[..|calls| - 1];
      Falls(max, earlier) + Rise(CurrentMax(max, calls), CurrentMax(max, earlier))
  }

  lemma {:induction false} RisesMinusFalls(max: int32, calls: seq<Call>)
    ensures max + Rises(max, calls) == CurrentMax(max, calls) + Falls(max, calls)
    ensures Falls(max, calls) == 0 <==> NeverLowered(max, calls)
  {
    if calls != [] {
      RisesMinusFalls(max, calls[..|calls| - 1]);
    }
  }

  lemma {:induction false} PrefixNeverLowered(max: int32, calls: seq<Call>, n: nat)
    requires NeverLowered(max, calls) && n <= |calls|
    ensures NeverLowered(max, calls[..n])
  {
    if n == |calls| {
      assert calls[..n] == calls;
    } else {
      var k := |calls| - 1;
      PrefixNeverLowered(max, calls[..k], n);
      assert calls[..k][..n] == calls[..n];
    }
  }

  /** The exact balance never exceeds the tokens at the start and all rises. */
  lemma IdealBalanceBound(b: IdealBucket, calls: seq<Call>)
    requires b.token >= 0 && InRange(b.max) && SaneCounts(calls)
    ensures IdealServed(b, calls).0.token <= b.token + Rises(b.max, calls)
  {
    IdealConservation(b, calls);
    GrantedNotNegative(b, calls);
  }

  lemma RisingLimitsFit(max: int32, calls: seq<Call>)
    requires max >= 0 && SaneCounts(calls) && NeverLowered(max, calls)
    ensures FitsThroughout(FullBucket(max), calls)
  {
    forall n | 0 <= n <= |calls|
      ensures IdealServed(Ideal(FullBucket(max)), calls[..n]).0.token <= MAX_INT32
    {
      PrefixNeverLowered(max, calls, n);
      RisesMinusFalls(max, calls[..n]);
      IdealBalanceBound(Ideal(FullBucket(max)), calls[..n]);
    }
  }

  /** Since a refill of any bucket: with limits that never decreased nothing wraps
      around, and tokens left plus tokens granted are exactly the current limit.
      On any run whose exact balance fits, they are so only then. */
  lemma {:induction false} ExactlyTheLimitIffNeverLowered(any: Bucket, calls: seq<Call>)
    requires any.max >= 0 && SaneCounts(calls)
    ensures NeverLowered(any.max, calls) ==> FitsThroughout(AfterRefill(any), calls)
    ensures FitsThroughout(AfterRefill(any), calls) ==>
              var (b, granted) := Served(AfterRefill(any), calls);
              && b.max == CurrentMax(any.max, calls) && b.token >= 0
              && (b.token + granted == b.max <==> NeverLowered(any.max, calls))
  {
    var full := AfterRefill(any);
    if NeverLowered(any.max, calls) {
      RisingLimitsFit(any.max, calls);
    }
    if FitsThroughout(full, calls) {
      FitsMeansAgrees(full, calls, |calls|);
      assert calls[..|calls|] == calls;
      IdealConservation(Ideal(full), calls);
      RisesMinusFalls(any.max, calls);
    }
  }

  lemma {:induction false} GrantedNotNegative(b: IdealBucket, calls: seq<Call>)
    requires SaneCounts(calls)
    ensures IdealServed(b, calls).1 >= 0
  {
    if calls != [] {
      GrantedNotNegative(b, calls[..|calls| - 1]);
    }
  }

  // ---------------------------- schedules of limits that grant too much

  function Larger(x: int32, y: int32): int32 {
    if x > y then x else y
  }

  function LargestLimit(max: int32, calls: seq<Call>): int32 {
    if calls == [] then max else Larger(LargestLimit(max, calls[..|calls| - 1]), calls[|calls| - 1].limit)
  }

  /** Somewhere in the schedule the limit goes up after it went down. */
  predicate RiseAfterFall(max: int32, calls: seq<Call>) {
    calls != [] &&
    var earlier := calls[..|calls| - 1];
    RiseAfterFall(max, earlier) ||
    (!NeverLowered(max, earlier) && calls[|calls| - 1].limit > CurrentMax(max, earlier))
  }

  predicate SameLimits(calls: seq<Call>, others: seq<Call>) {
    |calls| == |others| && forall i :: 0 <= i < |calls| ==> calls[i].limit == others[i].limit
  }

  predicate SaneLimits(calls: seq<Call>) {
    forall i :: 0 <= i < |calls| ==> calls[i].limit >= 0
  }

  /** Start and rises add up to the largest limit, and to more exactly if a rise
      followed a fall. */
  lemma {:induction false} RisesAgainstLargest(max: int32, calls: seq<Call>)
    ensures max + Rises(max, calls) >= LargestLimit(max, calls) >= CurrentMax(max, calls)
    ensures NeverLowered(max, calls) ==> !RiseAfterFall(max, calls) && LargestLimit(max, calls) == CurrentMax(max, calls)
    ensures !NeverLowered(max, calls) && !RiseAfterFall(max, calls) ==> LargestLimit(max, calls) > CurrentMax(max, calls)
    ensures max + Rises(max, calls) > LargestLimit(max, calls) <==> RiseAfterFall(max, calls)
  {
    if calls != [] {
      RisesAgainstLargest(max, calls[..|calls| - 1]);
    }
  }

  lemma CurrentNotNegative(max: int32, calls: seq<Call>)
    requires max >= 0 && SaneLimits(calls)
    ensures CurrentMax(max, calls) >= 0
  {
  }

  lemma TakeAllOf(b: Bucket, c: Call)
    requires b.max >= 0 && c.limit >= 0 && 0 <= b.token && b.token + Rise(b.max, c.limit) == c.count <= MAX_INT32
    ensures AfterCall(b, c.count, c.limit) == (Bucket(c.limit, 0), true)
  {
    UpdateModulo(b, c.limit);
  }

  /** What is left and what was granted, when each call takes all there is. */
  ghost predicate Drained(max: int32, calls: seq<Call>, served: (Bucket, int)) {
    && served.0.max == CurrentMax(max, calls) && served.0.token == (if calls == [] then max else 0)
    && served.0.token + served.1 == max + Rises(max, calls)
  }

  lemma DrainedFurther(max: int32, calls: seq<Call>, earlier: seq<Call>) returns (c: Call)
    requires max >= 0 && SaneLimits(calls) && calls != []
    requires Drained(max, calls[..|calls| - 1], Served(FullBucket(max), earlier))
    ensures 0 <= c.count <= MAX_INT32 && c.limit == calls[|calls| - 1].limit
    ensures Drained(max, calls, Served(FullBucket(max), earlier + [c]))
  {
    var n := |calls| - 1;
    CurrentNotNegative(max, calls[..n]);
    var b := Served(FullBucket(max), earlier).0;
    c := Call(b.token + Rise(b.max, calls[n].limit), calls[n].limit);
    TakeAllOf(b, c);
    ServedOneMore(FullBucket(max), earlier, c);
  }

  /** With the same limits and each call taking all there is, everything is granted. */
  lemma {:induction false} GreedyGrantsAllRises(max: int32, calls: seq<Call>) returns (counted: seq<Call>)
    requires max >= 0 && SaneLimits(calls)
    ensures SameLimits(counted, calls) && SaneCounts(counted)
    ensures Drained(max, calls, Served(FullBucket(max), counted))
  {
    if calls == [] {
      counted := [];
    } else {
      var earlier := GreedyGrantsAllRises(max, calls[..|calls| - 1]);
      var c := DrainedFurther(max, calls, earlier);
      counted := earlier + [c];
    }
  }

  lemma {:induction false} SameRises(max: int32, calls: seq<Call>, others: seq<Call>)
    requires SameLimits(calls, others)
    ensures CurrentMax(max, calls) == CurrentMax(max, others) && Rises(max, calls) == Rises(max, others)
    ensures LargestLimit(max, calls) == LargestLimit(max, others)
    ensures NeverLowered(max, calls) == NeverLowered(max, others) && RiseAfterFall(max, calls) == RiseAfterFall(max, others)
  {
    if calls != [] {
      SameRises(max, calls[..|calls| - 1], others[..|others| - 1]);
    }
  }

  lemma {:induction false} PrefixRises(max: int32, calls: seq<Call>, n: nat)
    requires n <= |calls|
    ensures Rises(max, calls[..n]) <= Rises(max, calls)
  {
    if n == |calls| {
      assert calls[..n] == calls;
    } else {
      var k := |calls| - 1;
      PrefixRises(max, calls[..k], n);
      assert calls[..k][..n] == calls[..n];
    }
  }

  /** Without a rise after a fall no counts are granted more than the largest limit. */
  lemma GrantedWithinLargest(max: int32, calls: seq<Call>)
    requires max >= 0 && SaneCounts(calls) && !RiseAfterFall(max, calls)
    ensures Served(FullBucket(max), calls).1 <= LargestLimit(max, calls)
  {
    var full := FullBucket(max);
    RisesAgainstLargest(max, calls);
    forall n | 0 <= n <= |calls|
      ensures IdealServed(Ideal(full), calls[..n]).0.token <= MAX_INT32
    {
      PrefixRises(max, calls, n);
      IdealBalanceBound(Ideal(full), calls[..n]);
    }
    FitsMeansAgrees(full, calls, |calls|);
    assert calls[..|calls|] == calls;
    IdealConservation(Ideal(full), calls);
  }

  /** Between two refills, a schedule of limits lets some counts be granted more
      than its largest limit if and only if a limit rises after one fell. */
  lemma OvergrantIffRiseAfterFall(max: int32, calls: seq<Call>)
    requires max >= 0 && SaneLimits(calls)
    ensures (exists counted: seq<Call> | SameLimits(counted, calls) && SaneCounts(counted) ::
               Served(FullBucket(max), counted).1 > LargestLimit(max, calls))
            <==> RiseAfterFall(max, calls)
  {
    if RiseAfterFall(max, calls) {
      var counted := GreedyGrantsAllRises(max, calls);
      RisesAgainstLargest(max, calls);
      assert Served(FullBucket(max), counted).1 > LargestLimit(max, calls);
    } else {
      forall counted: seq<Call> | SameLimits(counted, calls) && SaneCounts(counted)
        ensures Served(FullBucket(max), counted).1 <= LargestLimit(max, calls)
      {
        SameRises(max, counted, calls);
        GrantedWithinLargest(max, counted);
      }
    }
  }

  function Paid(c: Call, taken: bool): int {
    if taken then c.count else 0
  }

  lemma ServedOneMore(b: Bucket, calls: seq<Call>, c: Call)
    ensures var (b', granted) := Served(b, calls);
            var (b'', taken) := AfterCall(b', c.count, c.limit);
            Served(b, calls + [c]) == (b'', granted + Paid(c, taken))
  {
    assert (calls + [c])[..|calls|] == calls;
  }

  /** The call leads from one bucket to the other and takes its count or not. */
  predicate CallLeads(b: Bucket, c: Call, b': Bucket, taken: bool) {
    AfterCall(b, c.count, c.limit) == (b', taken)
  }

  /** These calls lead from one bucket to the other and grant this much. */
  predicate Serves(b: Bucket, calls: seq<Call>, b': Bucket, granted: int) {
    Served(b, calls) == (b', granted)
  }

  lemma ServesOneMore(b: Bucket, calls: seq<Call>, b1: Bucket, granted: int, c: Call, b2: Bucket, taken: bool, total: int)
    requires Serves(b, calls, b1, granted) && CallLeads(b1, c, b2, taken) && total == granted + Paid(c, taken)
    ensures Serves(b, calls + [c], b2, total)
  {
    ServedOneMore(b, calls, c);
  }

  lemma ServesNothing(b: Bucket)
    ensures Serves(b, [], b, 0)
  {
  }

  lemma DropAndReturn(max: int32, all: Call, none: Call)
    requires 0 < max && all == Call(max, max) && none == Call(0, 0)
    ensures Serves(FullBucket(max), [] + [all] + [none] + [all], Bucket(max, 0), 2 * max)
  {
    var full, empty, closed := FullBucket(max), Bucket(max, 0), Bucket(0, 0);
    EachTakesAll(max, all, none);
    ServesNothing(full);
    ServesOneMore(full, [], full, 0, all, empty, true, max);
    ServesOneMore(full, [] + [all], empty, max, none, closed, true, max);
    ServesOneMore(full, [] + [all] + [none], closed, max, all, empty, true, 2 * max);
  }

  lemma EachTakesAll(max: int32, all: Call, none: Call)
    requires 0 < max && all == Call(max, max) && none == Call(0, 0)
    ensures CallLeads(FullBucket(max), all, Bucket(max, 0), true)
    ensures CallLeads(Bucket(max, 0), none, Bucket(0, 0), true)
    ensures CallLeads(Bucket(0, 0), all, Bucket(max, 0), true)
  {
    TakeAllOf(FullBucket(max), all);
    TakeAllOf(Bucket(max, 0), none);
    TakeAllOf(Bucket(0, 0), all);
  }

  /** For instance, a limit that drops to zero and returns grants twice itself. */
  lemma AlternatingLimitsGrantMore(max: int32)
    requires 0 < max
    ensures Served(FullBucket(max), [Call(max, max), Call(0, 0), Call(max, max)]) == (Bucket(max, 0), 2 * max)
  {
    var all, none := Call(max, max), Call(0, 0);
    DropAndReturn(max, all, none);
    assert [] + [all] + [none] + [all] == [all, none, all];
  }

  /** And without any grant at all it can wrap around: then even one token is
      refused, where exact arithmetic would have granted it. */
  lemma AlternatingLimitsWrap()
    ensures Served(FullBucket(MAX_INT32), [Call(0, 0), Call(0, MAX_INT32), Call(1, MAX_INT32)]) == (Bucket(MAX_INT32, -2), 0)
    ensures IdealServed(Ideal(FullBucket(MAX_INT32)), [Call(0, 0), Call(0, MAX_INT32), Call(1, MAX_INT32)]).1 == 1
  {
    var a, b, c := Call(0, 0), Call(0, MAX_INT32), Call(1, MAX_INT32);
    WrapRun(a, b, c);
    assert [] + [a] + [b] + [c] == [a, b, c];
    IdealKeepsOne();
  }

  lemma WrapRun(a: Call, b: Call, c: Call)
    requires a == Call(0, 0) && b == Call(0, MAX_INT32) && c == Call(1, MAX_INT32)
    ensures Serves(FullBucket(MAX_INT32), [] + [a] + [b] + [c], Bucket(MAX_INT32, -2), 0)
  {
    var full, closed, debt := FullBucket(MAX_INT32), Bucket(0, MAX_INT32), Bucket(MAX_INT32, -2);
    WrapStep();
    ServesNothing(full);
    ServesOneMore(full, [], full, 0, a, closed, true, 0);
    ServesOneMore(full, [] + [a], closed, 0, b, debt, false, 0);
    ServesOneMore(full, [] + [a] + [b], debt, 0, c, debt, false, 0);
  }

  lemma IdealKeepsOne()
    ensures IdealServed(Ideal(FullBucket(MAX_INT32)), [Call(0, 0), Call(0, MAX_INT32), Call(1, MAX_INT32)]).1 == 1
  {
    var a, b, c := Call(0, 0), Call(0, MAX_INT32), Call(1, MAX_INT32);
    assert [a, b, c][..2] == [a, b] && [a, b][..1] == [a] && [a][..0] == [];
    assert IdealServed(Ideal(FullBucket(MAX_INT32)), [a]) == (IdealBucket(0, MAX_INT32), 0);
    assert IdealServed(Ideal(FullBucket(MAX_INT32)), [a, b]) == (IdealBucket(MAX_INT32, 2 * MAX_INT32), 0);
  }

  lemma WrapStep()
    ensures CallLeads(FullBucket(MAX_INT32), Call(0, 0), Bucket(0, MAX_INT32), true)
    ensures CallLeads(Bucket(0, MAX_INT32), Call(0, MAX_INT32), Bucket(MAX_INT32, -2), false)
    ensures CallLeads(Bucket(MAX_INT32, -2), Call(1, MAX_INT32), Bucket(MAX_INT32, -2), false)
  {
    assert I32(MAX_INT32 + MAX_INT32) == -2;
  }

  // -------------------------------------------------------- batch additivity

  /** n successive single-token calls: final bucket, and whether all were taken. */
  function TakeOnes(b: Bucket, n: nat): (Bucket, bool) {
    if n == 0 then (b, true)
    else
      var (b', all) := TakeOnes(b, n - 1);
      var (b'', taken) := AfterTake(b', 1);
      (b'', all && taken)
  }

  lemma {:induction false} OnesCount(b: Bucket, n: nat)
    requires 0 <= b.token
    ensures TakeOnes(b, n) == (b.(token := if n <= b.token then b.token - n else 0), n <= b.token)
  {
    if n != 0 {
      OnesCount(b, n - 1);
    }
  }

  lemma {:induction false} NoOnesFromDebt(b: Bucket, n: nat)
    requires b.token < 0 && (n > 0 ==> MIN_INT32 < b.token)
    ensures TakeOnes(b, n) == (b, n == 0)
  {
    if n != 0 {
      NoOnesFromDebt(b, n - 1);
    }
  }

  /** The deepest debt: the first single call wraps around to the largest balance. */
  lemma {:induction false} OnesFromDeepestDebt(b: Bucket, n: nat)
    requires b.token == MIN_INT32 && n <= MAX_INT32
    ensures TakeOnes(b, n) == (b.(token := if n == 0 then MIN_INT32 else MAX_INT32 - (n - 1)), true)
  {
    if n != 0 {
      OnesFromDeepestDebt(b, n - 1);
    }
  }

  /** A bucket in debt takes the same batches as single calls, unless the batch is
      empty or its subtraction wraps around. */
  predicate Additive(b: Bucket, n: nat) {
    b.token >= 0 || (n > 0 && (b.token - n >= MIN_INT32 || b.token == MIN_INT32))
  }

  /** A batch of n is decided like n single calls exactly on the buckets above;
      and a batch and single calls that are all admitted leave the same tokens. */
  lemma {:induction false} BatchAdditive(b: Bucket, n: nat)
    requires n <= MAX_INT32
    ensures AfterTake(b, n).1 == TakeOnes(b, n).1 <==> Additive(b, n)
    ensures AfterTake(b, n).1 && TakeOnes(b, n).1 ==> AfterTake(b, n).0 == TakeOnes(b, n).0
  {
    if b.token >= 0 {
      OnesCount(b, n);
    } else if b.token == MIN_INT32 {
      OnesFromDeepestDebt(b, n);
    } else {
      NoOnesFromDebt(b, n);
    }
  }

  /** Twice this number is just past the int32 range. */
  const HALF_AND_ONE: int32 := 0x4000_0001

  const DEBT := Bucket(HALF_AND_ONE, MIN_INT32 + 2)

  lemma DebtIsReached(drop: Call, back: Call)
    requires drop == Call(0, 0) && back == Call(0, HALF_AND_ONE)
    ensures Serves(FullBucket(HALF_AND_ONE), [] + [drop] + [back], DEBT, 0)
  {
    var full, closed := FullBucket(HALF_AND_ONE), Bucket(0, HALF_AND_ONE);
    DebtSteps();
    ServesNothing(full);
    ServesOneMore(full, [], full, 0, drop, closed, true, 0);
    ServesOneMore(full, [] + [drop], closed, 0, back, DEBT, false, 0);
  }

  lemma DebtSteps()
    ensures CallLeads(FullBucket(HALF_AND_ONE), Call(0, 0), Bucket(0, HALF_AND_ONE), true)
    ensures CallLeads(Bucket(0, HALF_AND_ONE), Call(0, HALF_AND_ONE), DEBT, false)
  {
    assert I32(HALF_AND_ONE + HALF_AND_ONE) == MIN_INT32 + 2;
  }

  /** A reachable debt from which three tokens at once are granted, because the
      subtraction wraps around, although not one single call would be. */
  lemma BatchGrantedFromDebt()
    ensures Served(FullBucket(HALF_AND_ONE), [Call(0, 0), Call(0, HALF_AND_ONE)]) == (DEBT, 0)
    ensures AfterTake(DEBT, 3).1 && !TakeOnes(DEBT, 1).1 && !TakeOnes(DEBT, 3).1
  {
    var drop, back := Call(0, 0), Call(0, HALF_AND_ONE);
    DebtIsReached(drop, back);
    assert [] + [drop] + [back] == [drop, back];
    NoOnesFromDebt(DEBT, 1);
    NoOnesFromDebt(DEBT, 3);
    assert I32(DEBT.token - 3) == MAX_INT32;
  }

  // ------------------------------------------- the race inside Take

  /** Take checks without the lock and subtracts with it. `pending[i]` is the
      count of caller i if it passed the check and has not subtracted yet. */
  datatype Race = Race(bucket: Bucket, pending: seq<Option<nat>>, granted: nat)

  datatype RaceStep = Check(caller: nat, count: nat) | Subtract(caller: nat)

  predicate CanStep(r: Race, step: RaceStep) {
    match step
    case Check(i, count) => i < |r.pending| && r.pending[i].None? && CanTake(r.bucket, count)
    case Subtract(i) => i < |r.pending| && r.pending[i].Some?
  }

  function AfterStep(r: Race, step: RaceStep): Race
    requires CanStep(r, step)
  {
    match step
    case Check(i, count) => r.(pending := r.pending[i := Some(count)])
    case Subtract(i) =>
      var count := r.pending[i].value;
      Race(Subtracted(r.bucket, count), r.pending[i := None], r.granted + count)
  }

  /** A Take that nobody interrupts is its check and its subtraction. */
  lemma TakeIsCheckAndSubtract(r: Race, i: nat, count: nat)
    requires i < |r.pending| && r.pending[i].None?
    ensures CanStep(r, Check(i, count)) <==> AfterTake(r.bucket, count).1
    ensures AfterTake(r.bucket, count).1 ==>
              var checked := AfterStep(r, Check(i, count));
              && CanStep(checked, Subtract(i))
              && AfterStep(checked, Subtract(i)) == Race(AfterTake(r.bucket, count).0, r.pending, r.granted + count)
  {
    if CanTake(r.bucket, count) {
      assert r.pending[i := Some(count)][i := None] == r.pending;
    }
  }

  function Owed(pending: seq<Option<nat>>): nat {
    if pending == [] then 0
    else Owed(pending[..|pending| - 1]) + if pending[|pending| - 1].Some? then pending[|pending| - 1].value else 0
  }

  ghost predicate CountsWithin(pending: seq<Option<nat>>, most: nat) {
    forall i | 0 <= i < |pending| :: pending[i].Some? ==> pending[i].value <= most
  }

  lemma {:induction false} OwedBound(pending: seq<Option<nat>>, most: nat)
    requires CountsWithin(pending, most)
    ensures Owed(pending) <= |pending| * most
    ensures (exists i :: 0 <= i < |pending| && pending[i].None?) ==> Owed(pending) <= (|pending| - 1) * most
  {
    if pending != [] {
      var n := |pending| - 1;
      assert CountsWithin(pending[..n], most);
      OwedBound(pending[..n], most);
      assert |pending| * most == n * most + most;
      if i :| 0 <= i < |pending| && pending[i].None? {
        if i < n {
          assert pending[..n][i].None?;
          assert n * most == (n - 1) * most + most;
        }
      }
    }
  }

  lemma {:induction false} OwedUpdate(pending: seq<Option<nat>>, i: nat, x: Option<nat>)
    requires i < |pending|
    ensures Owed(pending[i := x]) == Owed(pending)
              - (if pending[i].Some? then pending[i].value else 0) + (if x.Some? then x.value else 0)
  {
    var n := |pending| - 1;
    if i == n {
      assert pending[i := x][..n] == pending[..n];
    } else {
      OwedUpdate(pending[..n], i, x);
      assert pending[i := x][..n] == pending[..n][i := x];
    }
  }

  /** `debt` is k - 1 requests of the largest size, for k callers. */
  ghost predicate RaceInv(r: Race, most: nat, debt: nat, start: int32) {
    && CountsWithin(r.pending, most)
    && debt == (|r.pending| - 1) * most
    && r.bucket.token + r.granted == start
    && r.bucket.token - Owed(r.pending) + debt >= 0
  }

  lemma StepKeepsBalance(r: Race, step: RaceStep, most: nat, debt: nat, start: int32)
    requires RaceInv(r, most, debt, start) && CanStep(r, step) && (step.Check? ==> step.count <= most)
    requires debt + most <= -MIN_INT32
    ensures RaceInv(AfterStep(r, step), most, debt, start)
  {
    match step
    case Check(i, count) => CheckKeepsBalance(r, i, count, most, debt);
    case Subtract(i) => OwedUpdate(r.pending, i, None);
  }

  lemma CheckKeepsBalance(r: Race, i: nat, count: nat, most: nat, debt: nat)
    requires i < |r.pending| && r.pending[i].None? && CountsWithin(r.pending, most)
    requires debt == (|r.pending| - 1) * most && debt + most <= -MIN_INT32
    requires r.bucket.token - Owed(r.pending) + debt >= 0 && count <= most && CanTake(r.bucket, count)
    ensures r.bucket.token - Owed(r.pending[i := Some(count)]) + debt >= 0
  {
    OwedBound(r.pending, most);
    OwedUpdate(r.pending, i, Some(count));
    assert r.bucket.token + debt >= 0;
    assert r.bucket.token - count >= 0;
  }

  ghost predicate RaceRun(r: Race, steps: seq<RaceStep>, most: nat)
    decreases |steps|
  {
    steps == [] ||
    (CanStep(r, steps[0]) && (steps[0].Check? ==> steps[0].count <= most) && RaceRun(AfterStep(r, steps[0]), steps[1..], most))
  }

  ghost function AfterRace(r: Race, steps: seq<RaceStep>, most: nat): Race
    requires RaceRun(r, steps, most)
    decreases |steps|
  {
    if steps == [] then r else AfterRace(AfterStep(r, steps[0]), steps[1..], most)
  }

  lemma {:induction false} RaceKeepsBalance(r: Race, steps: seq<RaceStep>, most: nat, debt: nat, start: int32)
    requires RaceInv(r, most, debt, start) && RaceRun(r, steps, most)
    requires debt + most <= -MIN_INT32
    ensures RaceInv(AfterRace(r, steps, most), most, debt, start)
    decreases |steps|
  {
    if steps != [] {
      StepKeepsBalance(r, steps[0], most, debt, start);
      RaceKeepsBalance(AfterStep(r, steps[0]), steps[1..], most, debt, start);
    }
  }

  function Quiet(max: int32, k: nat): Race {
    Race(FullBucket(max), NobodyWaits(k), 0)
  }

  function NobodyWaits(k: nat): seq<Option<nat>> {
    seq(k, i => None)
  }

  lemma QuietOwesNothing(k: nat)
    ensures Owed(NobodyWaits(k)) == 0
  {
    if k != 0 {
      QuietOwesNothing(k - 1);
      assert NobodyWaits(k)[..k - 1] == NobodyWaits(k - 1);
    }
  }

  /** However k callers interleave, the overshoot is at most k - 1 requests, as
      long as k of them fit in the negative half of the int32 range. */
  lemma {:induction false} OvershootBounded(max: int32, k: nat, most: nat, steps: seq<RaceStep>)
    requires 0 <= max && 1 <= k && k * most <= -MIN_INT32
    requires RaceRun(Quiet(max, k), steps, most)
    ensures var r := AfterRace(Quiet(max, k), steps, most);
            && r.bucket.token - Owed(r.pending) >= -((k - 1) * most)
            && r.granted + Owed(r.pending) <= max + (k - 1) * most
  {
    QuietOwesNothing(k);
    var debt := (k - 1) * most;
    assert debt >= 0 && k * most == debt + most;
    RaceKeepsBalance(Quiet(max, k), steps, most, debt, max);
  }

  /** All k callers check, then all subtract: the bound is reached. */
  function AllCheck(k: nat, most: nat): seq<RaceStep> {
    seq(k, i requires 0 <= i < k => Check(i, most))
  }

  function AllSubtract(k: nat): seq<RaceStep> {
    seq(k, i requires 0 <= i < k => Subtract(i))
  }

  function Waiting(k: nat, most: nat, to: nat, bucket: Bucket): Race {
    Race(bucket, seq(k, i => if i < to then Some(most) else None), 0)
  }

  lemma {:induction false} ChecksAllPass(k: nat, most: nat, j: nat)
    requires j <= k && most <= MAX_INT32
    ensures var r := Waiting(k, most, j, FullBucket(most));
            && RaceRun(r, AllCheck(k, most)[j..], most)
            && AfterRace(r, AllCheck(k, most)[j..], most) == Race(FullBucket(most), EverybodyWaits(k, most), 0)
    decreases k - j
  {
    var r := Waiting(k, most, j, FullBucket(most));
    if j < k {
      ChecksAllPass(k, most, j + 1);
      assert AllCheck(k, most)[j..][1..] == AllCheck(k, most)[j + 1..];
      assert AfterStep(r, Check(j, most)).pending == Waiting(k, most, j + 1, FullBucket(most)).pending;
    } else {
      assert r.pending == EverybodyWaits(k, most);
    }
  }

  /** Once the checks have passed nothing stops the subtractions, in whatever debt they end. */
  lemma {:induction false} SubtractsAllHappen(r: Race, most: nat, j: nat)
    requires j <= |r.pending| && forall i | 0 <= i < |r.pending| :: r.pending[i].Some? <==> j <= i
    ensures RaceRun(r, AllSubtract(|r.pending|)[j..], most)
    ensures var end := AfterRace(r, AllSubtract(|r.pending|)[j..], most);
            end.granted == r.granted + Owed(r.pending) && end.pending == NobodyWaits(|r.pending|)
    decreases |r.pending| - j
  {
    var k := |r.pending|;
    if j < k {
      assert AllSubtract(k)[j..][1..] == AllSubtract(k)[j + 1..];
      OwedUpdate(r.pending, j, None);
      SubtractsAllHappen(AfterStep(r, Subtract(j)), most, j + 1);
    } else {
      assert r.pending == NobodyWaits(k);
      QuietOwesNothing(k);
    }
  }

  lemma SubtractedThenOwed(b: Bucket, count: int, rest: int)
    ensures I32(Subtracted(b, count).token - rest) == I32(b.token - (count + rest))
  {
    TakeModulo(b, count);
    WrapOnce(b.token - count, -rest);
  }

  lemma {:induction false} SubtractsLeaveDebt(r: Race, most: nat, j: nat)
    requires j <= |r.pending| && forall i | 0 <= i < |r.pending| :: r.pending[i].Some? <==> j <= i
    ensures RaceRun(r, AllSubtract(|r.pending|)[j..], most)
         && AfterRace(r, AllSubtract(|r.pending|)[j..], most).bucket.token == I32(r.bucket.token - Owed(r.pending))
    decreases |r.pending| - j
  {
    var k := |r.pending|;
    SubtractsAllHappen(r, most, j);
    if j < k {
      var count := r.pending[j].value;
      assert AllSubtract(k)[j..][1..] == AllSubtract(k)[j + 1..];
      OwedUpdate(r.pending, j, None);
      SubtractsLeaveDebt(AfterStep(r, Subtract(j)), most, j + 1);
      SubtractedThenOwed(r.bucket, count, Owed(r.pending) - count);
    } else {
      assert r.pending == NobodyWaits(k);
      QuietOwesNothing(k);
    }
  }

  function EverybodyWaits(k: nat, most: nat): seq<Option<nat>> {
    seq(k, i => Some(most))
  }

  lemma {:induction false} AllOwed(k: nat, most: nat)
    ensures Owed(EverybodyWaits(k, most)) == k * most
  {
    if k != 0 {
      AllOwed(k - 1, most);
      assert EverybodyWaits(k, most)[..k - 1] == EverybodyWaits(k - 1, most);
      assert k * most == (k - 1) * most + most;
    }
  }

  lemma {:induction false} RaceConcat(r: Race, a: seq<RaceStep>, b: seq<RaceStep>, most: nat)
    requires RaceRun(r, a, most) && RaceRun(AfterRace(r, a, most), b, most)
    ensures RaceRun(r, a + b, most) && AfterRace(r, a + b, most) == AfterRace(AfterRace(r, a, most), b, most)
    decreases |a|
  {
    if a == [] {
      assert a + b == b;
    } else {
      RaceConcat(AfterStep(r, a[0]), a[1..], b, most);
      assert (a + b)[1..] == a[1..] + b;
    }
  }

  /** A full bucket of `most` tokens after all k callers checked and then subtracted. */
  lemma EverybodyGetsThrough(k: nat, most: nat) returns (steps: seq<RaceStep>)
    requires 1 <= k && most <= MAX_INT32
    ensures RaceRun(Quiet(most, k), steps, most)
    ensures var r := AfterRace(Quiet(most, k), steps, most);
            r.granted == k * most && r.pending == NobodyWaits(k) && r.bucket.token == I32(most - k * most)
  {
    var checks, subtracts := AllCheck(k, most), AllSubtract(k);
    assert checks[0..] == checks && subtracts[0..] == subtracts;
    assert Quiet(most, k).pending == Waiting(k, most, 0, FullBucket(most)).pending;
    ChecksAllPass(k, most, 0);
    var all := Race(FullBucket(most), EverybodyWaits(k, most), 0);
    SubtractsAllHappen(all, most, 0);
    SubtractsLeaveDebt(all, most, 0);
    AllOwed(k, most);
    RaceConcat(Quiet(most, k), checks, subtracts, most);
    steps := checks + subtracts;
  }

  /** The bound is exact for every number of callers: a full bucket of `most`
      tokens can grant k times that. */
  lemma OvershootReached(k: nat, most: nat)
    requires 1 <= k && most <= MAX_INT32
    ensures exists steps ::
              RaceRun(Quiet(most, k), steps, most) &&
              AfterRace(Quiet(most, k), steps, most).granted == most + (k - 1) * most
  {
    assert k * most == most + (k - 1) * most;
    var steps := EverybodyGetsThrough(k, most);
  }

  /** No interleaving of k callers overshoots by more than k - 1 requests. */
  ghost predicate BoundHolds(max: int32, k: nat, most: nat) {
    forall steps | RaceRun(Quiet(max, k), steps, most) ::
      var r := AfterRace(Quiet(max, k), steps, most);
      r.granted + Owed(r.pending) <= max + (k - 1) * most
  }

  lemma {:induction false} FirstTooMany(k: nat, most: nat) returns (j: nat)
    requires most <= MAX_INT32 && k * most > -MIN_INT32
    ensures 1 <= j <= k && (j - 1) * most <= -MIN_INT32 < j * most
  {
    j := k;
    if (k - 1) * most > -MIN_INT32 {
      j := FirstTooMany(k - 1, most);
    }
  }

  /** Once k requests no longer fit, the debt wraps around and is lent again. */
  lemma DebtWrapsAround(k: nat, most: nat)
    requires 1 <= k && most <= MAX_INT32 && (k - 1) * most <= -MIN_INT32 < k * most
    ensures !BoundHolds(most, k, most)
  {
    assert k * most == most + (k - 1) * most;
    var steps := EverybodyGetsThrough(k, most);
    var quiet := Quiet(most, k);
    var r := AfterRace(quiet, steps, most);
    assert r.bucket.token == most - k * most;
    var again := [Check(0, most), Subtract(0)];
    var r1 := AfterStep(r, Check(0, most));
    assert again[1..] == [Subtract(0)] && [Subtract(0)][1..] == [];
    assert RaceRun(r1, [Subtract(0)], most) && AfterRace(r1, [Subtract(0)], most) == AfterStep(r1, Subtract(0));
    RaceConcat(quiet, steps, again, most);
    assert AfterRace(quiet, steps + again, most).granted == k * most + most;
  }

  /** The bound holds for every full bucket and up to k callers if and only if k
      requests of the largest size fit in the negative half of the int32 range. */
  lemma OvershootBoundedIff(k: nat, most: nat)
    requires most <= MAX_INT32
    ensures (forall max: int32, j: nat | 0 <= max && 1 <= j <= k :: BoundHolds(max, j, most)) <==> k * most <= -MIN_INT32
  {
    if k * most <= -MIN_INT32 {
      forall max: int32, j: nat | 0 <= max && 1 <= j <= k
        ensures BoundHolds(max, j, most)
      {
        FewerFit(j, k, most);
        forall steps | RaceRun(Quiet(max, j), steps, most)
          ensures var r := AfterRace(Quiet(max, j), steps, most);
                  r.granted + Owed(r.pending) <= max + (j - 1) * most
        {
          OvershootBounded(max, j, most, steps);
        }
      }
    } else {
      var j := FirstTooMany(k, most);
      DebtWrapsAround(j, most);
    }
  }

  lemma FewerFit(j: nat, k: nat, most: nat)
    requires j <= k
    ensures j * most <= k * most
  {
    assert k * most == j * most + (k - j) * most;
  }
}
