/**
 The distributed rate limiter: replicas of the producer count a topic's tokens
 on one Redis key per window, and each falls back to its own local limiter
 while Redis refuses connections.
 */
module RedisLimiters {
  import opened Wrappers
  import opened Int32
  import opened LeakyBuckets
  import opened RateLimiters

  /** A Redis counter, and whether it has a time to live. */
  datatype Key = Key(count: nat, ttl: bool)

  /** How a command ends: answered, connection refused, or another error, which
      may have reached the server. */
  datatype Outcome = Answered | Refused | Failed(applied: bool)

  predicate Applied(o: Outcome) {
    o.Answered? || (o.Failed? && o.applied)
  }

  function AfterIncrBy(k: Option<Key>, count: nat, o: Outcome): Option<Key> {
    if !Applied(o) then k
    else if k.None? then Some(Key(count, false))
    else Some(k.value.(count := k.value.count + count))
  }

  function AfterExpireNX(k: Option<Key>, o: Outcome): Option<Key> {
    if Applied(o) && k.Some? then Some(k.value.(ttl := true)) else k
  }

  function Count(k: Option<Key>): nat {
    if k.None? then 0 else k.value.count
  }

  /** What the reply of INCRBY leads to. */
  datatype Verdict = Over | Within | SetExpiry

  /** The reply is truncated to an int32 before the comparisons. */
  function Judge(total: nat, count: nat, limit: int32): Verdict {
    if I32(total) > limit then Over
    else if I32(total) != count then Within
    else SetExpiry
  }

  /** One whole call in Redis mode: the key afterwards, whether the limit counts
      as hit, and whether the limiter switches to its local fallback. */
  datatype CallResult = CallResult(key: Option<Key>, hit: bool, refused: bool)

  function RedisCall(k: Option<Key>, count: nat, limit: int32, incr: Outcome, expire: Outcome): CallResult {
    var k' := AfterIncrBy(k, count, incr);
    if !incr.Answered? then CallResult(k', true, incr.Refused?)
    else
      match Judge(Count(k'), count, limit)
      case Over => CallResult(k', true, false)
      case Within => CallResult(k', false, false)
      case SetExpiry => CallResult(AfterExpireNX(k', expire), !expire.Answered?, expire.Refused?)
  }

  function Find(m: map<string, Key>, key: string): Option<Key> {
    if key in m then Some(m[key]) else None
  }

  function Store(m: map<string, Key>, key: string, k: Option<Key>): map<string, Key> {
    if k.None? then m else m[key := k.value]
  }

  /** The key of a topic. */
  function FormattedKey(prefix: string, topic: string): string {
    if prefix != "" then prefix + ":" + topic else topic
  }

  /** The topic can be read back from its key, so two topics of one limiter never
      share a counter. */
  lemma KeysAreApart(prefix: string, a: string, b: string)
    ensures prefix != "" ==>
              var key := FormattedKey(prefix, a);
              |key| == |prefix| + 1 + |a| && key[..|prefix|] == prefix && key[|prefix|] == ':' && key[|prefix| + 1..] == a
    ensures prefix == "" ==> FormattedKey(prefix, a) == a
    ensures FormattedKey(prefix, a) == FormattedKey(prefix, b) <==> a == b
  {
    if prefix != "" {
      assert FormattedKey(prefix, a)[|prefix| + 1..] == a && FormattedKey(prefix, b)[|prefix| + 1..] == b;
    }
  }

  /** When a call in Redis mode admits its request, what it is charged and when it
      gives up on Redis, for every outcome of its commands. */
  lemma CallDecision(k: Option<Key>, count: nat, limit: int32, incr: Outcome, expire: Outcome)
    ensures var r := RedisCall(k, count, limit, incr, expire);
            var total := Count(k) + count;
            && (!r.hit <==> incr.Answered? && I32(total) <= limit && (I32(total) == count ==> expire.Answered?))
            && (r.refused <==> incr.Refused? || (incr.Answered? && I32(total) <= limit && I32(total) == count && expire.Refused?))
            && Count(r.key) == (if incr.Answered? || (incr.Failed? && incr.applied) then total else Count(k))
  {
  }

  class RedisDb {
    var keys: map<string, Key>

    constructor ()
      ensures keys == map[]
    {
      keys := map[];
    }

    method IncrBy(key: string, count: nat, o: Outcome) returns (reply: nat)
      modifies this
      ensures keys == Store(old(keys), key, AfterIncrBy(Find(old(keys), key), count, o))
      ensures o.Answered? ==> reply == Count(Find(keys, key))
    {
      if Applied(o) {
        keys := keys[key := if key in keys then keys[key].(count := keys[key].count + count) else Key(count, false)];
      }
      reply := if key in keys then keys[key].count else 0;
    }

    method ExpireNX(key: string, o: Outcome)
      modifies this
      ensures keys == Store(old(keys), key, AfterExpireNX(Find(old(keys), key), o))
    {
      if Applied(o) && key in keys {
        keys := keys[key := keys[key].(ttl := true)];
      }
    }
  }

  /** The limiter of one replica; its mutex lets one call run at a time. */
  class RedisRateLimiter {
    const db: RedisDb
    const duration: int32
    const keyPrefix: string
    const localLimiter: RateLimiter
    var isUsingLocal: bool

    constructor (db: RedisDb, duration: int32, keyPrefix: string, localLimiter: RateLimiter)
      ensures this.db == db && this.duration == duration && this.keyPrefix == keyPrefix
      ensures this.localLimiter == localLimiter && !isUsingLocal
    {
      this.db, this.duration, this.keyPrefix, this.localLimiter, isUsingLocal := db, duration, keyPrefix, localLimiter, false;
    }

    function KeyFormatted(topic: string): string {
      FormattedKey(keyPrefix, topic)
    }

    method IsHitLimit(topic: string, count: nat, maxTokenIfNotExist: int32, incr: Outcome, expire: Outcome) returns (hit: bool)
      requires localLimiter.Valid()
      modifies this`isUsingLocal, db, localLimiter, localLimiter.bucketMap.Values
      ensures localLimiter.Valid()
      ensures old(isUsingLocal) ==>
                && isUsingLocal && db.keys == old(db.keys)
                && (localLimiter.State(), hit)
                   == HitLimit(old(localLimiter.State()), topic, count, I32(maxTokenIfNotExist * localLimiter.duration))
      ensures !old(isUsingLocal) ==>
                && localLimiter.State() == old(localLimiter.State())
                && var key := KeyFormatted(topic);
                   var r := RedisCall(Find(old(db.keys), key), count, I32(maxTokenIfNotExist * duration), incr, expire);
                   db.keys == Store(old(db.keys), key, r.key) && hit == r.hit && isUsingLocal == r.refused
    {
      if isUsingLocal {
        hit := localLimiter.IsHitLimit(topic, count, maxTokenIfNotExist);
        return;
      }
      hit := CountOnRedis(KeyFormatted(topic), count, I32(maxTokenIfNotExist * duration), incr, expire);
    }

    method CountOnRedis(key: string, count: nat, limit: int32, incr: Outcome, expire: Outcome) returns (hit: bool)
      requires !isUsingLocal
      modifies this`isUsingLocal, db
      ensures var r := RedisCall(Find(old(db.keys), key), count, limit, incr, expire);
              db.keys == Store(old(db.keys), key, r.key) && hit == r.hit && isUsingLocal == r.refused
    {
      var reply := db.IncrBy(key, count, incr);
      if !incr.Answered? {
        isUsingLocal := incr.Refused?;
        return true;
      }
      var currentToken := I32(reply);
      if currentToken > limit {
        return true;
      }
      if currentToken != count {
        return false;
      }
      db.ExpireNX(key, expire);
      if !expire.Answered? {
        isUsingLocal := expire.Refused?;
        return true;
      }
      return false;
    }

    /** The hook that the Redis client calls on every new connection. */
    method OnConnect()
      modifies this`isUsingLocal
      ensures !isUsingLocal
    {
      isUsingLocal := false;
    }
  }

  // ------------------------------------------------- replicas in parallel

  /** One replica, for one topic. `expiring` is the count of a call that is
      between its INCRBY and its EXPIRE. */
  datatype Replica = Replica(usingLocal: bool, bucket: Option<Bucket>, expiring: Option<nat>)

  datatype Cluster = Cluster(key: Option<Key>, replicas: seq<Replica>, viaRedis: nat, viaLocal: nat)

  const IDLE_REPLICA := Replica(false, None, None)

  function Start(n: nat): Cluster {
    Cluster(None, seq(n, i => IDLE_REPLICA), 0, 0)
  }

  datatype Step =
    | Request(i: nat, count: nat, o: Outcome)  // a call: local, or up to its INCRBY
    | Expire(i: nat, o: Outcome)               // the EXPIRE of a call that found its key new
    | Reconnect(i: nat)
    | KeyExpires
    | LocalRefill(i: nat)

  predicate Can(c: Cluster, step: Step) {
    match step
    case Request(i, _, _) => i < |c.replicas| && c.replicas[i].expiring.None?
    case Expire(i, _) => i < |c.replicas| && c.replicas[i].expiring.Some?
    case Reconnect(i) => i < |c.replicas|
    case KeyExpires => c.key.Some? && c.key.value.ttl
    case LocalRefill(i) => i < |c.replicas|
  }

  function AfterRequest(c: Cluster, i: nat, count: nat, o: Outcome, limit: int32): Cluster
    requires Can(c, Request(i, count, o))
  {
    var r := c.replicas[i];
    if r.usingLocal then
      var (b, taken) := CallOn(r.bucket, count, limit);
      c.(replicas := c.replicas[i := r.(bucket := Some(b))], viaLocal := c.viaLocal + if taken then count else 0)
    else
      var c' := c.(key := AfterIncrBy(c.key, count, o));
      if !o.Answered? then c'.(replicas := c.replicas[i := r.(usingLocal := o.Refused?)])
      else
        match Judge(Count(c'.key), count, limit)
        case Over => c'
        case Within => c'.(viaRedis := c.viaRedis + count)
        case SetExpiry => c'.(replicas := c.replicas[i := r.(expiring := Some(count))])
  }

  function After(c: Cluster, step: Step, limit: int32): Cluster
    requires Can(c, step)
  {
    match step
    case Request(i, count, o) => AfterRequest(c, i, count, o, limit)
    case Expire(i, o) =>
      var r := c.replicas[i];
      c.(key := AfterExpireNX(c.key, o),
         replicas := c.replicas[i := r.(usingLocal := if o.Refused? then true else r.usingLocal, expiring := None)],
         viaRedis := c.viaRedis + if o.Answered? then r.expiring.value else 0)
    case Reconnect(i) => c.(replicas := c.replicas[i := c.replicas[i].(usingLocal := false)])
    case KeyExpires => c.(key := None)
    case LocalRefill(i) =>
      var r := c.replicas[i];
      c.(replicas := c.replicas[i := r.(bucket := if r.bucket.Some? then Some(AfterRefill(r.bucket.value)) else None)])
  }

  /** A call that nothing interrupts is its one or two steps. */
  lemma CallIsItsSteps(c: Cluster, i: nat, count: nat, limit: int32, incr: Outcome, expire: Outcome)
    requires i < |c.replicas| && c.replicas[i].expiring.None? && !c.replicas[i].usingLocal
    ensures var r := RedisCall(c.key, count, limit, incr, expire);
            var c1 := After(c, Request(i, count, incr), limit);
            var c2 := if c1.replicas[i].expiring.Some? then After(c1, Expire(i, expire), limit) else c1;
            && c2.key == r.key && c2.replicas[i].usingLocal == r.refused && c2.replicas[i].expiring.None?
            && c2.viaRedis == c.viaRedis + if r.hit then 0 else count
  {
  }

  ghost predicate Legal(c: Cluster, steps: seq<Step>, limit: int32)
    decreases |steps|
  {
    steps == [] || (Can(c, steps[0]) && Legal(After(c, steps[0], limit), steps[1..], limit))
  }

  ghost function AfterAll(c: Cluster, steps: seq<Step>, limit: int32): Cluster
    requires Legal(c, steps, limit)
    decreases |steps|
  {
    if steps == [] then c else AfterAll(After(c, steps[0], limit), steps[1..], limit)
  }

  /** The count fits an int32, and subtracting it from the limit does not wrap. */
  predicate SmallCount(step: Step, limit: int32) {
    step.Request? ==> step.count <= MAX_INT32 && limit - step.count >= MIN_INT32
  }

  ghost predicate SmallCounts(steps: seq<Step>, limit: int32) {
    forall i | 0 <= i < |steps| :: SmallCount(steps[i], limit)
  }

  /** The counter never exceeds `most`. */
  ghost predicate CountsTo(c: Cluster, steps: seq<Step>, limit: int32, most: nat)
    requires Legal(c, steps, limit)
    decreases |steps|
  {
    Count(c.key) <= most && (steps == [] || CountsTo(After(c, steps[0], limit), steps[1..], limit, most))
  }

  /** One step in front of a run. */
  lemma InFront(c: Cluster, step: Step, rest: seq<Step>, limit: int32, most: nat)
    requires Can(c, step) && Legal(After(c, step, limit), rest, limit)
    requires Count(c.key) <= most && CountsTo(After(c, step, limit), rest, limit, most)
    ensures Legal(c, [step] + rest, limit) && CountsTo(c, [step] + rest, limit, most)
    ensures AfterAll(c, [step] + rest, limit) == AfterAll(After(c, step, limit), rest, limit)
  {
    assert ([step] + rest)[1..] == rest;
  }

  // ------------------------------------------------------- failover bound

  function AtLeastZero(x: int): nat {
    if x > 0 then x else 0
  }

  /** How much a replica can still admit: locally, and by the call it has open. */
  function Room(r: Replica, limit: int32): nat {
    (if r.bucket.None? then AtLeastZero(limit) else AtLeastZero(r.bucket.value.token)) +
    (if r.expiring.Some? then r.expiring.value else 0)
  }

  function TotalRoom(replicas: seq<Replica>, limit: int32): nat {
    if replicas == [] then 0
    else TotalRoom(replicas[..|replicas| - 1], limit) + Room(replicas[|replicas| - 1], limit)
  }

  function Potential(c: Cluster, limit: int32): nat {
    AtLeastZero(limit - Count(c.key)) + TotalRoom(c.replicas, limit)
  }

  lemma {:induction false} RoomUpdate(replicas: seq<Replica>, i: nat, r: Replica, limit: int32)
    requires i < |replicas|
    ensures TotalRoom(replicas[i := r], limit) == TotalRoom(replicas, limit) - Room(replicas[i], limit) + Room(r, limit)
  {
    var n := |replicas| - 1;
    if i == n {
      assert replicas[i := r][..n] == replicas[..n];
    } else {
      RoomUpdate(replicas[..n], i, r, limit);
      assert replicas[i := r][..n] == replicas[..n][i := r];
    }
  }

  /** Under one limit a bucket never holds more than it, and is never in debt. */
  predicate BucketOk(b: Option<Bucket>, limit: int32) {
    b.Some? ==> b.value.max == limit && b.value.token <= limit && (b.value.token < 0 ==> b.value.token == limit)
  }

  ghost predicate ClusterOk(c: Cluster, limit: int32) {
    forall i | 0 <= i < |c.replicas| :: BucketOk(c.replicas[i].bucket, limit)
  }

  lemma LocalCallSpendsRoom(b: Option<Bucket>, count: nat, limit: int32)
    requires BucketOk(b, limit) && count <= MAX_INT32 && limit - count >= MIN_INT32
    ensures var (b', taken) := CallOn(b, count, limit);
            && BucketOk(Some(b'), limit)
            && Room(Replica(true, Some(b'), None), limit) + (if taken then count else 0) <= Room(Replica(true, b, None), limit)
  {
  }

  predicate KeepsWindow(step: Step) {
    !step.KeyExpires? && !step.LocalRefill?
  }

  lemma StepKeepsBuckets(c: Cluster, step: Step, limit: int32)
    requires ClusterOk(c, limit) && Can(c, step) && SmallCount(step, limit)
    ensures ClusterOk(After(c, step, limit), limit)
  {
    if step.Request? {
      LocalCallSpendsRoom(c.replicas[step.i].bucket, step.count, limit);
    }
  }

  /** What INCRBY's reply lets through fits in what the key had left. */
  lemma JudgedWithin(total: nat, count: nat, limit: int32)
    requires count <= total <= MAX_INT32 && !Judge(total, count, limit).Over?
    ensures AtLeastZero(limit - total) + count <= AtLeastZero(limit - (total - count))
  {
  }

  lemma RequestSpendsPotential(c: Cluster, i: nat, count: nat, o: Outcome, limit: int32)
    requires ClusterOk(c, limit) && Can(c, Request(i, count, o)) && SmallCount(Request(i, count, o), limit)
    requires Count(AfterRequest(c, i, count, o, limit).key) <= MAX_INT32
    ensures var c' := AfterRequest(c, i, count, o, limit);
            c'.viaRedis + c'.viaLocal + Potential(c', limit) <= c.viaRedis + c.viaLocal + Potential(c, limit)
  {
    var c' := AfterRequest(c, i, count, o, limit);
    var r, r' := c.replicas[i], c'.replicas[i];
    assert c'.replicas == c.replicas[i := r'];
    RoomUpdate(c.replicas, i, r', limit);
    if r.usingLocal {
      LocalCallSpendsRoom(r.bucket, count, limit);
    } else if o.Answered? && !Judge(Count(c'.key), count, limit).Over? {
      JudgedWithin(Count(c'.key), count, limit);
    }
  }

  /** Every admission inside a window is paid from the potential. */
  lemma StepSpendsPotential(c: Cluster, step: Step, limit: int32)
    requires ClusterOk(c, limit) && Can(c, step) && SmallCount(step, limit) && KeepsWindow(step)
    requires Count(After(c, step, limit).key) <= MAX_INT32
    ensures var c' := After(c, step, limit);
            c'.viaRedis + c'.viaLocal + Potential(c', limit) <= c.viaRedis + c.viaLocal + Potential(c, limit)
  {
    if step.Request? {
      RequestSpendsPotential(c, step.i, step.count, step.o, limit);
    } else {
      RoomUpdate(c.replicas, step.i, After(c, step, limit).replicas[step.i], limit);
    }
  }

  lemma {:induction false} WindowSpendsPotential(c: Cluster, steps: seq<Step>, limit: int32)
    requires ClusterOk(c, limit) && Legal(c, steps, limit) && forall i | 0 <= i < |steps| :: KeepsWindow(steps[i])
    requires SmallCounts(steps, limit) && CountsTo(c, steps, limit, MAX_INT32)
    ensures var c' := AfterAll(c, steps, limit);
            c'.viaRedis + c'.viaLocal + Potential(c', limit) <= c.viaRedis + c.viaLocal + Potential(c, limit)
    decreases |steps|
  {
    if steps != [] {
      StepSpendsPotential(c, steps[0], limit);
      StepKeepsBuckets(c, steps[0], limit);
      WindowSpendsPotential(After(c, steps[0], limit), steps[1..], limit);
    }
  }

  lemma {:induction false} RunKeepsBuckets(c: Cluster, steps: seq<Step>, limit: int32)
    requires ClusterOk(c, limit) && Legal(c, steps, limit) && SmallCounts(steps, limit)
    ensures ClusterOk(AfterAll(c, steps, limit), limit)
    ensures |AfterAll(c, steps, limit).replicas| == |c.replicas|
    decreases |steps|
  {
    if steps != [] {
      StepKeepsBuckets(c, steps[0], limit);
      RunKeepsBuckets(After(c, steps[0], limit), steps[1..], limit);
    }
  }

  /** The tokens of calls that are between their INCRBY and their EXPIRE. */
  function Open(replicas: seq<Replica>): nat {
    if replicas == [] then 0
    else
      var r := replicas[|replicas| - 1];
      Open(replicas[..|replicas| - 1]) + if r.expiring.Some? then r.expiring.value else 0
  }

  lemma {:induction false} RoomBound(replicas: seq<Replica>, limit: int32)
    requires forall i | 0 <= i < |replicas| :: BucketOk(replicas[i].bucket, limit)
    ensures TotalRoom(replicas, limit) <= |replicas| * AtLeastZero(limit) + Open(replicas)
  {
    if replicas != [] {
      var n := |replicas| - 1;
      RoomBound(replicas[..n], limit);
      assert |replicas| * AtLeastZero(limit) == n * AtLeastZero(limit) + AtLeastZero(limit);
    }
  }

  /** The failover bound. After any history under one limit, any stretch without
      a key expiry and a local refill admits at most N + 1 limits in total, on top
      of the calls already open when it began, while the counter is an int32. */
  lemma {:induction false} FailoverBound(n: nat, history: seq<Step>, stretch: seq<Step>, limit: int32)
    requires Legal(Start(n), history, limit) && Legal(AfterAll(Start(n), history, limit), stretch, limit)
    requires SmallCounts(history, limit) && SmallCounts(stretch, limit)
    requires CountsTo(AfterAll(Start(n), history, limit), stretch, limit, MAX_INT32)
    requires forall i | 0 <= i < |stretch| :: KeepsWindow(stretch[i])
    ensures var c := AfterAll(Start(n), history, limit);
            var c' := AfterAll(c, stretch, limit);
            (c'.viaRedis + c'.viaLocal) - (c.viaRedis + c.viaLocal) <= (n + 1) * AtLeastZero(limit) + Open(c.replicas)
  {
    RunKeepsBuckets(Start(n), history, limit);
    var c := AfterAll(Start(n), history, limit);
    WindowSpendsPotential(c, stretch, limit);
    RoomBound(c.replicas, limit);
    Distribute(n, AtLeastZero(limit));
  }

  lemma Distribute(n: int, x: int)
    ensures (n + 1) * x == n * x + x
  {
  }

  // ---------------------------------------------- the bound is exact

  /** Nobody has used its local bucket yet; `paid` was admitted through Redis before. */
  function Rested(n: nat, key: Option<Key>, paid: nat): Cluster {
    Cluster(key, seq(n, i => IDLE_REPLICA), paid, 0)
  }

  /** The first j replicas were refused by Redis and have used up their own limit. */
  function Exhausted(n: nat, j: nat, limit: int32, key: Option<Key>, paid: nat, total: nat): Cluster {
    Cluster(key, seq(n, i => if i < j then Replica(true, Some(Bucket(limit, 0)), None) else IDLE_REPLICA), paid, total)
  }

  function Exhaust(n: nat, j: nat, limit: int32): seq<Step>
    requires j <= n && 0 <= limit
    decreases n - j
  {
    if j == n then [] else [Request(j, 0, Refused), Request(j, limit, Refused)] + Exhaust(n, j + 1, limit)
  }

  /** From c these steps of one window, with small counts and a counter up to
      `most`, lead to c'. */
  ghost predicate Leads(c: Cluster, steps: seq<Step>, limit: int32, most: nat, c': Cluster) {
    && Legal(c, steps, limit) && SmallCounts(steps, limit) && CountsTo(c, steps, limit, most)
    && (forall i | 0 <= i < |steps| :: KeepsWindow(steps[i]))
    && AfterAll(c, steps, limit) == c'
  }

  lemma Front(c: Cluster, step: Step, rest: seq<Step>, limit: int32, most: nat, c': Cluster)
    requires Can(c, step) && SmallCount(step, limit) && KeepsWindow(step) && Count(c.key) <= most
    requires Leads(After(c, step, limit), rest, limit, most, c')
    ensures Leads(c, [step] + rest, limit, most, c')
  {
    InFront(c, step, rest, limit, most);
  }

  lemma {:induction false} EachReplicaAddsItsLimit(n: nat, j: nat, limit: int32, key: Option<Key>, paid: nat, total: nat, most: nat)
    requires j <= n && 0 <= limit && Count(key) <= most
    ensures Leads(Exhausted(n, j, limit, key, paid, total), Exhaust(n, j, limit), limit, most,
                  Exhausted(n, n, limit, key, paid, total + (n - j) * limit))
    decreases n - j
  {
    if j < n {
      var c := Exhausted(n, j, limit, key, paid, total);
      var rest := Exhaust(n, j + 1, limit);
      var a, b := Request(j, 0, Refused), Request(j, limit, Refused);
      var c1 := After(c, a, limit);
      var c2 := After(c1, b, limit);
      assert c2.replicas == Exhausted(n, j + 1, limit, key, paid, total + limit).replicas;
      assert (n - j) * limit == (n - (j + 1)) * limit + limit;
      EachReplicaAddsItsLimit(n, j + 1, limit, key, paid, total + limit, most);
      var end := Exhausted(n, n, limit, key, paid, total + (n - j) * limit);
      Front(c1, b, rest, limit, most, end);
      Front(c, a, [b] + rest, limit, most, end);
      assert [a] + ([b] + rest) == Exhaust(n, j, limit);
    }
  }

  /** From a rested state all replicas add their limits. */
  lemma AllReplicasAdd(n: nat, limit: int32, key: Option<Key>, paid: nat, most: nat)
    requires 0 <= limit && Count(key) <= most
    ensures Leads(Rested(n, key, paid), Exhaust(n, 0, limit), limit, most, Exhausted(n, n, limit, key, paid, n * limit))
  {
    assert Rested(n, key, paid).replicas == Exhausted(n, 0, limit, key, paid, 0).replicas;
    EachReplicaAddsItsLimit(n, 0, limit, key, paid, 0, most);
  }

  /** The first request of a window, for the whole limit, with its EXPIRE. */
  lemma RedisAddsItsLimit(n: nat, limit: int32, paid: nat)
    requires 1 <= n && 1 <= limit
    ensures var a, b := Request(0, limit, Answered), Expire(0, Answered);
            && Can(Rested(n, None, paid), a)
            && (var c := After(Rested(n, None, paid), a, limit);
                Count(c.key) == limit && Can(c, b) && After(c, b, limit) == Rested(n, Some(Key(limit, true)), paid + limit))
  {
    var c := After(Rested(n, None, paid), Request(0, limit, Answered), limit);
    assert c.key == Some(Key(limit, false)) && c.replicas[0].expiring == Some(limit);
    assert After(c, Expire(0, Answered), limit).replicas == Rested(n, None, paid).replicas;
  }

  /** A window in which Redis and every replica admit one limit each. */
  lemma FullWindow(n: nat, limit: int32, paid: nat) returns (stretch: seq<Step>)
    requires 1 <= n && 1 <= limit
    ensures Leads(Rested(n, None, paid), stretch, limit, MAX_INT32,
                  Exhausted(n, n, limit, Some(Key(limit, true)), paid + limit, n * limit))
  {
    var a, b, rest := Request(0, limit, Answered), Expire(0, Answered), Exhaust(n, 0, limit);
    var end := Exhausted(n, n, limit, Some(Key(limit, true)), paid + limit, n * limit);
    RedisAddsItsLimit(n, limit, paid);
    AllReplicasAdd(n, limit, Some(Key(limit, true)), paid + limit, MAX_INT32);
    Front(After(Rested(n, None, paid), a, limit), b, rest, limit, MAX_INT32, end);
    Front(Rested(n, None, paid), a, [b] + rest, limit, MAX_INT32, end);
    stretch := [a] + ([b] + rest);
  }

  /** The two terms of the bound are both reached: a first request of zero tokens
      gives the key its expiry, a second one for the whole limit is then still open
      when the key expires, and is admitted on top of a full window. */
  function OpenAcrossExpiry(limit: int32): seq<Step>
    requires 0 <= limit
  {
    [Request(0, 0, Answered), Expire(0, Answered), Request(0, limit, Answered), KeyExpires]
  }

  lemma OpenCallOutlivesItsKey(n: nat, limit: int32)
    requires 1 <= n && 1 <= limit
    ensures Legal(Start(n), OpenAcrossExpiry(limit), limit)
    ensures AfterAll(Start(n), OpenAcrossExpiry(limit), limit)
         == Start(n).(replicas := Start(n).replicas[0 := Replica(false, None, Some(limit))])
  {
    var steps := OpenAcrossExpiry(limit);
    var c1 := After(Start(n), steps[0], limit);
    var c2 := After(c1, steps[1], limit);
    var c3 := After(c2, steps[2], limit);
    assert c2 == Start(n).(key := Some(Key(0, true))) by {
      assert c2.replicas == Start(n).replicas;
    }
    var c4 := After(c3, steps[3], limit);
    assert steps[1..][1..] == [steps[2], steps[3]] && steps[1..][1..][1..] == [steps[3]] && [steps[3]][1..] == [];
    assert Legal(c3, [steps[3]], limit) && AfterAll(c3, [steps[3]], limit) == c4;
    assert Legal(c2, [steps[2], steps[3]], limit) && AfterAll(c2, [steps[2], steps[3]], limit) == c4;
    assert Legal(c1, steps[1..], limit) && AfterAll(c1, steps[1..], limit) == c4;
  }

  lemma {:induction false} OpenOfOne(replicas: seq<Replica>, i: nat)
    requires i < |replicas| && replicas[i].expiring.Some?
    requires forall j | 0 <= j < |replicas| && j != i :: replicas[j].expiring.None?
    ensures Open(replicas) == replicas[i].expiring.value
  {
    var n := |replicas| - 1;
    if i == n {
      NothingOpen(replicas[..n]);
    } else {
      OpenOfOne(replicas[..n], i);
    }
  }

  lemma {:induction false} NothingOpen(replicas: seq<Replica>)
    requires forall j | 0 <= j < |replicas| :: replicas[j].expiring.None?
    ensures Open(replicas) == 0
  {
    if replicas != [] {
      NothingOpen(replicas[..|replicas| - 1]);
    }
  }

  /** The failover bound is exact, with calls open at the beginning and without. */
  lemma FailoverBoundReached(n: nat, limit: int32)
    requires 1 <= n && 1 <= limit
    ensures exists stretch, c' :: Leads(Start(n), stretch, limit, MAX_INT32, c') && c'.viaRedis + c'.viaLocal == (n + 1) * limit
    ensures var history := OpenAcrossExpiry(limit);
            && Legal(Start(n), history, limit) && SmallCounts(history, limit)
            && (var c := AfterAll(Start(n), history, limit);
                && c.viaRedis + c.viaLocal == 0 && Open(c.replicas) == limit
                && exists stretch, c' :: Leads(c, stretch, limit, MAX_INT32, c')
                                         && c'.viaRedis + c'.viaLocal == (n + 1) * limit + Open(c.replicas))
  {
    Distribute(n, limit);
    assert Start(n) == Rested(n, None, 0);
    var stretch := FullWindow(n, limit, 0);
    OpenCallOutlivesItsKey(n, limit);
    var c := AfterAll(Start(n), OpenAcrossExpiry(limit), limit);
    OpenOfOne(c.replicas, 0);
    var late := Expire(0, Answered);
    var rest := FullWindow(n, limit, limit);
    assert After(c, late, limit) == Rested(n, None, limit) by {
      assert After(c, late, limit).replicas == Rested(n, None, limit).replicas;
    }
    Front(c, late, rest, limit, MAX_INT32, Exhausted(n, n, limit, Some(Key(limit, true)), limit + limit, n * limit));
  }

  /** A counter that reaches 2^31 is read as negative, and lets everything pass. */
  lemma WrappedWindow(n: nat, limit: int32, most: nat) returns (stretch: seq<Step>)
    requires 1 <= n && 1 <= limit && most > MAX_INT32
    ensures Leads(Start(n), stretch, limit, most,
                  Exhausted(n, n, limit, Some(Key(MAX_INT32 + 1, true)), MAX_INT32 + 1, n * limit))
  {
    var a, b, flood := Request(0, limit, Answered), Expire(0, Answered), Request(0, MAX_INT32 + 1 - limit, Answered);
    var full, rest := Some(Key(MAX_INT32 + 1, true)), Exhaust(n, 0, limit);
    var end := Exhausted(n, n, limit, full, MAX_INT32 + 1, n * limit);
    assert Start(n) == Rested(n, None, 0);
    RedisAddsItsLimit(n, limit, 0);
    AllReplicasAdd(n, limit, full, MAX_INT32 + 1, most);
    var c1, c2 := After(Start(n), a, limit), Rested(n, Some(Key(limit, true)), limit);
    assert I32(MAX_INT32 + 1) < 0;
    assert After(c2, flood, limit) == Rested(n, full, MAX_INT32 + 1);
    Front(c2, flood, rest, limit, most, end);
    Front(c1, b, [flood] + rest, limit, most, end);
    Front(Start(n), a, [b] + ([flood] + rest), limit, most, end);
    stretch := [a] + ([b] + ([flood] + rest));
  }

  /** From the start, N + 1 limits bound every window whose counter stays within
      `most` if and only if `most` is an int32. */
  lemma FailoverBoundIffNoWrap(n: nat, limit: int32, most: nat)
    requires 1 <= n && 1 <= limit
    ensures (forall stretch, c' | Leads(Start(n), stretch, limit, most, c') :: c'.viaRedis + c'.viaLocal <= (n + 1) * limit)
            <==> most <= MAX_INT32
  {
    if most <= MAX_INT32 {
      forall stretch, c' | Leads(Start(n), stretch, limit, most, c')
        ensures c'.viaRedis + c'.viaLocal <= (n + 1) * limit
      {
        CountsToMore(Start(n), stretch, limit, most, MAX_INT32);
        NothingOpen(Start(n).replicas);
        FailoverBound(n, [], stretch, limit);
      }
    } else {
      var stretch := WrappedWindow(n, limit, most);
      Distribute(n, limit);
    }
  }

  lemma CountsToMore(c: Cluster, steps: seq<Step>, limit: int32, most: nat, more: nat)
    requires Legal(c, steps, limit) && CountsTo(c, steps, limit, most) && most <= more
    ensures CountsTo(c, steps, limit, more)
    decreases |steps|
  {
    if steps != [] {
      CountsToMore(After(c, steps[0], limit), steps[1..], limit, most, more);
    }
  }

  // ------------------------------------------------------ window lifetime

  /** How the current key came to its first tokens. */
  datatype Origin =
    | NoTokens
    | OpenCall(i: nat)   // by a call of replica i that has its EXPIRE ahead
    | ExceededAtOnce     // that INCRBY was already over the limit
    | ReplyLost          // that INCRBY was applied but not answered
    | CountTruncated     // that count was itself not an int32
    | ExpireFailed
    | ExpireDone

  function OriginAfter(c: Cluster, origin: Origin, step: Step, limit: int32): Origin
    requires Can(c, step)
  {
    match step
    case Request(i, count, o) =>
      if c.replicas[i].usingLocal || !Applied(o) || Count(c.key) > 0 || count == 0 then origin
      else if !o.Answered? then ReplyLost
      else if Judge(count, count, limit).Over? then ExceededAtOnce
      else if Judge(count, count, limit).Within? then CountTruncated
      else OpenCall(i)
    case Expire(i, o) =>
      if origin != OpenCall(i) then origin else if o.Answered? then ExpireDone else ExpireFailed
    case KeyExpires => NoTokens
    case _ => origin
  }

  ghost function OriginAfterAll(c: Cluster, origin: Origin, steps: seq<Step>, limit: int32): Origin
    requires Legal(c, steps, limit)
    decreases |steps|
  {
    if steps == [] then origin
    else OriginAfterAll(After(c, steps[0], limit), OriginAfter(c, origin, steps[0], limit), steps[1..], limit)
  }

  ghost predicate OriginOk(c: Cluster, origin: Origin) {
    && (Count(c.key) > 0 <==> origin != NoTokens)
    && (origin.OpenCall? ==> origin.i < |c.replicas| && c.replicas[origin.i].expiring.Some?)
    && (origin.ExpireDone? ==> c.key.Some? && c.key.value.ttl)
  }

  lemma StepKeepsOrigin(c: Cluster, origin: Origin, step: Step, limit: int32)
    requires OriginOk(c, origin) && Can(c, step)
    ensures OriginOk(After(c, step, limit), OriginAfter(c, origin, step, limit))
  {
  }

  lemma {:induction false} RunKeepsOrigin(c: Cluster, origin: Origin, steps: seq<Step>, limit: int32)
    requires OriginOk(c, origin) && Legal(c, steps, limit)
    ensures OriginOk(AfterAll(c, steps, limit), OriginAfterAll(c, origin, steps, limit))
    decreases |steps|
  {
    if steps != [] {
      StepKeepsOrigin(c, origin, steps[0], limit);
      RunKeepsOrigin(After(c, steps[0], limit), OriginAfter(c, origin, steps[0], limit), steps[1..], limit);
    }
  }

  ghost predicate HasTokensButNoTtl(c: Cluster) {
    c.key.Some? && c.key.value.count > 0 && !c.key.value.ttl
  }

  /** In every reachable state, a key with tokens and without a time to live has
      its creator's EXPIRE still ahead, or that EXPIRE failed, or was never sent
      because the creating INCRBY was over the limit or not answered, or its count
      exceeds every int32. */
  lemma WhyNoTtl(n: nat, steps: seq<Step>, limit: int32)
    requires Legal(Start(n), steps, limit)
    ensures var c := AfterAll(Start(n), steps, limit);
            var origin := OriginAfterAll(Start(n), NoTokens, steps, limit);
            HasTokensButNoTtl(c) ==>
              || (origin.OpenCall? && origin.i < |c.replicas| && c.replicas[origin.i].expiring.Some?)
              || origin.ExpireFailed? || origin.ExceededAtOnce? || origin.ReplyLost? || origin.CountTruncated?
  {
    RunKeepsOrigin(Start(n), NoTokens, steps, limit);
  }

  /** The call that brings the first tokens to a key leaves them without a time
      to live exactly if its reply was lost, or the count alone exceeds the limit,
      or the EXPIRE did not get through. */
  lemma CreatorLeavesNoTtlIff(k: Option<Key>, count: nat, limit: int32, incr: Outcome, expire: Outcome)
    requires Count(k) == 0 && (k.Some? ==> !k.value.ttl)
    requires 0 < count <= MAX_INT32
    ensures var k' := RedisCall(k, count, limit, incr, expire).key;
            (Count(k') > 0 && !k'.value.ttl) <==>
            Applied(incr) && (!incr.Answered? || count > limit || !Applied(expire))
  {
  }

  /** Nobody is about to give the key a time to live. */
  ghost predicate Orphan(c: Cluster) {
    HasTokensButNoTtl(c) && forall i | 0 <= i < |c.replicas| :: c.replicas[i].expiring.None?
  }

  /** What happens to the next request on an orphaned key, for any charged total:
      it is charged; it sends an EXPIRE exactly if the total before it was a
      multiple of 2^32 and it is within the limit itself; and below 2^32 it is
      rejected exactly if the total with it is above the limit and still an int32. */
  lemma NextOnOrphan(c: Cluster, i: nat, count: nat, limit: int32)
    requires Orphan(c) && i < |c.replicas| && !c.replicas[i].usingLocal && 0 <= limit
    ensures var before := c.key.value.count;
            var c' := After(c, Request(i, count, Answered), limit);
            && Count(c'.key) == before + count
            && (c'.replicas[i].expiring.Some? <==> before % TWO_TO_32 == 0 && count <= limit)
            && (before + count < TWO_TO_32 ==>
                  c'.viaRedis == c.viaRedis + if limit < before + count <= MAX_INT32 then 0 else count)
  {
    var before := c.key.value.count;
    if count <= MAX_INT32 {
      SameAsCount(before, count);
    }
    if before + count < TWO_TO_32 && before + count > MAX_INT32 {
      assert Wraps(before + count) == 1;
    }
  }

  lemma SameAsCount(before: nat, count: nat)
    requires count <= MAX_INT32
    ensures I32(before + count) == count <==> before % TWO_TO_32 == 0
  {
    if before % TWO_TO_32 == 0 {
      Period(count, before / TWO_TO_32);
    } else {
      assert I32(before + count) == count ==> before == Wraps(before + count) * TWO_TO_32;
    }
  }

  /** The next multiple of 2^32. */
  function NextRound(x: nat): nat {
    (x + TWO_TO_32 - 1) / TWO_TO_32 * TWO_TO_32
  }

  lemma NotRoundBefore(x: nat, y: nat)
    requires x <= y < NextRound(x)
    ensures y % TWO_TO_32 != 0
  {
  }

  lemma OrphanStays(c: Cluster, step: Step, limit: int32)
    requires Orphan(c) && Can(c, step) && c.key.value.count % TWO_TO_32 != 0
    ensures Orphan(After(c, step, limit)) && Count(After(c, step, limit).key) >= c.key.value.count
  {
    if step.Request? && step.count <= MAX_INT32 {
      SameAsCount(c.key.value.count, step.count);
    }
  }

  lemma {:induction false} OrphanBelowRound(c: Cluster, steps: seq<Step>, limit: int32, most: nat)
    requires Orphan(c) && Legal(c, steps, limit) && CountsTo(c, steps, limit, most)
    requires most < NextRound(c.key.value.count)
    ensures Orphan(AfterAll(c, steps, limit)) && Count(AfterAll(c, steps, limit).key) >= c.key.value.count
    decreases |steps|
  {
    if steps != [] {
      var c1 := After(c, steps[0], limit);
      NotRoundBefore(c.key.value.count, c.key.value.count);
      OrphanStays(c, steps[0], limit);
      SameRound(c.key.value.count, c1.key.value.count);
      OrphanBelowRound(c1, steps[1..], limit, most);
    }
  }

  lemma SameRound(x: nat, y: nat)
    requires x <= y < NextRound(x)
    ensures NextRound(y) == NextRound(x)
  {
  }

  /** At a multiple of 2^32 the counter looks new, and a request of no tokens sends an EXPIRE. */
  lemma RoundLooksNew(c: Cluster, limit: int32, most: nat) returns (steps: seq<Step>)
    requires Orphan(c) && 0 <= limit && |c.replicas| > 0 && NextRound(c.key.value.count) <= most
    ensures Legal(c, steps, limit) && CountsTo(c, steps, limit, most) && !Orphan(AfterAll(c, steps, limit))
  {
    var before, round := c.key.value.count, NextRound(c.key.value.count);
    var c1 := After(c, Reconnect(0), limit);
    var fill, empty := Request(0, round - before, Answered), Request(0, 0, Answered);
    SameAsCount(round, 0);
    var c2 := if round == before then c1 else After(c1, fill, limit);
    assert c2.replicas == c1.replicas && Count(c2.key) == round;
    assert After(c2, empty, limit).replicas[0].expiring.Some?;
    InFront(c2, empty, [], limit, most);
    steps := [empty] + [];
    if round != before {
      InFront(c1, fill, steps, limit, most);
      steps := [fill] + steps;
    }
    InFront(c, Reconnect(0), steps, limit, most);
    steps := [Reconnect(0)] + steps;
  }

  /** An orphaned key stays one in every run whose counter stays within `most`, and
      so never expires, if and only if `most` is below the next multiple of 2^32. */
  lemma OrphanForEverIff(c: Cluster, limit: int32, most: nat)
    requires Orphan(c) && 0 <= limit && |c.replicas| > 0
    ensures (forall steps | Legal(c, steps, limit) && CountsTo(c, steps, limit, most) :: Orphan(AfterAll(c, steps, limit)))
            <==> most < NextRound(c.key.value.count)
  {
    if most < NextRound(c.key.value.count) {
      forall steps | Legal(c, steps, limit) && CountsTo(c, steps, limit, most)
        ensures Orphan(AfterAll(c, steps, limit))
      {
        OrphanBelowRound(c, steps, limit, most);
      }
    } else {
      var steps := RoundLooksNew(c, limit, most);
    }
  }

  /** While its counter is an int32, all admissions on an orphaned key fit in what
      the limit had left; once the limit was passed, nothing is admitted by it. */
  lemma {:induction false} OrphanBudget(c: Cluster, steps: seq<Step>, limit: int32)
    requires Orphan(c) && Legal(c, steps, limit) && CountsTo(c, steps, limit, MAX_INT32)
    ensures var c' := AfterAll(c, steps, limit);
            && Orphan(c') && c'.key.value.count >= c.key.value.count
            && c'.viaRedis - c.viaRedis <= AtLeastZero(limit - c.key.value.count) - AtLeastZero(limit - c'.key.value.count)
            && (c.key.value.count > limit ==> c'.viaRedis == c.viaRedis)
    decreases |steps|
  {
    if steps != [] {
      OrphanSpends(c, steps[0], limit);
      OrphanBudget(After(c, steps[0], limit), steps[1..], limit);
    }
  }

  lemma OrphanSpends(c: Cluster, step: Step, limit: int32)
    requires Orphan(c) && Can(c, step) && Count(After(c, step, limit).key) <= MAX_INT32
    ensures var c' := After(c, step, limit);
            && Orphan(c') && c'.key.value.count >= c.key.value.count
            && c'.viaRedis - c.viaRedis <= AtLeastZero(limit - c.key.value.count) - AtLeastZero(limit - c'.key.value.count)
            && (c.key.value.count > limit ==> c'.viaRedis == c.viaRedis)
  {
  }

  /** One batch larger than the limit, arriving first in its window, shuts the
      topic out of Redis in every run whose counter stays within `most`, if and
      only if `most` is an int32: rejected requests are charged, and once their
      total wraps around to a negative number they pass. */
  lemma OversizedFirstBatchBlocksIff(n: nat, count: nat, limit: int32, most: nat)
    requires 1 <= n && 0 <= limit < count <= MAX_INT32 && count <= most
    ensures (forall steps | Legal(Start(n), [Request(0, count, Answered)] + steps, limit)
                            && CountsTo(Start(n), [Request(0, count, Answered)] + steps, limit, most) ::
               AfterAll(Start(n), [Request(0, count, Answered)] + steps, limit).viaRedis == 0)
            <==> most <= MAX_INT32
  {
    var first := Request(0, count, Answered);
    var blocked := After(Start(n), first, limit);
    if most <= MAX_INT32 {
      forall steps | Legal(Start(n), [first] + steps, limit) && CountsTo(Start(n), [first] + steps, limit, most)
        ensures AfterAll(Start(n), [first] + steps, limit).viaRedis == 0
      {
        assert ([first] + steps)[1..] == steps;
        CountsToMore(blocked, steps, limit, most, MAX_INT32);
        OrphanBudget(blocked, steps, limit);
      }
    } else {
      var flood := Request(0, MAX_INT32 + 1 - count, Answered);
      NextOnOrphan(blocked, 0, MAX_INT32 + 1 - count, limit);
      InFront(blocked, flood, [], limit, most);
      InFront(Start(n), first, [flood] + [], limit, most);
      assert AfterAll(Start(n), [first] + ([flood] + []), limit).viaRedis > 0;
    }
  }

  // ------------------------------------------- Redis against local, sequentially

  function Sum(counts: seq<nat>): nat {
    if counts == [] then 0 else Sum(counts[..|counts| - 1]) + counts[|counts| - 1]
  }

  /** One replica, no errors, one window: the key after the calls. */
  function RedisRun(limit: int32, counts: seq<nat>): Option<Key> {
    if counts == [] then None
    else
      var n := |counts| - 1;
      RedisCall(RedisRun(limit, counts[..n]), counts[n], limit, Answered, Answered).key
  }

  predicate RedisAdmits(limit: int32, counts: seq<nat>, i: nat)
    requires i < |counts|
  {
    !RedisCall(RedisRun(limit, counts[..i]), counts[i], limit, Answered, Answered).hit
  }

  function LocalRun(limit: int32, counts: seq<nat>): Option<Bucket> {
    if counts == [] then None
    else
      var n := |counts| - 1;
      Some(CallOn(LocalRun(limit, counts[..n]), counts[n], limit).0)
  }

  predicate LocalAdmits(limit: int32, counts: seq<nat>, i: nat)
    requires i < |counts|
  {
    CallOn(LocalRun(limit, counts[..i]), counts[i], limit).1
  }

  lemma {:induction false} RedisCountsEverything(limit: int32, counts: seq<nat>)
    ensures Count(RedisRun(limit, counts)) == Sum(counts)
  {
    if counts != [] {
      RedisCountsEverything(limit, counts[..|counts| - 1]);
    }
  }

  /** Without any assumption: the decision is about the truncated running sum,
      rejected calls included. */
  lemma RedisDecision(limit: int32, counts: seq<nat>, i: nat)
    requires i < |counts|
    ensures RedisAdmits(limit, counts, i) <==> I32(Sum(counts[..i + 1])) <= limit
  {
    RedisCountsEverything(limit, counts[..i]);
    assert counts[..i + 1][..i] == counts[..i];
  }

  lemma {:induction false} SumMonotone(counts: seq<nat>, i: nat)
    requires i <= |counts|
    ensures Sum(counts[..i]) <= Sum(counts)
    decreases |counts| - i
  {
    if i == |counts| {
      assert counts[..i] == counts;
    } else {
      assert counts[..i + 1][..i] == counts[..i];
      SumMonotone(counts, i + 1);
    }
  }

  /** The first call whose running sum leaves the int32 range. */
  lemma {:induction false} FirstWrap(counts: seq<nat>) returns (i: nat)
    requires Sum(counts) > MAX_INT32
    ensures i < |counts| && Sum(counts[..i]) <= MAX_INT32 < Sum(counts[..i + 1])
  {
    var n := |counts| - 1;
    if Sum(counts[..n]) > MAX_INT32 {
      i := FirstWrap(counts[..n]);
      assert counts[..n][..i] == counts[..i] && counts[..n][..i + 1] == counts[..i + 1];
    } else {
      i := n;
      assert counts[..n + 1] == counts;
    }
  }

  ghost predicate AdmitsLongestPrefix(limit: int32, counts: seq<nat>) {
    forall i | 0 <= i < |counts| :: RedisAdmits(limit, counts, i) <==> Sum(counts[..i + 1]) <= limit
  }

  /** The Redis limiter admits exactly the longest prefix whose running sum
      stays within the limit, if and only if the sum of all counts is below 2^31. */
  lemma {:induction false} LongestPrefixIffNoWrap(limit: int32, counts: seq<nat>)
    requires 0 <= limit && forall i | 0 <= i < |counts| :: counts[i] <= MAX_INT32
    ensures AdmitsLongestPrefix(limit, counts) <==> Sum(counts) <= MAX_INT32
  {
    if Sum(counts) <= MAX_INT32 {
      forall i | 0 <= i < |counts|
        ensures RedisAdmits(limit, counts, i) <==> Sum(counts[..i + 1]) <= limit
      {
        RedisDecision(limit, counts, i);
        SumMonotone(counts, i + 1);
      }
    } else {
      var i := FirstWrap(counts);
      WrappedSumIsAdmitted(limit, counts, i);
    }
  }

  lemma WrappedSumIsAdmitted(limit: int32, counts: seq<nat>, i: nat)
    requires 0 <= limit && i < |counts| && counts[i] <= MAX_INT32
    requires Sum(counts[..i]) <= MAX_INT32 < Sum(counts[..i + 1])
    ensures RedisAdmits(limit, counts, i) && Sum(counts[..i + 1]) > limit
  {
    RedisDecision(limit, counts, i);
    assert counts[..i + 1][..i] == counts[..i];
    NegativeOnceWrapped(Sum(counts[..i + 1]));
  }

  lemma NegativeOnceWrapped(total: nat)
    requires MAX_INT32 < total <= 2 * MAX_INT32
    ensures I32(total) < 0
  {
  }

  lemma {:induction false} LocalKeepsTheRest(limit: int32, counts: seq<nat>)
    requires 0 <= limit && forall i | 0 <= i < |counts| :: counts[i] <= MAX_INT32
    ensures var b := LocalRun(limit, counts);
            b.Some? ==> b.value.max == limit && 0 <= b.value.token <= limit && b.value.token >= limit - Sum(counts)
  {
    if counts != [] {
      LocalKeepsTheRest(limit, counts[..|counts| - 1]);
    }
  }

  /** Every request that Redis admits, the local limiter admits as well. */
  ghost predicate RefinesLocal(limit: int32, counts: seq<nat>) {
    forall i | 0 <= i < |counts| :: RedisAdmits(limit, counts, i) ==> LocalAdmits(limit, counts, i)
  }

  lemma {:induction false} RedisAdmitsLess(limit: int32, counts: seq<nat>, i: nat)
    requires 0 <= limit && Sum(counts) <= MAX_INT32 && i < |counts|
    ensures RedisAdmits(limit, counts, i) ==> LocalAdmits(limit, counts, i)
  {
    RedisDecision(limit, counts, i);
    SumMonotone(counts, i + 1);
    assert counts[..i + 1][..i] == counts[..i];
    forall j | 0 <= j < |counts[..i]|
      ensures counts[..i][j] <= MAX_INT32
    {
      SumMonotone(counts, j + 1);
      assert counts[..j + 1][..j] == counts[..j];
    }
    LocalKeepsTheRest(limit, counts[..i]);
    if i == 0 {
      assert counts[..i] == [];
    }
  }

  /** The limit is used up, then the counter wraps around, and one more token is
      admitted by Redis alone. */
  lemma WrapAdmitsMore(limit: int32)
    requires 0 <= limit
    ensures Sum([limit, MAX_INT32 - limit, 1]) == MAX_INT32 + 1
    ensures !RefinesLocal(limit, [limit, MAX_INT32 - limit, 1])
  {
    var a: nat, b: nat := limit, MAX_INT32 - limit;
    var counts := [a, b, 1];
    assert counts[..0] == [] && counts[..1] == [a] && counts[..2] == [a, b] && counts[..3] == counts;
    assert [a][..0] == [] && [a, b][..1] == [a];
    assert Sum([a]) == a && Sum([a, b]) == MAX_INT32;
    RedisDecision(limit, counts, 2);
    NegativeOnceWrapped(Sum(counts));
    assert LocalRun(limit, [a]) == Some(Bucket(limit, 0));
    assert LocalRun(limit, [a, b]) == Some(Bucket(limit, 0));
    assert RedisAdmits(limit, counts, 2) && !LocalAdmits(limit, counts, 2);
  }

  /** Redis admits no more than the local limiter on all request sequences with a
      sum of at most `most` if and only if `most` is an int32. */
  lemma RedisRefinesLocalIffNoWrap(limit: int32, most: nat)
    requires 0 <= limit
    ensures (forall counts: seq<nat> | Sum(counts) <= most :: RefinesLocal(limit, counts)) <==> most <= MAX_INT32
  {
    if most <= MAX_INT32 {
      forall counts: seq<nat> | Sum(counts) <= most
        ensures RefinesLocal(limit, counts)
      {
        forall i | 0 <= i < |counts|
          ensures RedisAdmits(limit, counts, i) ==> LocalAdmits(limit, counts, i)
        {
          RedisAdmitsLess(limit, counts, i);
        }
      }
    } else {
      WrapAdmitsMore(limit);
    }
  }

  // ------------------------------------------------ topics on one Redis

  /** A command of any replica for a topic, or the end of a key's time to live;
      commands of all topics and replicas may interleave in any way. */
  datatype Command =
    | Incr(topic: string, count: nat, limit: int32, o: Outcome)
    | ExpireNX(topic: string, o: Outcome)
    | Expired(topic: string)

  type Keys = map<string, Key>

  function AfterCommand(keys: Keys, prefix: string, c: Command): Keys {
    var key := FormattedKey(prefix, c.topic);
    match c
    case Incr(_, count, _, o) => Store(keys, key, AfterIncrBy(Find(keys, key), count, o))
    case ExpireNX(_, o) => Store(keys, key, AfterExpireNX(Find(keys, key), o))
    case Expired(_) => if key in keys && keys[key].ttl then keys - {key} else keys
  }

  function Executed(keys: Keys, prefix: string, commands: seq<Command>): Keys {
    if commands == [] then keys
    else AfterCommand(Executed(keys, prefix, commands[..|commands| - 1]), prefix, commands[|commands| - 1])
  }

  /** What the answered INCRBYs of a topic led to, in order. */
  function Verdicts(keys: Keys, prefix: string, commands: seq<Command>, topic: string): seq<Verdict> {
    if commands == [] then []
    else
      var n := |commands| - 1;
      var c := commands[n];
      Verdicts(keys, prefix, commands[..n], topic) +
      if c.Incr? && c.topic == topic && c.o.Answered?
      then [Judge(Count(Find(Executed(keys, prefix, commands), FormattedKey(prefix, topic))), c.count, c.limit)] else []
  }

  /** One topic on its own: its counter and its verdicts. */
  function AloneOnRedis(k: Option<Key>, commands: seq<Command>): (Option<Key>, seq<Verdict>) {
    if commands == [] then (k, [])
    else
      var (before, verdicts) := AloneOnRedis(k, commands[..|commands| - 1]);
      match commands[|commands| - 1]
      case Incr(_, count, limit, o) =>
        var after := AfterIncrBy(before, count, o);
        (after, verdicts + if o.Answered? then [Judge(Count(after), count, limit)] else [])
      case ExpireNX(_, o) => (AfterExpireNX(before, o), verdicts)
      case Expired(_) => (if before.Some? && before.value.ttl then None else before, verdicts)
  }

  function OfTopic(commands: seq<Command>, topic: string): seq<Command> {
    if commands == [] then []
    else
      var n := |commands| - 1;
      OfTopic(commands[..n], topic) + if commands[n].topic == topic then [commands[n]] else []
  }

  lemma OneCommand(keys: Keys, prefix: string, c: Command, topic: string)
    ensures var key, after := FormattedKey(prefix, topic), AfterCommand(keys, prefix, c);
            Find(after, key) ==
              if c.topic != topic then Find(keys, key)
              else
                match c
                case Incr(_, count, _, o) => AfterIncrBy(Find(keys, key), count, o)
                case ExpireNX(_, o) => AfterExpireNX(Find(keys, key), o)
                case Expired(_) => if Find(keys, key).Some? && Find(keys, key).value.ttl then None else Find(keys, key)
  {
    KeysAreApart(prefix, c.topic, topic);
  }

  lemma AloneOnRedisStep(k: Option<Key>, commands: seq<Command>, c: Command)
    ensures var (before, verdicts) := AloneOnRedis(k, commands);
            AloneOnRedis(k, commands + [c]) ==
              match c
              case Incr(_, count, limit, o) =>
                var after := AfterIncrBy(before, count, o);
                (after, verdicts + if o.Answered? then [Judge(Count(after), count, limit)] else [])
              case ExpireNX(_, o) => (AfterExpireNX(before, o), verdicts)
              case Expired(_) => (if before.Some? && before.value.ttl then None else before, verdicts)
  {
    assert (commands + [c])[..|commands|] == commands;
  }

  /** On one Redis, topics do not influence each other: over any interleaving of the
      commands of any replicas, each topic's counter and verdicts are those of its
      own commands alone. */
  lemma {:induction false} RedisTopicIsolation(keys: Keys, prefix: string, commands: seq<Command>, topic: string)
    ensures AloneOnRedis(Find(keys, FormattedKey(prefix, topic)), OfTopic(commands, topic))
         == (Find(Executed(keys, prefix, commands), FormattedKey(prefix, topic)), Verdicts(keys, prefix, commands, topic))
  {
    if commands != [] {
      var n := |commands| - 1;
      var c, key := commands[n], FormattedKey(prefix, topic);
      RedisTopicIsolation(keys, prefix, commands[..n], topic);
      OneCommand(Executed(keys, prefix, commands[..n]), prefix, c, topic);
      if c.topic == topic {
        AloneOnRedisStep(Find(keys, key), OfTopic(commands[..n], topic), c);
        assert OfTopic(commands, topic) == OfTopic(commands[..n], topic) + [c];
        var after := Find(Executed(keys, prefix, commands), key);
        var said := if c.Incr? && c.o.Answered? then [Judge(Count(after), c.count, c.limit)] else [];
        var earlier := Verdicts(keys, prefix, commands[..n], topic);
        assert Verdicts(keys, prefix, commands, topic) == earlier + said && earlier + [] == earlier;
      } else {
        assert OfTopic(commands, topic) == OfTopic(commands[..n], topic);
        assert Verdicts(keys, prefix, commands, topic) == Verdicts(keys, prefix, commands[..n], topic);
      }
    }
  }

  /** A whole call on a topic is its INCRBY and, if the verdict says so, its EXPIRE. */
  lemma CallIsItsCommands(keys: Keys, prefix: string, topic: string, count: nat, limit: int32, incr: Outcome, expire: Outcome)
    ensures var key := FormattedKey(prefix, topic);
            var r := RedisCall(Find(keys, key), count, limit, incr, expire);
            var after := AfterCommand(keys, prefix, Incr(topic, count, limit, incr));
            var again := incr.Answered? && Judge(Count(Find(after, key)), count, limit).SetExpiry?;
            Store(keys, key, r.key) == if again then AfterCommand(after, prefix, ExpireNX(topic, expire)) else after
  {
  }

  // -------------------------------- what the failover bound's premises exclude

  /** One local refill in a stretch, and one more limit is admitted. */
  lemma RefillAdmitsMore(n: nat, limit: int32, key: Option<Key>, paid: nat, total: nat)
    requires 1 <= n && 1 <= limit
    ensures var c := Exhausted(n, n, limit, key, paid, total);
            var steps := [LocalRefill(0), Request(0, limit, Refused)];
            && Legal(c, steps, limit)
            && AfterAll(c, steps, limit) == c.(viaLocal := total + limit)
  {
    var c := Exhausted(n, n, limit, key, paid, total);
    var a, b := LocalRefill(0), Request(0, limit, Refused);
    var c1 := After(c, a, limit);
    var c2 := After(c1, b, limit);
    assert [a, b][1..] == [b] && [b][1..] == [];
    assert Legal(c2, [], limit) && AfterAll(c2, [], limit) == c2;
    assert Legal(c1, [b], limit) && AfterAll(c1, [b], limit) == c2;
    assert c2.replicas == c.replicas;
  }

  /** One key expiry in a stretch, and Redis admits one more limit. */
  lemma ExpiryAdmitsMore(n: nat, limit: int32, paid: nat)
    requires 1 <= n && 1 <= limit
    ensures var c := Rested(n, Some(Key(limit, true)), paid);
            var steps := [KeyExpires, Request(0, limit, Answered), Expire(0, Answered)];
            Legal(c, steps, limit) && AfterAll(c, steps, limit) == c.(viaRedis := paid + limit)
  {
    var c := Rested(n, Some(Key(limit, true)), paid);
    var a, b := Request(0, limit, Answered), Expire(0, Answered);
    RedisAddsItsLimit(n, limit, paid);
    var c1 := After(c, KeyExpires, limit);
    assert c1 == Rested(n, None, paid);
    var c2 := After(c1, a, limit);
    var c3 := After(c2, b, limit);
    assert [KeyExpires, a, b][1..] == [a, b] && [a, b][1..] == [b] && [b][1..] == [];
    assert Legal(c3, [], limit) && AfterAll(c3, [], limit) == c3;
    assert Legal(c2, [b], limit) && AfterAll(c2, [b], limit) == c3;
    assert Legal(c1, [a, b], limit) && AfterAll(c1, [a, b], limit) == c3;
  }
}
