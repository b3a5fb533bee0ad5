/** The local rate limiter: one token bucket per topic, refilled periodically. */
module RateLimiters {
  import opened Wrappers
  import opened Int32
  import opened LeakyBuckets

  type Buckets = map<string, Bucket>

  function Lookup(m: Buckets, topic: string): Option<Bucket> {
    if topic in m then Some(m[topic]) else None
  }

  /** One call on a topic's bucket; a missing bucket is made full first. */
  function CallOn(b: Option<Bucket>, count: int, limit: int32): (Bucket, bool) {
    AfterCall(if b.Some? then b.value else FullBucket(limit), count, limit)
  }

  /** The new buckets, and whether the limit was hit. */
  function HitLimit(m: Buckets, topic: string, count: int, limit: int32): (Buckets, bool) {
    var (b, taken) := CallOn(Lookup(m, topic), count, limit);
    (m[topic := b], !taken)
  }

  function Refilled(m: Buckets): Buckets {
    map t | t in m :: AfterRefill(m[t])
  }

  class RateLimiter {
    const duration: int32
    var bucketMap: map<string, LeakyBucket>

    ghost predicate Valid()
      reads this
    {
      forall t, u | t in bucketMap && u in bucketMap && t != u :: bucketMap[t] != bucketMap[u]
    }

    ghost function State(): Buckets
      reads this, bucketMap.Values
    {
      map t | t in bucketMap :: bucketMap[t].State()
    }

    constructor (duration: int32)
      ensures Valid() && State() == map[] && this.duration == duration
    {
      this.duration, bucketMap := duration, map[];
    }

    method IsHitLimit(topic: string, count: int, maxTokenIfNotExist: int32) returns (hit: bool)
      requires Valid()
      modifies this, bucketMap.Values
      ensures Valid() && (State(), hit) == HitLimit(old(State()), topic, count, I32(maxTokenIfNotExist * duration))
      ensures forall t | t in bucketMap :: bucketMap[t] in old(bucketMap.Values) || fresh(bucketMap[t])
    {
      var limit: int32 := I32(maxTokenIfNotExist * duration);
      if topic !in bucketMap {
        var made := new LeakyBucket(limit);
        bucketMap := bucketMap[topic := made];
      }
      var bucket := bucketMap[topic];
      if bucket.max != limit {
        bucket.UpdateMax(limit);
      }
      var taken := bucket.Take(count);
      hit := !taken;
      ghost var (after, admitted) := CallOn(Lookup(old(State()), topic), count, limit);
      assert bucket.State() == after && taken == admitted;
      assert forall t | t in old(bucketMap) && t != topic :: bucketMap[t] == old(bucketMap[t]) && bucketMap[t] != bucket;
      assert State() == old(State())[topic := after];
    }

    /** Visits the buckets in whatever order the map iteration gives. */
    method RefillBuckets()
      requires Valid()
      modifies bucketMap.Values
      ensures Valid() && State() == Refilled(old(State()))
    {
      var rest := bucketMap.Keys;
      while rest != {}
        invariant rest <= bucketMap.Keys
        invariant forall t | t in bucketMap ::
                    bucketMap[t].State() == if t in rest then old(State())[t] else AfterRefill(old(State())[t])
        decreases |rest|
      {
        var t :| t in rest;
        bucketMap[t].Refill();
        rest := rest - {t};
      }
    }

    method PutBucket(topic: string, bucket: LeakyBucket)
      requires Valid() && bucket !in bucketMap.Values
      modifies this
      ensures Valid() && State() == old(State())[topic := bucket.State()]
    {
      bucketMap := bucketMap[topic := bucket];
    }
  }

  // -------------------------------------------------------- topic isolation

  /** A call, or the refill loop reaching one topic; refills and calls of all
      topics may interleave in any way. */
  datatype Event = Called(topic: string, count: int, limit: int32) | RefillReached(topic: string)

  /** The buckets after a run, and the decisions made for one topic, in order. */
  function Run(m: Buckets, events: seq<Event>): Buckets {
    if events == [] then m
    else
      var before := Run(m, events[..|events| - 1]);
      match events[|events| - 1]
      case Called(t, count, limit) => HitLimit(before, t, count, limit).0
      case RefillReached(t) => if t in before then before[t := AfterRefill(before[t])] else before
  }

  function Decisions(m: Buckets, events: seq<Event>, topic: string): seq<bool> {
    if events == [] then []
    else
      var n := |events| - 1;
      var e := events[n];
      Decisions(m, events[..n], topic) +
      if e.Called? && e.topic == topic then [HitLimit(Run(m, events[..n]), topic, e.count, e.limit).1] else []
  }

  /** One topic on its own: its bucket, if it exists yet, and its decisions. */
  function RunAlone(b: Option<Bucket>, events: seq<Event>): (Option<Bucket>, seq<bool>) {
    if events == [] then (b, [])
    else
      var (before, decisions) := RunAlone(b, events[..|events| - 1]);
      match events[|events| - 1]
      case Called(_, count, limit) =>
        var (after, taken) := CallOn(before, count, limit);
        (Some(after), decisions + [!taken])
      case RefillReached(_) =>
        (if before.Some? then Some(AfterRefill(before.value)) else None, decisions)
  }

  function Project(events: seq<Event>, topic: string): seq<Event> {
    if events == [] then []
    else
      var n := |events| - 1;
      Project(events[..n], topic) + if events[n].topic == topic then [events[n]] else []
  }

  /** Topics do not influence each other: seen from one topic, any interleaved
      run is the run of that topic's events alone. */
  lemma {:induction false} TopicIsolation(m: Buckets, events: seq<Event>, topic: string)
    ensures RunAlone(Lookup(m, topic), Project(events, topic)) == (Lookup(Run(m, events), topic), Decisions(m, events, topic))
  {
    if events != [] {
      var n := |events| - 1;
      var e := events[n];
      TopicIsolation(m, events[..n], topic);
      if e.topic == topic {
        AloneStep(Lookup(m, topic), Project(events[..n], topic), e);
        assert Project(events, topic) == Project(events[..n], topic) + [e];
        if e.Called? {
          var (after, hit) := HitLimit(Run(m, events[..n]), topic, e.count, e.limit);
          assert Run(m, events) == after && Decisions(m, events, topic) == Decisions(m, events[..n], topic) + [hit];
        } else {
          assert Decisions(m, events, topic) == Decisions(m, events[..n], topic);
        }
      } else {
        assert Project(events, topic) == Project(events[..n], topic);
        assert Decisions(m, events, topic) == Decisions(m, events[..n], topic);
      }
    }
  }

  /** The refill loop's visits, in any order that reaches every topic. */
  function Visits(order: seq<string>): seq<Event> {
    seq(|order|, i requires 0 <= i < |order| => RefillReached(order[i]))
  }

  lemma {:induction false} VisitsRefill(m: Buckets, order: seq<string>)
    ensures Run(m, Visits(order)) == map t | t in m :: if t in order then AfterRefill(m[t]) else m[t]
  {
    if order != [] {
      var n := |order| - 1;
      VisitsRefill(m, order[..n]);
      assert Visits(order)[..n] == Visits(order[..n]);
      assert order == order[..n] + [order[n]];
    }
  }

  lemma RefillInAnyOrder(m: Buckets, order: seq<string>)
    requires forall t | t in m :: t in order
    ensures Run(m, Visits(order)) == Refilled(m)
  {
    VisitsRefill(m, order);
  }

  lemma AloneStep(b: Option<Bucket>, events: seq<Event>, e: Event)
    ensures var (before, decisions) := RunAlone(b, events);
            RunAlone(b, events + [e]) ==
              match e
              case Called(_, count, limit) =>
                var (after, taken) := CallOn(before, count, limit);
                (Some(after), decisions + [!taken])
              case RefillReached(_) =>
                (if before.Some? then Some(AfterRefill(before.value)) else None, decisions)
  {
    assert (events + [e])[..|events|] == events;
  }

  // ----------------------------------------- the bucket's laws, per topic

  function Calling(topic: string, calls: seq<Call>): seq<Event> {
    seq(|calls|, i requires 0 <= i < |calls| => Called(topic, calls[i].count, calls[i].limit))
  }

  /** The tokens of the calls that did not hit the limit. */
  function Admitted(calls: seq<Call>, hits: seq<bool>): int
    requires |calls| == |hits|
  {
    if calls == [] then 0
    else
      var n := |calls| - 1;
      Admitted(calls[..n], hits[..n]) + if hits[n] then 0 else calls[n].count
  }

  /** A run of the limiter leaves the bucket and admits the tokens of the bucket's own run. */
  predicate ServesAs(run: (Option<Bucket>, seq<bool>), calls: seq<Call>, served: (Bucket, int)) {
    run.0 == Some(served.0) && |run.1| == |calls| && Admitted(calls, run.1) == served.1
  }

  /** A topic's calls between two refills are its bucket's calls: all that holds of
      those (conservation, the exact limit, over-granting) holds of the limiter. A
      topic without a bucket starts with a full one. */
  lemma {:induction false} TopicServesItsBucket(b: Option<Bucket>, topic: string, calls: seq<Call>)
    requires calls != []
    ensures ServesAs(RunAlone(b, Calling(topic, calls)), calls, Served(if b.Some? then b.value else FullBucket(calls[0].limit), calls))
  {
    var n := |calls| - 1;
    var start, earlier, c := if b.Some? then b.value else FullBucket(calls[0].limit), calls[..n], calls[n];
    assert Calling(topic, calls) == Calling(topic, earlier) + [Called(topic, c.count, c.limit)];
    assert earlier + [c] == calls;
    var run := RunAlone(b, Calling(topic, earlier));
    if n == 0 {
      assert Calling(topic, earlier) == [] && earlier == [];
    } else {
      TopicServesItsBucket(b, topic, earlier);
    }
    OneMoreCall(b, topic, start, earlier, run, c);
  }

  lemma OneMoreCall(b: Option<Bucket>, topic: string, start: Bucket, earlier: seq<Call>, run: (Option<Bucket>, seq<bool>), c: Call)
    requires run == RunAlone(b, Calling(topic, earlier))
    requires |run.1| == |earlier| && Admitted(earlier, run.1) == Served(start, earlier).1
    requires run.0 == Some(Served(start, earlier).0) || (run.0.None? && Served(start, earlier).0 == FullBucket(c.limit))
    ensures ServesAs(RunAlone(b, Calling(topic, earlier) + [Called(topic, c.count, c.limit)]), earlier + [c], Served(start, earlier + [c]))
  {
    AloneStep(b, Calling(topic, earlier), Called(topic, c.count, c.limit));
    SameCall(run.0, Served(start, earlier).0, c);
    ServedOneMore(start, earlier, c);
    AdmittedOneMore(earlier + [c], run.1, !AfterCall(Served(start, earlier).0, c.count, c.limit).1);
    assert (earlier + [c])[..|earlier|] == earlier;
  }

  lemma SameCall(before: Option<Bucket>, b: Bucket, c: Call)
    requires before == Some(b) || (before.None? && b == FullBucket(c.limit))
    ensures CallOn(before, c.count, c.limit) == AfterCall(b, c.count, c.limit)
  {
  }

  lemma AdmittedOneMore(calls: seq<Call>, hits: seq<bool>, hit: bool)
    requires |calls| == |hits| + 1
    ensures Admitted(calls, hits + [hit]) == Admitted(calls[..|hits|], hits) + if hit then 0 else calls[|hits|].count
  {
    assert (hits + [hit])[..|hits|] == hits;
  }

  // ------------------------------------------------------- batch versus calls

  /** n calls for one token each: the buckets, and whether any of them hit the limit. */
  function HitOnes(m: Buckets, topic: string, n: nat, limit: int32): (Buckets, bool) {
    if n == 0 then (m, false)
    else
      var (before, hit) := HitOnes(m, topic, n - 1, limit);
      var (after, hitNow) := HitLimit(before, topic, 1, limit);
      (after, hit || hitNow)
  }

  /** The bucket that a call under this limit charges. */
  function Charged(m: Buckets, topic: string, limit: int32): Bucket {
    var b := if topic in m then m[topic] else FullBucket(limit);
    if b.max != limit then AfterUpdateMax(b, limit) else b
  }

  /** Charging a batch at once hits the limit exactly when one of as many single
      charges would, if and only if the charged bucket is additive for it; and a
      non-empty batch admitted either way leaves all buckets the same. */
  lemma {:induction false} BatchLikeSingles(m: Buckets, topic: string, n: nat, limit: int32)
    requires n <= MAX_INT32
    ensures HitLimit(m, topic, n, limit).1 == HitOnes(m, topic, n, limit).1 <==> Additive(Charged(m, topic, limit), n)
    ensures n > 0 && !HitLimit(m, topic, n, limit).1 && !HitOnes(m, topic, n, limit).1 ==>
              HitLimit(m, topic, n, limit).0 == HitOnes(m, topic, n, limit).0
  {
    var charged := Charged(m, topic, limit);
    BatchAdditive(charged, n);
    if n > 0 {
      OnesThroughTheMap(m, topic, n, limit, charged);
    }
  }

  lemma {:induction false} OnesThroughTheMap(m: Buckets, topic: string, n: nat, limit: int32, updated: Bucket)
    requires n >= 1 && updated.max == limit
    requires forall count :: CallOn(Lookup(m, topic), count, limit) == AfterTake(updated, count)
    ensures var (b, all) := TakeOnes(updated, n);
            HitOnes(m, topic, n, limit) == (m[topic := b], !all) && b.max == limit
  {
    if n > 1 {
      OnesThroughTheMap(m, topic, n - 1, limit, updated);
      var b := TakeOnes(updated, n - 1).0;
      assert HitLimit(m[topic := b], topic, 1, limit).0 == m[topic := AfterTake(b, 1).0];
    } else {
      assert TakeOnes(updated, 0) == (updated, true);
      assert HitOnes(m, topic, 0, limit) == (m, false);
      assert CallOn(Lookup(m, topic), 1, limit) == AfterTake(updated, 1);
    }
  }
}
