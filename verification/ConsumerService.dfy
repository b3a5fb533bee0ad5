/**
 The GCS consumer service: the per-topic message handler, and the polling loop
 that wires one consumer, one worker and one output together for each topic.
 */
module ConsumerService {
  import opened Wrappers
  import opened GcsOutput
  import opened ConsumerGroup
  import opened Delivery
  import opened DeliveryOrder

  /** One round of the handler's retry loop: what the flusher did since the last
      round, by the objects its uploads created, if they did, and what the file
      does with the next write. */
  datatype Attempt = Attempt(uploads: seq<Option<nat>>, w: WriteOutcome)

  // ------------------------------------------ the retry loop, on values

  /** The output after these flushes. */
  function AfterFlushes(out: Output, uploads: seq<Option<nat>>): Output {
    if uploads == [] then out
    else AfterFlush(Sink(AfterFlushes(out, uploads[..|uploads| - 1]), []), uploads[|uploads| - 1].Some?).out
  }

  /** All writes are ones the file can do. */
  predicate AllPossible(attempts: seq<Attempt>, msg: Bytes) {
    forall k :: 0 <= k < |attempts| ==> Possible(attempts[k].w, msg)
  }

  /** What k rejected calls, their writes and the flushes before them left of the output. */
  function AfterTries(out: Output, flushMaxBytes: int, msg: Bytes, attempts: seq<Attempt>, k: nat): Output
    requires k <= |attempts| && AllPossible(attempts, msg)
  {
    if k == 0 then out
    else
      OfferTo(AfterFlushes(AfterTries(out, flushMaxBytes, msg, attempts, k - 1), attempts[k - 1].uploads),
              flushMaxBytes, msg, attempts[k - 1].w).0
  }

  /** The output that call number k meets, if all calls before it were rejected. */
  function MetBy(out: Output, flushMaxBytes: int, msg: Bytes, attempts: seq<Attempt>, k: nat): Output
    requires k < |attempts| && AllPossible(attempts, msg)
  {
    AfterFlushes(AfterTries(out, flushMaxBytes, msg, attempts, k), attempts[k].uploads)
  }

  /** Call number k meets a running output that is not full, and its write works. */
  predicate Succeeds(out: Output, flushMaxBytes: int, msg: Bytes, attempts: seq<Attempt>, k: nat)
    requires k < |attempts| && AllPossible(attempts, msg)
  {
    var met := MetBy(out, flushMaxBytes, msg, attempts, k);
    !met.isStop && met.bytesCounter < flushMaxBytes && !attempts[k].w.failed
  }

  ghost predicate NoneSucceeds(out: Output, flushMaxBytes: int, msg: Bytes, attempts: seq<Attempt>, k: nat)
    requires k <= |attempts| && AllPossible(attempts, msg)
  {
    forall j :: 0 <= j < k ==> !Succeeds(out, flushMaxBytes, msg, attempts, j)
  }

  ghost predicate SomeSucceeds(out: Output, flushMaxBytes: int, msg: Bytes, attempts: seq<Attempt>)
    requires AllPossible(attempts, msg)
  {
    exists k :: 0 <= k < |attempts| && Succeeds(out, flushMaxBytes, msg, attempts, k)
  }

  lemma {:induction false} FlushesKeepRunning(out: Output, uploads: seq<Option<nat>>)
    ensures AfterFlushes(out, uploads).isStop == out.isStop
    ensures AfterFlushes(out, uploads).bytesCounter <= out.bytesCounter
    ensures (exists u :: 0 <= u < |uploads| && uploads[u].Some?) ==> AfterFlushes(out, uploads).bytesCounter == 0
  {
    if uploads != [] {
      var n := |uploads| - 1;
      FlushesKeepRunning(out, uploads[..n]);
      if u :| 0 <= u < |uploads| && uploads[u].Some? {
        if u < n {
          assert uploads[..n][u].Some?;
        }
      }
    }
  }

  lemma {:induction false} TriesKeepRunning(out: Output, flushMaxBytes: int, msg: Bytes, attempts: seq<Attempt>, k: nat)
    requires k <= |attempts| && AllPossible(attempts, msg)
    ensures AfterTries(out, flushMaxBytes, msg, attempts, k).isStop == out.isStop
  {
    if k > 0 {
      TriesKeepRunning(out, flushMaxBytes, msg, attempts, k - 1);
      FlushesKeepRunning(AfterTries(out, flushMaxBytes, msg, attempts, k - 1), attempts[k - 1].uploads);
    }
  }

  /** The handler's retries end: on a running output with a positive threshold, one
      attempt whose write works is enough if it comes after a successful flush. */
  lemma RetryEndsAfterAFlush(out: Output, flushMaxBytes: int, msg: Bytes, attempts: seq<Attempt>, k: nat, u: nat)
    requires !out.isStop && flushMaxBytes > 0 && AllPossible(attempts, msg)
    requires k < |attempts| && u < |attempts[k].uploads| && attempts[k].uploads[u].Some? && !attempts[k].w.failed
    ensures SomeSucceeds(out, flushMaxBytes, msg, attempts)
  {
    TriesKeepRunning(out, flushMaxBytes, msg, attempts, k);
    FlushesKeepRunning(AfterTries(out, flushMaxBytes, msg, attempts, k), attempts[k].uploads);
    assert Succeeds(out, flushMaxBytes, msg, attempts, k);
  }

  /** And it succeeds at once on an output that is not full. */
  lemma RetryEndsAtOnce(out: Output, flushMaxBytes: int, msg: Bytes, attempts: seq<Attempt>)
    requires !out.isStop && out.bytesCounter < flushMaxBytes && AllPossible(attempts, msg)
    requires attempts != [] && !attempts[0].w.failed
    ensures SomeSucceeds(out, flushMaxBytes, msg, attempts)
  {
    FlushesKeepRunning(out, attempts[0].uploads);
    assert Succeeds(out, flushMaxBytes, msg, attempts, 0);
  }

  /** On a stopped output no attempt ever succeeds: the handler retries for ever. */
  lemma RetryNeverEndsOnceStopped(out: Output, flushMaxBytes: int, msg: Bytes, attempts: seq<Attempt>)
    requires out.isStop && AllPossible(attempts, msg)
    ensures !SomeSucceeds(out, flushMaxBytes, msg, attempts)
  {
    forall k | 0 <= k < |attempts|
      ensures !Succeeds(out, flushMaxBytes, msg, attempts, k)
    {
      TriesKeepRunning(out, flushMaxBytes, msg, attempts, k);
      FlushesKeepRunning(AfterTries(out, flushMaxBytes, msg, attempts, k), attempts[k].uploads);
    }
  }

  /** The requests of a worker's commits. */
  function Made(commits: seq<map<nat, nat>>): set<Request> {
    if commits == [] then {} else Made(commits[..|commits| - 1]) + RequestsOf(commits[|commits| - 1])
  }

  /** Nothing of the other processes changed, and no commit reached the broker yet. */
  ghost predicate OnlyAt(i: nat, s: System, s': System) {
    && |s'.procs| == |s.procs| && s'.committed == s.committed
    && forall j | 0 <= j < |s.procs| && j != i :: s'.procs[j] == s.procs[j]
  }

  lemma {:induction false} Enumerate(elements: set<nat>) returns (order: seq<nat>)
    ensures forall p :: p in order <==> p in elements
  {
    if elements == {} {
      order := [];
    } else {
      var p :| p in elements;
      var rest := Enumerate(elements - {p});
      order := [p] + rest;
    }
  }

  /** How often a hook was called. */
  function HookCount(effects: seq<Effect>, hook: nat): nat {
    if effects == [] then 0
    else (if effects[0] == HookCalled(hook) then 1 else 0) + HookCount(effects[1..], hook)
  }

  lemma {:induction false} HookCountSplit(a: seq<Effect>, b: seq<Effect>, hook: nat)
    ensures HookCount(a + b, hook) == HookCount(a, hook) + HookCount(b, hook)
  {
    if a == [] {
      assert a + b == b;
    } else {
      HookCountSplit(a[1..], b, hook);
      assert (a + b)[1..] == a[1..] + b;
    }
  }

  lemma OneHookCall(added: seq<Effect>, out: Output, hook: nat, uploaded: bool)
    requires HooksFollowUpload(added, out, [hook], uploaded)
    ensures HookCount(added, hook) == if uploaded && out.bytesCounter > 0 then 1 else 0
  {
    if uploaded && out.bytesCounter > 0 {
      assert added[0 + 1] == HookCalled([hook][0]);
      assert added[1..][1..] == [BufferRecreated] && [BufferRecreated][1..] == [];
      assert HookCount([BufferRecreated], hook) == 0;
      assert HookCount(added[1..], hook) == 1;
    }
  }

  /** consumerWorker, with the handler that spawnLogsWorker installs. `commits`
      records the offsets of its commits, in order. */
  class ConsumerWorker {
    const name: string
    const hook: nat
    const consumer: ConsumerGroupAdapter
    const output: Gcs
    var commits: seq<map<nat, nat>>

    constructor (name: string, hook: nat, consumer: ConsumerGroupAdapter, output: Gcs)
      ensures this.name == name && this.hook == hook && this.consumer == consumer && this.output == output
      ensures commits == []
    {
      this.name, this.hook, this.consumer, this.output := name, hook, consumer, output;
      commits := [];
    }

    /** The system s shows this worker as its process i, between two critical
        sections; `others` are the commit requests that are not this worker's. */
    ghost predicate Shown(s: System, i: nat, work: Work, others: set<Request>)
      reads this, consumer, consumer.session, output
    {
      && i < |s.procs| && s.requests == others + Made(commits)
      && s.procs[i] == Process(consumer.State(), work, output.State().out, s.procs[i].held, Idle)
    }

    /** The flush hook. */
    method OnConsumerFlush()
      modifies this`commits
      ensures commits == old(commits) + [if consumer.State().session.None? then map[] else consumer.State().session.value.marks]
    {
      var request := consumer.CommitOffsets();
      commits := commits + [request];
    }

    /** A Flush of the output; for each call of this worker's hook that it makes,
        the offsets are committed. */
    method FlushOnce(log: Log, upload: Option<nat>, ghost s: System, ghost i: nat, ghost work: Work, ghost others: set<Request>)
      returns (ghost acts: seq<Act>)
      requires Shown(s, i, work, others) && output.onFlushFunc == [hook]
      modifies output`buffer, output`bytesCounter, output`objects, output`effects, this`commits
      ensures LeadsTo(log, output.flushMaxBytes, s, i, acts, AfterFlushCall(s, i, upload))
      ensures Shown(AfterFlushCall(s, i, upload), i, work, others)
      ensures output.State().out == AfterFlush(Sink(old(output.State()).out, []), upload.Some?).out
      ensures old(output.effects) <= output.effects
      ensures HooksFollowUpload(output.effects[|old(output.effects)|..], old(output.State()).out, [hook], upload.Some?)
      ensures |commits| - |old(commits)| == HookCount(output.effects[|old(output.effects)|..], hook)
      ensures old(output.objects) <= output.objects
    {
      ghost var order := Enumerate(MarksOf(s.procs[i]).Keys);
      FlushIsItsActions(log, output.flushMaxBytes, s, i, order, upload);
      acts := FlushActs(s.procs[i].out, order, upload);
      var before := |output.effects|;
      output.Flush(upload.Some?);
      ghost var added := output.effects[before..];
      OneHookCall(added, s.procs[i].out, hook, upload.Some?);
      RunHooks(before);
    }

    /** The hook calls among the output's effects from a position on. */
    method RunHooks(from: nat)
      requires from <= |output.effects| && HookCount(output.effects[from..], hook) <= 1
      modifies this`commits
      ensures commits == old(commits) +
                if HookCount(output.effects[from..], hook) == 0 then []
                else [if consumer.State().session.None? then map[] else consumer.State().session.value.marks]
      ensures Made(commits) == Made(old(commits)) +
                if HookCount(output.effects[from..], hook) == 0 || consumer.State().session.None? then {}
                else RequestsOf(consumer.State().session.value.marks)
    {
      var k := from;
      assert output.effects[from..from] == [];
      while k < |output.effects|
        invariant from <= k <= |output.effects|
        invariant HookCount(output.effects[from..k], hook) + HookCount(output.effects[k..], hook) == HookCount(output.effects[from..], hook)
        invariant commits == old(commits) +
                    if HookCount(output.effects[from..k], hook) == 0 then []
                    else [if consumer.State().session.None? then map[] else consumer.State().session.value.marks]
      {
        HookCountSplit(output.effects[from..k], [output.effects[k]], hook);
        assert output.effects[from..k] + [output.effects[k]] == output.effects[from..k + 1];
        assert output.effects[k..][1..] == output.effects[k + 1..];
        if output.effects[k] == HookCalled(hook) {
          OnConsumerFlush();
        }
        k := k + 1;
      }
      assert output.effects[from..k] == output.effects[from..];
      assert commits != old(commits) ==> commits[..|commits| - 1] == old(commits);
    }

    /** A rebalance hands the consumer a new session, started at the committed offsets. */
    method Rebalance(log: Log, committed: map<nat, nat>, claims: set<nat>, ghost s: System, ghost i: nat, ghost work: Work, ghost others: set<Request>)
      returns (ghost end: System)
      requires Shown(s, i, work, others) && committed == s.committed
      modifies consumer`session
      ensures LeadsTo(log, output.flushMaxBytes, s, i, [Join(claims)], end) && OnlyAt(i, s, end)
      ensures Shown(end, i, work, others)
      ensures consumer.messages == old(consumer.messages) && end.procs[i].held == s.procs[i].held
    {
      OneAct(log, output.flushMaxBytes, s, i, Join(claims));
      end := Next(log, output.flushMaxBytes, s, Local(i, Join(claims)));
      var session := new Session(committed, claims);
      consumer.Setup(session);
    }

    /** A claimer's loop pushes records into the worker's channel. */
    method Claim(log: Log, p: nat, limit: nat, ghost s: System, ghost i: nat, ghost work: Work, ghost others: set<Request>)
      returns (ghost acts: seq<Act>, ghost end: System)
      requires Shown(s, i, work, others) && consumer.session != null && p in consumer.session.next
      modifies consumer`messages, consumer.session`next
      ensures LeadsTo(log, output.flushMaxBytes, s, i, acts, end) && OnlyAt(i, s, end)
      ensures acts == Deliveries(p, |acts|) && Shown(end, i, work, others)
    {
      acts := ClaimIsItsActions(log, output.flushMaxBytes, s, i, p, limit);
      end := s.(procs := s.procs[i := s.procs[i].(adapter := AfterClaim(s.procs[i].adapter, p, limit))]);
      consumer.ConsumeClaim(p, limit);
    }

    /** Stopping the output: the flag, and a last flush with its commit. */
    method StopOutput(log: Log, upload: Option<nat>, ghost s: System, ghost i: nat, ghost work: Work, ghost others: set<Request>)
      returns (ghost acts: seq<Act>, ghost end: System)
      requires Shown(s, i, work, others) && output.onFlushFunc == [hook]
      modifies output`isStop, output`buffer, output`bytesCounter, output`objects, output`effects, this`commits
      ensures LeadsTo(log, output.flushMaxBytes, s, i, [Halt] + acts, end) && OnlyAt(i, s, end)
      ensures Shown(end, i, work, others) && output.isStop
      ensures old(output.objects) <= output.objects
    {
      OneAct(log, output.flushMaxBytes, s, i, Halt);
      ghost var halted := Next(log, output.flushMaxBytes, s, Local(i, Halt));
      ghost var order := Enumerate(MarksOf(halted.procs[i]).Keys);
      FlushIsItsActions(log, output.flushMaxBytes, halted, i, order, upload);
      acts, end := FlushActs(halted.procs[i].out, order, upload), AfterFlushCall(halted, i, upload);
      ActsJoined(log, output.flushMaxBytes, s, i, [Halt], halted, acts, end);
      var before := |output.effects|;
      output.Stop(upload.Some?);
      OneHookCall(output.effects[before..], s.procs[i].out, hook, upload.Some?);
      RunHooks(before);
    }

    /** After a crash the topic is handled again by new objects with nothing in them. */
    static method Restart(log: Log, name: string, hook: nat, groupId: string, flushMaxBytes: int, ghost s: System, ghost i: nat)
      returns (worker: ConsumerWorker, ghost end: System)
      requires i < |s.procs|
      ensures fresh(worker) && fresh(worker.consumer) && fresh(worker.output) && worker.output.flushMaxBytes == flushMaxBytes
      ensures worker.output.onFlushFunc == [hook] && worker.hook == hook
      ensures LeadsTo(log, flushMaxBytes, s, i, [Crash], end) && OnlyAt(i, s, end)
      ensures worker.Shown(end, i, Ready, s.requests)
    {
      OneAct(log, flushMaxBytes, s, i, Crash);
      end := Next(log, flushMaxBytes, s, Local(i, Crash));
      var g := new Gcs(flushMaxBytes);
      var consumer := new ConsumerGroupAdapter(groupId, name);
      worker := new ConsumerWorker(name, hook, consumer, g);
      g.AddOnFlushFunc(hook);
    }

    /** One message through loopMain: receive, convert, offer until accepted, mark.
        The offset is marked exactly for a record that cannot be converted or that
        some attempt gets accepted, and then its bytes are whole in the buffer.
        The call, with the flushes and commits that ran beside it, is a legal run. */
    method HandleNext(log: Log, attempts: seq<Attempt>, ghost s: System, ghost i: nat, ghost others: set<Request>)
      returns (marked: bool, ghost acts: seq<Act>, ghost end: System)
      requires consumer.messages != [] && Shown(s, i, Ready, others) && output.onFlushFunc == [hook]
      requires log(consumer.messages[0]).Some? ==> AllPossible(attempts, log(consumer.messages[0]).value)
      modifies this`commits, consumer, output, if consumer.session == null then {} else {consumer.session}
      ensures var id := old(consumer.messages)[0];
              var received := AfterReceive(old(consumer.State()));
              && consumer.State() == (if marked then AfterMark(received, id) else received)
              && (log(id).None? ==> marked && output.State() == old(output.State()))
              && (log(id).Some? ==>
                    (marked <==> SomeSucceeds(old(output.State()).out, output.flushMaxBytes, log(id).value, attempts)))
              && Shown(end, i, if marked then Ready else Handling(id), others)
              && (log(id).Some? && marked ==> Contains(output.buffer, log(id).value) && id in end.procs[i].held)
      ensures LeadsTo(log, output.flushMaxBytes, s, i, acts, end) && OnlyAt(i, s, end)
      ensures old(output.objects) <= output.objects
    {
      var id, received := ReceiveNext(log, s, i, others);
      ghost var more, handled;
      marked, more, handled := FireSuccess(log, id, attempts, received, i, others);
      ActsJoined(log, output.flushMaxBytes, s, i, [Take], received, more, handled);
      acts, end := [Take] + more, handled;
      if marked {
        end := MarkHandled(log, id, handled, i, others);
        ActsJoined(log, output.flushMaxBytes, s, i, acts, handled, [Mark], end);
        acts := acts + [Mark];
      }
    }

    method ReceiveNext(log: Log, ghost s: System, ghost i: nat, ghost others: set<Request>) returns (id: Id, ghost end: System)
      requires consumer.messages != [] && Shown(s, i, Ready, others)
      modifies consumer`messages
      ensures id == old(consumer.messages)[0] && consumer.State() == AfterReceive(old(consumer.State()))
      ensures LeadsTo(log, output.flushMaxBytes, s, i, [Take], end) && OnlyAt(i, s, end)
      ensures Shown(end, i, Handling(id), others)
    {
      OneAct(log, output.flushMaxBytes, s, i, Take);
      end := Next(log, output.flushMaxBytes, s, Local(i, Take));
      id := consumer.Receive();
    }

    method MarkHandled(log: Log, id: Id, ghost s: System, ghost i: nat, ghost others: set<Request>) returns (ghost end: System)
      requires Shown(s, i, Handled(id), others)
      modifies if consumer.session == null then {} else {consumer.session}
      ensures consumer.State() == AfterMark(old(consumer.State()), id)
      ensures LeadsTo(log, output.flushMaxBytes, s, i, [Mark], end) && OnlyAt(i, s, end)
      ensures Shown(end, i, Ready, others) && end.procs[i].held == s.procs[i].held
    {
      OneAct(log, output.flushMaxBytes, s, i, Mark);
      end := Next(log, output.flushMaxBytes, s, Local(i, Mark));
      consumer.MarkOffset(id);
    }

    /** The handler: returns true when it is done with the record. */
    method FireSuccess(log: Log, id: Id, attempts: seq<Attempt>, ghost s: System, ghost i: nat, ghost others: set<Request>)
      returns (done: bool, ghost acts: seq<Act>, ghost end: System)
      requires log(id).Some? ==> AllPossible(attempts, log(id).value)
      requires Shown(s, i, Handling(id), others) && output.onFlushFunc == [hook]
      modifies output, this`commits
      ensures log(id).None? ==> done && output.State() == old(output.State())
      ensures log(id).Some? ==>
                (done <==> SomeSucceeds(old(output.State()).out, output.flushMaxBytes, log(id).value, attempts))
      ensures Shown(end, i, if done then Handled(id) else Handling(id), others)
      ensures log(id).Some? && done ==> Contains(output.buffer, log(id).value) && id in end.procs[i].held
      ensures LeadsTo(log, output.flushMaxBytes, s, i, acts, end) && OnlyAt(i, s, end)
      ensures old(output.objects) <= output.objects
    {
      if log(id).None? {
        OneAct(log, output.flushMaxBytes, s, i, Drop);
        return true, [Drop], Next(log, output.flushMaxBytes, s, Local(i, Drop));
      }
      done, acts, end := OfferUntilAccepted(log, id, attempts, s, i, others);
    }

    /** The handler's loop around OnMessage: it ends with the first attempt that
        succeeds, and without one it has tried them all. */
    method OfferUntilAccepted(log: Log, id: Id, attempts: seq<Attempt>, ghost s: System, ghost i: nat, ghost others: set<Request>)
      returns (accepted: bool, ghost acts: seq<Act>, ghost end: System)
      requires log(id).Some? && AllPossible(attempts, log(id).value)
      requires Shown(s, i, Handling(id), others) && output.onFlushFunc == [hook]
      modifies output, this`commits
      ensures accepted <==> SomeSucceeds(old(output.State()).out, output.flushMaxBytes, log(id).value, attempts)
      ensures Shown(end, i, if accepted then Handled(id) else Handling(id), others)
      ensures accepted ==> Contains(output.buffer, log(id).value) && id in end.procs[i].held
      ensures LeadsTo(log, output.flushMaxBytes, s, i, acts, end) && OnlyAt(i, s, end)
      ensures old(output.objects) <= output.objects
    {
      ghost var start, msg := output.State().out, log(id).value;
      acts, end := [], s;
      assert Locals(i, []) == [];
      for k := 0 to |attempts|
        invariant Shown(end, i, Handling(id), others) && output.onFlushFunc == [hook]
        invariant NoneSucceeds(start, output.flushMaxBytes, msg, attempts, k)
        invariant output.State().out == AfterTries(start, output.flushMaxBytes, msg, attempts, k)
        invariant LeadsTo(log, output.flushMaxBytes, s, i, acts, end) && OnlyAt(i, s, end)
        invariant old(output.objects) <= output.objects
      {
        ghost var more, tried;
        accepted, more, tried := TryOnce(log, id, attempts[k], end, i, others);
        ActsJoined(log, output.flushMaxBytes, s, i, acts, end, more, tried);
        acts, end := acts + more, tried;
        if accepted {
          assert Succeeds(start, output.flushMaxBytes, msg, attempts, k);
          return;
        }
      }
      accepted := false;
    }

    /** One round of the handler's loop, after the flushes since the last one. */
    method TryOnce(log: Log, id: Id, attempt: Attempt, ghost s: System, ghost i: nat, ghost others: set<Request>)
      returns (accepted: bool, ghost acts: seq<Act>, ghost end: System)
      requires log(id).Some? && Possible(attempt.w, log(id).value)
      requires Shown(s, i, Handling(id), others) && output.onFlushFunc == [hook]
      modifies output`buffer, output`bytesCounter, output`objects, output`effects, this`commits
      ensures var met := AfterFlushes(old(output.State()).out, attempt.uploads);
              && output.State().out == OfferTo(met, output.flushMaxBytes, log(id).value, attempt.w).0
              && (accepted <==> !met.isStop && met.bytesCounter < output.flushMaxBytes && !attempt.w.failed)
      ensures Shown(end, i, if accepted then Handled(id) else Handling(id), others)
      ensures accepted ==> Contains(output.buffer, log(id).value) && id in end.procs[i].held
      ensures LeadsTo(log, output.flushMaxBytes, s, i, acts, end) && OnlyAt(i, s, end)
      ensures old(output.objects) <= output.objects
    {
      ghost var flushed;
      acts, flushed := FlusherRuns(log, attempt.uploads, s, i, Handling(id), others);
      AcceptedIff(output.State().out, output.flushMaxBytes, log(id).value, attempt.w);
      var r;
      ghost var more;
      r, more, end := OfferOnce(log, id, attempt.w, flushed, i, others);
      ActsJoined(log, output.flushMaxBytes, s, i, acts, flushed, more, end);
      acts := acts + more;
      accepted := r.Accepted?;
    }

    /** One OnMessage call; a stopped output rejects it before the lock, which is no action. */
    method OfferOnce(log: Log, id: Id, w: WriteOutcome, ghost s: System, ghost i: nat, ghost others: set<Request>)
      returns (r: Offered, ghost acts: seq<Act>, ghost end: System)
      requires log(id).Some? && Possible(w, log(id).value) && Shown(s, i, Handling(id), others)
      modifies output`buffer, output`bytesCounter
      ensures (output.State().out, r) == OfferTo(old(output.State()).out, output.flushMaxBytes, log(id).value, w)
      ensures Shown(end, i, if r.Accepted? then Handled(id) else Handling(id), others)
      ensures r.Accepted? ==> Contains(output.buffer, log(id).value) && id in end.procs[i].held
      ensures LeadsTo(log, output.flushMaxBytes, s, i, acts, end) && OnlyAt(i, s, end)
    {
      ghost var msg, n := log(id).value, |output.buffer|;
      acts, end := [], s;
      assert Locals(i, []) == [];
      r := output.OnMessage(log(id).value, w);
      if !r.Stopped? {
        OneAct(log, output.flushMaxBytes, s, i, Offer(w));
        acts, end := [Offer(w)], Next(log, output.flushMaxBytes, s, Local(i, Offer(w)));
      }
      if r.Accepted? {
        assert output.buffer[n..][..|msg|] == msg;
        assert OccursAt(output.buffer, msg, n);
      }
    }

    /** Flushes by the flush loop or the shutdown, between two attempts. */
    method FlusherRuns(log: Log, uploads: seq<Option<nat>>, ghost s: System, ghost i: nat, ghost work: Work, ghost others: set<Request>)
      returns (ghost acts: seq<Act>, ghost end: System)
      requires Shown(s, i, work, others) && output.onFlushFunc == [hook]
      modifies output`buffer, output`bytesCounter, output`objects, output`effects, this`commits
      ensures LeadsTo(log, output.flushMaxBytes, s, i, acts, end) && OnlyAt(i, s, end)
      ensures Shown(end, i, work, others) && output.State().out == AfterFlushes(old(output.State()).out, uploads)
      ensures old(output.objects) <= output.objects
    {
      acts, end := [], s;
      assert Locals(i, []) == [];
      for k := 0 to |uploads|
        invariant output.State().out == AfterFlushes(old(output.State()).out, uploads[..k])
        invariant LeadsTo(log, output.flushMaxBytes, s, i, acts, end) && OnlyAt(i, s, end)
        invariant Shown(end, i, work, others)
        invariant old(output.objects) <= output.objects
      {
        ghost var more := FlushOnce(log, uploads[k], end, i, work, others);
        ghost var flushed := AfterFlushCall(end, i, uploads[k]);
        ActsJoined(log, output.flushMaxBytes, s, i, acts, end, more, flushed);
        acts, end := acts + more, flushed;
        assert uploads[..k + 1][..k] == uploads[..k];
      }
      assert uploads[..|uploads|] == uploads;
    }
  }

  /** What the two factories do when a topic is about to be handled. */
  datatype Creation = Creation(outputOk: bool, consumerOk: bool)

  /** One polling round: the topics listed, and the factories' answers for each. */
  datatype Round = Round(topics: seq<string>, creations: seq<Creation>)

  predicate WellFormed(r: Round) {
    |r.creations| == |r.topics|
  }

  /** The topics handled after the first n topics of a round. */
  function HandledAfter(matches: string -> bool, handled: set<string>, r: Round, n: nat): set<string>
    requires WellFormed(r) && n <= |r.topics|
  {
    if n == 0 then handled
    else
      var before := HandledAfter(matches, handled, r, n - 1);
      var c := r.creations[n - 1];
      if matches(r.topics[n - 1]) && c.outputOk && c.consumerOk then before + {r.topics[n - 1]} else before
  }

  function HandledAfterRounds(matches: string -> bool, rounds: seq<Round>): set<string>
    requires forall i :: 0 <= i < |rounds| ==> WellFormed(rounds[i])
  {
    if rounds == [] then {}
    else
      var n := |rounds| - 1;
      HandledAfter(matches, HandledAfterRounds(matches, rounds[..n]), rounds[n], |rounds[n].topics|)
  }

  /** In this round the topic is listed and both factories would succeed for it. */
  ghost predicate BothCreated(matches: string -> bool, r: Round, topic: string)
    requires WellFormed(r)
  {
    exists i :: 0 <= i < |r.topics| && r.topics[i] == topic && matches(topic) && r.creations[i].outputOk && r.creations[i].consumerOk
  }

  lemma {:induction false} HandledInRound(matches: string -> bool, handled: set<string>, r: Round, n: nat, topic: string)
    requires WellFormed(r) && n <= |r.topics|
    ensures topic in HandledAfter(matches, handled, r, n) <==>
            topic in handled || BothCreated(matches, Round(r.topics[..n], r.creations[..n]), topic)
  {
    if n != 0 {
      HandledInRound(matches, handled, r, n - 1, topic);
      var whole, part := Round(r.topics[..n], r.creations[..n]), Round(r.topics[..n - 1], r.creations[..n - 1]);
      if BothCreated(matches, part, topic) {
        var i :| 0 <= i < |part.topics| && part.topics[i] == topic && part.creations[i].outputOk && part.creations[i].consumerOk;
        assert whole.topics[i] == topic && whole.creations[i] == part.creations[i];
      }
      if BothCreated(matches, whole, topic) {
        var i :| 0 <= i < |whole.topics| && whole.topics[i] == topic && whole.creations[i].outputOk && whole.creations[i].consumerOk;
        if i < n - 1 {
          assert part.topics[i] == topic && part.creations[i] == whole.creations[i];
        }
      }
      if r.topics[n - 1] == topic && r.creations[n - 1].outputOk && r.creations[n - 1].consumerOk {
        assert whole.topics[n - 1] == topic && whole.creations[n - 1] == r.creations[n - 1];
      }
    }
  }

  /** A topic ends up handled exactly if some round listed it, it matches the
      pattern, and both its creations succeeded; failures are retried for ever. */
  lemma {:induction false} HandledExactlyWhenCreated(matches: string -> bool, rounds: seq<Round>, topic: string)
    requires forall i :: 0 <= i < |rounds| ==> WellFormed(rounds[i])
    ensures topic in HandledAfterRounds(matches, rounds) <==>
            exists i :: 0 <= i < |rounds| && BothCreated(matches, rounds[i], topic)
  {
    if rounds != [] {
      var n := |rounds| - 1;
      var r := rounds[n];
      HandledExactlyWhenCreated(matches, rounds[..n], topic);
      HandledInRound(matches, HandledAfterRounds(matches, rounds[..n]), r, |r.topics|, topic);
      assert Round(r.topics[..|r.topics|], r.creations[..|r.topics|]) == r;
      assert forall i :: 0 <= i < n ==> rounds[..n][i] == rounds[i];
    }
  }

  /** baritoKafkaConsumerGCSService. `started` and `flushing` record the topics
      whose workers were started and the outputs whose flush loops were, in order. */
  class Service {
    const matches: string -> bool
    const groupIdPrefix: string
    const flushMaxBytes: int
    var workerMap: map<string, ConsumerWorker>
    var gcsOutputMap: map<string, Gcs>
    var nextHook: nat
    var started: seq<string>
    var flushing: seq<Gcs>

    /** The topic's registered output is the one its worker feeds, and the one
        whose flush commits that worker and no other; the worker consumes this
        topic in the topic's own consumer group. */
    ghost predicate Wired(t: string)
      requires t in workerMap
      reads this, gcsOutputMap.Values
    {
      && t in gcsOutputMap && workerMap[t].name == t && workerMap[t].hook < nextHook
      && workerMap[t].output == gcsOutputMap[t]
      && workerMap[t].consumer.topic == t && workerMap[t].consumer.groupId == groupIdPrefix + t
      && gcsOutputMap[t].onFlushFunc == [workerMap[t].hook]
    }

    ghost predicate Separate()
      reads this
    {
      && (forall t, u | t in workerMap && u in workerMap && t != u :: workerMap[t].hook != workerMap[u].hook && workerMap[t].consumer != workerMap[u].consumer)
      && (forall t, u | t in gcsOutputMap && u in gcsOutputMap && t != u :: gcsOutputMap[t] != gcsOutputMap[u])
    }

    /** A worker is started once per handled topic, and with it the flush loop
        of that topic's registered output. */
    ghost predicate StartedOnce()
      reads this
    {
      && (forall t :: t in workerMap <==> t in started)
      && (forall i, j | 0 <= i < j < |started| :: started[i] != started[j])
      && |flushing| == |started|
      && (forall i | 0 <= i < |started| :: started[i] in gcsOutputMap && flushing[i] == gcsOutputMap[started[i]])
    }

    ghost predicate Valid()
      reads this, gcsOutputMap.Values
    {
      (forall t | t in workerMap :: Wired(t)) && Separate() && StartedOnce()
    }

    constructor (matches: string -> bool, groupIdPrefix: string, flushMaxBytes: int)
      ensures Valid() && this.matches == matches && this.groupIdPrefix == groupIdPrefix && this.flushMaxBytes == flushMaxBytes
      ensures workerMap == map[] && started == []
    {
      this.matches, this.groupIdPrefix, this.flushMaxBytes := matches, groupIdPrefix, flushMaxBytes;
      workerMap, gcsOutputMap, nextHook, started, flushing := map[], map[], 0, [], [];
    }

    method Register(topic: string, g: Gcs)
      requires Valid() && topic !in workerMap && g !in gcsOutputMap.Values
      modifies this`gcsOutputMap
      ensures Valid() && gcsOutputMap == old(gcsOutputMap)[topic := g]
    {
      gcsOutputMap := gcsOutputMap[topic := g];
      forall t | t in workerMap
        ensures Wired(t)
      {
        assert old(Wired(t));
      }
    }

    /** Installs the handler and the flush hook. */
    method Wire(topic: string, worker: ConsumerWorker)
      requires (forall t | t in workerMap :: Wired(t)) && Separate() && topic !in workerMap && topic in gcsOutputMap
      requires worker.output == gcsOutputMap[topic] && worker.output.onFlushFunc == []
      requires worker.name == topic && worker.hook == nextHook
      requires worker.consumer.topic == topic && worker.consumer.groupId == groupIdPrefix + topic
      requires forall t | t in workerMap :: workerMap[t].consumer != worker.consumer
      modifies this`workerMap, this`nextHook, worker.output`onFlushFunc
      ensures (forall t | t in workerMap :: Wired(t)) && Separate() && workerMap == old(workerMap)[topic := worker]
    {
      nextHook := nextHook + 1;
      workerMap := workerMap[topic := worker];
      worker.output.AddOnFlushFunc(worker.hook);
      forall t | t in workerMap
        ensures Wired(t)
      {
        if t != topic {
          assert old(Wired(t));
        }
      }
    }

    /** Starts the topic's worker and its output's flush loop. */
    method Launch(topic: string)
      requires topic in gcsOutputMap && topic !in started && |flushing| == |started|
      requires forall t :: t in workerMap <==> t in started || t == topic
      requires forall i, j | 0 <= i < j < |started| :: started[i] != started[j]
      requires forall i | 0 <= i < |started| :: started[i] in gcsOutputMap && flushing[i] == gcsOutputMap[started[i]]
      modifies this`started, this`flushing
      ensures StartedOnce() && started == old(started) + [topic]
    {
      started := started + [topic];
      flushing := flushing + [gcsOutputMap[topic]];
    }

    /** Installs handler and flush hook, then starts the worker and the flush loop. */
    method Install(topic: string, worker: ConsumerWorker)
      requires Valid() && topic !in workerMap && topic in gcsOutputMap
      requires worker.output == gcsOutputMap[topic] && worker.output.onFlushFunc == []
      requires worker.name == topic && worker.hook == nextHook
      requires worker.consumer.topic == topic && worker.consumer.groupId == groupIdPrefix + topic
      requires forall t | t in workerMap :: workerMap[t].consumer != worker.consumer
      modifies this`workerMap, this`nextHook, this`started, this`flushing, worker.output`onFlushFunc
      ensures Valid() && workerMap == old(workerMap)[topic := worker]
      ensures started == old(started) + [topic]
    {
      Wire(topic, worker);
      Launch(topic);
      forall t | t in workerMap
        ensures Wired(t)
      {
      }
    }

    /** A failure leaves the topic unhandled; an output made before the failure
        stays registered, unstarted, until the next attempt replaces it. */
    method SpawnLogsWorker(topic: string, c: Creation) returns (ok: bool)
      requires Valid() && topic !in workerMap
      modifies this
      ensures Valid() && ok == (c.outputOk && c.consumerOk)
      ensures workerMap.Keys == old(workerMap).Keys + if ok then {topic} else {}
      ensures forall t | t in old(workerMap) :: workerMap[t] == old(workerMap)[t]
      ensures started == old(started) + if ok then [topic] else []
    {
      if !c.outputOk {
        return false;
      }
      var g := new Gcs(flushMaxBytes);
      Register(topic, g);
      if !c.consumerOk {
        return false;
      }
      var consumer := new ConsumerGroupAdapter(groupIdPrefix + topic, topic);
      var worker := new ConsumerWorker(topic, nextHook, consumer, g);
      Install(topic, worker);
      return true;
    }

    method Poll(r: Round)
      requires Valid() && WellFormed(r)
      modifies this
      ensures Valid() && old(started) <= started
      ensures workerMap.Keys == HandledAfter(matches, old(workerMap).Keys, r, |r.topics|)
    {
      for i := 0 to |r.topics|
        invariant Valid() && old(started) <= started
        invariant workerMap.Keys == HandledAfter(matches, old(workerMap).Keys, r, i)
      {
        if !matches(r.topics[i]) {
          continue;
        }
        if r.topics[i] in workerMap {
          continue;
        }
        var ok := SpawnLogsWorker(r.topics[i], r.creations[i]);
      }
    }

    /** The polling loop, for as many rounds as it lives. */
    method Start(rounds: seq<Round>)
      requires Valid() && workerMap == map[]
      requires forall i :: 0 <= i < |rounds| ==> WellFormed(rounds[i])
      modifies this
      ensures Valid() && workerMap.Keys == HandledAfterRounds(matches, rounds)
    {
      for i := 0 to |rounds|
        invariant Valid() && workerMap.Keys == HandledAfterRounds(matches, rounds[..i])
      {
        Poll(rounds[i]);
        assert rounds[..i + 1][..i] == rounds[..i];
      }
      assert rounds[..|rounds|] == rounds;
    }
  }
}
