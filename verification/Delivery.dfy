/**
 Kafka to GCS delivery as a transition system. Any number of consumer processes
 share one consumer group; in each of them partition claimers, one worker and
 one flusher take turns in any order, and processes rebalance, crash and restart
 at any point. Each action is one atomic section of the source.
 */
module Delivery {
  import opened Wrappers
  import opened GcsOutput
  import opened ConsumerGroup

  /** What the records of the topic convert to; None is a record that cannot be converted. */
  type Log = Id -> Option<Bytes>

  /** The worker's position: waiting, retrying OnMessage for a record, or about to mark it. */
  datatype Work = Ready | Handling(id: Id) | Handled(id: Id)

  /** The flusher's position; it holds the output's mutex unless it is Idle. */
  datatype FlushPhase = Idle | Uploading | Committing

  /** `held` lists the records that were written whole into the current buffer. */
  datatype Process = Process(adapter: AdapterState, work: Work, out: Output, held: seq<Id>, flush: FlushPhase)

  const FRESH := Process(NO_SESSION, Ready, EMPTY_OUTPUT, [], Idle)

  datatype Object = Object(content: Bytes, records: seq<Id>)

  /** One partition of a commit request on its way to the broker. */
  datatype Request = Request(partition: nat, offset: nat)

  /** The processes, the bucket by object name, the commit requests ever sent,
      and the broker's committed offsets. */
  datatype System = System(procs: seq<Process>, bucket: map<nat, Object>, requests: set<Request>, committed: map<nat, nat>)

  function Init(n: nat): System {
    System(seq(n, i => FRESH), map[], {}, map[])
  }

  datatype Act =
    | Join(claims: set<nat>)         // Setup with a new session, replacing any earlier one
    | Deliver(p: nat)                // a claimer pushes its next record
    | Take                           // the worker receives a record
    | Drop                           // it cannot be converted, and is only logged
    | Offer(w: WriteOutcome)         // one OnMessage call inside the lock
    | Mark                           // MarkOffset on whatever session is current
    | Halt                           // Stop sets isStop; its Flush is the actions below
    | LockFlush                      // Flush gets the lock and finds bytes to upload
    | UploadFail
    | UploadOk(name: nat)
    | RequestCommit(p: nat)          // Commit reads one partition's watermark
    | FinishFlush                    // the buffer is given up, whatever the commit did
    | Crash                          // everything in memory and the buffer file are gone

  /** A commit request may be applied late, twice or never, by the broker alone. */
  datatype Action = Local(proc: nat, act: Act) | ApplyCommit(request: Request)

  predicate CanAct(log: Log, pr: Process, act: Act) {
    match act
    case Join(_) => true
    case Deliver(p) => CanDeliver(pr.adapter, p)
    case Take => pr.work.Ready? && pr.adapter.messages != []
    case Drop => pr.work.Handling? && log(pr.work.id).None?
    case Offer(w) => pr.work.Handling? && pr.flush.Idle? && log(pr.work.id).Some? && Possible(w, log(pr.work.id).value)
    case Mark => pr.work.Handled?
    case Halt => true
    case LockFlush => pr.flush.Idle? && pr.out.bytesCounter != 0
    case UploadFail => pr.flush.Uploading?
    case UploadOk(_) => pr.flush.Uploading?
    case RequestCommit(p) => pr.flush.Committing? && pr.adapter.session.Some? && p in pr.adapter.session.value.marks
    case FinishFlush => pr.flush.Committing?
    case Crash => true
  }

  function AfterAct(log: Log, flushMaxBytes: int, committed: map<nat, nat>, pr: Process, act: Act): Process
    requires CanAct(log, pr, act)
  {
    match act
    case Join(claims) => pr.(adapter := AfterSetup(pr.adapter, StartSession(committed, claims)))
    case Deliver(p) => pr.(adapter := AfterDeliver(pr.adapter, p))
    case Take => pr.(adapter := AfterReceive(pr.adapter), work := Handling(pr.adapter.messages[0]))
    case Drop => pr.(work := Handled(pr.work.id))
    case Offer(w) =>
      var (out, r) := Append(pr.out, flushMaxBytes, log(pr.work.id).value, w);
      if r.Accepted? then pr.(out := out, held := pr.held + [pr.work.id], work := Handled(pr.work.id))
      else pr.(out := out)
    case Mark => pr.(adapter := AfterMark(pr.adapter, pr.work.id), work := Ready)
    case Halt => pr.(out := pr.out.(isStop := true))
    case LockFlush => pr.(flush := Uploading)
    case UploadFail => pr.(flush := Idle)
    case UploadOk(_) => pr.(flush := Committing)
    case RequestCommit(_) => pr
    case FinishFlush => pr.(out := Emptied(pr.out), held := [], flush := Idle)
    case Crash => FRESH
  }

  function BucketAfter(bucket: map<nat, Object>, pr: Process, act: Act): map<nat, Object> {
    if act.UploadOk? then bucket[act.name := Object(pr.out.buffer, pr.held)] else bucket
  }

  predicate Enabled(log: Log, s: System, a: Action) {
    match a
    case Local(i, act) => i < |s.procs| && CanAct(log, s.procs[i], act)
    case ApplyCommit(r) => r in s.requests
  }

  function Next(log: Log, flushMaxBytes: int, s: System, a: Action): System
    requires Enabled(log, s, a)
  {
    match a
    case Local(i, act) =>
      var pr := s.procs[i];
      System(
        s.procs[i := AfterAct(log, flushMaxBytes, s.committed, pr, act)],
        BucketAfter(s.bucket, pr, act),
        if act.RequestCommit? then s.requests + {Request(act.p, pr.adapter.session.value.marks[act.p])} else s.requests,
        s.committed)
    case ApplyCommit(r) => s.(committed := s.committed[r.partition := r.offset])
  }

  ghost predicate Legal(log: Log, flushMaxBytes: int, s: System, run: seq<Action>)
    decreases |run|
  {
    run == [] ||
    (Enabled(log, s, run[0]) && Legal(log, flushMaxBytes, Next(log, flushMaxBytes, s, run[0]), run[1..]))
  }

  ghost function After(log: Log, flushMaxBytes: int, s: System, run: seq<Action>): System
    requires Legal(log, flushMaxBytes, s, run)
    decreases |run|
  {
    if run == [] then s else After(log, flushMaxBytes, Next(log, flushMaxBytes, s, run[0]), run[1..])
  }

  /** The names of the successful uploads of a run, in order. */
  function UploadNames(run: seq<Action>): (names: seq<nat>) {
    if run == [] then []
    else (if run[0].Local? && run[0].act.UploadOk? then [run[0].act.name] else []) + UploadNames(run[1..])
  }

  ghost predicate Distinct(names: seq<nat>) {
    forall i, j :: 0 <= i < j < |names| ==> names[i] != names[j]
  }

  // ------------------------------------------------------------ properties

  ghost predicate OccursAt(text: Bytes, part: Bytes, k: nat) {
    k + |part| <= |text| && text[k..k + |part|] == part
  }

  ghost predicate Contains(text: Bytes, part: Bytes) {
    exists k :: OccursAt(text, part, k)
  }

  ghost predicate Stored(bucket: map<nat, Object>, id: Id) {
    exists name :: name in bucket && id in bucket[name].records
  }

  /** The record needs nothing more from any process. */
  ghost predicate Settled(log: Log, bucket: map<nat, Object>, id: Id) {
    log(id).None? || Stored(bucket, id)
  }

  /** Every offset of p below n is settled, or among the given records. */
  ghost predicate Covered(log: Log, bucket: map<nat, Object>, ids: seq<Id>, p: nat, n: nat) {
    forall o: nat | o < n :: Settled(log, bucket, Id(p, o)) || Id(p, o) in ids
  }

  /** No loss: below a committed offset every record is in an object of the
      bucket, byte for byte, or could not be converted. */
  ghost predicate NoLoss(log: Log, s: System) {
    forall p, o: nat | p in s.committed && o < s.committed[p] ::
      log(Id(p, o)).None? ||
      exists name :: name in s.bucket && Id(p, o) in s.bucket[name].records
                     && Contains(s.bucket[name].content, log(Id(p, o)).value)
  }

  // ------------------------------------------------------------- invariant

  function InHand(work: Work): seq<Id> {
    if work.Ready? then [] else [work.id]
  }

  /** Each queued record is preceded, in the queue or further on, by every
      earlier record of its partition that is not settled. */
  ghost predicate QueueInv(log: Log, bucket: map<nat, Object>, pr: Process) {
    var q := pr.adapter.messages;
    forall i | 0 <= i < |q| ::
      Covered(log, bucket, pr.held + InHand(pr.work) + q[..i], q[i].partition, q[i].offset)
  }

  ghost predicate WorkInv(log: Log, bucket: map<nat, Object>, pr: Process) {
    match pr.work
    case Ready => true
    case Handling(id) => Covered(log, bucket, pr.held, id.partition, id.offset)
    case Handled(id) => Covered(log, bucket, pr.held, id.partition, id.offset + 1)
  }

  /** Deliveries and watermarks are contiguous, also for marks made by records
      of an earlier session. */
  ghost predicate SessionInv(log: Log, bucket: map<nat, Object>, pr: Process) {
    pr.adapter.session.Some? ==>
      var s := pr.adapter.session.value;
      && (forall p | p in s.next :: Covered(log, bucket, pr.held + InHand(pr.work) + pr.adapter.messages, p, s.next[p]))
      && (forall p | p in s.marks :: Covered(log, bucket, pr.held, p, s.marks[p]))
  }

  ghost predicate HeldInv(log: Log, bucket: map<nat, Object>, pr: Process) {
    && (forall id | id in pr.held :: log(id).Some? && Contains(pr.out.buffer, log(id).value))
    && (pr.flush.Committing? ==> forall id | id in pr.held :: Stored(bucket, id))
  }

  ghost predicate ProcessInv(log: Log, bucket: map<nat, Object>, pr: Process) {
    QueueInv(log, bucket, pr) && WorkInv(log, bucket, pr) && SessionInv(log, bucket, pr) && HeldInv(log, bucket, pr)
  }

  ghost predicate BucketInv(log: Log, bucket: map<nat, Object>) {
    forall name, id | name in bucket && id in bucket[name].records ::
      log(id).Some? && Contains(bucket[name].content, log(id).value)
  }

  ghost predicate BrokerInv(log: Log, s: System) {
    && (forall r | r in s.requests :: Covered(log, s.bucket, [], r.partition, r.offset))
    && (forall p | p in s.committed :: Covered(log, s.bucket, [], p, s.committed[p]))
  }

  ghost predicate Inv(log: Log, s: System) {
    && (forall i | 0 <= i < |s.procs| :: ProcessInv(log, s.bucket, s.procs[i]))
    && BucketInv(log, s.bucket)
    && BrokerInv(log, s)
  }

  lemma InvImpliesNoLoss(log: Log, s: System)
    requires Inv(log, s)
    ensures NoLoss(log, s)
  {
    forall p, o: nat | p in s.committed && o < s.committed[p] && log(Id(p, o)).Some?
      ensures exists name :: name in s.bucket && Id(p, o) in s.bucket[name].records
                             && Contains(s.bucket[name].content, log(Id(p, o)).value)
    {
      assert Covered(log, s.bucket, [], p, s.committed[p]);
      assert Settled(log, s.bucket, Id(p, o));
    }
  }

  // ------------------------------------------- what the actions leave alone

  /** A rebalance replaces the session and nothing else: queued messages, the
      record in hand, the output and a flush under way stay as they are. */
  lemma JoinReplacesOnlySession(log: Log, flushMaxBytes: int, committed: map<nat, nat>, pr: Process, claims: set<nat>)
    ensures CanAct(log, pr, Join(claims))
    ensures var pr' := AfterAct(log, flushMaxBytes, committed, pr, Join(claims));
            && pr'.adapter.messages == pr.adapter.messages
            && pr'.work == pr.work && pr'.out == pr.out && pr'.held == pr.held && pr'.flush == pr.flush
            && pr'.adapter.session.Some? && pr'.adapter.session.value.next.Keys == claims
            && (forall p | p in claims :: pr'.adapter.session.value.next[p] == if p in committed then committed[p] else 0)
            && pr'.adapter.session.value.marks == pr'.adapter.session.value.next
  {
  }

  /** A crash takes everything in memory and the buffer file with it. */
  lemma CrashLosesEverything(log: Log, flushMaxBytes: int, committed: map<nat, nat>, pr: Process)
    ensures CanAct(log, pr, Crash)
    ensures var pr' := AfterAct(log, flushMaxBytes, committed, pr, Crash);
            && pr'.adapter.session.None? && pr'.adapter.messages == [] && pr'.work.Ready?
            && pr'.out.buffer == [] && pr'.out.bytesCounter == 0 && !pr'.out.isStop && pr'.held == [] && pr'.flush.Idle?
  {
  }

  /** The mutex orders appends and flushes only: rebalances, deliveries, the
      worker's other steps, a stop and a crash are possible at any point of a
      flush, marks in the middle of a commit included. */
  lemma MutexCoversAppendAndFlush(log: Log, pr: Process, phase: FlushPhase, act: Act)
    requires !act.UploadFail? && !act.UploadOk? && !act.RequestCommit? && !act.FinishFlush?
    ensures if act.Offer? || act.LockFlush? then CanAct(log, pr, act) ==> pr.flush.Idle?
            else CanAct(log, pr.(flush := phase), act) <==> CanAct(log, pr, act)
  {
  }

  /** What the worker can do next depends on its position and the record alone. */
  lemma WorkerNeverStuck(log: Log, pr: Process, w: WriteOutcome)
    ensures CanAct(log, pr, Take) <==> pr.work.Ready? && pr.adapter.messages != []
    ensures pr.work.Handling? && log(pr.work.id).None? ==> CanAct(log, pr, Drop)
    ensures pr.work.Handling? && log(pr.work.id).Some? && pr.flush.Idle? && Possible(w, log(pr.work.id).value) ==>
              CanAct(log, pr, Offer(w))
    ensures pr.work.Handled? ==> CanAct(log, pr, Mark)
  {
  }

  // ------------------------------------------------- steps of one process

  lemma JoinKeeps(log: Log, committed: map<nat, nat>, bucket: map<nat, Object>, pr: Process, claims: set<nat>)
    requires ProcessInv(log, bucket, pr)
    requires forall p | p in committed :: Covered(log, bucket, [], p, committed[p])
    ensures ProcessInv(log, bucket, AfterAct(log, 0, committed, pr, Join(claims)))
  {
  }

  lemma DeliverKeeps(log: Log, bucket: map<nat, Object>, pr: Process, p: nat)
    requires ProcessInv(log, bucket, pr) && CanAct(log, pr, Deliver(p))
    ensures ProcessInv(log, bucket, AfterAct(log, 0, map[], pr, Deliver(p)))
  {
    var pr' := AfterAct(log, 0, map[], pr, Deliver(p));
    var q, q' := pr.adapter.messages, pr'.adapter.messages;
    forall i | 0 <= i < |q'|
      ensures Covered(log, bucket, pr'.held + InHand(pr'.work) + q'[..i], q'[i].partition, q'[i].offset)
    {
      assert q'[..i] == q[..i];
      if i == |q| {
        assert q[..i] == q;
      }
    }
  }

  lemma TakeKeeps(log: Log, bucket: map<nat, Object>, pr: Process)
    requires ProcessInv(log, bucket, pr) && CanAct(log, pr, Take)
    ensures ProcessInv(log, bucket, AfterAct(log, 0, map[], pr, Take))
  {
    var pr' := AfterAct(log, 0, map[], pr, Take);
    var q, q' := pr.adapter.messages, pr'.adapter.messages;
    forall i | 0 <= i < |q'|
      ensures Covered(log, bucket, pr'.held + InHand(pr'.work) + q'[..i], q'[i].partition, q'[i].offset)
    {
      assert q'[i] == q[i + 1];
      assert pr'.held + InHand(pr'.work) + q'[..i] == pr.held + InHand(pr.work) + q[..i + 1];
    }
    assert pr'.held + InHand(pr'.work) + q' == pr.held + InHand(pr.work) + q;
    assert q[..0] == [];
    assert Covered(log, bucket, pr.held + InHand(pr.work) + q[..0], q[0].partition, q[0].offset);
  }

  /** A record leaves the worker's hand settled or held, so what was covered stays covered. */
  lemma MoveKeeps(log: Log, bucket: map<nat, Object>, pr: Process, pr': Process)
    requires ProcessInv(log, bucket, pr)
    requires pr'.adapter == pr.adapter
    requires forall id | id in pr.held + InHand(pr.work) ::
               id in pr'.held + InHand(pr'.work) || Settled(log, bucket, id)
    requires forall id | id in pr.held :: id in pr'.held || Settled(log, bucket, id)
    requires WorkInv(log, bucket, pr') && HeldInv(log, bucket, pr')
    ensures ProcessInv(log, bucket, pr')
  {
    var q := pr.adapter.messages;
    forall i | 0 <= i < |q|
      ensures Covered(log, bucket, pr'.held + InHand(pr'.work) + q[..i], q[i].partition, q[i].offset)
    {
      CoveredMoves(log, bucket, pr.held + InHand(pr.work) + q[..i], pr'.held + InHand(pr'.work) + q[..i], q[i].partition, q[i].offset);
    }
    if pr.adapter.session.Some? {
      var s := pr.adapter.session.value;
      forall p | p in s.next
        ensures Covered(log, bucket, pr'.held + InHand(pr'.work) + q, p, s.next[p])
      {
        CoveredMoves(log, bucket, pr.held + InHand(pr.work) + q, pr'.held + InHand(pr'.work) + q, p, s.next[p]);
      }
      forall p | p in s.marks
        ensures Covered(log, bucket, pr'.held, p, s.marks[p])
      {
        CoveredMoves(log, bucket, pr.held, pr'.held, p, s.marks[p]);
      }
    }
  }

  lemma CoveredMoves(log: Log, bucket: map<nat, Object>, ids: seq<Id>, ids': seq<Id>, p: nat, n: nat)
    requires Covered(log, bucket, ids, p, n)
    requires forall id | id in ids :: id in ids' || Settled(log, bucket, id)
    ensures Covered(log, bucket, ids', p, n)
  {
  }

  lemma OfferKeeps(log: Log, flushMaxBytes: int, bucket: map<nat, Object>, pr: Process, w: WriteOutcome)
    requires ProcessInv(log, bucket, pr) && CanAct(log, pr, Offer(w))
    ensures ProcessInv(log, bucket, AfterAct(log, flushMaxBytes, map[], pr, Offer(w)))
  {
    var pr' := AfterAct(log, flushMaxBytes, map[], pr, Offer(w));
    var msg := log(pr.work.id).value;
    forall id | id in pr'.held
      ensures log(id).Some? && Contains(pr'.out.buffer, log(id).value)
    {
      if id in pr.held {
        var k :| OccursAt(pr.out.buffer, log(id).value, k);
        assert OccursAt(pr'.out.buffer, log(id).value, k);
      } else {
        var n := |pr.out.buffer|;
        assert pr'.out.buffer[n..][..|msg|] == msg;
        assert pr'.out.buffer[n..n + |msg|] == pr'.out.buffer[n..][..|msg|];
        assert OccursAt(pr'.out.buffer, msg, n);
      }
    }
    if pr'.work.Handled? {
      assert pr'.held == pr.held + [pr.work.id];
      CoveredMoves(log, bucket, pr.held, pr'.held, pr.work.id.partition, pr.work.id.offset);
    }
    MoveKeeps(log, bucket, pr, pr');
  }

  lemma MarkKeeps(log: Log, bucket: map<nat, Object>, pr: Process)
    requires ProcessInv(log, bucket, pr) && CanAct(log, pr, Mark)
    ensures ProcessInv(log, bucket, AfterAct(log, 0, map[], pr, Mark))
  {
    var id := pr.work.id;
    assert Settled(log, bucket, Id(id.partition, id.offset)) || Id(id.partition, id.offset) in pr.held;
    var ready := pr.(work := Ready);
    MoveKeeps(log, bucket, pr, ready);
    var pr' := AfterAct(log, 0, map[], pr, Mark);
    assert pr'.adapter.messages == ready.adapter.messages;
  }

  lemma FinishKeeps(log: Log, bucket: map<nat, Object>, pr: Process)
    requires ProcessInv(log, bucket, pr) && CanAct(log, pr, FinishFlush)
    ensures ProcessInv(log, bucket, AfterAct(log, 0, map[], pr, FinishFlush))
  {
    var pr' := AfterAct(log, 0, map[], pr, FinishFlush);
    match pr.work {
      case Ready =>
      case Handling(id) => CoveredMoves(log, bucket, pr.held, [], id.partition, id.offset);
      case Handled(id) => CoveredMoves(log, bucket, pr.held, [], id.partition, id.offset + 1);
    }
    MoveKeeps(log, bucket, pr, pr');
  }

  /** A bucket in which nothing disappeared keeps every process's invariant. */
  lemma BucketGrows(log: Log, bucket: map<nat, Object>, bucket': map<nat, Object>, pr: Process)
    requires ProcessInv(log, bucket, pr)
    requires forall id | Stored(bucket, id) :: Stored(bucket', id)
    ensures ProcessInv(log, bucket', pr)
  {
    var q := pr.adapter.messages;
    forall i | 0 <= i < |q|
      ensures Covered(log, bucket', pr.held + InHand(pr.work) + q[..i], q[i].partition, q[i].offset)
    {
      assert Covered(log, bucket, pr.held + InHand(pr.work) + q[..i], q[i].partition, q[i].offset);
    }
  }

  lemma ActKeeps(log: Log, flushMaxBytes: int, committed: map<nat, nat>, bucket: map<nat, Object>, pr: Process, act: Act)
    requires ProcessInv(log, bucket, pr) && CanAct(log, pr, act) && !act.UploadOk?
    requires forall p | p in committed :: Covered(log, bucket, [], p, committed[p])
    ensures ProcessInv(log, bucket, AfterAct(log, flushMaxBytes, committed, pr, act))
  {
    match act {
      case Join(claims) => JoinKeeps(log, committed, bucket, pr, claims);
      case Deliver(p) => DeliverKeeps(log, bucket, pr, p);
      case Take => TakeKeeps(log, bucket, pr);
      case Drop => MoveKeeps(log, bucket, pr, AfterAct(log, flushMaxBytes, committed, pr, act));
      case Offer(w) => OfferKeeps(log, flushMaxBytes, bucket, pr, w);
      case Mark => MarkKeeps(log, bucket, pr);
      case FinishFlush => FinishKeeps(log, bucket, pr);
      case _ =>
    }
  }

  // --------------------------------------------------------- steps and runs

  ghost predicate NameIsFree(s: System, a: Action) {
    a.Local? && a.act.UploadOk? ==> a.act.name !in s.bucket
  }

  lemma UploadKeeps(log: Log, flushMaxBytes: int, s: System, i: nat, name: nat)
    requires Inv(log, s) && Enabled(log, s, Local(i, UploadOk(name))) && name !in s.bucket
    ensures Inv(log, Next(log, flushMaxBytes, s, Local(i, UploadOk(name))))
  {
    var s' := Next(log, flushMaxBytes, s, Local(i, UploadOk(name)));
    var pr := s.procs[i];
    forall id | Stored(s.bucket, id)
      ensures Stored(s'.bucket, id)
    {
      var n :| n in s.bucket && id in s.bucket[n].records;
      assert n in s'.bucket && id in s'.bucket[n].records;
    }
    forall j | 0 <= j < |s.procs|
      ensures ProcessInv(log, s'.bucket, s'.procs[j])
    {
      BucketGrows(log, s.bucket, s'.bucket, s.procs[j]);
      if j == i {
        assert forall id | id in pr.held :: id in s'.bucket[name].records;
      }
    }
  }

  lemma StepKeeps(log: Log, flushMaxBytes: int, s: System, a: Action)
    requires Inv(log, s) && Enabled(log, s, a) && NameIsFree(s, a)
    ensures Inv(log, Next(log, flushMaxBytes, s, a))
  {
    match a {
      case ApplyCommit(r) =>
      case Local(i, act) =>
        if act.UploadOk? {
          UploadKeeps(log, flushMaxBytes, s, i, act.name);
        } else {
          ActKeeps(log, flushMaxBytes, s.committed, s.bucket, s.procs[i], act);
          if act.RequestCommit? {
            var pr := s.procs[i];
            CoveredMoves(log, s.bucket, pr.held, [], act.p, pr.adapter.session.value.marks[act.p]);
          }
        }
    }
  }

  lemma {:induction false} RunKeeps(log: Log, flushMaxBytes: int, s: System, run: seq<Action>)
    requires Inv(log, s) && Legal(log, flushMaxBytes, s, run)
    requires Distinct(UploadNames(run))
    requires forall i | 0 <= i < |UploadNames(run)| :: UploadNames(run)[i] !in s.bucket
    ensures Inv(log, After(log, flushMaxBytes, s, run))
    decreases |run|
  {
    if run != [] {
      var a, rest := run[0], UploadNames(run[1..]);
      if a.Local? && a.act.UploadOk? {
        assert UploadNames(run)[0] == a.act.name;
        assert forall i | 0 <= i < |rest| :: rest[i] == UploadNames(run)[i + 1];
      } else {
        assert UploadNames(run) == rest;
      }
      StepKeeps(log, flushMaxBytes, s, a);
      RunKeeps(log, flushMaxBytes, Next(log, flushMaxBytes, s, a), run[1..]);
    }
  }

  lemma InitInv(log: Log, n: nat)
    ensures Inv(log, Init(n))
  {
  }

  /** The delivery guarantee, for any number of processes and any legal run
      whose uploads use distinct object names. */
  lemma DeliveryIsLossless(log: Log, flushMaxBytes: int, n: nat, run: seq<Action>)
    requires Legal(log, flushMaxBytes, Init(n), run)
    requires Distinct(UploadNames(run))
    ensures NoLoss(log, After(log, flushMaxBytes, Init(n), run))
  {
    InitInv(log, n);
    RunKeeps(log, flushMaxBytes, Init(n), run);
    InvImpliesNoLoss(log, After(log, flushMaxBytes, Init(n), run));
  }

  /** In every reachable state, whatever sessions came and went, the watermark a
      process would commit covers only records that are settled or in that same
      process's buffer. */
  lemma WatermarksAreContiguous(log: Log, flushMaxBytes: int, n: nat, run: seq<Action>, i: nat, p: nat, o: nat)
    requires Legal(log, flushMaxBytes, Init(n), run) && Distinct(UploadNames(run))
    requires i < n
    ensures var s := After(log, flushMaxBytes, Init(n), run);
            && |s.procs| == n
            && (var session := s.procs[i].adapter.session;
                session.Some? && p in session.value.marks && o < session.value.marks[p] ==>
                  Settled(log, s.bucket, Id(p, o)) || Id(p, o) in s.procs[i].held)
  {
    InitInv(log, n);
    RunKeeps(log, flushMaxBytes, Init(n), run);
    ProcessesStay(log, flushMaxBytes, Init(n), run);
    var s := After(log, flushMaxBytes, Init(n), run);
    assert ProcessInv(log, s.bucket, s.procs[i]);
  }

  lemma ProcessesStay(log: Log, flushMaxBytes: int, s: System, run: seq<Action>)
    requires Legal(log, flushMaxBytes, s, run)
    ensures |After(log, flushMaxBytes, s, run).procs| == |s.procs|
    decreases |run|
  {
  }
}
