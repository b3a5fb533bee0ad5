/**
 What one session of a process delivers: exactly once and in partition order until
 it ends, with a watermark that keeps up. Also the contents of the objects, which
 no crash can spoil, and the Flush call as the flusher's actions.
 */
module DeliveryOrder {
  import opened Wrappers
  import opened GcsOutput
  import opened ConsumerGroup
  import opened Delivery

  /** The action does not end the session. */
  predicate Steady(act: Act) {
    !act.Join? && !act.Crash?
  }

  /** Process i neither joins again nor crashes; the others do as they like. */
  ghost predicate SteadyRun(run: seq<Action>, i: nat) {
    forall k | 0 <= k < |run| && run[k].Local? && run[k].proc == i :: Steady(run[k].act)
  }

  /** All records of process i's successful uploads in a run, in upload order. */
  ghost function UploadedRecords(log: Log, flushMaxBytes: int, s: System, run: seq<Action>, i: nat): seq<Id>
    requires Legal(log, flushMaxBytes, s, run)
    decreases |run|
  {
    if run == [] then []
    else SentBy(s, run[0], i) + UploadedRecords(log, flushMaxBytes, Next(log, flushMaxBytes, s, run[0]), run[1..], i)
  }

  function SentBy(s: System, a: Action, i: nat): seq<Id> {
    if a.Local? && a.proc == i < |s.procs| && a.act.UploadOk? then s.procs[i].held else []
  }

  /** The convertible records of one partition, in the order given. */
  function Select(log: Log, p: nat, ids: seq<Id>): seq<Id> {
    if ids == [] then []
    else
      var n := |ids| - 1;
      Select(log, p, ids[..n]) + if ids[n].partition == p && log(ids[n]).Some? then [ids[n]] else []
  }

  /** The convertible records of p from one offset up to another, each once, in offset order. */
  function Convertible(log: Log, p: nat, from: nat, to: nat): seq<Id> {
    if to <= from then []
    else Convertible(log, p, from, to - 1) + if log(Id(p, to - 1)).Some? then [Id(p, to - 1)] else []
  }

  lemma SelectOneMore(log: Log, p: nat, ids: seq<Id>, id: Id)
    ensures Select(log, p, ids + [id]) == Select(log, p, ids) + if id.partition == p && log(id).Some? then [id] else []
  {
    assert (ids + [id])[..|ids|] == ids;
  }

  lemma {:induction false} SelectConcat(log: Log, p: nat, a: seq<Id>, b: seq<Id>)
    ensures Select(log, p, a + b) == Select(log, p, a) + Select(log, p, b)
  {
    if b == [] {
      assert a + b == a;
    } else {
      var n := |b| - 1;
      SelectConcat(log, p, a, b[..n]);
      assert (a + b)[..|a + b| - 1] == a + b[..n];
    }
  }

  /** Records that left the channel and are not yet in an object. */
  function Unsent(pr: Process): seq<Id> {
    (if pr.flush.Committing? then [] else pr.held) + if pr.work.Handling? then [pr.work.id] else []
  }

  /** Uploads, buffer, worker and channel together hold each convertible record
      delivered since the session's start exactly once, in partition order. */
  ghost predicate InOrder(log: Log, from: map<nat, nat>, uploaded: seq<Id>, pr: Process) {
    pr.adapter.session.Some? &&
    forall p | p in pr.adapter.session.value.next ::
      && p in from && from[p] <= pr.adapter.session.value.next[p]
      && Select(log, p, uploaded + Unsent(pr) + pr.adapter.messages)
         == Convertible(log, p, from[p], pr.adapter.session.value.next[p])
  }

  lemma ConvertibleOneMore(log: Log, p: nat, from: nat, to: nat)
    requires from <= to
    ensures Convertible(log, p, from, to + 1)
         == Convertible(log, p, from, to) + if log(Id(p, to)).Some? then [Id(p, to)] else []
  {
  }

  lemma DeliverInOrder(log: Log, from: map<nat, nat>, uploaded: seq<Id>, pr: Process, p: nat)
    requires InOrder(log, from, uploaded, pr) && CanAct(log, pr, Deliver(p))
    ensures InOrder(log, from, uploaded, AfterAct(log, 0, map[], pr, Deliver(p)))
  {
    var pr' := AfterAct(log, 0, map[], pr, Deliver(p));
    var all := uploaded + Unsent(pr) + pr.adapter.messages;
    var id := Id(p, pr.adapter.session.value.next[p]);
    assert uploaded + Unsent(pr') + pr'.adapter.messages == all + [id];
    forall p' | p' in pr'.adapter.session.value.next
      ensures p' in from && from[p'] <= pr'.adapter.session.value.next[p']
      ensures Select(log, p', all + [id]) == Convertible(log, p', from[p'], pr'.adapter.session.value.next[p'])
    {
      SelectOneMore(log, p', all, id);
      assert Select(log, p', all) == Convertible(log, p', from[p'], pr.adapter.session.value.next[p']);
      if p' == p {
        ConvertibleOneMore(log, p, from[p], pr.adapter.session.value.next[p]);
      } else {
        assert Select(log, p', all) + [] == Select(log, p', all);
      }
    }
  }

  lemma DropInOrder(log: Log, from: map<nat, nat>, uploaded: seq<Id>, pr: Process)
    requires InOrder(log, from, uploaded, pr) && CanAct(log, pr, Drop)
    ensures InOrder(log, from, uploaded, AfterAct(log, 0, map[], pr, Drop))
  {
    var pr' := AfterAct(log, 0, map[], pr, Drop);
    var before, after := uploaded + Unsent(pr'), pr.adapter.messages;
    var id := pr.work.id;
    forall p | p in pr.adapter.session.value.next
      ensures Select(log, p, before + after) == Convertible(log, p, from[p], pr.adapter.session.value.next[p])
    {
      assert uploaded + Unsent(pr) + after == before + ([id] + after);
      SelectConcat(log, p, before, after);
      SelectConcat(log, p, before, [id] + after);
      SelectConcat(log, p, [id], after);
    }
  }

  lemma ActInOrder(log: Log, flushMaxBytes: int, committed: map<nat, nat>, from: map<nat, nat>, uploaded: seq<Id>, pr: Process, act: Act)
    requires InOrder(log, from, uploaded, pr) && CanAct(log, pr, act) && Steady(act)
    ensures InOrder(log, from, uploaded + (if act.UploadOk? then pr.held else []), AfterAct(log, flushMaxBytes, committed, pr, act))
  {
    var pr' := AfterAct(log, flushMaxBytes, committed, pr, act);
    var uploaded' := uploaded + if act.UploadOk? then pr.held else [];
    if act.Deliver? {
      DeliverInOrder(log, from, uploaded, pr, act.p);
      assert uploaded' == uploaded;
    } else if act.Drop? {
      DropInOrder(log, from, uploaded, pr);
      assert uploaded' == uploaded;
    } else {
      NothingMoved(log, flushMaxBytes, committed, uploaded, pr, act);
      assert uploaded' + Unsent(pr') + pr'.adapter.messages == uploaded + Unsent(pr) + pr.adapter.messages;
    }
  }

  /** The other actions only hand records on; the whole sequence stays. */
  lemma NothingMoved(log: Log, flushMaxBytes: int, committed: map<nat, nat>, uploaded: seq<Id>, pr: Process, act: Act)
    requires CanAct(log, pr, act) && pr.adapter.session.Some? && Steady(act) && !act.Deliver? && !act.Drop?
    ensures var pr' := AfterAct(log, flushMaxBytes, committed, pr, act);
            && pr'.adapter.session.Some? && pr'.adapter.session.value.next == pr.adapter.session.value.next
            && uploaded + (if act.UploadOk? then pr.held else []) + Unsent(pr') + pr'.adapter.messages
               == uploaded + Unsent(pr) + pr.adapter.messages
  {
  }

  lemma {:induction false} RunInOrder(log: Log, flushMaxBytes: int, s: System, run: seq<Action>, i: nat, from: map<nat, nat>, uploaded: seq<Id>)
    requires Legal(log, flushMaxBytes, s, run) && SteadyRun(run, i)
    requires i < |s.procs| && InOrder(log, from, uploaded, s.procs[i])
    ensures var s' := After(log, flushMaxBytes, s, run);
            i < |s'.procs| && InOrder(log, from, uploaded + UploadedRecords(log, flushMaxBytes, s, run, i), s'.procs[i])
    decreases |run|
  {
    if run == [] {
      assert uploaded + [] == uploaded;
    } else {
      var a, s' := run[0], Next(log, flushMaxBytes, s, run[0]);
      var sent := SentBy(s, a, i);
      if a.Local? && a.proc == i {
        ActInOrder(log, flushMaxBytes, s.committed, from, uploaded, s.procs[i], a.act);
      } else {
        assert uploaded + sent == uploaded;
      }
      RunInOrder(log, flushMaxBytes, s', run[1..], i, from, uploaded + sent);
      var rest := UploadedRecords(log, flushMaxBytes, s', run[1..], i);
      assert uploaded + sent + rest == uploaded + (sent + rest);
    }
  }

  /** The records in objects, or in a buffer that no object has yet. */
  function SentOrHeld(uploaded: seq<Id>, pr: Process): seq<Id> {
    uploaded + if pr.flush.Committing? then [] else pr.held
  }

  lemma {:induction false} SentIsPrefix(log: Log, from: map<nat, nat>, uploaded: seq<Id>, pr: Process, p: nat)
    requires InOrder(log, from, uploaded, pr) && p in pr.adapter.session.value.next
    ensures Select(log, p, SentOrHeld(uploaded, pr)) <= Convertible(log, p, from[p], pr.adapter.session.value.next[p])
  {
    var rest := (if pr.work.Handling? then [pr.work.id] else []) + pr.adapter.messages;
    assert uploaded + Unsent(pr) + pr.adapter.messages == SentOrHeld(uploaded, pr) + rest;
    SelectConcat(log, p, SentOrHeld(uploaded, pr), rest);
  }

  /** A process that was just started joins; whatever the other processes do, until
      it joins again or crashes, for every claimed partition its uploaded and
      buffered records are exactly the first convertible ones from the session's
      start, each once and in offset order, through any failed uploads and writes. */
  lemma ExactlyOnceInASession(log: Log, flushMaxBytes: int, s: System, i: nat, claims: set<nat>, run: seq<Action>, p: nat)
    requires i < |s.procs| && s.procs[i] == FRESH && p in claims
    requires Legal(log, flushMaxBytes, Next(log, flushMaxBytes, s, Local(i, Join(claims))), run) && SteadyRun(run, i)
    ensures var start := Next(log, flushMaxBytes, s, Local(i, Join(claims)));
            var from := StartSession(s.committed, claims).next;
            var procs := After(log, flushMaxBytes, start, run).procs;
            var sent := UploadedRecords(log, flushMaxBytes, start, run, i);
            && i < |procs| && procs[i].adapter.session.Some? && p in procs[i].adapter.session.value.next
            && Select(log, p, SentOrHeld(sent, procs[i])) <= Convertible(log, p, from[p], procs[i].adapter.session.value.next[p])
  {
    var start := Next(log, flushMaxBytes, s, Local(i, Join(claims)));
    var session := StartSession(s.committed, claims);
    assert Unsent(start.procs[i]) == [] && start.procs[i].adapter.messages == [];
    RunInOrder(log, flushMaxBytes, start, run, i, session.next, []);
    SessionNeverGoesBack(log, flushMaxBytes, start, run, i, session);
    var sent := UploadedRecords(log, flushMaxBytes, start, run, i);
    assert [] + sent == sent;
    SentIsPrefix(log, session.next, sent, After(log, flushMaxBytes, start, run).procs[i], p);
  }

  // ------------------------------------------------- the bytes of an object

  /** What the records convert to, in order. */
  function Texts(log: Log, ids: seq<Id>): seq<Bytes> {
    seq(|ids|, i requires 0 <= i < |ids| => if log(ids[i]).Some? then log(ids[i]).value else [])
  }

  predicate CleanAct(act: Act) {
    act.Offer? ==> Clean(act.w)
  }

  ghost predicate Framed(log: Log, pr: Process) {
    pr.out.buffer == Frame(Texts(log, pr.held))
  }

  ghost predicate AllFramed(log: Log, s: System) {
    && (forall i | 0 <= i < |s.procs| :: Framed(log, s.procs[i]))
    && (forall name | name in s.bucket :: s.bucket[name].content == Frame(Texts(log, s.bucket[name].records)))
  }

  lemma ActKeepsFramed(log: Log, flushMaxBytes: int, committed: map<nat, nat>, pr: Process, act: Act)
    requires Framed(log, pr) && CanAct(log, pr, act) && CleanAct(act)
    ensures Framed(log, AfterAct(log, flushMaxBytes, committed, pr, act))
  {
    if act.Offer? {
      var msg := log(pr.work.id).value;
      var texts := Texts(log, pr.held + [pr.work.id]);
      assert texts[..|pr.held|] == Texts(log, pr.held);
      assert msg[..act.w.written] == msg;
      assert Frame(texts) == Frame(Texts(log, pr.held)) + (msg + [NEWLINE]);
    }
  }

  lemma {:induction false} RunKeepsFramed(log: Log, flushMaxBytes: int, s: System, run: seq<Action>)
    requires Legal(log, flushMaxBytes, s, run) && AllFramed(log, s)
    requires forall i | 0 <= i < |run| :: run[i].Local? ==> CleanAct(run[i].act)
    ensures AllFramed(log, After(log, flushMaxBytes, s, run))
    decreases |run|
  {
    if run != [] {
      var a := run[0];
      if a.Local? {
        ActKeepsFramed(log, flushMaxBytes, s.committed, s.procs[a.proc], a.act);
      }
      RunKeepsFramed(log, flushMaxBytes, Next(log, flushMaxBytes, s, a), run[1..]);
    }
  }

  /** With clean writes, and through any crashes, rebalances, failed uploads and
      name collisions, every object is exactly its records' texts, one per line:
      no torn line, no foreign byte, and splitting it on newlines gives them back. */
  lemma ObjectsAreTheirRecords(log: Log, flushMaxBytes: int, n: nat, run: seq<Action>)
    requires Legal(log, flushMaxBytes, Init(n), run)
    requires forall i | 0 <= i < |run| :: run[i].Local? ==> CleanAct(run[i].act)
    ensures var bucket := After(log, flushMaxBytes, Init(n), run).bucket;
            forall name | name in bucket ::
              var texts := Texts(log, bucket[name].records);
              && bucket[name].content == Frame(texts)
              && (NewlineFree(texts) ==> Lines(bucket[name].content) == (texts, []))
  {
    RunKeepsFramed(log, flushMaxBytes, Init(n), run);
    var bucket := After(log, flushMaxBytes, Init(n), run).bucket;
    forall name | name in bucket && NewlineFree(Texts(log, bucket[name].records))
      ensures Lines(bucket[name].content) == (Texts(log, bucket[name].records), [])
    {
      FrameRoundTrip(Texts(log, bucket[name].records));
    }
  }

  // ---------------------------------------------------- watermark progress

  /** The records of one partition, and the coordinates from one offset to another. */
  function Only(p: nat, ids: seq<Id>): seq<Id> {
    if ids == [] then [] else (if ids[0].partition == p then [ids[0]] else []) + Only(p, ids[1..])
  }

  function Span(p: nat, from: nat, to: nat): seq<Id>
    requires from <= to
  {
    seq(to - from, i requires 0 <= i < to - from => Id(p, from + i))
  }

  lemma {:induction false} OnlyAppended(p: nat, ids: seq<Id>, id: Id)
    ensures Only(p, ids + [id]) == Only(p, ids) + if id.partition == p then [id] else []
  {
    if ids == [] {
      assert [] + [id] == [id] && [id][1..] == [];
    } else {
      OnlyAppended(p, ids[1..], id);
      assert (ids + [id])[1..] == ids[1..] + [id];
    }
  }

  /** The unmarked records of a claimed partition are exactly the delivered ones
      from its watermark on, in order. */
  ghost predicate KeepsUp(pr: Process) {
    pr.adapter.session.Some? &&
    var s := pr.adapter.session.value;
    s.marks.Keys == s.next.Keys &&
    forall p | p in s.next ::
      s.marks[p] <= s.next[p] && Only(p, InHand(pr.work) + pr.adapter.messages) == Span(p, s.marks[p], s.next[p])
  }

  lemma DeliverKeepsUp(log: Log, pr: Process, p: nat)
    requires KeepsUp(pr) && CanAct(log, pr, Deliver(p))
    ensures KeepsUp(AfterAct(log, 0, map[], pr, Deliver(p)))
  {
    var pr' := AfterAct(log, 0, map[], pr, Deliver(p));
    var s, id := pr.adapter.session.value, Id(p, pr.adapter.session.value.next[p]);
    var open := InHand(pr.work) + pr.adapter.messages;
    assert InHand(pr'.work) + pr'.adapter.messages == open + [id];
    forall p' | p' in s.next
      ensures Only(p', open + [id]) == Span(p', s.marks[p'], pr'.adapter.session.value.next[p'])
    {
      OnlyAppended(p', open, id);
      SpanGrows(p, s.marks[p], s.next[p]);
      assert Only(p', open) + [] == Only(p', open);
    }
  }

  lemma SpanGrows(p: nat, from: nat, to: nat)
    requires from <= to
    ensures Span(p, from, to + 1) == Span(p, from, to) + [Id(p, to)]
  {
  }

  /** Taking the first record off: the watermark of its partition moves past it. */
  lemma HeadMarked(s: SessionState, open: seq<Id>, p: nat)
    requires open != [] && p in s.marks && p in s.next
    requires s.marks[p] <= s.next[p] && Only(p, open) == Span(p, s.marks[p], s.next[p])
    ensures var s' := AfterMarkMessage(s, open[0]);
            s'.marks[p] <= s.next[p] && Only(p, open[1..]) == Span(p, s'.marks[p], s.next[p])
  {
    if p == open[0].partition {
      assert Only(p, open) == [open[0]] + Only(p, open[1..]);
      SpanShrinks(p, s.marks[p], s.next[p], open[0], Only(p, open[1..]));
    } else {
      assert Only(p, open) == Only(p, open[1..]);
    }
  }

  lemma SpanShrinks(p: nat, from: nat, to: nat, head: Id, rest: seq<Id>)
    requires from <= to && Span(p, from, to) == [head] + rest
    ensures from < to && head == Id(p, from) && rest == Span(p, from + 1, to)
  {
    var span := Span(p, from, to);
    assert span[0] == head && span[1..] == rest;
    assert span[1..] == Span(p, from + 1, to);
  }

  lemma MarkKeepsUp(log: Log, pr: Process)
    requires KeepsUp(pr) && CanAct(log, pr, Mark)
    ensures KeepsUp(AfterAct(log, 0, map[], pr, Mark))
  {
    var pr' := AfterAct(log, 0, map[], pr, Mark);
    var s, open := pr.adapter.session.value, InHand(pr.work) + pr.adapter.messages;
    assert open[0] == pr.work.id && open[1..] == pr.adapter.messages;
    assert InHand(pr'.work) + pr'.adapter.messages == open[1..];
    forall p | p in s.next
      ensures var s' := AfterMarkMessage(s, open[0]);
              s'.marks[p] <= s.next[p] && Only(p, open[1..]) == Span(p, s'.marks[p], s.next[p])
    {
      HeadMarked(s, open, p);
    }
  }

  lemma ActKeepsUp(log: Log, flushMaxBytes: int, committed: map<nat, nat>, pr: Process, act: Act)
    requires KeepsUp(pr) && CanAct(log, pr, act) && Steady(act)
    ensures KeepsUp(AfterAct(log, flushMaxBytes, committed, pr, act))
  {
    var pr' := AfterAct(log, flushMaxBytes, committed, pr, act);
    if act.Deliver? {
      DeliverKeepsUp(log, pr, act.p);
    } else if act.Mark? {
      MarkKeepsUp(log, pr);
    } else {
      assert InHand(pr'.work) + pr'.adapter.messages == InHand(pr.work) + pr.adapter.messages;
    }
  }

  lemma {:induction false} RunKeepsUp(log: Log, flushMaxBytes: int, s: System, run: seq<Action>, i: nat)
    requires Legal(log, flushMaxBytes, s, run) && SteadyRun(run, i)
    requires i < |s.procs| && KeepsUp(s.procs[i])
    ensures var s' := After(log, flushMaxBytes, s, run); i < |s'.procs| && KeepsUp(s'.procs[i])
    decreases |run|
  {
    if run != [] {
      if run[0].Local? && run[0].proc == i {
        ActKeepsUp(log, flushMaxBytes, s.committed, s.procs[i], run[0].act);
      }
      RunKeepsUp(log, flushMaxBytes, Next(log, flushMaxBytes, s, run[0]), run[1..], i);
    }
  }

  /** In a session of a newly started process, among any others, the watermark
      lags behind the deliveries by exactly the records still in the channel or in
      the worker's hand: with both empty, a commit covers everything delivered. */
  lemma WatermarkKeepsUp(log: Log, flushMaxBytes: int, s: System, i: nat, claims: set<nat>, run: seq<Action>)
    requires i < |s.procs| && s.procs[i] == FRESH
    requires Legal(log, flushMaxBytes, Next(log, flushMaxBytes, s, Local(i, Join(claims))), run) && SteadyRun(run, i)
    ensures var procs := After(log, flushMaxBytes, Next(log, flushMaxBytes, s, Local(i, Join(claims))), run).procs;
            && i < |procs| && KeepsUp(procs[i])
            && (procs[i].work.Ready? && procs[i].adapter.messages == [] ==>
                  procs[i].adapter.session.value.marks == procs[i].adapter.session.value.next)
  {
    var start := Next(log, flushMaxBytes, s, Local(i, Join(claims)));
    assert InHand(start.procs[i].work) + start.procs[i].adapter.messages == [];
    RunKeepsUp(log, flushMaxBytes, start, run, i);
    NothingOpenNothingBehind(After(log, flushMaxBytes, start, run).procs[i]);
  }

  lemma NothingOpenNothingBehind(pr: Process)
    requires KeepsUp(pr)
    ensures pr.work.Ready? && pr.adapter.messages == [] ==>
              pr.adapter.session.value.marks == pr.adapter.session.value.next
  {
    var s := pr.adapter.session.value;
    if pr.work.Ready? && pr.adapter.messages == [] {
      assert InHand(pr.work) + pr.adapter.messages == [];
      forall p | p in s.next
        ensures s.marks[p] == s.next[p]
      {
        assert |Span(p, s.marks[p], s.next[p])| == s.next[p] - s.marks[p];
      }
    }
  }

  /** No session goes back behind the committed offsets it started from: for any
      number of processes, whatever the others do, until this process joins again
      or crashes, it delivers and commits nothing below them. */
  lemma {:induction false} SessionNeverGoesBack(log: Log, flushMaxBytes: int, s: System, run: seq<Action>, i: nat, from: SessionState)
    requires Legal(log, flushMaxBytes, s, run) && i < |s.procs|
    requires SteadyRun(run, i)
    requires AtLeast(s.procs[i].adapter, from)
    ensures var s' := After(log, flushMaxBytes, s, run);
            i < |s'.procs| && AtLeast(s'.procs[i].adapter, from)
    decreases |run|
  {
    if run != [] {
      SessionNeverGoesBack(log, flushMaxBytes, Next(log, flushMaxBytes, s, run[0]), run[1..], i, from);
    }
  }

  ghost predicate AtLeast(a: AdapterState, from: SessionState) {
    a.session.Some? &&
    var s := a.session.value;
    && s.next.Keys == from.next.Keys && s.marks.Keys == from.marks.Keys
    && (forall p | p in from.next :: s.next[p] >= from.next[p])
    && (forall p | p in from.marks :: s.marks[p] >= from.marks[p])
  }

  /** What a session starts from: the committed offset, or the oldest record. */
  lemma SessionStartsAtCommitted(log: Log, flushMaxBytes: int, s: System, i: nat, claims: set<nat>, run: seq<Action>)
    requires i < |s.procs| && Legal(log, flushMaxBytes, Next(log, flushMaxBytes, s, Local(i, Join(claims))), run)
    requires SteadyRun(run, i)
    ensures var procs := After(log, flushMaxBytes, Next(log, flushMaxBytes, s, Local(i, Join(claims))), run).procs;
            i < |procs| && procs[i].adapter.session.Some? &&
            forall p | p in claims && p in s.committed ::
              var session := procs[i].adapter.session.value;
              && p in session.next && session.next[p] >= s.committed[p]
              && p in session.marks && session.marks[p] >= s.committed[p]
  {
    SessionNeverGoesBack(log, flushMaxBytes, Next(log, flushMaxBytes, s, Local(i, Join(claims))), run, i, StartSession(s.committed, claims));
  }

  // ------------------------------------------------------- the Flush call

  /** The requests of a commit: one per partition with a watermark. */
  function RequestsOf(marks: map<nat, nat>): set<Request> {
    set p | p in marks :: Request(p, marks[p])
  }

  function MarksOf(pr: Process): map<nat, nat> {
    if pr.adapter.session.Some? then pr.adapter.session.value.marks else map[]
  }

  /** The hook's commit, partition by partition. */
  function CommitActs(order: seq<nat>): seq<Act> {
    seq(|order|, k requires 0 <= k < |order| => RequestCommit(order[k]))
  }

  /** An uninterrupted Flush with its commit hook, as actions; `upload` is the
      name of the new object if the upload succeeds. */
  function FlushActs(out: Output, order: seq<nat>, upload: Option<nat>): seq<Act> {
    if out.bytesCounter == 0 then []
    else if upload.None? then [LockFlush, UploadFail]
    else [LockFlush, UploadOk(upload.value)] + CommitActs(order) + [FinishFlush]
  }

  function Locals(i: nat, acts: seq<Act>): seq<Action> {
    seq(|acts|, k requires 0 <= k < |acts| => Local(i, acts[k]))
  }

  /** Process i after these actions, in the system s. */
  ghost predicate LeadsTo(log: Log, flushMaxBytes: int, s: System, i: nat, acts: seq<Act>, s': System) {
    Legal(log, flushMaxBytes, s, Locals(i, acts)) && After(log, flushMaxBytes, s, Locals(i, acts)) == s'
  }

  lemma ActFirst(log: Log, flushMaxBytes: int, s: System, i: nat, act: Act, rest: seq<Act>, s': System)
    requires Enabled(log, s, Local(i, act)) && LeadsTo(log, flushMaxBytes, Next(log, flushMaxBytes, s, Local(i, act)), i, rest, s')
    ensures LeadsTo(log, flushMaxBytes, s, i, [act] + rest, s')
  {
    assert Locals(i, [act] + rest)[1..] == Locals(i, rest);
  }

  function Added(pr: Process, order: seq<nat>): set<Request>
    requires forall p | p in order :: p in MarksOf(pr)
  {
    set p | p in order :: Request(p, MarksOf(pr)[p])
  }

  lemma {:induction false} CommitsLead(log: Log, flushMaxBytes: int, s: System, i: nat, order: seq<nat>)
    requires i < |s.procs| && s.procs[i].flush.Committing?
    requires forall p | p in order :: p in MarksOf(s.procs[i])
    ensures LeadsTo(log, flushMaxBytes, s, i, CommitActs(order), s.(requests := s.requests + Added(s.procs[i], order)))
    decreases |order|
  {
    var pr := s.procs[i];
    if order == [] {
      assert Locals(i, CommitActs([])) == [] && s.requests + Added(pr, []) == s.requests;
    } else {
      assert order[0] in MarksOf(pr);
      var act, rest := RequestCommit(order[0]), order[1..];
      var s1 := Next(log, flushMaxBytes, s, Local(i, act));
      assert s1 == s.(requests := s.requests + {Request(order[0], MarksOf(pr)[order[0]])});
      CommitsLead(log, flushMaxBytes, s1, i, rest);
      OneMoreAdded(pr, s.requests, order);
      ActFirst(log, flushMaxBytes, s, i, act, CommitActs(rest), s.(requests := s.requests + Added(pr, order)));
      assert CommitActs(order) == [act] + CommitActs(rest);
    }
  }

  lemma OneMoreAdded(pr: Process, requests: set<Request>, order: seq<nat>)
    requires order != [] && forall p | p in order :: p in MarksOf(pr)
    ensures requests + {Request(order[0], MarksOf(pr)[order[0]])} + Added(pr, order[1..]) == requests + Added(pr, order)
  {
    assert order == [order[0]] + order[1..];
  }

  lemma {:induction false} ActsJoined(log: Log, flushMaxBytes: int, s: System, i: nat, a: seq<Act>, s1: System, b: seq<Act>, s2: System)
    requires LeadsTo(log, flushMaxBytes, s, i, a, s1) && LeadsTo(log, flushMaxBytes, s1, i, b, s2)
    ensures LeadsTo(log, flushMaxBytes, s, i, a + b, s2)
    decreases |a|
  {
    if a == [] {
      assert a + b == b && Locals(i, a) == [];
    } else {
      assert Locals(i, a)[1..] == Locals(i, a[1..]);
      ActsJoined(log, flushMaxBytes, Next(log, flushMaxBytes, s, Local(i, a[0])), i, a[1..], s1, b, s2);
      ActFirst(log, flushMaxBytes, s, i, a[0], a[1..] + b, s2);
      assert [a[0]] + (a[1..] + b) == a + b;
    }
  }

  lemma OneAct(log: Log, flushMaxBytes: int, s: System, i: nat, act: Act)
    requires Enabled(log, s, Local(i, act))
    ensures LeadsTo(log, flushMaxBytes, s, i, [act], Next(log, flushMaxBytes, s, Local(i, act)))
  {
    var end := Next(log, flushMaxBytes, s, Local(i, act));
    assert Locals(i, []) == [] && LeadsTo(log, flushMaxBytes, end, i, [], end);
    ActFirst(log, flushMaxBytes, s, i, act, [], end);
    assert [act] + [] == [act];
  }

  /** What one Flush does to the system: nothing unless there are bytes and the
      upload succeeds; then the buffer is an object, every watermark is on its way
      to the broker, and the output is empty. */
  function AfterFlushCall(s: System, i: nat, upload: Option<nat>): System
    requires i < |s.procs|
  {
    var pr := s.procs[i];
    var sink := AfterFlush(Sink(pr.out, []), upload.Some?);
    if sink.objects == [] then s
    else System(s.procs[i := pr.(out := sink.out, held := [])], s.bucket[upload.value := Object(sink.objects[0], pr.held)],
                s.requests + RequestsOf(MarksOf(pr)), s.committed)
  }

  /** An uninterrupted Flush with its hook is a legal run of the flusher, in any
      system, whatever the order in which the hook commits the partitions. */
  lemma FlushIsItsActions(log: Log, flushMaxBytes: int, s: System, i: nat, order: seq<nat>, upload: Option<nat>)
    requires i < |s.procs| && s.procs[i].flush.Idle?
    requires forall p :: p in order <==> p in MarksOf(s.procs[i])
    ensures LeadsTo(log, flushMaxBytes, s, i, FlushActs(s.procs[i].out, order, upload), AfterFlushCall(s, i, upload))
  {
    var pr := s.procs[i];
    if pr.out.bytesCounter == 0 {
      assert Locals(i, []) == [];
    } else if upload.None? {
      var s1 := Next(log, flushMaxBytes, s, Local(i, LockFlush));
      OneAct(log, flushMaxBytes, s, i, LockFlush);
      OneAct(log, flushMaxBytes, s1, i, UploadFail);
      var s2 := Next(log, flushMaxBytes, s1, Local(i, UploadFail));
      assert s2 == s by {
        assert s2.procs == s.procs;
      }
      ActsJoined(log, flushMaxBytes, s, i, [LockFlush], s1, [UploadFail], s2);
      assert [LockFlush] + [UploadFail] == FlushActs(pr.out, order, upload);
    } else {
      SuccessfulFlushLeads(log, flushMaxBytes, s, i, order, upload.value);
    }
  }

  lemma SuccessfulFlushLeads(log: Log, flushMaxBytes: int, s: System, i: nat, order: seq<nat>, name: nat)
    requires i < |s.procs| && s.procs[i].flush.Idle? && s.procs[i].out.bytesCounter != 0
    requires forall p :: p in order <==> p in MarksOf(s.procs[i])
    ensures LeadsTo(log, flushMaxBytes, s, i, FlushActs(s.procs[i].out, order, Some(name)), AfterFlushCall(s, i, Some(name)))
  {
    var pr := s.procs[i];
    var s1 := Next(log, flushMaxBytes, s, Local(i, LockFlush));
    var s2 := Next(log, flushMaxBytes, s1, Local(i, UploadOk(name)));
    var s3 := s2.(requests := s.requests + Added(pr, order));
    var s4 := Next(log, flushMaxBytes, s3, Local(i, FinishFlush));
    OneAct(log, flushMaxBytes, s, i, LockFlush);
    OneAct(log, flushMaxBytes, s1, i, UploadOk(name));
    CommitsLead(log, flushMaxBytes, s2, i, order);
    OneAct(log, flushMaxBytes, s3, i, FinishFlush);
    assert Added(pr, order) == RequestsOf(MarksOf(pr));
    assert s4 == AfterFlushCall(s, i, Some(name)) by {
      assert s4.procs == AfterFlushCall(s, i, Some(name)).procs;
    }
    ActsJoined(log, flushMaxBytes, s, i, [LockFlush], s1, [UploadOk(name)], s2);
    ActsJoined(log, flushMaxBytes, s, i, [LockFlush] + [UploadOk(name)], s2, CommitActs(order), s3);
    ActsJoined(log, flushMaxBytes, s, i, [LockFlush] + [UploadOk(name)] + CommitActs(order), s3, [FinishFlush], s4);
    assert [LockFlush] + [UploadOk(name)] + CommitActs(order) + [FinishFlush] == FlushActs(pr.out, order, Some(name));
  }

  // ------------------------------------------- claims, and stale messages

  /** This many rounds of a claimer's loop. */
  function Deliveries(p: nat, n: nat): seq<Act> {
    seq(n, k => Deliver(p))
  }

  /** A claimer's loop is a run of deliveries, in any system. */
  lemma {:induction false} ClaimIsItsActions(log: Log, flushMaxBytes: int, s: System, i: nat, p: nat, limit: nat)
    returns (acts: seq<Act>)
    requires i < |s.procs|
    ensures LeadsTo(log, flushMaxBytes, s, i, acts,
                    s.(procs := s.procs[i := s.procs[i].(adapter := AfterClaim(s.procs[i].adapter, p, limit))]))
    ensures acts == Deliveries(p, |acts|)
    decreases limit
  {
    var pr := s.procs[i];
    if limit == 0 || !CanDeliver(pr.adapter, p) {
      acts := [];
      assert Locals(i, []) == [] && s.procs[i := pr] == s.procs;
    } else {
      var s1 := Next(log, flushMaxBytes, s, Local(i, Deliver(p)));
      var rest := ClaimIsItsActions(log, flushMaxBytes, s1, i, p, limit - 1);
      var end := s.(procs := s.procs[i := pr.(adapter := AfterClaim(pr.adapter, p, limit))]);
      assert s1.(procs := s1.procs[i := s1.procs[i].(adapter := AfterClaim(s1.procs[i].adapter, p, limit - 1))]) == end by {
        assert s1.procs[i].(adapter := AfterClaim(s1.procs[i].adapter, p, limit - 1)) == end.procs[i];
      }
      ActFirst(log, flushMaxBytes, s, i, Deliver(p), rest, end);
      acts := [Deliver(p)] + rest;
    }
  }

  function CleanWrite(msg: Bytes): WriteOutcome {
    WriteOutcome(|msg|, false, true)
  }

  /** The process after it joined, was delivered record 0 and joined again. */
  function Rejoined(queue: seq<Id>, work: Work, marked: nat, out: Output, held: seq<Id>): Process {
    Process(AdapterState(Some(SessionState(map[0 := 0], map[0 := marked])), queue), work, out, held, Idle)
  }

  /** A message of an earlier session stays in the channel through a rebalance and
      is marked on the new session, whose watermark is then ahead of its own
      deliveries. */
  lemma StaleMessageIsMarked(log: Log, flushMaxBytes: int) returns (acts: seq<Act>, end: System)
    requires flushMaxBytes > 0
    ensures LeadsTo(log, flushMaxBytes, Init(1), 0, [Join({0}), Deliver(0), Join({0})] + acts, end)
    ensures forall act | act in acts :: !act.Join? && !act.Deliver?
    ensures |end.procs| == 1
    ensures var a := end.procs[0].adapter;
            && a.messages == [] && a.session.Some? && 0 in a.session.value.next && 0 in a.session.value.marks
            && a.session.value.next[0] == 0 && a.session.value.marks[0] == 1
  {
    var twice := JoinedTwice(log, flushMaxBytes);
    acts, end := StaleIsHandled(log, flushMaxBytes, twice);
    ActsJoined(log, flushMaxBytes, Init(1), 0, [Join({0}), Deliver(0), Join({0})], twice, acts, end);
  }

  lemma StaleIsHandled(log: Log, flushMaxBytes: int, s: System) returns (acts: seq<Act>, end: System)
    requires flushMaxBytes > 0 && s.procs == [Rejoined([Id(0, 0)], Ready, 0, EMPTY_OUTPUT, [])]
    ensures LeadsTo(log, flushMaxBytes, s, 0, acts, end)
    ensures forall act | act in acts :: !act.Join? && !act.Deliver?
    ensures exists out, held :: end.procs == [Rejoined([], Ready, 1, out, held)]
  {
    var id := Id(0, 0);
    var taken := Rejoined([], Handling(id), 0, EMPTY_OUTPUT, []);
    ProcessLeads(log, flushMaxBytes, s, Take, taken);
    var handle, handled := StaleIsAccepted(log, flushMaxBytes, taken);
    ProcessLeads(log, flushMaxBytes, s.(procs := [taken]), handle, handled);
    var marked := Rejoined([], Ready, 1, handled.out, handled.held);
    assert AfterMark(handled.adapter, id).session.value.marks == map[0 := 1];
    ProcessLeads(log, flushMaxBytes, s.(procs := [handled]), Mark, marked);
    end := s.(procs := [marked]);
    ActsJoined(log, flushMaxBytes, s, 0, [Take], s.(procs := [taken]), [handle], s.(procs := [handled]));
    ActsJoined(log, flushMaxBytes, s, 0, [Take] + [handle], s.(procs := [handled]), [Mark], end);
    acts := [Take] + [handle] + [Mark];
  }

  /** The record is dropped or written whole. */
  lemma StaleIsAccepted(log: Log, flushMaxBytes: int, pr: Process) returns (act: Act, handled: Process)
    requires flushMaxBytes > 0 && pr == Rejoined([], Handling(Id(0, 0)), 0, EMPTY_OUTPUT, [])
    ensures CanAct(log, pr, act) && (act.Drop? || act.Offer?) && AfterAct(log, flushMaxBytes, map[], pr, act) == handled
    ensures handled == Rejoined([], Handled(Id(0, 0)), 0, handled.out, handled.held)
  {
    var id := Id(0, 0);
    act := if log(id).None? then Drop else Offer(CleanWrite(log(id).value));
    handled := AfterAct(log, flushMaxBytes, map[], pr, act);
  }

  lemma ProcessLeads(log: Log, flushMaxBytes: int, s: System, act: Act, pr: Process)
    requires |s.procs| == 1 && CanAct(log, s.procs[0], act) && !act.UploadOk? && !act.RequestCommit?
    requires AfterAct(log, flushMaxBytes, s.committed, s.procs[0], act) == pr
    ensures LeadsTo(log, flushMaxBytes, s, 0, [act], s.(procs := [pr]))
  {
    OneAct(log, flushMaxBytes, s, 0, act);
    assert s.procs[0 := pr] == [pr];
  }

  lemma JoinedTwice(log: Log, flushMaxBytes: int) returns (end: System)
    ensures LeadsTo(log, flushMaxBytes, Init(1), 0, [Join({0}), Deliver(0), Join({0})], end)
    ensures end == Init(1).(procs := [Rejoined([Id(0, 0)], Ready, 0, EMPTY_OUTPUT, [])])
  {
    var start, joined := Init(1), Rejoined([], Ready, 0, EMPTY_OUTPUT, []);
    assert StartSession(map[], {0}) == joined.adapter.session.value by {
      assert StartSession(map[], {0}).next == map[0 := 0];
    }
    ProcessLeads(log, flushMaxBytes, start, Join({0}), joined);
    var delivered := AfterAct(log, flushMaxBytes, map[], joined, Deliver(0));
    ProcessLeads(log, flushMaxBytes, start.(procs := [joined]), Deliver(0), delivered);
    var again := Rejoined([Id(0, 0)], Ready, 0, EMPTY_OUTPUT, []);
    assert delivered.adapter.messages == [Id(0, 0)];
    ProcessLeads(log, flushMaxBytes, start.(procs := [delivered]), Join({0}), again);
    end := start.(procs := [again]);
    ActsJoined(log, flushMaxBytes, start, 0, [Join({0})], start.(procs := [joined]), [Deliver(0)], start.(procs := [delivered]));
    ActsJoined(log, flushMaxBytes, start, 0, [Join({0})] + [Deliver(0)], start.(procs := [delivered]), [Join({0})], end);
    assert [Join({0})] + [Deliver(0)] + [Join({0})] == [Join({0}), Deliver(0), Join({0})];
  }
}
