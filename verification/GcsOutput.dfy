/**
 The buffering output of the GCS consumer: messages are appended to a local
 file, one per line, and a flush uploads the whole file as one object, runs the
 commit hooks and starts a new file.
 */
module GcsOutput {

  newtype byte = x: int | 0 <= x < 256
  type Bytes = seq<byte>

  const NEWLINE: byte := 10

  /** The fields that the mutex protects, and the stop flag. */
  datatype Output = Output(buffer: Bytes, bytesCounter: nat, isStop: bool)

  const EMPTY_OUTPUT := Output([], 0, false)

  /** What the file does with the two writes of one call: how much of the
      message reaches it, whether that write reports an error, and whether the
      newline reaches it (the source ignores an error of the second write). */
  datatype WriteOutcome = WriteOutcome(written: nat, failed: bool, newline: bool)

  /** A short write always reports an error. */
  predicate Possible(w: WriteOutcome, msg: Bytes) {
    w.written <= |msg| && (w.failed || w.written == |msg|)
  }

  predicate Clean(w: WriteOutcome) {
    !w.failed && w.newline
  }

  datatype Offered = Accepted | Stopped | BufferFull | WriteFailed

  /** What a write leaves in the file, also when it fails part of the way. */
  function WrittenBytes(msg: Bytes, w: WriteOutcome): Bytes
    requires Possible(w, msg)
  {
    msg[..w.written] + if w.newline then [NEWLINE] else []
  }

  /** The section of OnMessage that holds the lock. */
  function Append(out: Output, flushMaxBytes: int, msg: Bytes, w: WriteOutcome): (r: (Output, Offered))
    requires Possible(w, msg)
    ensures out.buffer <= r.0.buffer
    ensures r.1.Accepted? ==> msg <= r.0.buffer[|out.buffer|..]
    ensures r.1 != Stopped && r.0.isStop == out.isStop
  {
    if out.bytesCounter >= flushMaxBytes then
      (out, BufferFull)
    else
      (Output(out.buffer + WrittenBytes(msg, w), out.bytesCounter + w.written, out.isStop), if w.failed then WriteFailed else Accepted)
  }

  function OfferTo(out: Output, flushMaxBytes: int, msg: Bytes, w: WriteOutcome): (Output, Offered)
    requires Possible(w, msg)
  {
    if out.isStop then (out, Stopped) else Append(out, flushMaxBytes, msg, w)
  }

  /** The output together with the objects its uploads have created, oldest first. */
  datatype Sink = Sink(out: Output, objects: seq<Bytes>)

  predicate Flushes(out: Output, uploaded: bool) {
    out.bytesCounter != 0 && uploaded
  }

  function Emptied(out: Output): Output {
    Output([], 0, out.isStop)
  }

  function AfterFlush(s: Sink, uploaded: bool): Sink {
    if Flushes(s.out, uploaded) then Sink(Emptied(s.out), s.objects + [s.out.buffer]) else s
  }

  function AfterStop(s: Sink, uploaded: bool): Sink {
    AfterFlush(s.(out := s.out.(isStop := true)), uploaded)
  }

  /** One round of the flush loop: a full buffer is flushed at once, any other
      buffer when the timer fires. */
  function AfterRound(s: Sink, flushMaxBytes: int, timer: bool, uploaded: bool): Sink {
    if s.out.isStop then s
    else if flushMaxBytes > 0 && s.out.bytesCounter >= flushMaxBytes then AfterFlush(s, uploaded)
    else if timer then AfterFlush(s, uploaded)
    else s
  }

  /** When an OnMessage call succeeds, and what each rejection means. */
  lemma AcceptedIff(out: Output, flushMaxBytes: int, msg: Bytes, w: WriteOutcome)
    requires Possible(w, msg)
    ensures var (after, r) := OfferTo(out, flushMaxBytes, msg, w);
            && (r.Accepted? <==> !out.isStop && out.bytesCounter < flushMaxBytes && !w.failed)
            && (r.WriteFailed? <==> !out.isStop && out.bytesCounter < flushMaxBytes && w.failed)
            && (r.Stopped? <==> out.isStop)
            && (r.Stopped? || r.BufferFull? ==> after == out)
            && (!r.Stopped? && !r.BufferFull? ==>
                  && after.buffer == out.buffer + WrittenBytes(msg, w)
                  && after.bytesCounter == out.bytesCounter + w.written)
  {
  }

  /** A round uploads exactly when the output runs, has counted bytes, and either
      is full or the timer fired; then the whole buffer is one new object and the
      output starts afresh. Otherwise the round changes nothing. */
  lemma RoundUploadsIff(s: Sink, flushMaxBytes: int, timer: bool, uploaded: bool)
    ensures var s' := AfterRound(s, flushMaxBytes, timer, uploaded);
            if uploaded && !s.out.isStop && s.out.bytesCounter > 0 && (timer || 0 < flushMaxBytes <= s.out.bytesCounter)
            then s' == Sink(EMPTY_OUTPUT, s.objects + [s.out.buffer])
            else s' == s
  {
  }

  /** A stop is final and uploads what is left; if that upload fails, the buffer is
      kept. A buffer of empty messages alone counts no bytes and is never uploaded. */
  lemma StopUploadsTheRest(s: Sink, uploaded: bool)
    ensures var s' := AfterStop(s, uploaded);
            && s'.out.isStop
            && (if uploaded && s.out.bytesCounter > 0
                then s'.objects == s.objects + [s.out.buffer] && s'.out.buffer == [] && s'.out.bytesCounter == 0
                else s'.objects == s.objects && s'.out.buffer == s.out.buffer && s'.out.bytesCounter == s.out.bytesCounter)
  {
  }

  /** The two thresholds agree: an output that rejects messages as full accepts
      them again after the next round whose upload succeeds, timer or not. */
  lemma FullOutputRecovers(s: Sink, flushMaxBytes: int, timer: bool, msg: Bytes, w: WriteOutcome)
    requires flushMaxBytes > 0 && Possible(w, msg) && !w.failed
    requires OfferTo(s.out, flushMaxBytes, msg, w).1.BufferFull?
    ensures var s' := AfterRound(s, flushMaxBytes, timer, true);
            && OfferTo(s'.out, flushMaxBytes, msg, w).1.Accepted?
            && s'.objects == s.objects + [s.out.buffer]
  {
  }

  /** What a flush does to the outside world, in order. */
  datatype Effect = Uploaded(object: Bytes) | HookCalled(hook: nat) | BufferRecreated

  function HookCalls(hooks: seq<nat>): (r: seq<Effect>) {
    seq(|hooks|, i requires 0 <= i < |hooks| => HookCalled(hooks[i]))
  }

  /** The effects of one Flush: nothing unless the upload succeeds; then every
      hook, after the object exists and before the buffer is given up. */
  function FlushEffects(out: Output, hooks: seq<nat>, uploaded: bool): seq<Effect> {
    if Flushes(out, uploaded) then [Uploaded(out.buffer)] + HookCalls(hooks) + [BufferRecreated] else []
  }

  /** A flush's hooks come after its upload and before the buffer is given up,
      every registered hook once and in order; without an upload of counted bytes
      nothing happens at all, so no hook commits anything. */
  ghost predicate HooksFollowUpload(added: seq<Effect>, out: Output, hooks: seq<nat>, uploaded: bool) {
    if !uploaded || out.bytesCounter == 0 then added == []
    else
      && |added| == |hooks| + 2
      && added[0] == Uploaded(out.buffer) && added[|hooks| + 1] == BufferRecreated
      && forall k :: 0 <= k < |hooks| ==> added[k + 1] == HookCalled(hooks[k])
  }

  lemma FlushEffectsInOrder(out: Output, hooks: seq<nat>, uploaded: bool)
    ensures HooksFollowUpload(FlushEffects(out, hooks, uploaded), out, hooks, uploaded)
  {
  }

  /** The GCS struct. `objects` and `effects` stand for the bucket and the hooks' callers. */
  class Gcs {
    const flushMaxBytes: int
    var buffer: Bytes
    var bytesCounter: nat
    var isStop: bool
    var onFlushFunc: seq<nat>
    var objects: seq<Bytes>
    var effects: seq<Effect>

    ghost function State(): Sink
      reads this
    {
      Sink(Output(buffer, bytesCounter, isStop), objects)
    }

    constructor (flushMaxBytes: int)
      ensures this.flushMaxBytes == flushMaxBytes
      ensures State() == Sink(EMPTY_OUTPUT, []) && onFlushFunc == [] && effects == []
    {
      this.flushMaxBytes := flushMaxBytes;
      buffer, bytesCounter, isStop := [], 0, false;
      onFlushFunc, objects, effects := [], [], [];
    }

    method AddOnFlushFunc(hook: nat)
      modifies this`onFlushFunc
      ensures onFlushFunc == old(onFlushFunc) + [hook]
    {
      onFlushFunc := onFlushFunc + [hook];
    }

    method OnMessage(msg: Bytes, w: WriteOutcome) returns (r: Offered)
      requires Possible(w, msg)
      modifies this`buffer, this`bytesCounter
      ensures (State().out, r) == OfferTo(old(State()).out, flushMaxBytes, msg, w)
    {
      if isStop {
        return Stopped;
      }
      if bytesCounter >= flushMaxBytes {
        return BufferFull;
      }
      ghost var was := buffer;
      buffer := buffer + msg[..w.written];
      bytesCounter := bytesCounter + w.written;
      if w.newline {
        buffer := buffer + [NEWLINE];
      }
      assert buffer == was + (msg[..w.written] + if w.newline then [NEWLINE] else []);
      r := if w.failed then WriteFailed else Accepted;
    }

    /** Hooks' own errors are only logged, so they do not appear here. */
    method Flush(uploaded: bool)
      modifies this`buffer, this`bytesCounter, this`objects, this`effects
      ensures State() == AfterFlush(old(State()), uploaded)
      ensures effects == old(effects) + FlushEffects(old(State()).out, onFlushFunc, uploaded)
      ensures HooksFollowUpload(effects[|old(effects)|..], old(State()).out, onFlushFunc, uploaded)
    {
      FlushEffectsInOrder(State().out, onFlushFunc, uploaded);
      assert effects + FlushEffects(State().out, onFlushFunc, uploaded)
             == old(effects) + FlushEffects(State().out, onFlushFunc, uploaded);
      if bytesCounter == 0 {
        return;
      }
      if !uploaded {
        return;
      }
      objects := objects + [buffer];
      effects := effects + [Uploaded(buffer)];
      ghost var before := effects;
      var i := 0;
      while i < |onFlushFunc|
        invariant 0 <= i <= |onFlushFunc|
        invariant effects == before + HookCalls(onFlushFunc)[..i]
        modifies this`effects
      {
        effects := effects + [HookCalled(onFlushFunc[i])];
        i := i + 1;
      }
      assert HookCalls(onFlushFunc)[..i] == HookCalls(onFlushFunc);
      buffer := [];
      bytesCounter := 0;
      effects := effects + [BufferRecreated];
    }

    /** The body of Start's loop. */
    method StartRound(timer: bool, uploaded: bool)
      modifies this`buffer, this`bytesCounter, this`objects, this`effects
      ensures State() == AfterRound(old(State()), flushMaxBytes, timer, uploaded)
    {
      if isStop {
        return;
      }
      var numBytes := bytesCounter;
      if flushMaxBytes > 0 && numBytes >= flushMaxBytes {
        Flush(uploaded);
        return;
      }
      if timer {
        Flush(uploaded);
      }
    }

    method Stop(uploaded: bool)
      modifies this`isStop, this`buffer, this`bytesCounter, this`objects, this`effects
      ensures State() == AfterStop(old(State()), uploaded)
      ensures effects == old(effects) + FlushEffects(old(State()).out, onFlushFunc, uploaded)
      ensures HooksFollowUpload(effects[|old(effects)|..], old(State()).out, onFlushFunc, uploaded)
    {
      isStop := true;
      Flush(uploaded);
    }
  }

  // ---------------------------------------------------------------- framing

  /** Every message followed by a newline. */
  function Frame(msgs: seq<Bytes>): Bytes {
    if msgs == [] then [] else Frame(msgs[..|msgs| - 1]) + (msgs[|msgs| - 1] + [NEWLINE])
  }

  /** Reads lines back: the text up to each newline; text after the last one is kept apart. */
  function Lines(text: Bytes): (r: (seq<Bytes>, Bytes)) {
    if text == [] then ([], [])
    else
      var (lines, rest) := Lines(text[..|text| - 1]);
      var c := text[|text| - 1];
      if c == NEWLINE then (lines + [rest], []) else (lines, rest + [c])
  }

  predicate NewlineFree(msgs: seq<Bytes>) {
    forall i :: 0 <= i < |msgs| ==> NEWLINE !in msgs[i]
  }

  lemma {:induction false} LinesOfUnterminated(text: Bytes, tail: Bytes)
    requires Lines(text).1 == [] && NEWLINE !in tail
    ensures Lines(text + tail) == (Lines(text).0, tail)
  {
    if tail == [] {
      assert text + tail == text;
    } else {
      var n := |tail| - 1;
      LinesOfUnterminated(text, tail[..n]);
      assert (text + tail)[..|text + tail| - 1] == text + tail[..n];
      assert tail[..n] + [tail[n]] == tail;
    }
  }

  /** Splitting a framed text on newlines gives back exactly the messages. */
  lemma {:induction false} FrameRoundTrip(msgs: seq<Bytes>)
    requires NewlineFree(msgs)
    ensures Lines(Frame(msgs)) == (msgs, [])
  {
    if msgs != [] {
      var n := |msgs| - 1;
      FrameRoundTrip(msgs[..n]);
      LinesOfUnterminated(Frame(msgs[..n]), msgs[n]);
      var text := Frame(msgs);
      assert text[..|text| - 1] == Frame(msgs[..n]) + msgs[n];
      assert msgs[..n] + [msgs[n]] == msgs;
    }
  }

  lemma FrameOneMore(msgs: seq<Bytes>, msg: Bytes)
    ensures Frame(msgs + [msg]) == Frame(msgs) + (msg + [NEWLINE])
  {
    assert (msgs + [msg])[..|msgs|] == msgs;
  }

  lemma AddAssociates(a: Bytes, b: Bytes, c: Bytes)
    ensures a + b + c == a + (b + c)
  {
  }

  lemma {:induction false} FrameConcat(a: seq<Bytes>, b: seq<Bytes>)
    ensures Frame(a + b) == Frame(a) + Frame(b)
  {
    if b == [] {
      assert a + b == a;
    } else {
      var n := |b| - 1;
      FrameConcat(a, b[..n]);
      assert a + b == (a + b[..n]) + [b[n]];
      FrameOneMore(a + b[..n], b[n]);
      AddAssociates(Frame(a), Frame(b[..n]), b[n] + [NEWLINE]);
    }
  }

  // ------------------------------------------------- refinement over runs

  /** One use of the output by any of its clients: the worker, the flush loop or the shutdown. */
  datatype Op = DoOffer(msg: Bytes, w: WriteOutcome) | DoRound(timer: bool, uploaded: bool) | DoStop(uploaded: bool)

  predicate Feasible(ops: seq<Op>) {
    forall i :: 0 <= i < |ops| && ops[i].DoOffer? ==> Possible(ops[i].w, ops[i].msg)
  }

  predicate CleanWrites(ops: seq<Op>) {
    forall i :: 0 <= i < |ops| && ops[i].DoOffer? ==> Clean(ops[i].w)
  }

  function Step(flushMaxBytes: int, s: Sink, op: Op): Sink
    requires op.DoOffer? ==> Possible(op.w, op.msg)
  {
    match op
    case DoOffer(msg, w) => s.(out := OfferTo(s.out, flushMaxBytes, msg, w).0)
    case DoRound(timer, uploaded) => AfterRound(s, flushMaxBytes, timer, uploaded)
    case DoStop(uploaded) => AfterStop(s, uploaded)
  }

  function Run(flushMaxBytes: int, ops: seq<Op>): Sink
    requires Feasible(ops)
  {
    if ops == [] then Sink(EMPTY_OUTPUT, [])
    else Step(flushMaxBytes, Run(flushMaxBytes, ops[..|ops| - 1]), ops[|ops| - 1])
  }

  function AcceptedIn(flushMaxBytes: int, s: Sink, op: Op): seq<Bytes>
    requires op.DoOffer? ==> Possible(op.w, op.msg)
  {
    if op.DoOffer? && OfferTo(s.out, flushMaxBytes, op.msg, op.w).1.Accepted? then [op.msg] else []
  }

  /** The bytes that the offers of a run left in files, in order, for all write
      outcomes; an offer rejected before its write leaves none. */
  function WrittenBy(flushMaxBytes: int, ops: seq<Op>): Bytes
    requires Feasible(ops)
  {
    if ops == [] then []
    else
      var n := |ops| - 1;
      var out, op := Run(flushMaxBytes, ops[..n]).out, ops[n];
      WrittenBy(flushMaxBytes, ops[..n]) +
      if op.DoOffer? && !out.isStop && out.bytesCounter < flushMaxBytes then WrittenBytes(op.msg, op.w) else []
  }

  /** The messages whose OnMessage call returned no error, in order. */
  function AcceptedBy(flushMaxBytes: int, ops: seq<Op>): seq<Bytes>
    requires Feasible(ops)
  {
    if ops == [] then []
    else
      var n := |ops| - 1;
      AcceptedBy(flushMaxBytes, ops[..n]) + AcceptedIn(flushMaxBytes, Run(flushMaxBytes, ops[..n]), ops[n])
  }

  /** The simple form: accepted messages in closed batches and one open batch. */
  datatype Batches = Batches(closed: seq<seq<Bytes>>, open: seq<Bytes>)

  function TotalLength(msgs: seq<Bytes>): nat {
    if msgs == [] then 0 else TotalLength(msgs[..|msgs| - 1]) + |msgs[|msgs| - 1]|
  }

  function Flatten(batches: seq<seq<Bytes>>): seq<Bytes> {
    if batches == [] then [] else Flatten(batches[..|batches| - 1]) + batches[|batches| - 1]
  }

  function Concat(objects: seq<Bytes>): Bytes {
    if objects == [] then [] else Concat(objects[..|objects| - 1]) + objects[|objects| - 1]
  }

  ghost predicate Represents(s: Sink, b: Batches) {
    && |s.objects| == |b.closed|
    && (forall i :: 0 <= i < |b.closed| ==> s.objects[i] == Frame(b.closed[i]))
    && s.out.buffer == Frame(b.open)
    && s.out.bytesCounter == TotalLength(b.open)
  }

  lemma ConcatOfFrames(s: Sink, b: Batches)
    requires Represents(s, b)
    ensures Concat(s.objects) + s.out.buffer == Frame(Flatten(b.closed) + b.open)
  {
    ConcatFramed(s.objects, b.closed);
    FrameConcat(Flatten(b.closed), b.open);
  }

  lemma {:induction false} ConcatFramed(objects: seq<Bytes>, closed: seq<seq<Bytes>>)
    requires |objects| == |closed|
    requires forall i :: 0 <= i < |closed| ==> objects[i] == Frame(closed[i])
    ensures Concat(objects) == Frame(Flatten(closed))
  {
    if closed != [] {
      var n := |closed| - 1;
      ConcatFramed(objects[..n], closed[..n]);
      FrameConcat(Flatten(closed[..n]), closed[n]);
    }
  }

  /** With clean writes the byte-level output refines batches of whole
      messages: no message is torn across two objects, repeated, reordered or
      lost, through any mixture of rejected offers and failed uploads. */
  lemma {:induction false} RunRefinesBatches(flushMaxBytes: int, ops: seq<Op>) returns (b: Batches)
    requires Feasible(ops) && CleanWrites(ops)
    ensures Represents(Run(flushMaxBytes, ops), b)
    ensures Flatten(b.closed) + b.open == AcceptedBy(flushMaxBytes, ops)
  {
    if ops == [] {
      b := Batches([], []);
    } else {
      var n := |ops| - 1;
      var prior := RunRefinesBatches(flushMaxBytes, ops[..n]);
      b := StepRefinesBatches(flushMaxBytes, Run(flushMaxBytes, ops[..n]), prior, ops[n]);
    }
  }

  lemma StepRefinesBatches(flushMaxBytes: int, s: Sink, prior: Batches, op: Op) returns (b: Batches)
    requires Represents(s, prior) && (op.DoOffer? ==> Possible(op.w, op.msg) && Clean(op.w))
    ensures Represents(Step(flushMaxBytes, s, op), b)
    ensures Flatten(b.closed) + b.open == Flatten(prior.closed) + prior.open + AcceptedIn(flushMaxBytes, s, op)
  {
    match op
    case DoOffer(msg, w) =>
      b := ExtendBatch(s, prior, flushMaxBytes, msg, w);
    case DoRound(timer, uploaded) =>
      b := CloseBatch(s, prior, uploaded && AfterRound(s, flushMaxBytes, timer, uploaded) != s);
    case DoStop(uploaded) =>
      b := CloseBatch(s.(out := s.out.(isStop := true)), prior, uploaded);
  }

  lemma ExtendBatch(s: Sink, prior: Batches, flushMaxBytes: int, msg: Bytes, w: WriteOutcome) returns (b: Batches)
    requires Represents(s, prior) && Possible(w, msg) && Clean(w)
    ensures var (out, r) := OfferTo(s.out, flushMaxBytes, msg, w);
            && Represents(s.(out := out), b)
            && b == prior.(open := prior.open + if r.Accepted? then [msg] else [])
  {
    if OfferTo(s.out, flushMaxBytes, msg, w).1.Accepted? {
      b := Batches(prior.closed, prior.open + [msg]);
      assert b.open[..|b.open| - 1] == prior.open;
      assert msg[..w.written] == msg;
    } else {
      b := prior;
      assert prior.open + [] == prior.open;
    }
  }

  lemma CloseBatch(s: Sink, prior: Batches, uploaded: bool) returns (b: Batches)
    requires Represents(s, prior)
    ensures Represents(AfterFlush(s, uploaded), b)
    ensures Flatten(b.closed) + b.open == Flatten(prior.closed) + prior.open
  {
    if Flushes(s.out, uploaded) {
      b := Batches(prior.closed + [prior.open], []);
      assert b.closed[..|b.closed| - 1] == prior.closed;
    } else {
      b := prior;
    }
  }

  /** The uploaded objects followed by the buffer are the newline-framed
      accepted messages, and newline-free messages are recovered exactly. */
  lemma {:induction false} NothingLostOrRepeated(flushMaxBytes: int, ops: seq<Op>)
    requires Feasible(ops) && CleanWrites(ops)
    ensures var s := Run(flushMaxBytes, ops);
            var accepted := AcceptedBy(flushMaxBytes, ops);
            && Concat(s.objects) + s.out.buffer == Frame(accepted)
            && (NewlineFree(accepted) ==> Lines(Concat(s.objects) + s.out.buffer) == (accepted, []))
  {
    var b := RunRefinesBatches(flushMaxBytes, ops);
    ConcatOfFrames(Run(flushMaxBytes, ops), b);
    if NewlineFree(AcceptedBy(flushMaxBytes, ops)) {
      FrameRoundTrip(AcceptedBy(flushMaxBytes, ops));
    }
  }

  /** For all write outcomes, torn ones included: the uploaded objects followed by
      the buffer are all bytes that reached a file, in order and once. */
  lemma {:induction false} EveryByteOnce(flushMaxBytes: int, ops: seq<Op>)
    requires Feasible(ops)
    ensures var s := Run(flushMaxBytes, ops); Concat(s.objects) + s.out.buffer == WrittenBy(flushMaxBytes, ops)
  {
    if ops != [] {
      var n := |ops| - 1;
      EveryByteOnce(flushMaxBytes, ops[..n]);
      StepWrites(flushMaxBytes, Run(flushMaxBytes, ops[..n]), ops[n]);
    }
  }

  lemma StepWrites(flushMaxBytes: int, s: Sink, op: Op)
    requires op.DoOffer? ==> Possible(op.w, op.msg)
    ensures var s' := Step(flushMaxBytes, s, op);
            Concat(s'.objects) + s'.out.buffer == Concat(s.objects) + s.out.buffer +
              if op.DoOffer? && !s.out.isStop && s.out.bytesCounter < flushMaxBytes then WrittenBytes(op.msg, op.w) else []
  {
    var all := Concat(s.objects) + s.out.buffer;
    assert (s.objects + [s.out.buffer])[..|s.objects|] == s.objects;
    assert all + [] == all;
    match op
    case DoOffer(msg, w) =>
      AcceptedIff(s.out, flushMaxBytes, msg, w);
      assert Concat(s.objects) + (s.out.buffer + WrittenBytes(msg, w)) == all + WrittenBytes(msg, w);
    case DoRound(timer, uploaded) => RoundUploadsIff(s, flushMaxBytes, timer, uploaded);
    case DoStop(uploaded) => StopUploadsTheRest(s, uploaded);
  }

  /** A stop is final: whatever follows, the output stays stopped and no more
      bytes reach its file. */
  lemma {:induction false} StopIsFinal(flushMaxBytes: int, before: seq<Op>, uploaded: bool, later: seq<Op>)
    requires Feasible(before) && Feasible(later)
    ensures var ops := before + [DoStop(uploaded)] + later;
            && Feasible(ops) && Run(flushMaxBytes, ops).out.isStop
            && WrittenBy(flushMaxBytes, ops) == WrittenBy(flushMaxBytes, before)
  {
    if later == [] {
      StoppedWritesNothing(flushMaxBytes, before, DoStop(uploaded));
      assert before + [DoStop(uploaded)] + later == before + [DoStop(uploaded)];
    } else {
      var n := |later| - 1;
      StopIsFinal(flushMaxBytes, before, uploaded, later[..n]);
      StoppedWritesNothing(flushMaxBytes, before + [DoStop(uploaded)] + later[..n], later[n]);
      assert before + [DoStop(uploaded)] + later == before + [DoStop(uploaded)] + later[..n] + [later[n]];
    }
  }

  lemma StoppedWritesNothing(flushMaxBytes: int, ops: seq<Op>, op: Op)
    requires Feasible(ops) && (op.DoOffer? ==> Possible(op.w, op.msg))
    requires op.DoStop? || Run(flushMaxBytes, ops).out.isStop
    ensures Feasible(ops + [op]) && Run(flushMaxBytes, ops + [op]).out.isStop
    ensures WrittenBy(flushMaxBytes, ops + [op]) == WrittenBy(flushMaxBytes, ops)
  {
    assert (ops + [op])[..|ops|] == ops;
    assert WrittenBy(flushMaxBytes, ops) + [] == WrittenBy(flushMaxBytes, ops);
  }

  /** For all write outcomes, clean or not: the byte counter overshoots the
      flush threshold by less than one message, and with a threshold that is
      not positive nothing is ever accepted. */
  lemma {:induction false} CounterBounded(flushMaxBytes: int, ops: seq<Op>, longest: nat)
    requires Feasible(ops)
    requires forall i :: 0 <= i < |ops| && ops[i].DoOffer? ==> |ops[i].msg| <= longest
    ensures var out := Run(flushMaxBytes, ops).out;
            if flushMaxBytes > 0 then out.bytesCounter <= flushMaxBytes - 1 + longest
            else out.bytesCounter == 0 && AcceptedBy(flushMaxBytes, ops) == []
  {
    if ops != [] {
      CounterBounded(flushMaxBytes, ops[..|ops| - 1], longest);
    }
  }
}
