/**
 Object names are made from the topic and a clock with a resolution of one
 second, and an upload replaces an object of the same name. Delivery is lossless
 exactly for the name sequences without a repetition.
 */
module ObjectNames {
  import opened Wrappers
  import opened GcsOutput
  import opened ConsumerGroup
  import opened Delivery

  /** Every legal run that uploads under these names, of any log and any number of processes, loses nothing. */
  ghost predicate AlwaysLossless(flushMaxBytes: int, names: seq<nat>) {
    forall log: Log, n: nat, run: seq<Action> |
      Legal(log, flushMaxBytes, Init(n), run) && UploadNames(run) == names ::
      NoLoss(log, After(log, flushMaxBytes, Init(n), run))
  }

  lemma {:induction false} LegalConcat(log: Log, flushMaxBytes: int, s: System, a: seq<Action>, b: seq<Action>)
    requires Legal(log, flushMaxBytes, s, a) && Legal(log, flushMaxBytes, After(log, flushMaxBytes, s, a), b)
    ensures Legal(log, flushMaxBytes, s, a + b)
    ensures After(log, flushMaxBytes, s, a + b) == After(log, flushMaxBytes, After(log, flushMaxBytes, s, a), b)
    decreases |a|
  {
    if a == [] {
      assert a + b == b;
    } else {
      LegalConcat(log, flushMaxBytes, Next(log, flushMaxBytes, s, a[0]), a[1..], b);
      assert (a + b)[1..] == a[1..] + b;
    }
  }

  lemma {:induction false} UploadNamesConcat(a: seq<Action>, b: seq<Action>)
    ensures UploadNames(a + b) == UploadNames(a) + UploadNames(b)
    decreases |a|
  {
    if a == [] {
      assert a + b == b;
    } else {
      UploadNamesConcat(a[1..], b);
      assert a + b == [a[0]] + (a[1..] + b);
      NamesOfHead(a[0], a[1..] + b, a + b);
      NamesOfHead(a[0], a[1..], a);
    }
  }

  // ------------------------------------- a run for any sequence of names

  const SAMPLE_LOG: Log := (id: Id) => Some([65])

  function SampleBucket(names: seq<nat>): map<nat, Object> {
    if names == [] then map[]
    else
      var k := |names| - 1;
      SampleBucket(names[..k])[names[k] := Object([65, NEWLINE], [Id(0, k)])]
  }

  /** The sample process: offsets delivered and marked, channel, worker and output. */
  function SampleProcess(next: nat, marked: nat, queue: seq<Id>, work: Work, out: Output, held: seq<Id>, flush: FlushPhase): Process {
    Process(AdapterState(Some(SessionState(map[0 := next], map[0 := marked])), queue), work, out, held, flush)
  }

  function Resting(k: nat): Process {
    SampleProcess(k, k, [], Ready, EMPTY_OUTPUT, [], Idle)
  }

  const ONE_LINE := Output([65, NEWLINE], 1, false)

  function Loaded(k: nat, flush: FlushPhase): Process {
    SampleProcess(k + 1, k + 1, [], Ready, ONE_LINE, [Id(0, k)], flush)
  }

  function Requests(k: nat): set<Request> {
    set j | 1 <= j <= k :: Request(0, j)
  }

  /** The state after one record was consumed, uploaded and committed per name. */
  function SampleState(names: seq<nat>): System {
    var k := |names|;
    System([Resting(k)], SampleBucket(names), Requests(k), if k == 0 then map[] else map[0 := k])
  }

  const CLEAN_WRITE := WriteOutcome(1, false, true)

  function ConsumeRound(): seq<Action> {
    [Local(0, Deliver(0)), Local(0, Take), Local(0, Offer(CLEAN_WRITE)), Local(0, Mark)]
  }

  function FlushRound(k: nat, name: nat): seq<Action> {
    [Local(0, LockFlush), Local(0, UploadOk(name)), Local(0, RequestCommit(0)), ApplyCommit(Request(0, k + 1)), Local(0, FinishFlush)]
  }

  /** One action in front of a run. */
  lemma Prepend(log: Log, flushMaxBytes: int, s: System, a: Action, rest: seq<Action>)
    requires Enabled(log, s, a) && Legal(log, flushMaxBytes, Next(log, flushMaxBytes, s, a), rest)
    ensures Legal(log, flushMaxBytes, s, [a] + rest)
    ensures After(log, flushMaxBytes, s, [a] + rest) == After(log, flushMaxBytes, Next(log, flushMaxBytes, s, a), rest)
  {
    assert ([a] + rest)[1..] == rest;
  }

  /** The action is possible and leads from s to s'. */
  predicate Leads(flushMaxBytes: int, s: System, a: Action, s': System) {
    Enabled(SAMPLE_LOG, s, a) && Next(SAMPLE_LOG, flushMaxBytes, s, a) == s'
  }

  /** An action that only changes its process. */
  lemma LocalLeads(flushMaxBytes: int, s: System, act: Act, pr: Process)
    requires |s.procs| == 1 && CanAct(SAMPLE_LOG, s.procs[0], act) && !act.UploadOk? && !act.RequestCommit?
    requires AfterAct(SAMPLE_LOG, flushMaxBytes, s.committed, s.procs[0], act) == pr
    ensures Leads(flushMaxBytes, s, Local(0, act), s.(procs := [pr]))
  {
    assert s.procs[0 := pr] == [pr];
  }

  lemma DeliverAndTake(flushMaxBytes: int, s: System, k: nat)
    requires s.procs == [Resting(k)]
    ensures var queued := SampleProcess(k + 1, k, [Id(0, k)], Ready, EMPTY_OUTPUT, [], Idle);
            var taken := SampleProcess(k + 1, k, [], Handling(Id(0, k)), EMPTY_OUTPUT, [], Idle);
            && Leads(flushMaxBytes, s, Local(0, Deliver(0)), s.(procs := [queued]))
            && Leads(flushMaxBytes, s.(procs := [queued]), Local(0, Take), s.(procs := [taken]))
  {
    var queued := SampleProcess(k + 1, k, [Id(0, k)], Ready, EMPTY_OUTPUT, [], Idle);
    var delivered := AfterDeliver(Resting(k).adapter, 0);
    assert delivered.session.value.next == map[0 := k + 1] && delivered.messages == [Id(0, k)];
    LocalLeads(flushMaxBytes, s, Deliver(0), queued);
    assert queued.adapter.messages[1..] == [];
    LocalLeads(flushMaxBytes, s.(procs := [queued]), Take, SampleProcess(k + 1, k, [], Handling(Id(0, k)), EMPTY_OUTPUT, [], Idle));
  }

  lemma OfferAndMark(flushMaxBytes: int, s: System, k: nat)
    requires flushMaxBytes > 0
    ensures var taken := SampleProcess(k + 1, k, [], Handling(Id(0, k)), EMPTY_OUTPUT, [], Idle);
            var buffered := SampleProcess(k + 1, k, [], Handled(Id(0, k)), ONE_LINE, [Id(0, k)], Idle);
            && Leads(flushMaxBytes, s.(procs := [taken]), Local(0, Offer(CLEAN_WRITE)), s.(procs := [buffered]))
            && Leads(flushMaxBytes, s.(procs := [buffered]), Local(0, Mark), s.(procs := [Loaded(k, Idle)]))
  {
    var taken := SampleProcess(k + 1, k, [], Handling(Id(0, k)), EMPTY_OUTPUT, [], Idle);
    var buffered := SampleProcess(k + 1, k, [], Handled(Id(0, k)), ONE_LINE, [Id(0, k)], Idle);
    assert Append(EMPTY_OUTPUT, flushMaxBytes, [65], CLEAN_WRITE) == (ONE_LINE, Accepted) by {
      assert [] + ([65][..1] + [NEWLINE]) == ONE_LINE.buffer;
    }
    LocalLeads(flushMaxBytes, s.(procs := [taken]), Offer(CLEAN_WRITE), buffered);
    assert AfterMark(buffered.adapter, Id(0, k)).session.value.marks == map[0 := k + 1];
    LocalLeads(flushMaxBytes, s.(procs := [buffered]), Mark, Loaded(k, Idle));
  }

  lemma ConsumeHalf(flushMaxBytes: int, s: System, k: nat)
    requires flushMaxBytes > 0 && s.procs == [Resting(k)]
    ensures Legal(SAMPLE_LOG, flushMaxBytes, s, ConsumeRound())
    ensures After(SAMPLE_LOG, flushMaxBytes, s, ConsumeRound()) == s.(procs := [Loaded(k, Idle)])
  {
    var a, b, c, d := Local(0, Deliver(0)), Local(0, Take), Local(0, Offer(CLEAN_WRITE)), Local(0, Mark);
    DeliverAndTake(flushMaxBytes, s, k);
    OfferAndMark(flushMaxBytes, s, k);
    var s1 := Next(SAMPLE_LOG, flushMaxBytes, s, a);
    var s2 := Next(SAMPLE_LOG, flushMaxBytes, s1, b);
    var s3 := Next(SAMPLE_LOG, flushMaxBytes, s2, c);
    Chain4(flushMaxBytes, s, a, s1, b, s2, c, s3, d, s.(procs := [Loaded(k, Idle)]));
  }

  lemma Chain4(flushMaxBytes: int, s0: System, a: Action, s1: System, b: Action, s2: System, c: Action, s3: System, d: Action, s4: System)
    requires Leads(flushMaxBytes, s0, a, s1) && Leads(flushMaxBytes, s1, b, s2)
    requires Leads(flushMaxBytes, s2, c, s3) && Leads(flushMaxBytes, s3, d, s4)
    ensures Legal(SAMPLE_LOG, flushMaxBytes, s0, [a, b, c, d]) && After(SAMPLE_LOG, flushMaxBytes, s0, [a, b, c, d]) == s4
  {
    Prepend(SAMPLE_LOG, flushMaxBytes, s3, d, []);
    Prepend(SAMPLE_LOG, flushMaxBytes, s2, c, [d]);
    Prepend(SAMPLE_LOG, flushMaxBytes, s1, b, [c, d]);
    Prepend(SAMPLE_LOG, flushMaxBytes, s0, a, [b, c, d]);
    assert [d] + [] == [d] && [c] + [d] == [c, d] && [b] + [c, d] == [b, c, d] && [a] + [b, c, d] == [a, b, c, d];
  }

  lemma UploadAndRequest(flushMaxBytes: int, s: System, k: nat, name: nat)
    ensures var locked, uploaded := s.(procs := [Loaded(k, Uploading)]), s.(procs := [Loaded(k, Committing)]);
            var bucket := s.bucket[name := Object([65, NEWLINE], [Id(0, k)])];
            && Leads(flushMaxBytes, locked, Local(0, UploadOk(name)), uploaded.(bucket := bucket))
            && Leads(flushMaxBytes, uploaded.(bucket := bucket), Local(0, RequestCommit(0)),
                     uploaded.(bucket := bucket, requests := s.requests + {Request(0, k + 1)}))
  {
    assert [Loaded(k, Uploading)][0 := Loaded(k, Committing)] == [Loaded(k, Committing)];
    assert [Loaded(k, Committing)][0 := Loaded(k, Committing)] == [Loaded(k, Committing)];
  }

  lemma FlushHalf(flushMaxBytes: int, names: seq<nat>, name: nat)
    ensures var s := SampleState(names).(procs := [Loaded(|names|, Idle)]);
            && Legal(SAMPLE_LOG, flushMaxBytes, s, FlushRound(|names|, name))
            && After(SAMPLE_LOG, flushMaxBytes, s, FlushRound(|names|, name)) == SampleState(names + [name])
  {
    var k := |names|;
    var a, b, c := Local(0, LockFlush), Local(0, UploadOk(name)), Local(0, RequestCommit(0));
    var d, e := ApplyCommit(Request(0, k + 1)), Local(0, FinishFlush);
    var s0 := SampleState(names).(procs := [Loaded(k, Idle)]);
    LocalLeads(flushMaxBytes, s0, LockFlush, Loaded(k, Uploading));
    UploadAndRequest(flushMaxBytes, s0, k, name);
    var s1 := Next(SAMPLE_LOG, flushMaxBytes, s0, a);
    var s2 := Next(SAMPLE_LOG, flushMaxBytes, s1, b);
    var s3 := Next(SAMPLE_LOG, flushMaxBytes, s2, c);
    var s4 := s3.(committed := s3.committed[0 := k + 1]);
    LocalLeads(flushMaxBytes, s4, FinishFlush, Resting(k + 1));
    CommittedRound(names, name);
    assert Leads(flushMaxBytes, s3, d, s4);
    Chain4(flushMaxBytes, s1, b, s2, c, s3, d, s4, e, SampleState(names + [name]));
    Prepend(SAMPLE_LOG, flushMaxBytes, s0, a, [b, c, d, e]);
    assert [a] + [b, c, d, e] == FlushRound(k, name);
  }

  lemma CommittedRound(names: seq<nat>, name: nat)
    ensures var k, next := |names|, SampleState(names + [name]);
            && next.bucket == SampleState(names).bucket[name := Object([65, NEWLINE], [Id(0, k)])]
            && next.requests == SampleState(names).requests + {Request(0, k + 1)}
            && next.committed == SampleState(names).committed[0 := k + 1]
            && next.procs == [Resting(k + 1)]
  {
    assert (names + [name])[..|names|] == names;
    assert Requests(|names| + 1) == Requests(|names|) + {Request(0, |names| + 1)};
  }

  function SampleRun(names: seq<nat>): seq<Action> {
    if names == [] then [Local(0, Join({0}))]
    else SampleRun(names[..|names| - 1]) + (ConsumeRound() + FlushRound(|names| - 1, names[|names| - 1]))
  }

  lemma SampleStart(flushMaxBytes: int)
    ensures Legal(SAMPLE_LOG, flushMaxBytes, Init(1), [Local(0, Join({0}))])
    ensures After(SAMPLE_LOG, flushMaxBytes, Init(1), [Local(0, Join({0}))]) == SampleState([])
  {
    assert StartSession(map[], {0}).next == map[0 := 0];
    LocalLeads(flushMaxBytes, Init(1), Join({0}), Resting(0));
    Prepend(SAMPLE_LOG, flushMaxBytes, Init(1), Local(0, Join({0})), []);
    assert [Local(0, Join({0}))] + [] == [Local(0, Join({0}))];
    assert Requests(0) == {};
  }

  lemma {:induction false} SampleRunWorks(flushMaxBytes: int, names: seq<nat>)
    requires flushMaxBytes > 0
    ensures Legal(SAMPLE_LOG, flushMaxBytes, Init(1), SampleRun(names))
    ensures After(SAMPLE_LOG, flushMaxBytes, Init(1), SampleRun(names)) == SampleState(names)
  {
    if names == [] {
      SampleStart(flushMaxBytes);
    } else {
      var k := |names| - 1;
      var earlier, flush := names[..k], FlushRound(k, names[k]);
      SampleRunWorks(flushMaxBytes, earlier);
      ConsumeHalf(flushMaxBytes, SampleState(earlier), k);
      FlushHalf(flushMaxBytes, earlier, names[k]);
      LegalConcat(SAMPLE_LOG, flushMaxBytes, SampleState(earlier), ConsumeRound(), flush);
      LegalConcat(SAMPLE_LOG, flushMaxBytes, Init(1), SampleRun(earlier), ConsumeRound() + flush);
      assert earlier + [names[k]] == names;
    }
  }

  lemma {:induction false} SampleRunUploads(names: seq<nat>)
    ensures UploadNames(SampleRun(names)) == names
  {
    if names != [] {
      var k := |names| - 1;
      SampleRunUploads(names[..k]);
      RoundUploads(k, names[k]);
      UploadNamesConcat(SampleRun(names[..k]), ConsumeRound() + FlushRound(k, names[k]));
      assert names[..k] + [names[k]] == names;
    }
  }

  lemma RoundUploads(k: nat, name: nat)
    ensures UploadNames(ConsumeRound() + FlushRound(k, name)) == [name]
  {
    var consume, flush := ConsumeRound(), FlushRound(k, name);
    UploadNamesConcat(consume, flush);
    NamesOfHead(Local(0, Deliver(0)), [Local(0, Take), Local(0, Offer(CLEAN_WRITE)), Local(0, Mark)], consume);
    NamesOfHead(Local(0, Take), [Local(0, Offer(CLEAN_WRITE)), Local(0, Mark)], consume[1..]);
    NamesOfHead(Local(0, Offer(CLEAN_WRITE)), [Local(0, Mark)], consume[1..][1..]);
    var d, e := ApplyCommit(Request(0, k + 1)), Local(0, FinishFlush);
    NamesOfHead(Local(0, LockFlush), [Local(0, UploadOk(name)), Local(0, RequestCommit(0)), d, e], flush);
    NamesOfHead(Local(0, UploadOk(name)), [Local(0, RequestCommit(0)), d, e], flush[1..]);
    NamesOfHead(Local(0, RequestCommit(0)), [d, e], flush[1..][1..]);
    NamesOfHead(d, [e], flush[1..][1..][1..]);
  }

  lemma NamesOfHead(a: Action, rest: seq<Action>, run: seq<Action>)
    requires run == [a] + rest
    ensures run[1..] == rest
    ensures UploadNames(run) == (if a.Local? && a.act.UploadOk? then [a.act.name] else []) + UploadNames(rest)
  {
  }

  /** An object's name leads to the last record uploaded under it. */
  lemma {:induction false} LastUploadWins(names: seq<nat>, name: nat)
    requires name in SampleBucket(names)
    ensures exists k: nat :: k < |names| && names[k] == name && SampleBucket(names)[name].records == [Id(0, k)]
                             && forall j | k < j < |names| :: names[j] != name
  {
    var n := |names| - 1;
    if names[n] != name {
      LastUploadWins(names[..n], name);
      var k: nat :| k < n && names[..n][k] == name && SampleBucket(names[..n])[name].records == [Id(0, k)]
                    && forall j | k < j < n :: names[..n][j] != name;
      assert names[k] == name && forall j | k < j < |names| :: names[j] != name;
    }
  }

  /** A repeated name: the record uploaded first is committed and in no object. */
  lemma RepetitionLoses(names: seq<nat>, i: nat, j: nat)
    requires i < j < |names| && names[i] == names[j]
    ensures !NoLoss(SAMPLE_LOG, SampleState(names))
  {
    var s := SampleState(names);
    forall name | name in s.bucket
      ensures Id(0, i) !in s.bucket[name].records
    {
      LastUploadWins(names, name);
      var k: nat :| k < |names| && names[k] == name && s.bucket[name].records == [Id(0, k)]
                    && forall j' | k < j' < |names| :: names[j'] != name;
      assert k != i;
    }
    assert 0 in s.committed && i < s.committed[0] && SAMPLE_LOG(Id(0, i)).Some?;
  }

  /** Lossless for every run exactly when no name is used twice. */
  lemma LosslessIffNamesDistinct(flushMaxBytes: int, names: seq<nat>)
    requires flushMaxBytes > 0
    ensures AlwaysLossless(flushMaxBytes, names) <==> Distinct(names)
  {
    if Distinct(names) {
      forall log: Log, n: nat, run: seq<Action> | Legal(log, flushMaxBytes, Init(n), run) && UploadNames(run) == names
        ensures NoLoss(log, After(log, flushMaxBytes, Init(n), run))
      {
        DeliveryIsLossless(log, flushMaxBytes, n, run);
      }
    } else {
      var i, j :| 0 <= i < j < |names| && names[i] == names[j];
      RepetitionLoses(names, i, j);
      SampleRunWorks(flushMaxBytes, names);
      SampleRunUploads(names);
    }
  }
}
