/**
 Topic creation by racing producers: look a topic up in a possibly stale cache,
 create it on the broker, announce it once, then send logs.
 */
module TopicProtocol {
  import opened Wrappers

  /** A request handler's position. `Adding` holds the cache slice that AddTopic
      has read but not yet written back. */
  datatype Pc =
    | Idle
    | Looking(topic: string)
    | Refreshing(topic: string)
    | LookingAgain(topic: string)
    | Creating(topic: string)
    | Created(topic: string)
    | Adding(topic: string, read: seq<string>)
    | Announcing(topic: string)
    | Sending(topic: string)

  /** What happened at the broker, in order: a topic came to exist, with the
      handler that knows it created it, if any; a new-topic event or a log of a
      handler arrived; or a handler's event was refused. */
  datatype Entry =
    | NewTopic(topic: string, creator: Option<nat>)
    | Event(topic: string, sender: nat)
    | EventRefused(topic: string, sender: nat)
    | Log(topic: string, sender: nat)

  /** `home[i]` is the producer process of handler i; handlers of one process share its cache. */
  datatype World = World(topics: set<string>, caches: seq<seq<string>>, home: seq<nat>, pcs: seq<Pc>, trace: seq<Entry>)

  predicate WellFormed(w: World) {
    |w.home| == |w.pcs| && forall i :: 0 <= i < |w.home| ==> w.home[i] < |w.caches|
  }

  function Elements(s: seq<string>): set<string> {
    set t | t in s
  }

  /** Outcome of a request to the broker: done, refused, or done with the answer lost. */
  datatype Outcome = Done | Refused | DoneButError

  datatype Step =
    | Begin(i: nat, topic: string)
    | Look(i: nat)                              // one scan of the cached topics
    | Refresh(process: nat, listing: seq<string>)  // a cache is overwritten by a sound, perhaps stale listing
    | RefreshOver(i: nat)                       // whatever became of the refresh
    | Create(i: nat, o: Outcome)
    | ReadCache(i: nat)                         // AddTopic, first half
    | WriteCache(i: nat)                        // AddTopic, second half
    | Announce(i: nat, o: Outcome)
    | Send(i: nat, o: Outcome)
    | CreateElsewhere(topic: string)

  predicate Can(w: World, s: Step)
    requires WellFormed(w)
  {
    match s
    case Begin(i, _) => i < |w.pcs| && w.pcs[i].Idle?
    case Look(i) => i < |w.pcs| && (w.pcs[i].Looking? || w.pcs[i].LookingAgain?)
    case Refresh(p, listing) => p < |w.caches| && Elements(listing) <= w.topics
    case RefreshOver(i) => i < |w.pcs| && w.pcs[i].Refreshing?
    case Create(i, o) => i < |w.pcs| && w.pcs[i].Creating? && (!o.Refused? ==> w.pcs[i].topic !in w.topics)
    case ReadCache(i) => i < |w.pcs| && w.pcs[i].Created?
    case WriteCache(i) => i < |w.pcs| && w.pcs[i].Adding?
    case Announce(i, _) => i < |w.pcs| && w.pcs[i].Announcing?
    case Send(i, _) => i < |w.pcs| && w.pcs[i].Sending?
    case CreateElsewhere(t) => t !in w.topics
  }

  function Goto(w: World, i: nat, pc: Pc): World
    requires i < |w.pcs|
  {
    w.(pcs := w.pcs[i := pc])
  }

  function Record(w: World, o: Outcome, e: Entry): World {
    if o.Refused? then w else w.(trace := w.trace + [e])
  }

  function After(w: World, s: Step): (r: World)
    requires WellFormed(w) && Can(w, s)
    ensures WellFormed(r) && r.home == w.home
  {
    match s
    case Begin(i, t) => Goto(w, i, Looking(t))
    case Look(i) =>
      var t := w.pcs[i].topic;
      if t in w.caches[w.home[i]] then Goto(w, i, Sending(t))
      else Goto(w, i, if w.pcs[i].Looking? then Refreshing(t) else Creating(t))
    case Refresh(p, listing) => w.(caches := w.caches[p := listing])
    case RefreshOver(i) => Goto(w, i, LookingAgain(w.pcs[i].topic))
    case Create(i, o) =>
      var t := w.pcs[i].topic;
      var w' := Record(w, o, NewTopic(t, if o.Done? then Some(i) else None));
      Goto(w'.(topics := if o.Refused? then w.topics else w.topics + {t}), i, if o.Done? then Created(t) else Idle)
    case ReadCache(i) => Goto(w, i, Adding(w.pcs[i].topic, w.caches[w.home[i]]))
    case WriteCache(i) =>
      var pc := w.pcs[i];
      Goto(w.(caches := w.caches[w.home[i] := pc.read + [pc.topic]]), i, Announcing(pc.topic))
    case Announce(i, o) =>
      var t := w.pcs[i].topic;
      Goto(w.(trace := w.trace + [if o.Refused? then EventRefused(t, i) else Event(t, i)]), i, if o.Done? then Sending(t) else Idle)
    case Send(i, o) => Goto(Record(w, o, Log(w.pcs[i].topic, i)), i, Idle)
    case CreateElsewhere(t) => w.(topics := w.topics + {t}, trace := w.trace + [NewTopic(t, None)])
  }

  /** A request goes on only after the broker's positive answer: a creation or an
      announcement that was refused, or whose answer was lost, ends it. */
  lemma OnlyDoneGoesOn(w: World, i: nat, o: Outcome)
    requires WellFormed(w) && i < |w.pcs|
    ensures w.pcs[i].Creating? && Can(w, Create(i, o)) ==>
              After(w, Create(i, o)).pcs[i] == if o.Done? then Created(w.pcs[i].topic) else Idle
    ensures w.pcs[i].Announcing? ==>
              && Can(w, Announce(i, o))
              && After(w, Announce(i, o)).pcs[i] == if o.Done? then Sending(w.pcs[i].topic) else Idle
    ensures w.pcs[i].Sending? ==> Can(w, Send(i, o)) && After(w, Send(i, o)).pcs[i].Idle?
  {
  }

  /** AddTopic reads the cache and writes it back: of two handlers of one process
      that add their topics at the same time, the cache keeps only the later one's. */
  lemma RacingAppendsLoseOne(w: World, i: nat, j: nat)
    requires WellFormed(w) && i < |w.pcs| && j < |w.pcs| && i != j && w.home[i] == w.home[j]
    requires w.pcs[i].Created? && w.pcs[j].Created?
    ensures var steps := [ReadCache(i), ReadCache(j), WriteCache(i), WriteCache(j)];
            && Legal(w, steps)
            && AfterAll(w, steps).caches[w.home[i]] == w.caches[w.home[i]] + [w.pcs[j].topic]
  {
    var a, b, c, d := ReadCache(i), ReadCache(j), WriteCache(i), WriteCache(j);
    var w1 := After(w, a);
    var w2 := After(w1, b);
    var w3 := After(w2, c);
    var w4 := After(w3, d);
    assert [a, b, c, d][1..] == [b, c, d] && [b, c, d][1..] == [c, d] && [c, d][1..] == [d] && [d][1..] == [];
    assert Legal(w4, []) && AfterAll(w4, []) == w4;
    assert Legal(w3, [d]) && AfterAll(w3, [d]) == w4;
    assert Legal(w2, [c, d]) && AfterAll(w2, [c, d]) == w4;
    assert Legal(w1, [b, c, d]) && AfterAll(w1, [b, c, d]) == w4;
  }

  ghost predicate Legal(w: World, steps: seq<Step>)
    requires WellFormed(w)
    decreases |steps|
  {
    steps == [] || (Can(w, steps[0]) && Legal(After(w, steps[0]), steps[1..]))
  }

  ghost function AfterAll(w: World, steps: seq<Step>): (r: World)
    requires WellFormed(w) && Legal(w, steps)
    ensures WellFormed(r) && r.home == w.home
    decreases |steps|
  {
    if steps == [] then w else AfterAll(After(w, steps[0]), steps[1..])
  }

  // -------------------------------------------------------------- properties

  /** Nobody believes in a topic that does not exist. */
  ghost predicate CachesSound(w: World) {
    forall p | 0 <= p < |w.caches| :: Elements(w.caches[p]) <= w.topics
  }

  /** Every event and every log goes to a topic that existed from the start or was created before. */
  ghost predicate OnlyExisting(initial: set<string>, trace: seq<Entry>) {
    forall k | 0 <= k < |trace| && !trace[k].NewTopic? ::
      trace[k].topic in initial || exists j :: 0 <= j < k && trace[j].NewTopic? && trace[j].topic == trace[k].topic
  }

  ghost predicate OneEventPerTopic(trace: seq<Entry>) {
    forall j, k | 0 <= j < k < |trace| && trace[j].Event? && trace[k].Event? :: trace[j].topic != trace[k].topic
  }

  /** Only the handler that created a topic announces it, after creating it. */
  ghost predicate AnnouncedByCreator(trace: seq<Entry>) {
    forall k | 0 <= k < |trace| && trace[k].Event? ::
      exists j :: 0 <= j < k && trace[j] == NewTopic(trace[k].topic, Some(trace[k].sender))
  }

  /** The announcing handler's logs all come after its announcement. */
  ghost predicate EventBeforeOwnLogs(trace: seq<Entry>) {
    forall j, k | 0 <= j < |trace| && 0 <= k < |trace| && trace[j].Event? && trace[k] == Log(trace[j].topic, trace[j].sender) :: j < k
  }

  /** The handler's attempt to announce the topic, accepted or refused. */
  predicate Attempts(e: Entry, topic: string, i: nat) {
    e == Event(topic, i) || e == EventRefused(topic, i)
  }

  /** A creator logs to its topic only after announcing it or failing to. */
  ghost predicate CreatorAnnouncesFirst(trace: seq<Entry>) {
    forall j, k | 0 <= j < |trace| && 0 <= k < |trace| && trace[k].Log? && trace[j] == NewTopic(trace[k].topic, Some(trace[k].sender)) ::
      exists m :: 0 <= m < k && Attempts(trace[m], trace[k].topic, trace[k].sender)
  }

  ghost predicate Protocol(initial: set<string>, w: World) {
    CachesSound(w) && OnlyExisting(initial, w.trace) && OneEventPerTopic(w.trace)
    && AnnouncedByCreator(w.trace) && EventBeforeOwnLogs(w.trace) && CreatorAnnouncesFirst(w.trace)
  }

  // --------------------------------------------------------------- invariant

  /** The handler created this topic and has not announced it yet. */
  predicate Owns(pc: Pc, topic: string) {
    (pc.Created? || pc.Adding? || pc.Announcing?) && pc.topic == topic
  }

  ghost predicate HandlerInv(w: World, i: nat)
    requires i < |w.pcs|
  {
    var pc := w.pcs[i];
    && (pc.Sending? || pc.Created? || pc.Adding? || pc.Announcing? ==> pc.topic in w.topics)
    && (pc.Adding? ==> Elements(pc.read) <= w.topics)
    && (pc.Created? || pc.Adding? || pc.Announcing? ==>
          && (forall k | 0 <= k < |w.trace| && w.trace[k].Event? :: w.trace[k].topic != pc.topic)
          && (forall k | 0 <= k < |w.trace| :: w.trace[k] != Log(pc.topic, i))
          && exists k :: 0 <= k < |w.trace| && w.trace[k] == NewTopic(pc.topic, Some(i)))
  }

  ghost predicate TraceInv(initial: set<string>, w: World) {
    && (forall t | t in w.topics :: t in initial || exists k :: 0 <= k < |w.trace| && w.trace[k].NewTopic? && w.trace[k].topic == t)
    && (forall k | 0 <= k < |w.trace| :: w.trace[k].topic in w.topics)
  }

  /** Whoever created a topic has tried to announce it or is about to. */
  ghost predicate CreatorsSettled(w: World) {
    forall k | 0 <= k < |w.trace| && w.trace[k].NewTopic? && w.trace[k].creator.Some? ::
      Settled(w, w.trace[k].topic, w.trace[k].creator.value)
  }

  ghost predicate Settled(w: World, topic: string, i: nat) {
    i < |w.pcs| && (Owns(w.pcs[i], topic) || exists m :: 0 <= m < |w.trace| && Attempts(w.trace[m], topic, i))
  }

  ghost predicate Inv(initial: set<string>, w: World) {
    && WellFormed(w) && Protocol(initial, w) && TraceInv(initial, w) && CreatorsSettled(w)
    && (forall i | 0 <= i < |w.pcs| :: HandlerInv(w, i))
    && (forall i, j, t | 0 <= i < j < |w.pcs| && Owns(w.pcs[i], t) :: !Owns(w.pcs[j], t))
  }

  lemma CreateKeeps(initial: set<string>, w: World, i: nat, o: Outcome)
    requires Inv(initial, w) && Can(w, Create(i, o))
    ensures Inv(initial, After(w, Create(i, o)))
  {
    var w' := After(w, Create(i, o));
    if !o.Refused? {
      CreateKeepsTrace(initial, w, i, o);
      CreateKeepsHandlers(initial, w, i, o);
    } else {
      NoEntryKeeps(w, w');
      SettledKept(w, w', []);
    }
  }

  lemma CreateKeepsTrace(initial: set<string>, w: World, i: nat, o: Outcome)
    requires Inv(initial, w) && Can(w, Create(i, o)) && !o.Refused?
    ensures Protocol(initial, After(w, Create(i, o))) && TraceInv(initial, After(w, Create(i, o)))
    ensures CreatorsSettled(After(w, Create(i, o)))
  {
    var w' := After(w, Create(i, o));
    var e := NewTopic(w.pcs[i].topic, if o.Done? then Some(i) else None);
    assert w'.trace[|w.trace|] == e;
    TraceExtended(initial, w, w', e);
    SettledKept(w, w', [e]);
    NewTopicKeepsTopics(initial, w, w', e);
  }

  lemma CreateKeepsHandlers(initial: set<string>, w: World, i: nat, o: Outcome)
    requires Inv(initial, w) && Can(w, Create(i, o)) && !o.Refused?
    ensures forall j | 0 <= j < |w.pcs| :: HandlerInv(After(w, Create(i, o)), j)
    ensures forall j | 0 <= j < |w.pcs| :: !Owns(w.pcs[j], w.pcs[i].topic)
  {
    var w' := After(w, Create(i, o));
    var e := NewTopic(w.pcs[i].topic, if o.Done? then Some(i) else None);
    assert w'.trace[|w.trace|] == e;
    forall j | 0 <= j < |w'.pcs|
      ensures HandlerInv(w', j) && !Owns(w.pcs[j], w.pcs[i].topic)
    {
      assert HandlerInv(w, j);
      if j != i {
        OwnerKept(w, w', e, j);
      }
    }
  }

  lemma SettledKept(w: World, w': World, added: seq<Entry>)
    requires CreatorsSettled(w) && |w'.pcs| == |w.pcs| && w'.trace == w.trace + added
    requires forall e | e in added && e.NewTopic? && e.creator.Some? :: Settled(w', e.topic, e.creator.value)
    requires forall j, t | 0 <= j < |w.pcs| && Owns(w.pcs[j], t) :: Settled(w', t, j)
    ensures CreatorsSettled(w')
  {
    forall k | 0 <= k < |w'.trace| && w'.trace[k].NewTopic? && w'.trace[k].creator.Some?
      ensures Settled(w', w'.trace[k].topic, w'.trace[k].creator.value)
    {
      var t, i := w'.trace[k].topic, w'.trace[k].creator.value;
      if k < |w.trace| && !Owns(w.pcs[i], t) {
        var m :| 0 <= m < |w.trace| && Attempts(w.trace[m], t, i);
        assert Attempts(w'.trace[m], t, i);
      }
    }
  }

  lemma NoEntryKeeps(w: World, w': World)
    requires |w'.pcs| == |w.pcs| && w'.trace == w.trace && w'.topics == w.topics
    requires forall j | 0 <= j < |w.pcs| :: HandlerInv(w, j) && (w'.pcs[j] == w.pcs[j] || w'.pcs[j].Idle?)
    ensures forall j | 0 <= j < |w'.pcs| :: HandlerInv(w', j)
  {
    forall j | 0 <= j < |w'.pcs|
      ensures HandlerInv(w', j)
    {
      assert HandlerInv(w, j);
    }
  }

  /** What an entry needs before it: a topic that exists, and for an event its
      creation by the sender, no earlier event and no log of the sender. */
  ghost predicate Justified(initial: set<string>, trace: seq<Entry>, e: Entry) {
    && (e.NewTopic? || e.topic in initial || exists j :: 0 <= j < |trace| && trace[j].NewTopic? && trace[j].topic == e.topic)
    && (e.Event? ==>
          && (forall j | 0 <= j < |trace| && trace[j].Event? :: trace[j].topic != e.topic)
          && (exists j :: 0 <= j < |trace| && trace[j] == NewTopic(e.topic, Some(e.sender)))
          && forall j | 0 <= j < |trace| :: trace[j] != Log(e.topic, e.sender))
  }

  /** A creation by a handler is the first entry of its topic, and the creator
      attempts an announcement before it logs. */
  ghost predicate InTurn(trace: seq<Entry>, e: Entry) {
    && (e.NewTopic? && e.creator.Some? ==> forall j | 0 <= j < |trace| :: trace[j].topic != e.topic)
    && (e.Log? && NewTopic(e.topic, Some(e.sender)) in trace ==>
          exists m :: 0 <= m < |trace| && Attempts(trace[m], e.topic, e.sender))
  }

  /** Appending such an entry keeps the trace properties. */
  lemma TraceExtended(initial: set<string>, w: World, w': World, e: Entry)
    requires Protocol(initial, w) && w'.trace == w.trace + [e]
    requires Justified(initial, w.trace, e) && InTurn(w.trace, e)
    ensures OnlyExisting(initial, w'.trace) && OneEventPerTopic(w'.trace)
            && AnnouncedByCreator(w'.trace) && EventBeforeOwnLogs(w'.trace) && CreatorAnnouncesFirst(w'.trace)
  {
    ExistingExtended(initial, w.trace, e);
    EventsExtended(initial, w.trace, e);
    AttemptsExtended(w.trace, e);
  }

  lemma ExistingExtended(initial: set<string>, trace: seq<Entry>, e: Entry)
    requires OnlyExisting(initial, trace) && Justified(initial, trace, e)
    ensures OnlyExisting(initial, trace + [e])
  {
    var now := trace + [e];
    forall k | 0 <= k < |now| && !now[k].NewTopic?
      ensures now[k].topic in initial || exists j :: 0 <= j < k && now[j].NewTopic? && now[j].topic == now[k].topic
    {
      if now[k].topic !in initial {
        var j :| 0 <= j < k && trace[j].NewTopic? && trace[j].topic == now[k].topic;
        assert now[j] == trace[j];
      }
    }
  }

  lemma EventsExtended(initial: set<string>, trace: seq<Entry>, e: Entry)
    requires OneEventPerTopic(trace) && AnnouncedByCreator(trace) && EventBeforeOwnLogs(trace) && Justified(initial, trace, e)
    ensures OneEventPerTopic(trace + [e]) && AnnouncedByCreator(trace + [e]) && EventBeforeOwnLogs(trace + [e])
  {
    var now := trace + [e];
    forall k | 0 <= k < |now| && now[k].Event?
      ensures exists j :: 0 <= j < k && now[j] == NewTopic(now[k].topic, Some(now[k].sender))
    {
      var j :| 0 <= j < k && trace[j] == NewTopic(now[k].topic, Some(now[k].sender));
      assert now[j] == trace[j];
    }
  }

  lemma AttemptsExtended(trace: seq<Entry>, e: Entry)
    requires CreatorAnnouncesFirst(trace) && InTurn(trace, e)
    ensures CreatorAnnouncesFirst(trace + [e])
  {
    var now := trace + [e];
    forall j, k | 0 <= j < |now| && 0 <= k < |now| && now[k].Log? && now[j] == NewTopic(now[k].topic, Some(now[k].sender))
      ensures exists m :: 0 <= m < k && Attempts(now[m], now[k].topic, now[k].sender)
    {
      assert j < |trace| && now[j] == trace[j];
      var m :| 0 <= m < k && m < |trace| && Attempts(trace[m], now[k].topic, now[k].sender);
      assert now[m] == trace[m];
    }
  }

  lemma AnnounceKeeps(initial: set<string>, w: World, i: nat, o: Outcome)
    requires Inv(initial, w) && Can(w, Announce(i, o))
    ensures Inv(initial, After(w, Announce(i, o)))
  {
    var w' := After(w, Announce(i, o));
    var t := w.pcs[i].topic;
    var e := if o.Refused? then EventRefused(t, i) else Event(t, i);
    assert HandlerInv(w, i);
    TraceExtended(initial, w, w', e);
    EntryKeepsTopics(initial, w, w', e);
    assert Attempts(w'.trace[|w.trace|], t, i);
    SettledKept(w, w', [e]);
    forall j | 0 <= j < |w'.pcs|
      ensures HandlerInv(w', j)
    {
      assert HandlerInv(w, j);
      OwnerKept(w, w', e, j);
    }
  }

  lemma SendKeeps(initial: set<string>, w: World, i: nat, o: Outcome)
    requires Inv(initial, w) && Can(w, Send(i, o))
    ensures Inv(initial, After(w, Send(i, o)))
  {
    var w' := After(w, Send(i, o));
    if !o.Refused? {
      var e := Log(w.pcs[i].topic, i);
      assert HandlerInv(w, i);
      TraceExtended(initial, w, w', e);
      EntryKeepsTopics(initial, w, w', e);
      SettledKept(w, w', [e]);
      forall j | 0 <= j < |w'.pcs|
        ensures HandlerInv(w', j)
      {
        assert HandlerInv(w, j);
        OwnerKept(w, w', e, j);
      }
    } else {
      NoEntryKeeps(w, w');
      SettledKept(w, w', []);
    }
  }

  lemma EntryKeepsTopics(initial: set<string>, w: World, w': World, e: Entry)
    requires TraceInv(initial, w) && w'.trace == w.trace + [e] && w'.topics == w.topics && e.topic in w.topics
    ensures TraceInv(initial, w')
  {
    forall t | t in w'.topics
      ensures t in initial || exists k :: 0 <= k < |w'.trace| && w'.trace[k].NewTopic? && w'.trace[k].topic == t
    {
      if t !in initial {
        var k :| 0 <= k < |w.trace| && w.trace[k].NewTopic? && w.trace[k].topic == t;
        assert w'.trace[k] == w.trace[k];
      }
    }
  }

  lemma NewTopicKeepsTopics(initial: set<string>, w: World, w': World, e: Entry)
    requires TraceInv(initial, w) && w'.trace == w.trace + [e] && e.NewTopic? && w'.topics == w.topics + {e.topic}
    ensures TraceInv(initial, w')
  {
    assert w'.trace[|w.trace|] == e;
    forall t | t in w'.topics
      ensures t in initial || exists k :: 0 <= k < |w'.trace| && w'.trace[k].NewTopic? && w'.trace[k].topic == t
    {
      if t !in initial && t != e.topic {
        var k :| 0 <= k < |w.trace| && w.trace[k].NewTopic? && w.trace[k].topic == t;
        assert w'.trace[k] == w.trace[k];
      }
    }
  }

  /** An owner stays one if the new entry neither announces its topic nor is its own log. */
  lemma OwnerKept(w: World, w': World, e: Entry, j: nat)
    requires j < |w.pcs| && j < |w'.pcs| && HandlerInv(w, j)
    requires w'.trace == w.trace + [e] && w.topics <= w'.topics
    requires w'.pcs[j] == w.pcs[j] || (w'.pcs[j].Sending? && w'.pcs[j].topic in w'.topics) || w'.pcs[j].Idle?
    requires w'.pcs[j] == w.pcs[j] && Owns(w.pcs[j], e.topic) ==> !e.Event? && e != Log(e.topic, j)
    ensures HandlerInv(w', j)
  {
    var pc := w'.pcs[j];
    if pc.Created? || pc.Adding? || pc.Announcing? {
      var k :| 0 <= k < |w.trace| && w.trace[k] == NewTopic(pc.topic, Some(j));
      assert w'.trace[k] == w.trace[k];
    }
  }

  lemma ElsewhereKeeps(initial: set<string>, w: World, t: string)
    requires Inv(initial, w) && Can(w, CreateElsewhere(t))
    ensures Inv(initial, After(w, CreateElsewhere(t)))
  {
    var w' := After(w, CreateElsewhere(t));
    var n := |w.trace|;
    assert w'.trace[n] == NewTopic(t, None);
    assert forall k | 0 <= k < n :: w'.trace[k] == w.trace[k];
    TraceExtended(initial, w, w', NewTopic(t, None));
    SettledKept(w, w', [NewTopic(t, None)]);
    forall j | 0 <= j < |w'.pcs|
      ensures HandlerInv(w', j)
    {
      OwnerKept(w, w', NewTopic(t, None), j);
    }
  }

  /** The steps that send nothing keep the properties of the trace. */
  lemma QuietKeeps(initial: set<string>, w: World, s: Step)
    requires Inv(initial, w) && Can(w, s)
    requires !s.Create? && !s.Announce? && !s.Send? && !s.CreateElsewhere?
    ensures Inv(initial, After(w, s))
  {
    var w' := After(w, s);
    QuietKeepsHandlers(initial, w, s);
    QuietKeepsOwners(w, s);
    if s.WriteCache? {
      var pc := w.pcs[s.i];
      assert HandlerInv(w, s.i);
      assert Elements(pc.read + [pc.topic]) == Elements(pc.read) + {pc.topic};
    }
    assert w'.trace == w.trace && w'.topics == w.topics;
    SettledKept(w, w', []);
  }

  lemma QuietKeepsHandlers(initial: set<string>, w: World, s: Step)
    requires Inv(initial, w) && Can(w, s)
    requires !s.Create? && !s.Announce? && !s.Send? && !s.CreateElsewhere?
    ensures forall j | 0 <= j < |After(w, s).pcs| :: HandlerInv(After(w, s), j)
  {
    var w' := After(w, s);
    forall j | 0 <= j < |w'.pcs|
      ensures HandlerInv(w', j)
    {
      assert HandlerInv(w, j);
      if s.Look? && s.i == j && w'.pcs[j].Sending? {
        assert w.pcs[j].topic in Elements(w.caches[w.home[j]]);
      }
    }
  }

  lemma QuietKeepsOwners(w: World, s: Step)
    requires WellFormed(w) && Can(w, s)
    requires !s.Create? && !s.Announce? && !s.Send? && !s.CreateElsewhere?
    ensures forall i, t | 0 <= i < |w.pcs| :: Owns(After(w, s).pcs[i], t) <==> Owns(w.pcs[i], t)
  {
  }

  lemma StepKeeps(initial: set<string>, w: World, s: Step)
    requires Inv(initial, w) && Can(w, s)
    ensures Inv(initial, After(w, s))
  {
    match s
    case Create(i, o) => CreateKeeps(initial, w, i, o);
    case Announce(i, o) => AnnounceKeeps(initial, w, i, o);
    case Send(i, o) => SendKeeps(initial, w, i, o);
    case CreateElsewhere(t) => ElsewhereKeeps(initial, w, t);
    case _ => QuietKeeps(initial, w, s);
  }

  function Start(topics: set<string>, processes: nat, home: seq<nat>): World {
    World(topics, seq(processes, p => []), home, seq(|home|, i => Idle), [])
  }

  lemma {:induction false} RunKeeps(initial: set<string>, w: World, steps: seq<Step>)
    requires Inv(initial, w) && Legal(w, steps)
    ensures Inv(initial, AfterAll(w, steps))
    decreases |steps|
  {
    if steps != [] {
      StepKeeps(initial, w, steps[0]);
      RunKeeps(initial, After(w, steps[0]), steps[1..]);
    }
  }

  /** For any number of processes and handlers, and any interleaving of their
      steps with refused, lost and failed requests and stale listings. */
  lemma ProtocolHolds(topics: set<string>, processes: nat, home: seq<nat>, steps: seq<Step>)
    requires forall i :: 0 <= i < |home| ==> home[i] < processes
    requires Legal(Start(topics, processes, home), steps)
    ensures Protocol(topics, AfterAll(Start(topics, processes, home), steps))
  {
    RunKeeps(topics, Start(topics, processes, home), steps);
  }
}
