/**
 The sequential code of topic creation: the cached topic list of the Kafka admin
 and the producer's create-announce-send sequence, and how one call of each
 appears among the steps of the protocol.
 */
module KafkaProducer {
  import opened Wrappers
  import TopicProtocol

  /** A broker's answer to a listing request; None is an error. */
  type Listing = Option<seq<string>>

  function Refreshed(topics: seq<string>, answer: Listing): seq<string> {
    if answer.Some? then answer.value else topics
  }

  /** Topics() only asks the broker when the cache is empty. */
  function Listed(topics: seq<string>, answer: Listing): seq<string> {
    if |topics| <= 0 then Refreshed(topics, answer) else topics
  }

  /** Exist, given the answers of the up to three listing requests it makes. */
  function Existing(topics: seq<string>, topic: string, first: Listing, second: Listing, third: Listing): (seq<string>, bool) {
    var t1 := Listed(topics, first);
    if topic in t1 then (t1, true)
    else
      var t3 := Listed(Refreshed(t1, second), third);
      (t3, topic in t3)
  }

  class KafkaAdmin {
    var topics: seq<string>

    constructor ()
      ensures topics == []
    {
      topics := [];
    }

    method RefreshTopics(answer: Listing)
      modifies this
      ensures topics == Refreshed(old(topics), answer)
    {
      if answer.Some? {
        topics := answer.value;
      }
    }

    method Topics(answer: Listing) returns (listed: seq<string>)
      modifies this
      ensures topics == listed == Listed(old(topics), answer)
    {
      if |topics| <= 0 {
        RefreshTopics(answer);
      }
      listed := topics;
    }

    method Exist(topic: string, first: Listing, second: Listing, third: Listing) returns (found: bool)
      modifies this
      ensures (topics, found) == Existing(old(topics), topic, first, second, third)
    {
      var listed := Topics(first);
      for i := 0 to |listed|
        invariant topic !in listed[..i]
      {
        if listed[i] == topic {
          return true;
        }
      }
      RefreshTopics(second);
      listed := Topics(third);
      for i := 0 to |listed|
        invariant topic !in listed[..i]
      {
        if listed[i] == topic {
          return true;
        }
      }
      return false;
    }

    method AddTopic(topic: string)
      modifies this
      ensures topics == old(topics) + [topic]
    {
      topics := topics + [topic];
    }
  }

  /** What the producer asks of the broker, and whether it worked. */
  datatype Effect = CreateTopic(topic: string, ok: bool) | NewTopicEvent(topic: string, ok: bool) | SendLog(topic: string, ok: bool)

  /** An unknown topic is created, then announced, each only if the step before worked. */
  function Creation(topic: string, known: bool, createOk: bool, eventOk: bool): seq<Effect> {
    if known then []
    else [CreateTopic(topic, createOk)] + if createOk then [NewTopicEvent(topic, eventOk)] else []
  }

  predicate CreationOk(known: bool, createOk: bool, eventOk: bool) {
    known || (createOk && eventOk)
  }

  /** Nothing is sent unless the topic is known or newly announced. */
  function Producing(topic: string, known: bool, createOk: bool, eventOk: bool, sendOk: bool): seq<Effect> {
    Creation(topic, known, createOk, eventOk) +
    if CreationOk(known, createOk, eventOk) then [SendLog(topic, sendOk)] else []
  }

  /** Everything a request can do, in order: no log without a known or announced
      topic, no announcement without a creation. */
  lemma RequestOutcomes(topic: string, known: bool, createOk: bool, eventOk: bool, sendOk: bool)
    ensures Producing(topic, known, createOk, eventOk, sendOk) ==
              if known then [SendLog(topic, sendOk)]
              else if !createOk then [CreateTopic(topic, false)]
              else if !eventOk then [CreateTopic(topic, true), NewTopicEvent(topic, false)]
              else [CreateTopic(topic, true), NewTopicEvent(topic, true), SendLog(topic, sendOk)]
  {
  }

  class ProducerService {
    const admin: KafkaAdmin
    var effects: seq<Effect>

    constructor (admin: KafkaAdmin)
      ensures this.admin == admin && effects == []
    {
      this.admin, effects := admin, [];
    }

    method CreateTopicIfNotExist(topic: string, first: Listing, second: Listing, third: Listing, createOk: bool, eventOk: bool)
      returns (ok: bool)
      modifies this, admin
      ensures var (topics, known) := Existing(old(admin.topics), topic, first, second, third);
              && effects == old(effects) + Creation(topic, known, createOk, eventOk)
              && ok == CreationOk(known, createOk, eventOk)
              && admin.topics == topics + if !known && createOk then [topic] else []
    {
      var known := admin.Exist(topic, first, second, third);
      if !known {
        effects := effects + [CreateTopic(topic, createOk)];
        if !createOk {
          return false;
        }
        admin.AddTopic(topic);
        effects := effects + [NewTopicEvent(topic, eventOk)];
        if !eventOk {
          return false;
        }
      }
      return true;
    }

    /** handleProduce, and handleProduceBatch, which sends a collection instead. */
    method HandleProduce(topic: string, first: Listing, second: Listing, third: Listing, createOk: bool, eventOk: bool, sendOk: bool)
      returns (ok: bool)
      modifies this, admin
      ensures var (topics, known) := Existing(old(admin.topics), topic, first, second, third);
              && effects == old(effects) + Producing(topic, known, createOk, eventOk, sendOk)
              && ok == (CreationOk(known, createOk, eventOk) && sendOk)
              && admin.topics == topics + if !known && createOk then [topic] else []
    {
      var created := CreateTopicIfNotExist(topic, first, second, third, createOk, eventOk);
      if !created {
        return false;
      }
      effects := effects + [SendLog(topic, sendOk)];
      return sendOk;
    }
  }

  // -------------------------------------------- the calls as protocol steps

  predicate SoundListing(answer: Listing, broker: set<string>) {
    answer.Some? ==> TopicProtocol.Elements(answer.value) <= broker
  }

  /** With sound listings and cache, a topic is found only if it exists, and a
      topic that the forced refresh lists is always found. */
  lemma ExistIsSound(topics: seq<string>, topic: string, first: Listing, second: Listing, third: Listing, broker: set<string>)
    requires TopicProtocol.Elements(topics) <= broker
    requires SoundListing(first, broker) && SoundListing(second, broker) && SoundListing(third, broker)
    ensures var (after, found) := Existing(topics, topic, first, second, third);
            && TopicProtocol.Elements(after) <= broker
            && (found <==> topic in after) && (found ==> topic in broker)
            && (second.Some? && topic in second.value ==> found)
  {
    var (after, found) := Existing(topics, topic, first, second, third);
    assert found ==> topic in TopicProtocol.Elements(after);
  }

  /** When Exist finds a topic, and what it leaves in the cache. A cache hit asks the
      broker nothing; a miss replaces the cache by a listing if it gets one; and an
      empty list is asked for once more each time. */
  lemma ExistDecision(topics: seq<string>, topic: string, first: Listing, second: Listing, third: Listing)
    requires topics != []
    ensures var (after, found) := Existing(topics, topic, first, second, third);
            && (topic in topics ==> found && after == topics)
            && (topic !in topics && second.None? ==> !found && after == topics)
            && (topic !in topics && second.Some? && second.value != [] ==> after == second.value && (found <==> topic in second.value))
            && (topic !in topics && second.Some? && second.value == [] ==>
                  after == (if third.Some? then third.value else []) && (found <==> topic in after))
  {
  }

  /** With an empty cache, Exist first asks for the list and then does the same. */
  lemma ExistFillsTheCache(topic: string, first: Listing, second: Listing, third: Listing)
    ensures first.Some? && first.value != [] ==>
              Existing([], topic, first, second, third) == Existing(first.value, topic, None, second, third)
    ensures first.None? || first.value == [] ==>
              var (after, found) := Existing([], topic, first, second, third);
              var listed := if second.Some? && second.value != [] then second.value else if third.Some? then third.value else [];
              after == listed && (found <==> topic in listed)
  {
  }

  /** A cache overwrite, if a listing request was made and answered. */
  function RefreshSteps(process: nat, asked: bool, answer: Listing): seq<TopicProtocol.Step> {
    if asked && answer.Some? then [TopicProtocol.Refresh(process, answer.value)] else []
  }

  lemma RefreshRuns(w: TopicProtocol.World, p: nat, asked: bool, answer: Listing)
    requires TopicProtocol.WellFormed(w) && p < |w.caches| && SoundListing(answer, w.topics)
    ensures var steps := RefreshSteps(p, asked, answer);
            && TopicProtocol.Legal(w, steps)
            && TopicProtocol.AfterAll(w, steps)
               == w.(caches := w.caches[p := if asked then Refreshed(w.caches[p], answer) else w.caches[p]])
  {
    var steps := RefreshSteps(p, asked, answer);
    if steps == [] {
      assert w.caches[p := w.caches[p]] == w.caches;
    } else {
      assert steps[1..] == [];
      assert TopicProtocol.AfterAll(w, steps) == TopicProtocol.After(w, steps[0]);
    }
  }

  lemma {:induction false} Joined(w: TopicProtocol.World, a: seq<TopicProtocol.Step>, b: seq<TopicProtocol.Step>)
    requires TopicProtocol.WellFormed(w) && TopicProtocol.Legal(w, a) && TopicProtocol.Legal(TopicProtocol.AfterAll(w, a), b)
    ensures TopicProtocol.Legal(w, a + b)
    ensures TopicProtocol.AfterAll(w, a + b) == TopicProtocol.AfterAll(TopicProtocol.AfterAll(w, a), b)
    decreases |a|
  {
    if a == [] {
      assert a + b == b;
    } else {
      Joined(TopicProtocol.After(w, a[0]), a[1..], b);
      assert (a + b)[1..] == a[1..] + b;
    }
  }

  lemma OneStep(w: TopicProtocol.World, s: TopicProtocol.Step)
    requires TopicProtocol.WellFormed(w) && TopicProtocol.Can(w, s)
    ensures TopicProtocol.Legal(w, [s]) && TopicProtocol.AfterAll(w, [s]) == TopicProtocol.After(w, s)
  {
    assert [s][1..] == [];
  }

  /** The world with one cache and one handler replaced. */
  function At(w: TopicProtocol.World, p: nat, topics: seq<string>, i: nat, pc: TopicProtocol.Pc): TopicProtocol.World
    requires p < |w.caches| && i < |w.pcs|
  {
    w.(caches := w.caches[p := topics], pcs := w.pcs[i := pc])
  }

  lemma AtTwice(w: TopicProtocol.World, p: nat, i: nat)
    requires p < |w.caches| && i < |w.pcs|
    ensures forall t1, pc1, t2, pc2 :: At(At(w, p, t1, i, pc1), p, t2, i, pc2) == At(w, p, t2, i, pc2)
  {
  }

  /** Asking for the list, if `asked`, and scanning it once. */
  function LookSteps(i: nat, p: nat, asked: bool, answer: Listing): seq<TopicProtocol.Step> {
    RefreshSteps(p, asked, answer) + [TopicProtocol.Look(i)]
  }

  lemma LookRuns(w: TopicProtocol.World, i: nat, topic: string, asked: bool, answer: Listing)
    requires TopicProtocol.WellFormed(w) && i < |w.pcs| && SoundListing(answer, w.topics)
    requires w.pcs[i] == TopicProtocol.Looking(topic) || w.pcs[i] == TopicProtocol.LookingAgain(topic)
    ensures var p := w.home[i];
            var topics := if asked then Refreshed(w.caches[p], answer) else w.caches[p];
            var steps := LookSteps(i, p, asked, answer);
            && TopicProtocol.Legal(w, steps)
            && TopicProtocol.AfterAll(w, steps)
               == At(w, p, topics, i, if topic in topics then TopicProtocol.Sending(topic)
                                      else if w.pcs[i].Looking? then TopicProtocol.Refreshing(topic)
                                      else TopicProtocol.Creating(topic))
  {
    var p := w.home[i];
    RefreshRuns(w, p, asked, answer);
    var w' := TopicProtocol.AfterAll(w, RefreshSteps(p, asked, answer));
    OneStep(w', TopicProtocol.Look(i));
    Joined(w, RefreshSteps(p, asked, answer), [TopicProtocol.Look(i)]);
  }

  function SecondHalf(i: nat, p: nat, second: Listing, asked: bool, third: Listing): seq<TopicProtocol.Step> {
    RefreshSteps(p, true, second) + ([TopicProtocol.RefreshOver(i)] + LookSteps(i, p, asked, third))
  }

  lemma SecondHalfRuns(w: TopicProtocol.World, i: nat, topic: string, second: Listing, third: Listing)
    requires TopicProtocol.WellFormed(w) && i < |w.pcs| && w.pcs[i] == TopicProtocol.Refreshing(topic)
    requires SoundListing(second, w.topics) && SoundListing(third, w.topics)
    ensures var p := w.home[i];
            var refreshed := Refreshed(w.caches[p], second);
            var topics := Listed(refreshed, third);
            var steps := SecondHalf(i, p, second, |refreshed| <= 0, third);
            && TopicProtocol.Legal(w, steps)
            && TopicProtocol.AfterAll(w, steps)
               == At(w, p, topics, i, if topic in topics then TopicProtocol.Sending(topic) else TopicProtocol.Creating(topic))
  {
    var p := w.home[i];
    var asked := |Refreshed(w.caches[p], second)| <= 0;
    RefreshRuns(w, p, true, second);
    var w1 := TopicProtocol.AfterAll(w, RefreshSteps(p, true, second));
    var over := TopicProtocol.RefreshOver(i);
    OneStep(w1, over);
    var w2 := TopicProtocol.After(w1, over);
    assert w1 == At(w, p, Refreshed(w.caches[p], second), i, w.pcs[i]);
    assert w2 == At(w, p, Refreshed(w.caches[p], second), i, TopicProtocol.LookingAgain(topic));
    LookRuns(w2, i, topic, asked, third);
    AtTwice(w, p, i);
    Joined(w1, [over], LookSteps(i, p, asked, third));
    Joined(w, RefreshSteps(p, true, second), [over] + LookSteps(i, p, asked, third));
  }

  /** An uninterrupted Exist call is a run of protocol steps: it leaves the
      handler's cache as Exist does, and the handler at the send if the topic was
      found and at the creation if not. */
  lemma ExistIsARun(w: TopicProtocol.World, i: nat, topic: string, first: Listing, second: Listing, third: Listing)
    returns (steps: seq<TopicProtocol.Step>)
    requires TopicProtocol.WellFormed(w) && i < |w.pcs| && w.pcs[i] == TopicProtocol.Looking(topic)
    requires SoundListing(first, w.topics) && SoundListing(second, w.topics) && SoundListing(third, w.topics)
    ensures TopicProtocol.Legal(w, steps)
    ensures var p := w.home[i];
            var (topics, found) := Existing(w.caches[p], topic, first, second, third);
            TopicProtocol.AfterAll(w, steps)
            == At(w, p, topics, i, if found then TopicProtocol.Sending(topic) else TopicProtocol.Creating(topic))
  {
    var p := w.home[i];
    var ask := |w.caches[p]| <= 0;
    steps := LookSteps(i, p, ask, first);
    LookRuns(w, i, topic, ask, first);
    var w1 := TopicProtocol.AfterAll(w, steps);
    if topic !in w1.caches[p] {
      SecondHalfRuns(w1, i, topic, second, third);
      var rest := SecondHalf(i, p, second, |Refreshed(w1.caches[p], second)| <= 0, third);
      AtTwice(w, p, i);
      Joined(w, steps, rest);
      steps := steps + rest;
    }
  }

  // ---------------------------------------------- a whole request as a run

  /** From w these steps lead to w'. */
  ghost predicate Runs(w: TopicProtocol.World, steps: seq<TopicProtocol.Step>, w': TopicProtocol.World) {
    TopicProtocol.WellFormed(w) && TopicProtocol.Legal(w, steps) && TopicProtocol.AfterAll(w, steps) == w'
  }

  lemma Then(w: TopicProtocol.World, steps: seq<TopicProtocol.Step>, w': TopicProtocol.World, s: TopicProtocol.Step)
    requires Runs(w, steps, w') && TopicProtocol.Can(w', s)
    ensures Runs(w, steps + [s], TopicProtocol.After(w', s))
  {
    OneStep(w', s);
    Joined(w, steps, [s]);
  }

  function OutcomeOf(ok: bool): TopicProtocol.Outcome {
    if ok then TopicProtocol.Done else TopicProtocol.Refused
  }

  /** What the effects of handler i leave at the broker. */
  function Entries(i: nat, effects: seq<Effect>): seq<TopicProtocol.Entry> {
    if effects == [] then []
    else
      var n := |effects| - 1;
      Entries(i, effects[..n]) +
      match effects[n]
      case CreateTopic(t, ok) => if ok then [TopicProtocol.NewTopic(t, Some(i))] else []
      case NewTopicEvent(t, ok) => [if ok then TopicProtocol.Event(t, i) else TopicProtocol.EventRefused(t, i)]
      case SendLog(t, ok) => if ok then [TopicProtocol.Log(t, i)] else []
  }

  lemma OneMoreEntry(i: nat, effects: seq<Effect>, e: Effect)
    ensures Entries(i, effects + [e]) == Entries(i, effects) + Entries(i, [e])
  {
    assert (effects + [e])[..|effects|] == effects && [e][..0] == [];
  }

  /** The steps of a creation that the broker grants. */
  lemma GrantedCreationRuns(w: TopicProtocol.World, i: nat, topic: string, eventOk: bool)
    returns (steps: seq<TopicProtocol.Step>)
    requires TopicProtocol.WellFormed(w) && i < |w.pcs| && w.pcs[i] == TopicProtocol.Creating(topic)
    requires topic !in w.topics
    ensures Runs(w, steps, Created(w, i, topic, eventOk))
  {
    var create, announce := TopicProtocol.Create(i, TopicProtocol.Done), TopicProtocol.Announce(i, OutcomeOf(eventOk));
    var read, write := TopicProtocol.ReadCache(i), TopicProtocol.WriteCache(i);
    OneStep(w, create);
    var w1 := TopicProtocol.After(w, create);
    Then(w, [create], w1, read);
    var w2 := TopicProtocol.After(w1, read);
    Then(w, [create] + [read], w2, write);
    var w3 := TopicProtocol.After(w2, write);
    Then(w, [create] + [read] + [write], w3, announce);
    steps := [create] + [read] + [write] + [announce];
    var added := [TopicProtocol.NewTopic(topic, Some(i))];
    var event := [if eventOk then TopicProtocol.Event(topic, i) else TopicProtocol.EventRefused(topic, i)];
    assert w.trace + added + event == w.trace + (added + event);
    assert TopicProtocol.After(w3, announce) == Created(w, i, topic, eventOk);
  }

  /** The world after handler i created a topic, cached it and tried to announce it. */
  function Created(w: TopicProtocol.World, i: nat, topic: string, eventOk: bool): TopicProtocol.World
    requires TopicProtocol.WellFormed(w) && i < |w.pcs|
  {
    var p := w.home[i];
    var event := if eventOk then TopicProtocol.Event(topic, i) else TopicProtocol.EventRefused(topic, i);
    TopicProtocol.World(w.topics + {topic}, w.caches[p := w.caches[p] + [topic]], w.home,
                        w.pcs[i := if eventOk then TopicProtocol.Sending(topic) else TopicProtocol.Idle],
                        w.trace + ([TopicProtocol.NewTopic(topic, Some(i))] + [event]))
  }

  lemma EntriesOfCreation(i: nat, topic: string, eventOk: bool)
    ensures Entries(i, Creation(topic, false, true, eventOk))
         == [TopicProtocol.NewTopic(topic, Some(i))]
            + [if eventOk then TopicProtocol.Event(topic, i) else TopicProtocol.EventRefused(topic, i)]
    ensures Entries(i, Creation(topic, false, false, eventOk)) == []
  {
    OneMoreEntry(i, [], CreateTopic(topic, true));
    OneMoreEntry(i, [CreateTopic(topic, true)], NewTopicEvent(topic, eventOk));
    assert [] + [CreateTopic(topic, true)] == [CreateTopic(topic, true)];
  }

  /** An uninterrupted createTopicIfNotExist of an unknown topic, after its Exist. */
  lemma CreationIsARun(w: TopicProtocol.World, i: nat, topic: string, createOk: bool, eventOk: bool)
    returns (steps: seq<TopicProtocol.Step>)
    requires TopicProtocol.WellFormed(w) && i < |w.pcs| && w.pcs[i] == TopicProtocol.Creating(topic)
    requires createOk ==> topic !in w.topics
    ensures Runs(w, steps, if createOk then Created(w, i, topic, eventOk) else w.(pcs := w.pcs[i := TopicProtocol.Idle]))
  {
    if createOk {
      steps := GrantedCreationRuns(w, i, topic, eventOk);
    } else {
      steps := [TopicProtocol.Create(i, TopicProtocol.Refused)];
      OneStep(w, steps[0]);
    }
  }

  /** The world after handler i's createTopicIfNotExist, given the cache that Exist left. */
  function Prepared(w: TopicProtocol.World, i: nat, topic: string, topics: seq<string>, known: bool, createOk: bool, eventOk: bool): TopicProtocol.World
    requires TopicProtocol.WellFormed(w) && i < |w.pcs|
  {
    var created := !known && createOk;
    TopicProtocol.World(
      if created then w.topics + {topic} else w.topics,
      w.caches[w.home[i] := topics + if created then [topic] else []], w.home,
      w.pcs[i := if CreationOk(known, createOk, eventOk) then TopicProtocol.Sending(topic) else TopicProtocol.Idle],
      w.trace + Entries(i, Creation(topic, known, createOk, eventOk)))
  }

  /** Begin and Exist. */
  lemma LookupIsARun(w: TopicProtocol.World, i: nat, topic: string, first: Listing, second: Listing, third: Listing)
    returns (steps: seq<TopicProtocol.Step>)
    requires TopicProtocol.WellFormed(w) && i < |w.pcs| && w.pcs[i].Idle?
    requires SoundListing(first, w.topics) && SoundListing(second, w.topics) && SoundListing(third, w.topics)
    ensures var p := w.home[i];
            var (topics, known) := Existing(w.caches[p], topic, first, second, third);
            Runs(w, steps, At(w, p, topics, i, if known then TopicProtocol.Sending(topic) else TopicProtocol.Creating(topic)))
  {
    var p := w.home[i];
    var begin := TopicProtocol.Begin(i, topic);
    OneStep(w, begin);
    var w1 := TopicProtocol.After(w, begin);
    assert w1 == At(w, p, w.caches[p], i, TopicProtocol.Looking(topic)) by {
      assert w.caches[p := w.caches[p]] == w.caches;
    }
    var looking := ExistIsARun(w1, i, topic, first, second, third);
    AtTwice(w, p, i);
    Joined(w, [begin], looking);
    steps := [begin] + looking;
  }

  lemma PreparedWhenKnown(w: TopicProtocol.World, i: nat, topic: string, topics: seq<string>, createOk: bool, eventOk: bool)
    requires TopicProtocol.WellFormed(w) && i < |w.pcs|
    ensures At(w, w.home[i], topics, i, TopicProtocol.Sending(topic)) == Prepared(w, i, topic, topics, true, createOk, eventOk)
  {
    assert topics + [] == topics && w.trace + [] == w.trace;
  }

  lemma PreparedWhenUnknown(w: TopicProtocol.World, i: nat, topic: string, topics: seq<string>, createOk: bool, eventOk: bool)
    requires TopicProtocol.WellFormed(w) && i < |w.pcs|
    ensures var w1 := At(w, w.home[i], topics, i, TopicProtocol.Creating(topic));
            (if createOk then Created(w1, i, topic, eventOk) else w1.(pcs := w1.pcs[i := TopicProtocol.Idle]))
            == Prepared(w, i, topic, topics, false, createOk, eventOk)
  {
    EntriesOfCreation(i, topic, eventOk);
    assert topics + [] == topics && w.trace + [] == w.trace;
  }

  lemma PreparationIsARun(w: TopicProtocol.World, i: nat, topic: string, first: Listing, second: Listing, third: Listing,
                          createOk: bool, eventOk: bool)
    returns (steps: seq<TopicProtocol.Step>)
    requires TopicProtocol.WellFormed(w) && i < |w.pcs| && w.pcs[i].Idle?
    requires SoundListing(first, w.topics) && SoundListing(second, w.topics) && SoundListing(third, w.topics)
    requires createOk && !Existing(w.caches[w.home[i]], topic, first, second, third).1 ==> topic !in w.topics
    ensures var (topics, known) := Existing(w.caches[w.home[i]], topic, first, second, third);
            Runs(w, steps, Prepared(w, i, topic, topics, known, createOk, eventOk))
  {
    var (topics, known) := Existing(w.caches[w.home[i]], topic, first, second, third);
    steps := LookupIsARun(w, i, topic, first, second, third);
    if known {
      PreparedWhenKnown(w, i, topic, topics, createOk, eventOk);
    } else {
      var w1 := At(w, w.home[i], topics, i, TopicProtocol.Creating(topic));
      var creating := CreationIsARun(w1, i, topic, createOk, eventOk);
      PreparedWhenUnknown(w, i, topic, topics, createOk, eventOk);
      Joined(w, steps, creating);
      steps := steps + creating;
    }
  }

  /** The world after the whole request: handler i is free again. */
  function Produced(w: TopicProtocol.World, i: nat, topic: string, topics: seq<string>, known: bool, createOk: bool, eventOk: bool, sendOk: bool): TopicProtocol.World
    requires TopicProtocol.WellFormed(w) && i < |w.pcs|
  {
    var created := !known && createOk;
    TopicProtocol.World(
      if created then w.topics + {topic} else w.topics,
      w.caches[w.home[i] := topics + if created then [topic] else []], w.home, w.pcs,
      w.trace + Entries(i, Producing(topic, known, createOk, eventOk, sendOk)))
  }

  lemma SentAfterPrepared(w: TopicProtocol.World, i: nat, topic: string, topics: seq<string>, known: bool, createOk: bool, eventOk: bool, sendOk: bool)
    requires TopicProtocol.WellFormed(w) && i < |w.pcs| && w.pcs[i].Idle? && CreationOk(known, createOk, eventOk)
    ensures TopicProtocol.After(Prepared(w, i, topic, topics, known, createOk, eventOk), TopicProtocol.Send(i, OutcomeOf(sendOk)))
         == Produced(w, i, topic, topics, known, createOk, eventOk, sendOk)
  {
    var before, e := Creation(topic, known, createOk, eventOk), SendLog(topic, sendOk);
    OneMoreEntry(i, before, e);
    OneMoreEntry(i, [], e);
    var ready := Prepared(w, i, topic, topics, known, createOk, eventOk);
    var done := TopicProtocol.After(ready, TopicProtocol.Send(i, OutcomeOf(sendOk)));
    assert done.trace == w.trace + Entries(i, before + [e]);
    assert done.pcs == w.pcs;
  }

  /** A request that nothing interrupts is a run of the protocol: its effects are
      what it leaves at the broker, and its admin's cache is the process's cache. */
  lemma ProduceIsARun(w: TopicProtocol.World, i: nat, topic: string, first: Listing, second: Listing, third: Listing,
                      createOk: bool, eventOk: bool, sendOk: bool)
    returns (steps: seq<TopicProtocol.Step>)
    requires TopicProtocol.WellFormed(w) && i < |w.pcs| && w.pcs[i].Idle?
    requires SoundListing(first, w.topics) && SoundListing(second, w.topics) && SoundListing(third, w.topics)
    requires createOk && !Existing(w.caches[w.home[i]], topic, first, second, third).1 ==> topic !in w.topics
    ensures var (topics, known) := Existing(w.caches[w.home[i]], topic, first, second, third);
            Runs(w, steps, Produced(w, i, topic, topics, known, createOk, eventOk, sendOk))
  {
    var (topics, known) := Existing(w.caches[w.home[i]], topic, first, second, third);
    steps := PreparationIsARun(w, i, topic, first, second, third, createOk, eventOk);
    var ready := Prepared(w, i, topic, topics, known, createOk, eventOk);
    if CreationOk(known, createOk, eventOk) {
      var send := TopicProtocol.Send(i, OutcomeOf(sendOk));
      Then(w, steps, ready, send);
      SentAfterPrepared(w, i, topic, topics, known, createOk, eventOk, sendOk);
      steps := steps + [send];
    } else {
      NothingSent(w, i, topic, topics, known, createOk, eventOk, sendOk);
    }
  }

  lemma NothingSent(w: TopicProtocol.World, i: nat, topic: string, topics: seq<string>, known: bool, createOk: bool, eventOk: bool, sendOk: bool)
    requires TopicProtocol.WellFormed(w) && i < |w.pcs| && w.pcs[i].Idle? && !CreationOk(known, createOk, eventOk)
    ensures Prepared(w, i, topic, topics, known, createOk, eventOk)
         == Produced(w, i, topic, topics, known, createOk, eventOk, sendOk)
  {
    assert Producing(topic, known, createOk, eventOk, sendOk) == Creation(topic, known, createOk, eventOk);
    assert w.pcs[i := TopicProtocol.Idle] == w.pcs;
  }
}
