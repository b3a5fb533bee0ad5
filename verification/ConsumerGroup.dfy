/**
 The adapter between a Kafka consumer group and the worker: one channel shared
 by all partition claimers and by all sessions, and a pointer to the current
 session, which a rebalance overwrites.
 */
module ConsumerGroup {
  import opened Wrappers

  /** A Kafka record of the consumed topic, by its coordinates. */
  datatype Id = Id(partition: nat, offset: nat)

  const CHANNEL_CAPACITY := 256

  /** A consumer group session: for each claimed partition the offset delivered
      next and the marked watermark, one past the highest marked offset. */
  datatype SessionState = SessionState(next: map<nat, nat>, marks: map<nat, nat>)

  /** A session starts every claim at the committed offset; an uncommitted
      partition starts at its oldest record. */
  function StartSession(committed: map<nat, nat>, claims: set<nat>): SessionState {
    var start := map p | p in claims :: if p in committed then committed[p] else 0;
    SessionState(start, start)
  }

  /** Marking raises the watermark of a claimed partition, and never lowers it. */
  function AfterMarkMessage(s: SessionState, id: Id): (r: SessionState)
    ensures r.next == s.next && r.marks.Keys == s.marks.Keys
    ensures forall p :: p in s.marks ==> r.marks[p] >= s.marks[p]
    ensures forall p :: p in s.marks && p != id.partition ==> r.marks[p] == s.marks[p]
    ensures id.partition in s.marks ==>
              r.marks[id.partition] > id.offset && (r.marks[id.partition] == s.marks[id.partition] || r.marks[id.partition] == id.offset + 1)
  {
    if id.partition in s.marks && s.marks[id.partition] < id.offset + 1
    then s.(marks := s.marks[id.partition := id.offset + 1])
    else s
  }

  datatype AdapterState = AdapterState(session: Option<SessionState>, messages: seq<Id>)

  const NO_SESSION := AdapterState(None, [])

  function AfterSetup(a: AdapterState, s: SessionState): AdapterState {
    a.(session := Some(s))
  }

  predicate CanDeliver(a: AdapterState, p: nat) {
    a.session.Some? && p in a.session.value.next && |a.messages| < CHANNEL_CAPACITY
  }

  /** One round of a claimer's loop. */
  function AfterDeliver(a: AdapterState, p: nat): AdapterState
    requires CanDeliver(a, p)
  {
    var s := a.session.value;
    AdapterState(Some(s.(next := s.next[p := s.next[p] + 1])), a.messages + [Id(p, s.next[p])])
  }

  function AfterReceive(a: AdapterState): AdapterState
    requires a.messages != []
  {
    a.(messages := a.messages[1..])
  }

  function AfterMark(a: AdapterState, id: Id): AdapterState {
    if a.session.Some? then a.(session := Some(AfterMarkMessage(a.session.value, id))) else a
  }

  /** At most `limit` rounds of a claimer's loop, fewer if the channel fills. */
  function AfterClaim(a: AdapterState, p: nat, limit: nat): AdapterState
    decreases limit
  {
    if limit == 0 || !CanDeliver(a, p) then a
    else AfterClaim(AfterDeliver(a, p), p, limit - 1)
  }

  /** A claimer delivers consecutive offsets, in order, behind what is already queued. */
  lemma {:induction false} ClaimIsConsecutive(a: AdapterState, p: nat, limit: nat)
    requires CanDeliver(a, p)
    ensures var b := AfterClaim(a, p, limit);
            var n := |b.messages| - |a.messages|;
            && a.messages <= b.messages
            && n == (if limit < CHANNEL_CAPACITY - |a.messages| then limit else CHANNEL_CAPACITY - |a.messages|)
            && b.session.Some? && p in b.session.value.next
            && b.session.value.next[p] == a.session.value.next[p] + n
            && forall j :: |a.messages| <= j < |b.messages| ==>
                 b.messages[j] == Id(p, a.session.value.next[p] + j - |a.messages|)
    decreases limit
  {
    if limit != 0 {
      var a' := AfterDeliver(a, p);
      if CanDeliver(a', p) {
        ClaimIsConsecutive(a', p, limit - 1);
        var b := AfterClaim(a, p, limit);
        assert b.messages[|a.messages|] == a'.messages[|a.messages|];
      } else {
        assert AfterClaim(a', p, limit - 1) == a';
      }
    }
  }

  class Session {
    var next: map<nat, nat>
    var marks: map<nat, nat>

    ghost function State(): SessionState
      reads this
    {
      SessionState(next, marks)
    }

    constructor (committed: map<nat, nat>, claims: set<nat>)
      ensures State() == StartSession(committed, claims)
    {
      next := map p | p in claims :: if p in committed then committed[p] else 0;
      marks := map p | p in claims :: if p in committed then committed[p] else 0;
    }

    method MarkMessage(id: Id)
      modifies this`marks
      ensures State() == AfterMarkMessage(old(State()), id)
    {
      if id.partition in marks && marks[id.partition] < id.offset + 1 {
        marks := marks[id.partition := id.offset + 1];
      }
    }
  }

  /** consumerGroupAdapter: `session` is the pointer that Setup overwrites. */
  class ConsumerGroupAdapter {
    const groupId: string
    const topic: string
    var session: Session?
    var messages: seq<Id>

    ghost function State(): AdapterState
      reads this, session
    {
      AdapterState(if session == null then None else Some(session.State()), messages)
    }

    constructor (groupId: string, topic: string)
      ensures State() == NO_SESSION && session == null
      ensures this.groupId == groupId && this.topic == topic
    {
      this.groupId, this.topic := groupId, topic;
      session, messages := null, [];
    }

    /** Messages queued by earlier sessions stay where they are. */
    method Setup(session: Session)
      modifies this`session
      ensures this.session == session
      ensures State() == AfterSetup(old(State()), session.State())
    {
      this.session := session;
    }

    /** The claimer's loop: it ends when the session is cancelled, here after
        `limit` rounds, or stops at a full channel. */
    method ConsumeClaim(p: nat, limit: nat)
      requires session != null && p in session.next
      modifies this`messages, session`next
      ensures session == old(session) && State() == AfterClaim(old(State()), p, limit)
    {
      var left := limit;
      while left > 0 && |messages| < CHANNEL_CAPACITY
        invariant p in session.next
        invariant AfterClaim(State(), p, left) == AfterClaim(old(State()), p, limit)
      {
        messages := messages + [Id(p, session.next[p])];
        session.next := session.next[p := session.next[p] + 1];
        left := left - 1;
      }
    }

    method Receive() returns (id: Id)
      requires messages != []
      modifies this`messages
      ensures id == old(messages)[0] && State() == AfterReceive(old(State()))
    {
      id, messages := messages[0], messages[1..];
    }

    method MarkOffset(id: Id)
      modifies if session == null then {} else {session}
      ensures State() == AfterMark(old(State()), id)
    {
      if session != null {
        session.MarkMessage(id);
      }
    }

    /** The offsets sent to the broker: the current session's watermarks. */
    method CommitOffsets() returns (request: map<nat, nat>)
      ensures request == if State().session.None? then map[] else State().session.value.marks
    {
      request := map[];
      if session != null {
        request := session.marks;
      }
    }
  }
}
