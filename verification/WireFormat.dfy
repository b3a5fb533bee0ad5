/**
 The two Kafka encodings of a batch of logs: one message per log, or one message
 with the whole collection, announced by a header.
 */
module WireFormat {
  import opened Wrappers

  datatype Context = Context(kafkaTopic: string, kafkaPartition: int, kafkaReplicationFactor: int)

  datatype TimberValue = TimberValue(context: Option<Context>, content: string, timestamp: string)

  datatype Header = Header(key: string, value: string)

  /** The bytes of a Kafka message, as far as decoding tells them apart. */
  datatype Payload = TimberBytes(timber: TimberValue) | CollectionBytes(items: seq<TimberValue>, context: Option<Context>) | Garbage

  datatype Message = Message(topic: string, value: Payload, headers: seq<Header>)

  const MESSAGE_FORMAT_HEADER_KEY := "message_format"
  const TIMBER_COLLECTION_MESSAGE_FORMAT := "TimberCollection"
  const TIMBER_MESSAGE_FORMAT := "Timber"

  function TimberToMessage(t: TimberValue, topic: string): Message {
    Message(topic, TimberBytes(t), [])
  }

  function CollectionToMessage(items: seq<TimberValue>, context: Option<Context>, topic: string): Message {
    Message(topic, CollectionBytes(items, context), [Header(MESSAGE_FORMAT_HEADER_KEY, TIMBER_COLLECTION_MESSAGE_FORMAT)])
  }

  // -------------------------------------------------------------- producing

  class Timber {
    var context: Option<Context>
    var content: string
    var timestamp: string

    ghost function Value(): TimberValue
      reads this
    {
      TimberValue(context, content, timestamp)
    }

    constructor (value: TimberValue)
      ensures Value() == value
    {
      context, content, timestamp := value.context, value.content, value.timestamp;
    }

    /** Sets context and time, then converts. */
    method StampAndConvert(context: Option<Context>, time: string, topic: string) returns (m: Message)
      modifies this
      ensures Value() == TimberValue(context, old(content), time) && m == TimberToMessage(Value(), topic)
    {
      this.context := context;
      timestamp := time;
      m := TimberToMessage(TimberValue(this.context, content, timestamp), topic);
    }
  }

  ghost function Values(items: seq<Timber>): seq<TimberValue>
    reads items
  {
    seq(|items|, i requires 0 <= i < |items| reads items => items[i].Value())
  }

  predicate DistinctObjects(items: seq<Timber>) {
    forall i, j :: 0 <= i < j < |items| ==> items[i] != items[j]
  }

  function Stamped(values: seq<TimberValue>, times: seq<string>): seq<TimberValue>
    requires |times| == |values|
  {
    seq(|values|, i requires 0 <= i < |values| => values[i].(timestamp := times[i]))
  }

  /** Sends go on up to and including the first one that fails. */
  function SentCount(sends: seq<bool>): (n: nat)
    ensures n <= |sends|
    ensures forall i :: 0 <= i < n - 1 ==> sends[i]
    ensures n < |sends| ==> n > 0 && !sends[n - 1]
  {
    if sends == [] then 0 else if sends[0] then 1 + SentCount(sends[1..]) else 1
  }

  /** One message per log sent, each with the batch's context and its own time. */
  function SeparateMessages(values: seq<TimberValue>, context: Option<Context>, topic: string, times: seq<string>, sends: seq<bool>): seq<Message>
    requires |times| == |values| == |sends|
  {
    seq(SentCount(sends), i requires 0 <= i < SentCount(sends) =>
          TimberToMessage(TimberValue(context, values[i].content, times[i]), topic))
  }

  /** The part of ProduceBatch after the rate limit and the topic creation, for
      the collection format: stamp every log in place, then send once. */
  method ProduceCollection(items: seq<Timber>, context: Option<Context>, topic: string, times: seq<string>) returns (sent: Message)
    requires DistinctObjects(items) && |times| == |items|
    modifies items
    ensures sent == CollectionToMessage(Stamped(old(Values(items)), times), context, topic)
    ensures Values(items) == Stamped(old(Values(items)), times)
    ensures forall i :: 0 <= i < |items| ==>
              items[i].context == old(items[i].context) && items[i].content == old(items[i].content) && items[i].timestamp == times[i]
  {
    for i := 0 to |items|
      invariant forall j :: 0 <= j < |items| ==>
                  items[j].Value() == old(items[j].Value()).(timestamp := if j < i then times[j] else old(items[j].timestamp))
    {
      items[i].timestamp := times[i];
    }
    var values: seq<TimberValue> := [];
    for i := 0 to |items|
      invariant |values| == i && forall j :: 0 <= j < i ==> values[j] == items[j].Value()
    {
      values := values + [TimberValue(items[i].context, items[i].content, items[i].timestamp)];
    }
    assert values == Stamped(old(Values(items)), times);
    sent := CollectionToMessage(values, context, topic);
  }

  /** And for the plain format: each log gets the batch's context and a stamp,
      and is sent; a failed send ends the loop. */
  method ProduceSeparately(items: seq<Timber>, context: Option<Context>, topic: string, times: seq<string>, sends: seq<bool>)
    returns (sent: seq<Message>, ok: bool)
    requires DistinctObjects(items) && |times| == |items| == |sends|
    modifies items
    ensures sent == SeparateMessages(old(Values(items)), context, topic, times, sends)
    ensures ok <==> forall i :: 0 <= i < |sends| ==> sends[i]
    ensures |sent| <= |items| && forall j :: 0 <= j < |items| ==>
              items[j].Value() == if j < |sent| then TimberValue(context, old(items[j].content), times[j]) else old(items[j].Value())
  {
    sent, ok := [], true;
    var i := 0;
    while i < |items| && ok
      invariant 0 <= i <= |items| && |sent| == i
      invariant SendsUntil(sends, i, ok)
      invariant forall j :: 0 <= j < i ==> sent[j] == TimberToMessage(TimberValue(context, old(items[j].content), times[j]), topic)
      invariant forall j :: 0 <= j < |items| ==>
                  items[j].Value() == if j < i then TimberValue(context, old(items[j].content), times[j]) else old(items[j].Value())
    {
      var message := items[i].StampAndConvert(context, times[i], topic);
      sent := sent + [message];
      ok := sends[i];
      i := i + 1;
    }
    SentCountIs(sends, i, ok);
    AllSent(old(Values(items)), context, topic, times, sends, sent);
  }

  /** The first n sends were made; all of them worked, or just the last one failed. */
  ghost predicate SendsUntil(sends: seq<bool>, n: nat, ok: bool) {
    && n <= |sends| && (forall j :: 0 <= j < n - 1 ==> sends[j])
    && (n > 0 ==> sends[n - 1] == ok) && (n == 0 ==> ok)
  }

  lemma {:induction false} SentCountIs(sends: seq<bool>, n: nat, ok: bool)
    requires SendsUntil(sends, n, ok) && (ok ==> n == |sends|)
    ensures SentCount(sends) == n
  {
    if n > 1 {
      SentCountIs(sends[1..], n - 1, ok);
    } else if n == 1 && ok {
      assert sends[1..] == [];
    }
  }

  lemma AllSent(values: seq<TimberValue>, context: Option<Context>, topic: string, times: seq<string>, sends: seq<bool>, sent: seq<Message>)
    requires |times| == |values| == |sends| && |sent| == SentCount(sends)
    requires forall j :: 0 <= j < |sent| ==> sent[j] == TimberToMessage(TimberValue(context, values[j].content, times[j]), topic)
    ensures sent == SeparateMessages(values, context, topic, times, sends)
  {
  }

  // -------------------------------------------------------------- consuming

  /** The value of the first header with the format key. */
  function MessageFormat(headers: seq<Header>): string {
    if headers == [] then TIMBER_MESSAGE_FORMAT
    else if headers[0].key == MESSAGE_FORMAT_HEADER_KEY then headers[0].value
    else MessageFormat(headers[1..])
  }

  /** The first header with the format key decides, and only that one; without one
      the message is a single log. */
  lemma {:induction false} FirstHeaderDecides(headers: seq<Header>, k: nat)
    requires k <= |headers| && forall j :: 0 <= j < k ==> headers[j].key != "message_format"
    ensures k < |headers| && headers[k].key == "message_format" ==> MessageFormat(headers) == headers[k].value
    ensures k == |headers| ==> MessageFormat(headers) == "Timber"
  {
    if k > 0 {
      FirstHeaderDecides(headers[1..], k - 1);
    }
  }

  method GetKafkaMessageFormat(headers: seq<Header>) returns (format: string)
    ensures format == MessageFormat(headers)
  {
    for i := 0 to |headers|
      invariant MessageFormat(headers) == MessageFormat(headers[i..])
    {
      if headers[i].key == MESSAGE_FORMAT_HEADER_KEY {
        return headers[i].value;
      }
    }
    return TIMBER_MESSAGE_FORMAT;
  }

  /** The logs of a message with the context they are stored under; None if it
      does not decode as what its header says. */
  function Decoded(m: Message): Option<seq<TimberValue>> {
    if MessageFormat(m.headers) == TIMBER_COLLECTION_MESSAGE_FORMAT then
      if m.value.CollectionBytes?
      then Some(seq(|m.value.items|, i requires 0 <= i < |m.value.items| => m.value.items[i].(context := m.value.context)))
      else None
    else if m.value.TimberBytes? then Some([m.value.timber])
    else None
  }

  /** Every format but the collection's is read as a single log, unknown ones
      included; bytes of the other kind, or of none, decode to nothing. */
  lemma DecodedAsHeaderSays(m: Message)
    ensures MessageFormat(m.headers) == "TimberCollection" ==>
              && (Decoded(m).Some? <==> m.value.CollectionBytes?)
              && (Decoded(m).Some? ==>
                    && |Decoded(m).value| == |m.value.items|
                    && forall i :: 0 <= i < |m.value.items| ==>
                         Decoded(m).value[i] == TimberValue(m.value.context, m.value.items[i].content, m.value.items[i].timestamp))
    ensures MessageFormat(m.headers) != "TimberCollection" ==>
              Decoded(m) == if m.value.TimberBytes? then Some([m.value.timber]) else None
  {
  }

  /** Storing in order until a store fails; `oks` are the stores' outcomes. */
  function StoredPrefix(items: seq<TimberValue>, oks: seq<bool>): seq<TimberValue>
    requires |oks| >= |items|
  {
    if items == [] || !oks[0] then [] else [items[0]] + StoredPrefix(items[1..], oks[1..])
  }

  function Stored(m: Message, oks: seq<bool>): seq<TimberValue>
    requires Decoded(m).Some? ==> |oks| >= |Decoded(m).value|
  {
    if Decoded(m).None? then [] else StoredPrefix(Decoded(m).value, oks)
  }

  /** A message that cannot be decoded stores nothing. */
  lemma UndecodableStoresNothing(m: Message, oks: seq<bool>)
    requires !m.value.TimberBytes? && (m.value.CollectionBytes? ==> MessageFormat(m.headers) != "TimberCollection")
    ensures Decoded(m).None? && Stored(m, oks) == []
  {
  }

  /** onStoreTimber: what reaches the store. */
  method OnStoreTimber(m: Message, oks: seq<bool>) returns (stored: seq<TimberValue>)
    requires Decoded(m).Some? ==> |oks| >= |Decoded(m).value|
    ensures stored == Stored(m, oks)
  {
    stored := [];
    var format := GetKafkaMessageFormat(m.headers);
    var items, context;
    if format == TIMBER_COLLECTION_MESSAGE_FORMAT {
      if !m.value.CollectionBytes? {
        return;
      }
      items, context := m.value.items, m.value.context;
    } else {
      if !m.value.TimberBytes? {
        return;
      }
      items, context := [m.value.timber], m.value.timber.context;
    }
    ghost var decoded := Decoded(m).value;
    assert |items| == |decoded| && forall j :: 0 <= j < |items| ==> decoded[j] == items[j].(context := context);
    var i := 0;
    while i < |items| && oks[i]
      invariant 0 <= i <= |items|
      invariant stored == decoded[..i] && forall j :: 0 <= j < i ==> oks[j]
    {
      stored := stored + [items[i].(context := context)];
      i := i + 1;
    }
    StoresUpToFailure(decoded, oks, i);
  }

  lemma {:induction false} StoresUpToFailure(items: seq<TimberValue>, oks: seq<bool>, n: nat)
    requires n <= |items| <= |oks| && (forall j :: 0 <= j < n ==> oks[j]) && (n < |items| ==> !oks[n])
    ensures StoredPrefix(items, oks) == items[..n]
  {
    if n != 0 {
      StoresUpToFailure(items[1..], oks[1..], n - 1);
      assert items[..n] == [items[0]] + items[1..][..n - 1];
    }
  }

  // ------------------------------------------------------------ equivalence

  /** What consuming the messages of the plain format stores, one outcome per message. */
  function StoredFromAll(messages: seq<Message>, oks: seq<bool>): seq<TimberValue>
    requires |messages| == |oks|
    requires forall i :: 0 <= i < |messages| ==> messages[i].value.TimberBytes? && messages[i].headers == []
  {
    if messages == [] then [] else Stored(messages[0], [oks[0]]) + StoredFromAll(messages[1..], oks[1..])
  }

  function AllTrue(n: nat): seq<bool> {
    seq(n, i => true)
  }

  lemma {:induction false} AllAreSent(n: nat)
    ensures SentCount(AllTrue(n)) == n
  {
    if n != 0 {
      AllAreSent(n - 1);
      assert AllTrue(n)[1..] == AllTrue(n - 1);
    }
  }

  /** The logs of a batch as they should be stored. */
  function Expected(values: seq<TimberValue>, context: Option<Context>, times: seq<string>): seq<TimberValue>
    requires |times| == |values|
  {
    seq(|values|, i requires 0 <= i < |values| => TimberValue(context, values[i].content, times[i]))
  }

  /** The items whose store succeeds, wherever they are. */
  function Succeeding(items: seq<TimberValue>, oks: seq<bool>): seq<TimberValue>
    requires |oks| == |items|
  {
    if items == [] then [] else (if oks[0] then [items[0]] else []) + Succeeding(items[1..], oks[1..])
  }

  lemma CollectionStoresPrefix(values: seq<TimberValue>, context: Option<Context>, topic: string, times: seq<string>, oks: seq<bool>)
    requires |times| == |values| == |oks|
    ensures var m := CollectionToMessage(Stamped(values, times), context, topic);
            && Decoded(m) == Some(Expected(values, context, times))
            && Stored(m, oks) == StoredPrefix(Expected(values, context, times), oks)
  {
    var m := CollectionToMessage(Stamped(values, times), context, topic);
    assert MessageFormat(m.headers) == TIMBER_COLLECTION_MESSAGE_FORMAT;
    assert Decoded(m).value == Expected(values, context, times);
  }

  lemma {:induction false} SeparateStoreSucceeding(values: seq<TimberValue>, context: Option<Context>, topic: string, times: seq<string>, oks: seq<bool>)
    requires |times| == |values| == |oks|
    ensures var ms := SeparateMessages(values, context, topic, times, AllTrue(|values|));
            && |ms| == |oks|
            && (forall i :: 0 <= i < |ms| ==> ms[i].value.TimberBytes? && ms[i].headers == [])
            && StoredFromAll(ms, oks) == Succeeding(Expected(values, context, times), oks)
  {
    var ms := SeparateMessages(values, context, topic, times, AllTrue(|values|));
    AllAreSent(|values|);
    if values != [] {
      var n := |values| - 1;
      AllAreSent(n);
      assert ms[1..] == SeparateMessages(values[1..], context, topic, times[1..], AllTrue(n));
      SeparateStoreSucceeding(values[1..], context, topic, times[1..], oks[1..]);
      assert Expected(values, context, times)[1..] == Expected(values[1..], context, times[1..]);
      SingleStores(TimberValue(context, values[0].content, times[0]), topic, oks[0]);
    }
  }

  lemma SingleStores(t: TimberValue, topic: string, ok: bool)
    ensures Stored(TimberToMessage(t, topic), [ok]) == if ok then [t] else []
  {
    assert MessageFormat([]) == TIMBER_MESSAGE_FORMAT;
    assert Decoded(TimberToMessage(t, topic)) == Some([t]);
    assert [t][1..] == [] && [ok][1..] == [];
    assert StoredPrefix([], []) == [];
  }

  /** No store succeeds after one that failed. */
  ghost predicate FailuresAtEnd(oks: seq<bool>) {
    forall i, j :: 0 <= i < j < |oks| && !oks[i] ==> !oks[j]
  }

  lemma {:induction false} PrefixOfSucceeding(items: seq<TimberValue>, oks: seq<bool>)
    requires |items| == |oks|
    ensures StoredPrefix(items, oks) <= Succeeding(items, oks)
    ensures StoredPrefix(items, oks) == Succeeding(items, oks) <==> FailuresAtEnd(oks)
  {
    if items != [] {
      PrefixOfSucceeding(items[1..], oks[1..]);
      if oks[0] {
        assert forall i, j :: 0 <= i < j < |oks[1..]| ==> oks[1..][i] == oks[i + 1] && oks[1..][j] == oks[j + 1];
        if FailuresAtEnd(oks[1..]) {
          forall i, j | 0 <= i < j < |oks| && !oks[i]
            ensures !oks[j]
          {
            assert oks[1..][i - 1] == oks[i] && oks[1..][j - 1] == oks[j];
          }
        }
      } else {
        NothingSucceedsIffAllFail(items[1..], oks[1..]);
        assert forall j :: 1 <= j < |oks| ==> oks[1..][j - 1] == oks[j];
      }
    }
  }

  lemma {:induction false} NothingSucceedsIffAllFail(items: seq<TimberValue>, oks: seq<bool>)
    requires |items| == |oks|
    ensures Succeeding(items, oks) == [] <==> forall j :: 0 <= j < |oks| ==> !oks[j]
  {
    if items != [] {
      NothingSucceedsIffAllFail(items[1..], oks[1..]);
      assert forall j :: 1 <= j < |oks| ==> oks[1..][j - 1] == oks[j];
    }
  }

  /** The two encodings of any batch mean the same to the consumer if and only if
      no store succeeds after a failed one; otherwise the collection form stores
      the failure-free prefix, and that is a prefix of what the plain form stores. */
  lemma EncodingsEquivalent(values: seq<TimberValue>, context: Option<Context>, topic: string, times: seq<string>, oks: seq<bool>)
    requires |times| == |values| == |oks|
    ensures var one := CollectionToMessage(Stamped(values, times), context, topic);
            var many := SeparateMessages(values, context, topic, times, AllTrue(|values|));
            && Decoded(one).Some? && |Decoded(one).value| == |oks| == |many|
            && one.topic == topic
            && (forall i :: 0 <= i < |many| ==> many[i].value.TimberBytes? && many[i].headers == [] && many[i].topic == topic)
            && Stored(one, oks) <= StoredFromAll(many, oks)
            && (Stored(one, oks) == StoredFromAll(many, oks) <==> FailuresAtEnd(oks))
            && ((forall i :: 0 <= i < |oks| ==> oks[i]) ==> Stored(one, oks) == Expected(values, context, times))
  {
    CollectionStoresPrefix(values, context, topic, times, oks);
    SeparateStoreSucceeding(values, context, topic, times, oks);
    PrefixOfSucceeding(Expected(values, context, times), oks);
    if forall i :: 0 <= i < |oks| ==> oks[i] {
      AllStored(Expected(values, context, times), oks);
    }
  }

  lemma {:induction false} AllStored(items: seq<TimberValue>, oks: seq<bool>)
    requires |items| == |oks| && forall i :: 0 <= i < |oks| ==> oks[i]
    ensures StoredPrefix(items, oks) == items
  {
    if items != [] {
      AllStored(items[1..], oks[1..]);
    }
  }

  /** The collection form stores exactly up to the first failed store. */
  lemma {:induction false} StoresLongestCleanPrefix(items: seq<TimberValue>, oks: seq<bool>)
    requires |items| == |oks|
    ensures var n := |StoredPrefix(items, oks)|;
            && n <= |items| && StoredPrefix(items, oks) == items[..n]
            && (forall i :: 0 <= i < n ==> oks[i]) && (n < |items| ==> !oks[n])
  {
    if items != [] && oks[0] {
      StoresLongestCleanPrefix(items[1..], oks[1..]);
      var n := |StoredPrefix(items, oks)|;
      assert items[..n] == [items[0]] + items[1..][..n - 1];
    }
  }
}
