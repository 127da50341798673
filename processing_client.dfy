/** The cloud-side subscriber. A `ProcessingClient` subscribes to every
    direct child of a base channel (`<channel>/+`), fixes one output bucket
    `<channel>-<id>` when it is built, and hands every received message to
    the saver under a freshly generated object name. */
module Processing {
  import opened ObjectStorage
  import opened MessageSaving
  import opened Wrappers

  /** The subscription topic built from the base channel: all its direct
      children, through the single-level wildcard. */
  function SubscriptionTopic(channel: string): (topic: string)
    ensures |topic| == |channel| + 2
    ensures topic[..|channel|] == channel && topic[|channel|..] == "/+"
  {
    channel + "/+"
  }

  /** The base channel a subscription topic was built from, if it was. */
  function TopicChannel(topic: string): (channel: Option<string>)
    ensures channel.Some? ==> SubscriptionTopic(channel.value) == topic
    ensures channel.None? ==> forall c :: SubscriptionTopic(c) != topic
  {
    if |topic| >= 2 && topic[|topic| - 2..] == "/+" then Some(topic[..|topic| - 2]) else None
  }

  /** The output bucket of one client: the base channel, a hyphen, and the
      identifier drawn once at construction. */
  function OutputBucket(channel: string, id: string): (bucket: string)
    ensures |bucket| == |channel| + 1 + |id|
    ensures bucket[..|channel|] == channel && bucket[|channel|] == '-' && bucket[|channel| + 1..] == id
  {
    channel + "-" + id
  }

  /** The base channel is recovered from the subscription topic. */
  lemma TopicRoundTrip(channel: string)
    ensures TopicChannel(SubscriptionTopic(channel)) == Some(channel)
  {
    var t := SubscriptionTopic(channel);
    assert t[|t| - 2..] == "/+";
    assert t[..|t| - 2] == channel;
  }

  /** Clients on the same base channel with different identifiers write to
      different buckets, and clients on different channels with identifiers
      of the same length do too. */
  lemma {:induction false} OutputBucketInjective(c1: string, id1: string, c2: string, id2: string)
    requires |c1| == |c2| || |id1| == |id2|
    ensures OutputBucket(c1, id1) == OutputBucket(c2, id2) <==> c1 == c2 && id1 == id2
  {
    var b1, b2 := OutputBucket(c1, id1), OutputBucket(c2, id2);
    if b1 == b2 {
      assert |c1| == |c2|;
      assert c1 == b1[..|c1|] == b2[..|c2|] == c2;
      assert id1 == b1[|c1| + 1..] == b2[|c2| + 1..] == id2;
    }
  }

  /** One inbound message: its body and the object name generated for it. */
  datatype Delivery = Delivery(body: string, objectName: string)

  /** The sink after handling `messages` in order, each stored into `bucket`. */
  function StoreAll(s: Sink, location: string, bucket: string, messages: seq<Delivery>): (r: Sink)
    decreases |messages|
  {
    if messages == [] then s
    else
      var m := messages[|messages| - 1];
      Store(StoreAll(s, location, bucket, messages[..|messages| - 1]), location, m.body, m.objectName, bucket).sink
  }

  predicate DistinctNames(messages: seq<Delivery>) {
    forall i, j :: 0 <= i < j < |messages| ==> messages[i].objectName != messages[j].objectName
  }

  /** A session only extends the provider log, never removes a bucket,
      adds no bucket but the client's own, and leaves that bucket cached. */
  lemma {:induction false} SessionState(s: Sink, location: string, bucket: string, messages: seq<Delivery>)
    ensures var r := StoreAll(s, location, bucket, messages);
      && |s.calls| <= |r.calls| && r.calls[..|s.calls|] == s.calls
      && s.buckets <= r.buckets <= s.buckets + {bucket}
      && (messages != [] ==> bucket in r.checked)
      && (forall b :: b in r.checked ==> b in s.checked || b == bucket)
    decreases |messages|
  {
    if messages != [] {
      var init := messages[..|messages| - 1];
      SessionState(s, location, bucket, init);
    }
  }

  /** Logs that extend each other split into the calls of each stretch. */
  lemma IssuedSplit(a: Sink, b: Sink, c: Sink, k: CallKind)
    requires |a.calls| <= |b.calls| <= |c.calls|
    requires b.calls[..|a.calls|] == a.calls && c.calls[..|b.calls|] == b.calls
    ensures Issued(a, c) == Issued(a, b) + Issued(b, c)
    ensures Count(Issued(a, c), k) == Count(Issued(a, b), k) + Count(Issued(b, c), k)
  {
    assert Issued(a, c) == Issued(a, b) + Issued(b, c);
    CountAppend(Issued(a, b), Issued(b, c), k);
  }

  /** Each message of a session issues exactly one Put. */
  lemma {:induction false} SessionPuts(s: Sink, location: string, bucket: string, messages: seq<Delivery>)
    ensures var r := StoreAll(s, location, bucket, messages);
      |s.calls| <= |r.calls| && Count(Issued(s, r), PutKind) == |messages|
    decreases |messages|
  {
    var r := StoreAll(s, location, bucket, messages);
    SessionState(s, location, bucket, messages);
    if messages == [] {
      assert Issued(s, r) == [];
    } else {
      var init, m := messages[..|messages| - 1], messages[|messages| - 1];
      var mid := StoreAll(s, location, bucket, init);
      SessionPuts(s, location, bucket, init);
      SessionState(s, location, bucket, init);
      StoreCallCounts(mid, location, m.body, m.objectName, bucket);
      IssuedSplit(s, mid, r, PutKind);
    }
  }

  /** Every Put in `calls` writes into `bucket`. */
  predicate PutsOnlyInto(calls: seq<Call>, bucket: string) {
    forall i :: 0 <= i < |calls| && calls[i].Put? ==> calls[i].bucket == bucket
  }

  lemma StorePutsOnlyInto(s: Sink, location: string, message: string, objectName: string, bucket: string)
    ensures var r := Store(s, location, message, objectName, bucket);
      |s.calls| <= |r.sink.calls| && PutsOnlyInto(Issued(s, r.sink), bucket)
  {
    StoreIssues(s, location, message, objectName, bucket);
  }

  /** Every Put of a session writes into the client's bucket. */
  lemma {:induction false} SessionPutsTargetBucket(s: Sink, location: string, bucket: string, messages: seq<Delivery>)
    ensures var r := StoreAll(s, location, bucket, messages);
      |s.calls| <= |r.calls| && PutsOnlyInto(Issued(s, r), bucket)
    decreases |messages|
  {
    var r := StoreAll(s, location, bucket, messages);
    SessionState(s, location, bucket, messages);
    if messages == [] {
      assert Issued(s, r) == [];
    } else {
      var init, m := messages[..|messages| - 1], messages[|messages| - 1];
      var mid := StoreAll(s, location, bucket, init);
      SessionPutsTargetBucket(s, location, bucket, init);
      SessionState(s, location, bucket, init);
      assert r == Store(mid, location, m.body, m.objectName, bucket).sink;
      StorePutsOnlyInto(mid, location, m.body, m.objectName, bucket);
      var before: seq<Call>, step: seq<Call> := Issued(s, mid), Issued(mid, r);
      IssuedSplit(s, mid, r, PutKind);
      forall i | 0 <= i < |before + step| && (before + step)[i].Put?
        ensures (before + step)[i].bucket == bucket
      {
        if i >= |before| {
          assert (before + step)[i] == step[i - |before|];
        }
      }
    }
  }

  /** Once the bucket is cached, a session neither lists nor creates. */
  lemma {:induction false} CachedSessionOnlyPuts(s: Sink, location: string, bucket: string, messages: seq<Delivery>)
    requires bucket in s.checked
    ensures var r := StoreAll(s, location, bucket, messages);
      && |s.calls| <= |r.calls|
      && Count(Issued(s, r), CreateKind) == 0
      && Count(Issued(s, r), ListKind) == 0
    decreases |messages|
  {
    var r := StoreAll(s, location, bucket, messages);
    SessionState(s, location, bucket, messages);
    if messages == [] {
      assert Issued(s, r) == [];
    } else {
      var init, m := messages[..|messages| - 1], messages[|messages| - 1];
      var mid := StoreAll(s, location, bucket, init);
      CachedSessionOnlyPuts(s, location, bucket, init);
      SessionState(s, location, bucket, init);
      assert bucket in mid.checked;
      StoreCallCounts(mid, location, m.body, m.objectName, bucket);
      IssuedSplit(s, mid, r, CreateKind);
      IssuedSplit(s, mid, r, ListKind);
    }
  }

  /** Any number of messages list at most once and create the bucket at
      most once; none at all if the bucket was already cached or existed. */
  lemma {:induction false} SessionCreatesAtMostOnce(s: Sink, location: string, bucket: string, messages: seq<Delivery>)
    ensures var r := StoreAll(s, location, bucket, messages);
      && |s.calls| <= |r.calls|
      && Count(Issued(s, r), CreateKind) <= 1
      && Count(Issued(s, r), ListKind) <= 1
      && (bucket in s.checked || bucket in s.buckets ==> Count(Issued(s, r), CreateKind) == 0)
      && (bucket in s.checked ==> Count(Issued(s, r), ListKind) == 0)
  {
    var r := StoreAll(s, location, bucket, messages);
    SessionState(s, location, bucket, messages);
    if messages == [] {
      assert Issued(s, r) == [];
    } else if bucket in s.checked {
      CachedSessionOnlyPuts(s, location, bucket, messages);
    } else {
      var first, rest := messages[..1], messages[1..];
      assert messages == first + rest;
      StoreAllAppend(s, location, bucket, first, rest);
      var s1 := StoreAll(s, location, bucket, first);
      assert first[..0] == [];
      assert s1 == Store(s, location, first[0].body, first[0].objectName, bucket).sink;
      StoreCallCounts(s, location, first[0].body, first[0].objectName, bucket);
      CachedSessionOnlyPuts(s1, location, bucket, rest);
      SessionState(s1, location, bucket, rest);
      IssuedSplit(s, s1, r, CreateKind);
      IssuedSplit(s, s1, r, ListKind);
    }
  }

  /** With a cache backed by the provider (a fresh saver's empty cache is),
      every message of a session is written: each distinctly named message
      is found under its own name in the client's bucket, and every object
      outside that bucket is untouched. */
  lemma {:induction false} SessionStoresEveryMessage(s: Sink, location: string, bucket: string, messages: seq<Delivery>)
    requires CacheBacked(s)
    requires DistinctNames(messages)
    ensures var r := StoreAll(s, location, bucket, messages);
      && CacheBacked(r)
      && (forall i :: 0 <= i < |messages| ==>
            (bucket, messages[i].objectName) in r.objects && r.objects[(bucket, messages[i].objectName)] == messages[i].body)
      && (forall key :: key in s.objects && key.0 != bucket ==> key in r.objects && r.objects[key] == s.objects[key])
    decreases |messages|
  {
    if messages != [] {
      var init := messages[..|messages| - 1];
      var m := messages[|messages| - 1];
      assert DistinctNames(init) by {
        forall i, j | 0 <= i < j < |init| ensures init[i].objectName != init[j].objectName {
          assert init[i] == messages[i] && init[j] == messages[j];
        }
      }
      SessionStoresEveryMessage(s, location, bucket, init);
      var mid := StoreAll(s, location, bucket, init);
      var r := StoreAll(s, location, bucket, messages);
      assert r == Store(mid, location, m.body, m.objectName, bucket).sink;
      assert r.objects == mid.objects[(bucket, m.objectName) := m.body];
      forall i | 0 <= i < |messages|
        ensures (bucket, messages[i].objectName) in r.objects && r.objects[(bucket, messages[i].objectName)] == messages[i].body
      {
        if i < |messages| - 1 {
          assert messages[i] == init[i];
          assert messages[i].objectName != m.objectName;
        }
      }
    }
  }

  /** Sessions compose: handling `a` and then `b` is handling `a + b`. */
  lemma {:induction false} StoreAllAppend(s: Sink, location: string, bucket: string, a: seq<Delivery>, b: seq<Delivery>)
    ensures StoreAll(s, location, bucket, a + b) == StoreAll(StoreAll(s, location, bucket, a), location, bucket, b)
    decreases |b|
  {
    if b == [] {
      assert a + b == a;
    } else {
      assert (a + b)[..|a + b| - 1] == a + b[..|b| - 1];
      assert (a + b)[|a + b| - 1] == b[|b| - 1];
      StoreAllAppend(s, location, bucket, a, b[..|b| - 1]);
    }
  }

  class ProcessingClient {
    const host: string
    const port: int
    const topic: string          // what the client subscribes to
    const outputChannel: string  // the bucket every message is stored in
    const saver: MessageSaver
    var subscriptions: seq<string>   // subscribe requests sent to the broker

    /** `channelId` is the textual identifier drawn once for this client. */
    constructor (brokerHost: string, brokerPort: int, channel: string, saver: MessageSaver, channelId: string)
      ensures host == brokerHost && port == brokerPort && this.saver == saver
      ensures topic == SubscriptionTopic(channel)
      ensures outputChannel == OutputBucket(channel, channelId)
      ensures subscriptions == []
    {
      host := brokerHost;
      port := brokerPort;
      topic := channel + "/+";
      outputChannel := channel + "-" + channelId;
      this.saver := saver;
      subscriptions := [];
    }

    /** On connection the client subscribes to its topic. */
    method OnConnect()
      modifies this
      ensures subscriptions == old(subscriptions) + [topic]
    {
      subscriptions := subscriptions + [topic];
    }

    /** One inbound message, with `objectName` the identifier freshly drawn
        for it: exactly one store, of this message, into the client's bucket. */
    method OnMessage(message: string, objectName: string) returns (outcome: Outcome)
      modifies saver, saver.store
      ensures Stored(outcome, saver.State()) ==
              Store(old(saver.State()), saver.bucketLocation, message, objectName, outputChannel)
    {
      outcome := saver.StoreObject(message, objectName, outputChannel);
    }
  }
}
