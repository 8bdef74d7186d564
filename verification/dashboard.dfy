/**
 * The dashboard's in-memory state: a bounded message store with FIFO
 * eviction, a bounded broadcast queue of "new message" events, and the
 * registry of live viewers that the broadcast worker writes to.
 * Locks are not modelled: every operation runs as one sequential step.
 */
module Dashboard {
  import opened Types

  /** Default capacity of the message store. */
  const DefaultMaxMessages: nat := 1000
  /** Capacity of the broadcast queue; a full queue drops new events. */
  const BroadcastCapacity: nat := 256
  /** Length of the trailing window GetStats reports. */
  const RecentWindow: nat := 20

  /** A live viewer connection; only its identity matters here. */
  class Conn {}

  /** The event queued for viewers when a message is stored. */
  datatype Event = NewMessage(message: MessageInfo)

  /** The newest `n` elements of `s` (all of `s` when it is shorter). */
  function Newest<T>(s: seq<T>, n: nat): (r: seq<T>)
    ensures |r| == Min(|s|, n)
    ensures r == s[|s| - |r|..]
  {
    if |s| > n then s[|s| - n..] else s
  }

  /** The broadcast queue after a non-blocking send of `ev`: appended when
      there is room, dropped when the queue is full. */
  function Enqueued(queue: seq<Event>, ev: Event): seq<Event>
  {
    if |queue| < BroadcastCapacity then queue + [ev] else queue
  }

  /** The store entry AddMessage builds: the broker's fields, the given
      topic, and the publish time as the received time. */
  function Entry(msg: BrokerMessage, topic: string): MessageInfo
  {
    MessageInfo(msg.ID, msg.Data, msg.Attributes, msg.PublishTime, topic, msg.PublishTime)
  }

  /** Keeping the newest `n` after keeping the newest `n` and appending
      more is the same as keeping the newest `n` of everything. */
  lemma NewestAppend<T>(a: seq<T>, b: seq<T>, n: nat)
    ensures Newest(Newest(a, n) + b, n) == Newest(a + b, n)
  {
    var a' := Newest(a, n);
    var l := Newest(a' + b, n);
    var r := Newest(a + b, n);
    assert |l| == |r|;
    forall k | 0 <= k < |l| ensures l[k] == r[k] {
      var i := |a' + b| - |l| + k;
      if i >= |a'| {
        assert (a' + b)[i] == b[i - |a'|] == (a + b)[|a + b| - |r| + k];
      } else {
        assert (a' + b)[i] == a'[i] == a[|a| - |a'| + i] == (a + b)[|a + b| - |r| + k];
      }
    }
  }

  /** The store after appending each of `xs` in turn, one AddMessage at a
      time, with capacity `cap`. */
  function AfterAppends(s: seq<MessageInfo>, xs: seq<MessageInfo>, cap: nat): seq<MessageInfo>
    decreases |xs|
  {
    if xs == [] then s else AfterAppends(Newest(s + [xs[0]], cap), xs[1..], cap)
  }

  /** FIFO eviction over any run of appends: the store holds exactly the
      newest `cap` of everything it held and everything appended. */
  lemma {:induction false} AfterAppendsIsNewest(s: seq<MessageInfo>, xs: seq<MessageInfo>, cap: nat)
    requires |s| <= cap
    ensures AfterAppends(s, xs, cap) == Newest(s + xs, cap)
    decreases |xs|
  {
    if xs == [] {
      assert s + xs == s;
    } else {
      var first, rest := s + [xs[0]], xs[1..];
      var s' := Newest(first, cap);
      assert first + rest == s + xs;
      calc {
        AfterAppends(s, xs, cap);
        AfterAppends(s', rest, cap);
        { AfterAppendsIsNewest(s', rest, cap); }
        Newest(s' + rest, cap);
        { NewestAppend(first, rest, cap); }
        Newest(first + rest, cap);
      }
    }
  }

  /** Bounded retention: after at least `cap` appends the store holds
      exactly `cap` entries, the last `cap` appended, in order. */
  lemma BoundedRetention(s: seq<MessageInfo>, xs: seq<MessageInfo>, cap: nat)
    requires |s| <= cap <= |xs|
    ensures |AfterAppends(s, xs, cap)| == cap
    ensures AfterAppends(s, xs, cap) == xs[|xs| - cap..]
  {
    AfterAppendsIsNewest(s, xs, cap);
    assert (s + xs)[|s + xs| - cap..] == xs[|xs| - cap..];
  }

  /** The first stored entry with the given id, if any. */
  function FirstWithID(s: seq<MessageInfo>, id: string): (r: Option<MessageInfo>)
    ensures r.None? <==> forall k :: 0 <= k < |s| ==> s[k].ID != id
    ensures forall k :: 0 <= k < |s| && s[k].ID == id && (forall j :: 0 <= j < k ==> s[j].ID != id)
              ==> r == Some(s[k])
  {
    if s == [] then None
    else if s[0].ID == id then Some(s[0])
    else
      var r := FirstWithID(s[1..], id);
      assert forall k :: 1 <= k < |s| ==> s[k] == s[1..][k - 1];
      r
  }

  /** The short id of a resource name: what follows the last '/', or the
      whole name when it has none. */
  function ResourceID(name: string): string
  {
    if name == [] then []
    else if name[|name| - 1] == '/' then []
    else ResourceID(name[..|name| - 1]) + [name[|name| - 1]]
  }

  /** ResourceID yields a suffix of the name that holds no '/' and is
      either the whole name or preceded by a '/'. */
  lemma {:induction false} ResourceIDSpec(name: string)
    ensures |ResourceID(name)| <= |name|
    ensures ResourceID(name) == name[|name| - |ResourceID(name)|..]
    ensures forall k :: 0 <= k < |ResourceID(name)| ==> ResourceID(name)[k] != '/'
    ensures |ResourceID(name)| < |name| ==> name[|name| - |ResourceID(name)| - 1] == '/'
  {
    if name != [] && name[|name| - 1] != '/' {
      var init, c := name[..|name| - 1], name[|name| - 1];
      ResourceIDSpec(init);
      var r := ResourceID(init);
      var id := r + [c];
      assert ResourceID(name) == id;
      assert name == init + [c];
      assert init[|init| - |r|..] + [c] == name[|name| - |id|..];
      forall k | 0 <= k < |id|
        ensures id[k] != '/'
      {
        if k < |r| {
          assert id[k] == r[k];
        }
      }
      if |id| < |name| {
        assert name[|name| - |id| - 1] == init[|init| - |r| - 1];
      }
    }
  }

  /** extractID: scans backwards for the last '/'. */
  method ExtractID(fullName: string) returns (id: string)
    ensures id == ResourceID(fullName)
  {
    var i := |fullName| - 1;
    while i >= 0
      invariant -1 <= i < |fullName|
      invariant forall k :: i < k < |fullName| ==> fullName[k] != '/'
    {
      if fullName[i] == '/' {
        id := fullName[i + 1..];
        ResourceIDUnique(fullName, id);
        return;
      }
      i := i - 1;
    }
    id := fullName;
    ResourceIDUnique(fullName, id);
  }

  /** ResourceID's contract pins its result down: any suffix of the name
      free of '/' and preceded by '/' (or the whole name) is it. */
  lemma ResourceIDUnique(name: string, c: string)
    requires |c| <= |name| && c == name[|name| - |c|..]
    requires forall k :: 0 <= k < |c| ==> c[k] != '/'
    requires |c| < |name| ==> name[|name| - |c| - 1] == '/'
    ensures c == ResourceID(name)
  {
    ResourceIDSpec(name);
  }

  /** The short id of a resource name built as "<prefix>/<id>" is `id`,
      as long as `id` itself has no '/'. */
  lemma ResourceIDOfName(prefix: string, id: string)
    requires forall k :: 0 <= k < |id| ==> id[k] != '/'
    ensures ResourceID(prefix + "/" + id) == id
  {
    var name := prefix + "/" + id;
    assert name[|name| - |id|..] == id;
    ResourceIDUnique(name, id);
  }

  /** The topic part of GetStats: one TopicInfo and one short id per
      listed topic name, in listing order. */
  method ListTopics(topicNames: seq<string>) returns (topics: seq<TopicInfo>, topicList: seq<string>)
    ensures |topics| == |topicList| == |topicNames|
    ensures forall k :: 0 <= k < |topicNames| ==>
      topics[k] == TopicInfo(topicNames[k], ResourceID(topicNames[k])) &&
      topicList[k] == ResourceID(topicNames[k])
  {
    topics, topicList := [], [];
    var i := 0;
    while i < |topicNames|
      invariant 0 <= i <= |topicNames|
      invariant |topics| == |topicList| == i
      invariant forall k :: 0 <= k < i ==> topicList[k] == ResourceID(topicNames[k])
      invariant forall k :: 0 <= k < i ==> topics[k] == TopicInfo(topicNames[k], topicList[k])
    {
      var topicID := ExtractID(topicNames[i]);
      topics := topics + [TopicInfo(topicNames[i], topicID)];
      topicList := topicList + [topicID];
      i := i + 1;
    }
  }

  /** The subscription part of GetStats, likewise. */
  method ListSubscriptions(subs: seq<ListedSubscription>) returns (subscriptions: seq<SubscriptionInfo>, subList: seq<string>)
    ensures |subscriptions| == |subList| == |subs|
    ensures forall k :: 0 <= k < |subs| ==>
      subscriptions[k] ==
        SubscriptionInfo(subs[k].Name, ResourceID(subs[k].Name), subs[k].Topic, subs[k].AckDeadlineSeconds) &&
      subList[k] == ResourceID(subs[k].Name)
  {
    subscriptions, subList := [], [];
    var j := 0;
    while j < |subs|
      invariant 0 <= j <= |subs|
      invariant |subscriptions| == |subList| == j
      invariant forall k :: 0 <= k < j ==>
        subscriptions[k] ==
          SubscriptionInfo(subs[k].Name, ResourceID(subs[k].Name), subs[k].Topic, subs[k].AckDeadlineSeconds) &&
        subList[k] == ResourceID(subs[k].Name)
    {
      var subID := ExtractID(subs[j].Name);
      subscriptions := subscriptions + [SubscriptionInfo(subs[j].Name, subID, subs[j].Topic, subs[j].AckDeadlineSeconds)];
      subList := subList + [subID];
      j := j + 1;
    }
  }

  class Dashboard {
    const projectID: string
    /** The stored messages, oldest first. */
    var messages: seq<MessageInfo>
    var maxMessages: nat
    /** The registered viewers. */
    var wsClients: set<Conn>
    /** Events waiting on the broadcast queue, oldest first. */
    var broadcast: seq<Event>

    ghost predicate Valid()
      reads this
    {
      |messages| <= maxMessages && |broadcast| <= BroadcastCapacity
    }

    /** New: an empty store of the default capacity, no viewers, and an
        empty broadcast queue. */
    constructor (projectID: string)
      ensures Valid()
      ensures this.projectID == projectID
      ensures messages == [] && maxMessages == DefaultMaxMessages
      ensures wsClients == {} && broadcast == []
    {
      this.projectID := projectID;
      messages := [];
      maxMessages := DefaultMaxMessages;
      wsClients := {};
      broadcast := [];
    }

    /** Appends the message at the tail, evicts the oldest entries beyond
        the capacity, and queues one event unless the queue is full. */
    method AddMessage(msg: BrokerMessage, topic: string)
      requires Valid()
      modifies this`messages, this`broadcast
      ensures Valid()
      ensures messages == Newest(old(messages) + [Entry(msg, topic)], maxMessages)
      ensures maxMessages > 0 ==> messages[|messages| - 1] == Entry(msg, topic)
      ensures broadcast == Enqueued(old(broadcast), NewMessage(Entry(msg, topic)))
    {
      var info := Entry(msg, topic);
      messages := messages + [info];
      if |messages| > maxMessages {
        messages := messages[|messages| - maxMessages..];
      }
      if |broadcast| < BroadcastCapacity {
        broadcast := broadcast + [NewMessage(info)];
      }
    }

    /** A copy of the whole store. */
    method GetMessages() returns (r: seq<MessageInfo>)
      ensures r == messages
    {
      r := messages;
    }

    /** The first stored entry whose id matches. */
    method GetMessageByID(id: string) returns (r: Option<MessageInfo>)
      ensures r == FirstWithID(messages, id)
    {
      var i := 0;
      while i < |messages|
        invariant 0 <= i <= |messages|
        invariant forall k :: 0 <= k < i ==> messages[k].ID != id
      {
        if messages[i].ID == id {
          return Some(messages[i]);
        }
        i := i + 1;
      }
      return None;
    }

    /** The statistics snapshot: the broker's listings (given, consumed to
        the end) with their short ids, and the store's count, last
        received time and trailing window. */
    method GetStats(topicNames: seq<string>, subs: seq<ListedSubscription>) returns (stats: DashboardStats)
      ensures |stats.Topics| == |stats.TopicList| == stats.TopicCount == |topicNames|
      ensures forall i :: 0 <= i < |topicNames| ==>
        stats.Topics[i] == TopicInfo(topicNames[i], ResourceID(topicNames[i])) &&
        stats.TopicList[i] == ResourceID(topicNames[i])
      ensures |stats.Subscriptions| == |stats.SubscriptionList| == stats.SubCount == |subs|
      ensures forall i :: 0 <= i < |subs| ==>
        stats.Subscriptions[i] ==
          SubscriptionInfo(subs[i].Name, ResourceID(subs[i].Name), subs[i].Topic, subs[i].AckDeadlineSeconds) &&
        stats.SubscriptionList[i] == ResourceID(subs[i].Name)
      ensures stats.MessageCount == stats.TotalMessages == |messages|
      ensures stats.LastMessageTime.None? <==> messages == []
      ensures messages != [] ==> stats.LastMessageTime == Some(messages[|messages| - 1].Received)
      ensures |stats.RecentMessages| == Min(RecentWindow, |messages|)
      ensures stats.RecentMessages == messages[|messages| - |stats.RecentMessages|..]
    {
      var topics, topicList := ListTopics(topicNames);
      var subscriptions, subList := ListSubscriptions(subs);
      var last: Option<Time> := None;
      if |messages| > 0 {
        last := Some(messages[|messages| - 1].Received);
      }
      var start := if |messages| - RecentWindow > 0 then |messages| - RecentWindow else 0;
      stats := DashboardStats(
        topics, subscriptions, |messages|, messages[start..], |topics|, |subscriptions|,
        |messages|, last, topicList, subList);
    }

    /** Adds a viewer to the registry. */
    method RegisterWebSocketClient(conn: Conn)
      modifies this`wsClients
      ensures wsClients == old(wsClients) + {conn}
    {
      wsClients := wsClients + {conn};
    }

    /** Removes a viewer from the registry (closing it is not modelled). */
    method UnregisterWebSocketClient(conn: Conn)
      modifies this`wsClients
      ensures wsClients == old(wsClients) - {conn}
    {
      wsClients := wsClients - {conn};
    }

    /** One round of the broadcast worker: take the oldest queued event and
        write it to every registered viewer; a viewer whose write fails (one
        in `failing`) is removed. Returns the event and the viewers that
        received it; with an empty queue no round takes place. */
    method BroadcastRound(failing: set<Conn>) returns (sent: Option<Event>, delivered: set<Conn>)
      requires Valid()
      modifies this`wsClients, this`broadcast
      ensures Valid()
      ensures old(broadcast) == [] ==>
        sent == None && delivered == {} && broadcast == [] && wsClients == old(wsClients)
      ensures old(broadcast) != [] ==>
        sent == Some(old(broadcast)[0]) && broadcast == old(broadcast)[1..] &&
        delivered == old(wsClients) - failing && wsClients == old(wsClients) - failing
    {
      sent, delivered := None, {};
      if broadcast == [] {
        return;
      }
      sent := Some(broadcast[0]);
      broadcast := broadcast[1..];
      var pending := wsClients;
      while pending != {}
        invariant pending <= old(wsClients)
        invariant broadcast == old(broadcast)[1..]
        invariant wsClients == old(wsClients) - (failing - pending)
        invariant delivered == (old(wsClients) - pending) - failing
        decreases pending
      {
        var client :| client in pending;
        if client in failing {
          wsClients := wsClients - {client};
        } else {
          delivered := delivered + {client};
        }
        pending := pending - {client};
      }
    }
  }

  /** The store entries for a run of messages all received on `topic`. */
  function Entries(msgs: seq<BrokerMessage>, topic: string): (r: seq<MessageInfo>)
    ensures |r| == |msgs|
    ensures forall k :: 0 <= k < |msgs| ==> r[k] == Entry(msgs[k], topic)
  {
    seq(|msgs|, k requires 0 <= k < |msgs| => Entry(msgs[k], topic))
  }

  /** Entries of a prefix one longer: one more entry at the end. */
  lemma EntriesSnoc(msgs: seq<BrokerMessage>, i: nat, topic: string)
    requires i < |msgs|
    ensures Entries(msgs[..i + 1], topic) == Entries(msgs[..i], topic) + [Entry(msgs[i], topic)]
  {
    var l := Entries(msgs[..i + 1], topic);
    var r := Entries(msgs[..i], topic) + [Entry(msgs[i], topic)];
    assert |l| == |r|;
    forall k | 0 <= k < |l| ensures l[k] == r[k] {
      if k < i {
        assert msgs[..i + 1][k] == msgs[..i][k];
      }
    }
  }

  /** The newest 10 of the entries for 15 messages are those for messages
      5 to 14. */
  lemma NewestTenOfFifteen(msgs: seq<BrokerMessage>, topic: string)
    requires |msgs| == 15
    ensures |Newest(Entries(msgs, topic), 10)| == 10
    ensures forall k :: 0 <= k < 10 ==> Newest(Entries(msgs, topic), 10)[k] == Entry(msgs[k + 5], topic)
  {
    var all := Entries(msgs, topic);
    assert Newest(all, 10) == all[5..];
  }

  /** The capacity example: with the capacity lowered to 10, fifteen
      appends leave exactly ten entries, the last ten appended. */
  method CapacityExample(msgs: seq<BrokerMessage>) returns (stored: seq<MessageInfo>)
    requires |msgs| == 15
    ensures |stored| == 10
    ensures forall k :: 0 <= k < 10 ==> stored[k] == Entry(msgs[k + 5], "test-topic")
  {
    var d := new Dashboard("test-project");
    d.maxMessages := 10;
    var i := 0;
    while i < 15
      invariant 0 <= i <= 15
      invariant d.Valid() && d.maxMessages == 10
      invariant d.messages == Newest(Entries(msgs[..i], "test-topic"), 10)
    {
      d.AddMessage(msgs[i], "test-topic");
      NewestAppend(Entries(msgs[..i], "test-topic"), [Entry(msgs[i], "test-topic")], 10);
      EntriesSnoc(msgs, i, "test-topic");
      i := i + 1;
    }
    stored := d.GetMessages();
    assert msgs[..15] == msgs;
    NewestTenOfFifteen(msgs, "test-topic");
  }
}
