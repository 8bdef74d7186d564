/**
 * The decision logic of the dashboard's HTTP handlers once the HTTP
 * envelope is stripped: the search filter, the replay of a stored message,
 * publishing from the dashboard, and the validation of the create-topic,
 * create-subscription and publish requests. Outcomes are BadRequest,
 * NotFound, PublishError or success.
 */
module Handlers {
  import opened Types
  import opened Text
  import opened Dashboard

  const MaxIDLength: nat := 255
  const DefaultAckDeadline: int := 10
  const MaxAckDeadline: int := 600
  const MaxDataSize: nat := 10 * 1024 * 1024

  datatype ValidationError =
    | MessageIDRequired
    | TopicIDRequired
    | TopicIDTooLong
    | SubscriptionIDRequired
    | SubscriptionIDTooLong
    | AckDeadlineTooLong
    | DataRequired
    | DataTooLarge

  datatype HandlerError =
    | BadRequest(why: ValidationError)
    | NotFound
    | PublishError(reason: string)

  /** The answer to a successful replay. */
  datatype Replayed = Replayed(messageId: string, originalId: string)

  // ---------------------------------------------------------------- search

  /** The search criteria: `term` (already lower-cased) must occur in the
      lower-cased data or id, `topic` must equal the topic exactly; an empty
      criterion matches everything. */
  predicate Matches(m: MessageInfo, term: string, topic: string)
  {
    && (topic == "" || m.Topic == topic)
    && (term == "" || Contains(Lower(m.Data), term) || Contains(Lower(m.ID), term))
  }

  /** The entries of `s` that match, in storage order. */
  function Filter(s: seq<MessageInfo>, term: string, topic: string): seq<MessageInfo>
  {
    if s == [] then []
    else
      var last := s[|s| - 1];
      Filter(s[..|s| - 1], term, topic) + (if Matches(last, term, topic) then [last] else [])
  }

  /** handleSearchMessages' loop: keep the matching messages in order.
      The store is only read. */
  method SearchMessages(d: Dashboard, q: string, topicFilter: string) returns (filtered: seq<MessageInfo>)
    ensures filtered == Filter(d.messages, Lower(q), topicFilter)
  {
    var searchTerm := Lower(q);
    filtered := [];
    var i := 0;
    while i < |d.messages|
      invariant 0 <= i <= |d.messages|
      invariant filtered == Filter(d.messages[..i], searchTerm, topicFilter)
    {
      var msg := d.messages[i];
      assert d.messages[..i + 1][..i] == d.messages[..i];
      if topicFilter != "" && msg.Topic != topicFilter {
        i := i + 1;
        continue;
      }
      if searchTerm != "" {
        var dataLower := Lower(msg.Data);
        var idLower := Lower(msg.ID);
        if !Contains(dataLower, searchTerm) && !Contains(idLower, searchTerm) {
          i := i + 1;
          continue;
        }
      }
      filtered := filtered + [msg];
      i := i + 1;
    }
    assert d.messages[..i] == d.messages;
  }

  /** Filtering distributes over concatenation: the result keeps storage
      order. */
  lemma {:induction false} FilterAppend(a: seq<MessageInfo>, b: seq<MessageInfo>, term: string, topic: string)
    ensures Filter(a + b, term, topic) == Filter(a, term, topic) + Filter(b, term, topic)
    decreases |b|
  {
    if b != [] {
      var b' := b[..|b| - 1];
      FilterAppend(a, b', term, topic);
      assert (a + b)[..|a + b| - 1] == a + b';
    } else {
      assert a + b == a;
    }
  }

  /** Every matching entry is kept as often as it is stored, and nothing
      else is kept. */
  lemma {:induction false} FilterCounts(s: seq<MessageInfo>, term: string, topic: string, m: MessageInfo)
    ensures multiset(Filter(s, term, topic))[m] == if Matches(m, term, topic) then multiset(s)[m] else 0
  {
    if s != [] {
      var init, last := s[..|s| - 1], s[|s| - 1];
      FilterCounts(init, term, topic, m);
      var kept := if Matches(last, term, topic) then [last] else [];
      assert Filter(s, term, topic) == Filter(init, term, topic) + kept;
      assert multiset(Filter(s, term, topic))[m] == multiset(Filter(init, term, topic))[m] + multiset(kept)[m];
      assert s == init + [last];
      assert multiset(s)[m] == multiset(init)[m] + multiset([last])[m];
      if last != m {
        assert multiset(kept)[m] == 0 == multiset([last])[m];
      }
    }
  }

  /** With no term and no topic the search returns the whole store. */
  lemma {:induction false} FilterNoCriteria(s: seq<MessageInfo>)
    ensures Filter(s, "", "") == s
  {
    if s != [] {
      FilterNoCriteria(s[..|s| - 1]);
    }
  }

  /** Term and topic together select the intersection: filtering by topic
      and then by term gives the same result. */
  lemma {:induction false} FilterIntersection(s: seq<MessageInfo>, term: string, topic: string)
    ensures Filter(s, term, topic) == Filter(Filter(s, "", topic), term, "")
  {
    if s != [] {
      var init := s[..|s| - 1];
      var last := s[|s| - 1];
      FilterIntersection(init, term, topic);
      FilterAppend(Filter(init, "", topic), if Matches(last, "", topic) then [last] else [], term, "");
    }
  }

  /** The entries of a three-entry store that match, in order. */
  lemma FilterOfThree(a: MessageInfo, b: MessageInfo, c: MessageInfo, term: string, topic: string)
    ensures Filter([a, b, c], term, topic) ==
      (if Matches(a, term, topic) then [a] else []) +
      (if Matches(b, term, topic) then [b] else []) +
      (if Matches(c, term, topic) then [c] else [])
  {
    assert [a, b, c][..2] == [a, b];
    assert [a, b][..1] == [a];
    assert [a][..0] == [];
    assert Filter([a], term, topic) == if Matches(a, term, topic) then [a] else [];
    assert Filter([a, b], term, topic) ==
      Filter([a], term, topic) + (if Matches(b, term, topic) then [b] else []);
  }

  /** A message whose data has no upper-case letter and starts with
      `term` matches `term`. */
  lemma MatchesLeadingTerm(m: MessageInfo, term: string, rest: string)
    requires m.Data == term + rest && NoUpper(m.Data)
    ensures Matches(m, term, "")
  {
    LowerUnchanged(m.Data);
    assert OccursAt(Lower(m.Data), term, 0);
  }

  /** A message with no upper-case letter whose data and id both lack a
      character of `term` does not match `term`. */
  lemma MissesTermWithout(m: MessageInfo, term: string, c: char)
    requires c in term
    requires NoUpper(m.Data) && NoUpper(m.ID)
    requires c !in m.Data && c !in m.ID
    ensures !Matches(m, term, "")
  {
    LowerUnchanged(m.Data);
    LowerUnchanged(m.ID);
    NotContainsChar(m.Data, term, c);
    NotContainsChar(m.ID, term, c);
  }

  /** The store of the search example: two "hello" messages (on topic1 and
      topic2) around a "goodbye" message on topic1. */
  function HelloWorld(t: Time): MessageInfo
  {
    MessageInfo("msg-1", "hello world", map[], t, "topic1", t)
  }

  function GoodbyeWorld(t: Time): MessageInfo
  {
    MessageInfo("msg-2", "goodbye world", map[], t, "topic1", t)
  }

  function HelloUniverse(t: Time): MessageInfo
  {
    MessageInfo("msg-3", "hello universe", map[], t, "topic2", t)
  }

  // The character facts below are each stated about a parameter that the
  // precondition fixes to a literal, so that every literal is taken apart
  // in a small lemma of its own rather than inside the examples.

  /** The character facts the example needs about its ids. */
  lemma ExampleIDFacts(id: string)
    requires id == "msg-1" || id == "msg-2" || id == "msg-3"
    ensures NoUpper(id) && 'h' !in id && 'y' !in id && 'x' !in id
  {
  }

  /** The character facts the example needs about its queries. */
  lemma ExampleQueryFacts(hello: string, goodbye: string, nonexistent: string)
    requires hello == "hello" && goodbye == "goodbye" && nonexistent == "nonexistent"
    ensures NoUpper(hello) && NoUpper(goodbye) && NoUpper(nonexistent)
    ensures 'h' in hello && 'y' in goodbye && 'x' in nonexistent
  {
  }

  lemma HelloWorldFacts(data: string)
    requires data == "hello world"
    ensures NoUpper(data) && 'y' !in data && 'x' !in data && data == "hello" + " world"
  {
  }

  lemma GoodbyeWorldFacts(data: string)
    requires data == "goodbye world"
    ensures NoUpper(data) && 'h' !in data && 'x' !in data && data == "goodbye" + " world"
  {
  }

  lemma HelloUniverseFacts(data: string)
    requires data == "hello universe"
    ensures NoUpper(data) && 'y' !in data && 'x' !in data && data == "hello" + " universe"
  {
  }

  /** Which example queries the first example message matches. */
  lemma ExampleMatches1(t: Time)
    ensures Matches(HelloWorld(t), "hello", "")
    ensures !Matches(HelloWorld(t), "goodbye", "")
    ensures !Matches(HelloWorld(t), "nonexistent", "")
  {
    var m := HelloWorld(t);
    HelloWorldFacts(m.Data);
    ExampleIDFacts(m.ID);
    ExampleQueryFacts("hello", "goodbye", "nonexistent");
    MatchesLeadingTerm(m, "hello", " world");
    MissesTermWithout(m, "goodbye", 'y');
    MissesTermWithout(m, "nonexistent", 'x');
  }

  /** Likewise for the second. */
  lemma ExampleMatches2(t: Time)
    ensures !Matches(GoodbyeWorld(t), "hello", "")
    ensures Matches(GoodbyeWorld(t), "goodbye", "")
    ensures !Matches(GoodbyeWorld(t), "nonexistent", "")
  {
    var m := GoodbyeWorld(t);
    GoodbyeWorldFacts(m.Data);
    ExampleIDFacts(m.ID);
    ExampleQueryFacts("hello", "goodbye", "nonexistent");
    MatchesLeadingTerm(m, "goodbye", " world");
    MissesTermWithout(m, "hello", 'h');
    MissesTermWithout(m, "nonexistent", 'x');
  }

  /** Likewise for the third. */
  lemma ExampleMatches3(t: Time)
    ensures Matches(HelloUniverse(t), "hello", "")
    ensures !Matches(HelloUniverse(t), "goodbye", "")
    ensures !Matches(HelloUniverse(t), "nonexistent", "")
  {
    var m := HelloUniverse(t);
    HelloUniverseFacts(m.Data);
    ExampleIDFacts(m.ID);
    ExampleQueryFacts("hello", "goodbye", "nonexistent");
    MatchesLeadingTerm(m, "hello", " universe");
    MissesTermWithout(m, "goodbye", 'y');
    MissesTermWithout(m, "nonexistent", 'x');
  }

  /** The search example's term queries: "hello", "goodbye",
      "nonexistent", and no criteria at all. */
  lemma SearchByTermExample(t1: Time, t2: Time, t3: Time)
    ensures
      var m1, m2, m3 := HelloWorld(t1), GoodbyeWorld(t2), HelloUniverse(t3);
      var store := [m1, m2, m3];
      && Filter(store, Lower("hello"), "") == [m1, m3]
      && Filter(store, Lower("goodbye"), "") == [m2]
      && Filter(store, Lower("nonexistent"), "") == []
      && Filter(store, "", "") == store
  {
    var m1, m2, m3 := HelloWorld(t1), GoodbyeWorld(t2), HelloUniverse(t3);
    ExampleQueryFacts("hello", "goodbye", "nonexistent");
    LowerUnchanged("hello");
    LowerUnchanged("goodbye");
    LowerUnchanged("nonexistent");
    ExampleMatches1(t1);
    ExampleMatches2(t2);
    ExampleMatches3(t3);
    FilterOfThree(m1, m2, m3, "hello", "");
    FilterOfThree(m1, m2, m3, "goodbye", "");
    FilterOfThree(m1, m2, m3, "nonexistent", "");
    FilterNoCriteria([m1, m2, m3]);
  }

  /** A stored message with mixed-case data. */
  function MixedCase(t: Time): MessageInfo
  {
    MessageInfo("msg-4", "Hello World", map[], t, "topic1", t)
  }

  /** Lower-casing the mixed-case data and an upper-case query. */
  lemma MixedCaseFacts(data: string, query: string)
    requires data == "Hello World" && query == "HELLO"
    ensures Lower(data) == "hello" + " world"
    ensures Lower(query) == "hello"
  {
  }

  /** The search ignores case: the query "HELLO" finds "Hello World". */
  lemma CaseInsensitiveExample(t: Time)
    ensures Filter([MixedCase(t)], Lower("HELLO"), "") == [MixedCase(t)]
  {
    var m := MixedCase(t);
    MixedCaseFacts(m.Data, "HELLO");
    assert OccursAt(Lower(m.Data), Lower("HELLO"), 0);
    assert Matches(m, Lower("HELLO"), "");
    assert [m][..0] == [];
  }

  /** The search example's topic queries: topic2 alone, and "hello" on
      topic1. */
  lemma SearchByTopicExample(t1: Time, t2: Time, t3: Time)
    ensures
      var m1, m2, m3 := HelloWorld(t1), GoodbyeWorld(t2), HelloUniverse(t3);
      var store := [m1, m2, m3];
      && Filter(store, "", "topic2") == [m3]
      && Filter(store, Lower("hello"), "topic1") == [m1]
  {
    var m1, m2, m3 := HelloWorld(t1), GoodbyeWorld(t2), HelloUniverse(t3);
    ExampleQueryFacts("hello", "goodbye", "nonexistent");
    LowerUnchanged("hello");
    ExampleMatches1(t1);
    ExampleMatches2(t2);
    FilterOfThree(m1, m2, m3, "", "topic2");
    FilterOfThree(m1, m2, m3, "hello", "topic1");
  }

  // ---------------------------------------------------------------- replay

  /** handleReplay: reject an empty id, look up the first entry with that
      id, republish its data and attributes to its topic, and on success
      store the new message under the original topic. `reply` is the
      broker's answer to that publish and `now` the clock; `sent` is what
      was handed to the broker, if anything. */
  method Replay(d: Dashboard, messageID: string, reply: PublishReply, now: Time)
    returns (r: Result<Replayed, HandlerError>, sent: Option<Outgoing>)
    requires d.Valid()
    modifies d`messages, d`broadcast
    ensures d.Valid()
    ensures messageID == "" ==> r == Err(BadRequest(MessageIDRequired)) && sent == None
    ensures messageID != "" && FirstWithID(old(d.messages), messageID) == None ==>
      r == Err(NotFound) && sent == None
    ensures messageID != "" && FirstWithID(old(d.messages), messageID).Some? ==>
      var orig := FirstWithID(old(d.messages), messageID).value;
      && sent == Some(Outgoing(orig.Topic, orig.Data, orig.Attributes))
      && r == (match reply
               case Published(id) => Ok(Replayed(id, messageID))
               case Rejected(why) => Err(PublishError(why)))
    ensures r.Err? ==> d.messages == old(d.messages) && d.broadcast == old(d.broadcast)
    ensures r.Ok? ==>
      var stored := Entry(BrokerMessage(r.value.messageId, sent.value.Data, sent.value.Attributes, now), sent.value.Topic);
      && d.messages == Newest(old(d.messages) + [stored], d.maxMessages)
      && d.broadcast == Enqueued(old(d.broadcast), NewMessage(stored))
  {
    sent := None;
    if messageID == "" {
      return Err(BadRequest(MessageIDRequired)), sent;
    }

    var originalMsg: MessageInfo;
    var found := false;
    var i := 0;
    while i < |d.messages|
      invariant 0 <= i <= |d.messages|
      invariant forall k :: 0 <= k < i ==> d.messages[k].ID != messageID
    {
      if d.messages[i].ID == messageID {
        originalMsg := d.messages[i];
        found := true;
        break;
      }
      i := i + 1;
    }
    if !found {
      return Err(NotFound), sent;
    }
    assert FirstWithID(d.messages, messageID) == Some(originalMsg);

    sent := Some(Outgoing(originalMsg.Topic, originalMsg.Data, originalMsg.Attributes));
    match reply {
      case Rejected(why) =>
        r := Err(PublishError(why));
      case Published(msgID) =>
        d.AddMessage(BrokerMessage(msgID, originalMsg.Data, originalMsg.Attributes, now), originalMsg.Topic);
        r := Ok(Replayed(msgID, messageID));
    }
  }

  // ------------------------------------------------------------ validation

  /** The broker resource names the handlers build. */
  function TopicName(projectID: string, topicID: string): string
  {
    "projects/" + projectID + "/topics/" + topicID
  }

  function SubscriptionName(projectID: string, subscriptionID: string): string
  {
    "projects/" + projectID + "/subscriptions/" + subscriptionID
  }

  /** handleCreateTopic's checks: the id is required and at most 255 long;
      an accepted request creates the topic TopicName(project, id). */
  function ValidateCreateTopic(req: CreateTopicRequest): (r: Option<ValidationError>)
    ensures r == None <==> 0 < |req.TopicID| <= MaxIDLength
    ensures r == Some(TopicIDRequired) <==> req.TopicID == ""
    ensures r == Some(TopicIDTooLong) <==> |req.TopicID| > MaxIDLength
  {
    if req.TopicID == "" then Some(TopicIDRequired)
    else if |req.TopicID| > MaxIDLength then Some(TopicIDTooLong)
    else None
  }

  /** The topic created for an accepted request lists back (through the
      short-id extraction of GetStats) under the requested id, when the id
      has no '/'. */
  lemma CreatedTopicListsAsRequested(projectID: string, req: CreateTopicRequest)
    requires ValidateCreateTopic(req) == None
    requires forall k :: 0 <= k < |req.TopicID| ==> req.TopicID[k] != '/'
    ensures ResourceID(TopicName(projectID, req.TopicID)) == req.TopicID
  {
    assert TopicName(projectID, req.TopicID) == ("projects/" + projectID + "/topics") + "/" + req.TopicID;
    ResourceIDOfName("projects/" + projectID + "/topics", req.TopicID);
  }

  /** What an accepted create-subscription request asks the broker for. */
  datatype SubscriptionCall = SubscriptionCall(Name: string, Topic: string, AckDeadlineSeconds: int)

  /** handleCreateSubscription's checks, in order: subscription id required
      and at most 255 long, topic id required, a non-positive ack deadline
      becomes 10 seconds, and a deadline above 600 seconds is rejected. */
  function ValidateCreateSubscription(projectID: string, req: CreateSubscriptionRequest)
    : (r: Result<SubscriptionCall, ValidationError>)
    ensures r.Ok? <==>
      0 < |req.SubscriptionID| <= MaxIDLength && req.TopicID != "" && req.AckDeadlineSeconds <= MaxAckDeadline
    ensures r.Ok? ==>
      && 1 <= r.value.AckDeadlineSeconds <= MaxAckDeadline
      && r.value.AckDeadlineSeconds ==
           (if req.AckDeadlineSeconds <= 0 then DefaultAckDeadline else req.AckDeadlineSeconds)
      && r.value.Name == SubscriptionName(projectID, req.SubscriptionID)
      && r.value.Topic == TopicName(projectID, req.TopicID)
    ensures r.Err? ==>
      r.error == (if req.SubscriptionID == "" then SubscriptionIDRequired
                  else if |req.SubscriptionID| > MaxIDLength then SubscriptionIDTooLong
                  else if req.TopicID == "" then TopicIDRequired
                  else AckDeadlineTooLong)
  {
    if req.SubscriptionID == "" then Err(SubscriptionIDRequired)
    else if |req.SubscriptionID| > MaxIDLength then Err(SubscriptionIDTooLong)
    else if req.TopicID == "" then Err(TopicIDRequired)
    else
      var ack := if req.AckDeadlineSeconds <= 0 then DefaultAckDeadline else req.AckDeadlineSeconds;
      if ack > MaxAckDeadline then Err(AckDeadlineTooLong)
      else Ok(SubscriptionCall(
        SubscriptionName(projectID, req.SubscriptionID), TopicName(projectID, req.TopicID), ack))
  }

  /** Validation is idempotent: resubmitting an accepted request with the
      deadline it was normalised to yields the same broker call. */
  lemma SubscriptionNormalisationIdempotent(projectID: string, req: CreateSubscriptionRequest)
    requires ValidateCreateSubscription(projectID, req).Ok?
    ensures
      var call := ValidateCreateSubscription(projectID, req).value;
      ValidateCreateSubscription(projectID, req.(AckDeadlineSeconds := call.AckDeadlineSeconds))
        == Ok(call)
  {
  }

  /** handlePublish's checks: topic id required, data required and at most
      10 MiB. */
  function ValidatePublish(req: PublishRequest): (r: Option<ValidationError>)
    ensures r == None <==> req.TopicID != "" && 0 < |req.Data| <= MaxDataSize
    ensures r == Some(TopicIDRequired) <==> req.TopicID == ""
    ensures r == Some(DataRequired) <==> req.TopicID != "" && req.Data == ""
    ensures r == Some(DataTooLarge) <==> req.TopicID != "" && |req.Data| > MaxDataSize
  {
    if req.TopicID == "" then Some(TopicIDRequired)
    else if req.Data == "" then Some(DataRequired)
    else if |req.Data| > MaxDataSize then Some(DataTooLarge)
    else None
  }

  /** handlePublish: validate, publish to the requested topic, and on
      success store the message under that topic with the broker's id and
      `now` as its publish time. */
  method Publish(d: Dashboard, req: PublishRequest, reply: PublishReply, now: Time)
    returns (r: Result<string, HandlerError>, sent: Option<Outgoing>)
    requires d.Valid()
    modifies d`messages, d`broadcast
    ensures d.Valid()
    ensures ValidatePublish(req).Some? ==>
      r == Err(BadRequest(ValidatePublish(req).value)) && sent == None
    ensures ValidatePublish(req) == None ==>
      && sent == Some(Outgoing(req.TopicID, req.Data, req.Attributes))
      && r == (match reply
               case Published(id) => Ok(id)
               case Rejected(why) => Err(PublishError(why)))
    ensures r.Err? ==> d.messages == old(d.messages) && d.broadcast == old(d.broadcast)
    ensures r.Ok? ==>
      var stored := Entry(BrokerMessage(r.value, req.Data, req.Attributes, now), req.TopicID);
      && d.messages == Newest(old(d.messages) + [stored], d.maxMessages)
      && d.broadcast == Enqueued(old(d.broadcast), NewMessage(stored))
  {
    sent := None;
    var invalid := ValidatePublish(req);
    if invalid.Some? {
      return Err(BadRequest(invalid.value)), sent;
    }
    sent := Some(Outgoing(req.TopicID, req.Data, req.Attributes));
    match reply {
      case Rejected(why) =>
        r := Err(PublishError(why));
      case Published(msgID) =>
        d.AddMessage(BrokerMessage(msgID, req.Data, req.Attributes, now), req.TopicID);
        r := Ok(msgID);
    }
  }
}
