/**
 * The publisher: one publish with its (id, error) result shape, the
 * fan-out of one payload to several topics that keeps going past failed
 * topics, and the MessageInfo built from a broker message.
 * The broker's answer to each publish call is an input (`reply` /
 * `replies[i]` for the i-th call).
 */
module Publisher {
  import opened Types
  import Dashboard

  datatype PublishError =
    | TopicPublishFailed(topic: string, cause: string)
    | NoTopicSucceeded

  /** PublishMessage's result: ("", error naming the topic) when the broker
      rejects the message, (id, no error) when it accepts it. */
  function PublishMessage(topicID: string, reply: PublishReply): (r: (string, Option<PublishError>))
    ensures r.1.None? <==> reply.Published?
    ensures reply.Published? ==> r.0 == reply.id
    ensures reply.Rejected? ==> r.0 == "" && r.1 == Some(TopicPublishFailed(topicID, reply.reason))
  {
    match reply
    case Published(id) => (id, None)
    case Rejected(why) => ("", Some(TopicPublishFailed(topicID, why)))
  }

  /** The topic → id map after the calls for `topics`, the i-th call
      answered by `replies[i]`: a success records (or overwrites) its
      topic's entry, a failure leaves the map as it was. */
  function Collected(topics: seq<string>, replies: seq<PublishReply>): map<string, string>
    requires |replies| == |topics|
  {
    if topics == [] then map[]
    else
      var n := |topics| - 1;
      var m := Collected(topics[..n], replies[..n]);
      match replies[n]
      case Published(id) => m[topics[n] := id]
      case Rejected(_) => m
  }

  /** PublishToTopics: publish `data` (no attributes) to every topic in
      turn, skip the failures, and fail only when no topic succeeded.
      `sent` lists the publish calls made. */
  method PublishToTopics(topicIDs: seq<string>, data: string, replies: seq<PublishReply>)
    returns (r: Result<map<string, string>, PublishError>, sent: seq<Outgoing>)
    requires |replies| == |topicIDs|
    ensures |sent| == |topicIDs|
    ensures forall i :: 0 <= i < |topicIDs| ==> sent[i] == Outgoing(topicIDs[i], data, map[])
    ensures r == if Collected(topicIDs, replies) == map[] then Err(NoTopicSucceeded)
                 else Ok(Collected(topicIDs, replies))
  {
    var messageIDs: map<string, string> := map[];
    sent := [];
    var i := 0;
    while i < |topicIDs|
      invariant 0 <= i <= |topicIDs|
      invariant |sent| == i
      invariant forall k :: 0 <= k < i ==> sent[k] == Outgoing(topicIDs[k], data, map[])
      invariant messageIDs == Collected(topicIDs[..i], replies[..i])
    {
      var topicID := topicIDs[i];
      assert topicIDs[..i + 1][..i] == topicIDs[..i];
      assert replies[..i + 1][..i] == replies[..i];
      sent := sent + [Outgoing(topicID, data, map[])];
      var (msgID, err) := PublishMessage(topicID, replies[i]);
      if err.Some? {
        i := i + 1;
        continue;
      }
      messageIDs := messageIDs[topicID := msgID];
      i := i + 1;
    }
    assert topicIDs[..i] == topicIDs && replies[..i] == replies;
    if |messageIDs| == 0 {
      return Err(NoTopicSucceeded), sent;
    }
    r := Ok(messageIDs);
  }

  /** The keys of the result are exactly the topics with a successful
      publish call. */
  lemma {:induction false} CollectedKeys(topics: seq<string>, replies: seq<PublishReply>, t: string)
    requires |replies| == |topics|
    ensures t in Collected(topics, replies) <==>
      exists i :: 0 <= i < |topics| && topics[i] == t && replies[i].Published?
  {
    if topics != [] {
      var n := |topics| - 1;
      CollectedKeys(topics[..n], replies[..n], t);
      if exists i :: 0 <= i < |topics| && topics[i] == t && replies[i].Published? {
        var i :| 0 <= i < |topics| && topics[i] == t && replies[i].Published?;
        if i < n {
          assert topics[..n][i] == t && replies[..n][i].Published?;
        }
      }
    }
  }

  /** Call `i` is the last one to `t` that succeeded, and it returned `id`. */
  predicate LastSuccessAt(topics: seq<string>, replies: seq<PublishReply>, t: string, i: int, id: string)
    requires |replies| == |topics|
  {
    && 0 <= i < |topics| && topics[i] == t && replies[i] == Published(id)
    && forall j :: i < j < |topics| && topics[j] == t ==> replies[j].Rejected?
  }

  /** Each topic is mapped to the id of its last successful publish call. */
  lemma {:induction false} CollectedValues(topics: seq<string>, replies: seq<PublishReply>, t: string)
    requires |replies| == |topics|
    requires t in Collected(topics, replies)
    ensures exists i :: LastSuccessAt(topics, replies, t, i, Collected(topics, replies)[t])
  {
    var n := |topics| - 1;
    var tp, rp := topics[..n], replies[..n];
    var m := Collected(tp, rp);
    if topics[n] == t && replies[n].Published? {
      assert LastSuccessAt(topics, replies, t, n, Collected(topics, replies)[t]);
    } else {
      assert t in m && Collected(topics, replies)[t] == m[t];
      CollectedValues(tp, rp, t);
      var i :| LastSuccessAt(tp, rp, t, i, m[t]);
      forall j | i < j < |topics| && topics[j] == t
        ensures replies[j].Rejected?
      {
        if j < n {
          assert tp[j] == t;
        }
      }
      assert LastSuccessAt(topics, replies, t, i, Collected(topics, replies)[t]);
    }
  }

  /** PublishToTopics fails exactly when every publish call failed. */
  lemma NoTopicSucceededIffAllRejected(topics: seq<string>, replies: seq<PublishReply>)
    requires |replies| == |topics|
    ensures Collected(topics, replies) == map[] <==>
      forall i :: 0 <= i < |topics| ==> replies[i].Rejected?
  {
    if exists i :: 0 <= i < |topics| && replies[i].Published? {
      var i :| 0 <= i < |topics| && replies[i].Published?;
      CollectedKeys(topics, replies, topics[i]);
    } else if Collected(topics, replies) != map[] {
      var t :| t in Collected(topics, replies);
      CollectedKeys(topics, replies, t);
    }
  }

  /** With only the first of three topics known to the broker, the result
      maps that topic alone to its id. */
  lemma FirstOfThreeSucceeds(id: string, why2: string, why3: string)
    ensures Collected(["topic1", "nonexistent-topic", "another-nonexistent"],
                      [Published(id), Rejected(why2), Rejected(why3)]) == map["topic1" := id]
  {
    var topics := ["topic1", "nonexistent-topic", "another-nonexistent"];
    var replies := [Published(id), Rejected(why2), Rejected(why3)];
    var t1, r1 := topics[..1], replies[..1];
    var t2, r2 := topics[..2], replies[..2];
    assert t1[..0] == [] && r1[..0] == [];
    assert Collected(t1, r1) == map["topic1" := id];
    assert t2[..1] == t1 && r2[..1] == r1;
    assert Collected(t2, r2) == map["topic1" := id];
    assert topics[..2] == t2 && replies[..2] == r2;
  }

  /** Publishing to one existing and two unknown topics succeeds with a
      single message id. */
  method PartialSuccessExample(id: string, why2: string, why3: string)
    returns (r: Result<map<string, string>, PublishError>)
    ensures r == Ok(map["topic1" := id])
    ensures r.Ok? && |r.value| == 1
  {
    var sent;
    r, sent := PublishToTopics(["topic1", "nonexistent-topic", "another-nonexistent"], "test message",
                               [Published(id), Rejected(why2), Rejected(why3)]);
    FirstOfThreeSucceeds(id, why2, why3);
    assert "topic1" in map["topic1" := id];
  }

  /** Publishing to two unknown topics is an error. */
  method AllTopicsNotFoundExample(why1: string, why2: string)
    returns (r: Result<map<string, string>, PublishError>)
    ensures r == Err(NoTopicSucceeded)
  {
    var topics := ["nonexistent1", "nonexistent2"];
    var replies := [Rejected(why1), Rejected(why2)];
    var sent;
    r, sent := PublishToTopics(topics, "test message", replies);
    NoTopicSucceededIffAllRejected(topics, replies);
  }

  /** CreateMessageInfo: the broker message's fields, the given topic, and
      `now` (the clock) as the received time. */
  function CreateMessageInfo(msg: BrokerMessage, topicID: string, now: Time): (r: MessageInfo)
    ensures r.Received == now
    ensures r.(Received := msg.PublishTime) == Dashboard.Entry(msg, topicID)
  {
    MessageInfo(msg.ID, msg.Data, msg.Attributes, msg.PublishTime, topicID, now)
  }
}
