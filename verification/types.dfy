/**
 * Records shared by the dashboard, the publisher and the configuration:
 * the messages the dashboard stores, the broker's listings, the HTTP
 * request bodies and the broker's answer to a publish call.
 * Timestamps are opaque integers; attributes are string maps.
 */
module Types {

  type Time = int

  datatype Option<+T> = None | Some(value: T)

  datatype Result<+T, +E> = Ok(value: T) | Err(error: E)

  /** A message as the broker hands it over: delivered to a subscriber or
      confirmed after a publish (the client library's Message). */
  datatype BrokerMessage = BrokerMessage(
    ID: string,
    Data: string,
    Attributes: map<string, string>,
    PublishTime: Time)

  /** One entry of the dashboard's message store. */
  datatype MessageInfo = MessageInfo(
    ID: string,
    Data: string,
    Attributes: map<string, string>,
    PublishTime: Time,
    Topic: string,
    Received: Time)

  datatype TopicInfo = TopicInfo(Name: string, ID: string)

  datatype SubscriptionInfo = SubscriptionInfo(
    Name: string,
    ID: string,
    Topic: string,
    AckDeadlineSeconds: int)

  /** A subscription as the broker lists it (full resource names). */
  datatype ListedSubscription = ListedSubscription(
    Name: string,
    Topic: string,
    AckDeadlineSeconds: int)

  datatype DashboardStats = DashboardStats(
    Topics: seq<TopicInfo>,
    Subscriptions: seq<SubscriptionInfo>,
    MessageCount: nat,
    RecentMessages: seq<MessageInfo>,
    TopicCount: nat,
    SubCount: nat,
    TotalMessages: nat,
    LastMessageTime: Option<Time>,
    TopicList: seq<string>,
    SubscriptionList: seq<string>)

  datatype PublishRequest = PublishRequest(
    TopicID: string,
    Data: string,
    Attributes: map<string, string>)

  datatype CreateTopicRequest = CreateTopicRequest(TopicID: string)

  datatype CreateSubscriptionRequest = CreateSubscriptionRequest(
    SubscriptionID: string,
    TopicID: string,
    AckDeadlineSeconds: int)

  /** What is handed to the broker in one publish call. */
  datatype Outgoing = Outgoing(
    Topic: string,
    Data: string,
    Attributes: map<string, string>)

  /** The broker's answer to one publish call: a fresh message id, or a
      failure with its reason. The broker itself is not modelled; every
      operation that publishes takes the answer as an input. */
  datatype PublishReply = Published(id: string) | Rejected(reason: string)

  function Min(a: int, b: int): int { if a <= b then a else b }
}
