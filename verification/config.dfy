/**
 * Configuration: parsing comma-separated lists, loading the configuration
 * from the environment (given here as a map from variable names to
 * values; an unset variable reads as ""), validating it, and deciding
 * whether the dashboard runs.
 */
module Config {
  import opened Types
  import opened Text

  /** The greeting LoadFromEnv always puts in MessageToPublish. */
  const Greeting: string := "Hello, Pub/Sub emulator!"
  const DefaultPubSubPort: string := "8085"

  datatype Config = Config(
    ProjectID: string,
    TopicIDs: seq<string>,
    SubscriptionIDs: seq<string>,
    MessageToPublish: string,
    DashboardPort: string,
    PubSubPort: string)

  datatype ConfigError =
    | MissingRequiredVariables
    | CountMismatch(topics: nat, subscriptions: nat)
    | EmptyProjectID
    | NoTopics
    | NoSubscriptions
    | TopicSubscriptionMismatch

  type Env = map<string, string>

  /** os.Getenv: the value, or "" when the variable is unset. */
  function Getenv(env: Env, key: string): string
  {
    if key in env then env[key] else ""
  }

  /** getEnvOrDefault: the variable's value unless it is empty. */
  function GetEnvOrDefault(env: Env, key: string, default: string): (r: string)
    ensures Getenv(env, key) == "" ==> r == default
    ensures Getenv(env, key) != "" ==> r == env[key]
  {
    var value := Getenv(env, key);
    if value != "" then value else default
  }

  // ------------------------------------------------------- list parsing

  /** The trimmed parts, with the parts that trim to "" dropped. */
  function KeepTrimmed(parts: seq<string>): seq<string>
  {
    if parts == [] then []
    else
      var trimmed := TrimSpace(parts[|parts| - 1]);
      KeepTrimmed(parts[..|parts| - 1]) + (if trimmed != "" then [trimmed] else [])
  }

  /** What parseCommaSeparated returns: nothing for "", otherwise the
      trimmed, non-empty comma-separated parts in order. */
  function ParsedList(s: string): seq<string>
  {
    if s == "" then [] else KeepTrimmed(SplitOn(s, ','))
  }

  /** parseCommaSeparated: split on commas, trim each part, keep the
      non-empty ones. */
  method ParseCommaSeparated(s: string) returns (result: seq<string>)
    ensures result == ParsedList(s)
  {
    if s == "" {
      return [];
    }
    var parts := SplitOn(s, ',');
    result := [];
    var i := 0;
    while i < |parts|
      invariant 0 <= i <= |parts|
      invariant result == KeepTrimmed(parts[..i])
    {
      assert parts[..i + 1][..i] == parts[..i];
      var trimmed := TrimSpace(parts[i]);
      if trimmed != "" {
        result := result + [trimmed];
      }
      i := i + 1;
    }
    assert parts[..i] == parts;
  }

  /** A clean list element: non-empty, no surrounding whitespace, and no
      comma. */
  predicate CleanItem(x: string)
  {
    x != "" && Trimmed(x) && ',' !in x
  }

  lemma {:induction false} KeepTrimmedClean(parts: seq<string>)
    requires forall i :: 0 <= i < |parts| ==> ',' !in parts[i]
    ensures forall k :: 0 <= k < |KeepTrimmed(parts)| ==> CleanItem(KeepTrimmed(parts)[k])
  {
    if parts != [] {
      var last := parts[|parts| - 1];
      KeepTrimmedClean(parts[..|parts| - 1]);
      TrimSpaceSpec(last);
      TrimSpaceSubset(last, ',');
    }
  }

  /** Every element parseCommaSeparated returns is non-empty, trimmed and
      comma-free. */
  lemma ParsedListClean(s: string)
    ensures forall k :: 0 <= k < |ParsedList(s)| ==> CleanItem(ParsedList(s)[k])
  {
    if s != "" {
      KeepTrimmedClean(SplitOn(s, ','));
    }
  }

  /** Clean parts are kept as they are. */
  lemma {:induction false} KeepTrimmedOfClean(parts: seq<string>)
    requires forall i :: 0 <= i < |parts| ==> CleanItem(parts[i])
    ensures KeepTrimmed(parts) == parts
  {
    if parts != [] {
      var init, last := parts[..|parts| - 1], parts[|parts| - 1];
      forall i | 0 <= i < |init|
        ensures CleanItem(init[i])
      {
        assert init[i] == parts[i];
      }
      KeepTrimmedOfClean(init);
      assert CleanItem(last);
      TrimSpaceTrimmed(last);
      assert TrimSpace(last) == last && last != "";
      assert KeepTrimmed(parts) == KeepTrimmed(init) + [last];
      assert parts == init + [last];
    }
  }

  /** Parsing the comma-join of clean items gives the items back. */
  lemma ParseJoin(items: seq<string>)
    requires forall i :: 0 <= i < |items| ==> CleanItem(items[i])
    ensures ParsedList(Join(items, ',')) == items
  {
    if items != [] {
      SplitJoin(items, ',');
      KeepTrimmedOfClean(items);
      JoinNonEmpty(items, ',');
    }
  }

  lemma JoinNonEmpty(parts: seq<string>, sep: char)
    requires |parts| >= 1 && parts[0] != ""
    ensures Join(parts, sep) != ""
  {
  }

  /** Padding each item with one space on either side. */
  function Padded(items: seq<string>): (r: seq<string>)
    ensures |r| == |items|
    ensures forall k :: 0 <= k < |items| ==> r[k] == " " + items[k] + " "
  {
    seq(|items|, k requires 0 <= k < |items| => " " + items[k] + " ")
  }

  /** Whitespace around clean items is trimmed away again. */
  lemma {:induction false} KeepTrimmedOfPadded(items: seq<string>)
    requires forall i :: 0 <= i < |items| ==> CleanItem(items[i])
    ensures KeepTrimmed(Padded(items)) == items
  {
    if items != [] {
      var init := items[..|items| - 1];
      KeepTrimmedOfPadded(init);
      assert Padded(items)[..|items| - 1] == Padded(init);
      TrimPadded(items[|items| - 1]);
    }
  }

  /** Parsing the comma-join of clean items, each padded with a space on
      either side, gives the items back. */
  lemma ParsePaddedJoin(items: seq<string>)
    requires forall i :: 0 <= i < |items| ==> CleanItem(items[i])
    ensures ParsedList(Join(Padded(items), ',')) == items
  {
    var parts := Padded(items);
    if items != [] {
      forall i | 0 <= i < |parts| ensures ',' !in parts[i] {
        assert parts[i] == " " + items[i] + " ";
      }
      SplitJoin(parts, ',');
      KeepTrimmedOfPadded(items);
      assert parts[0] != "";
      JoinNonEmpty(parts, ',');
    }
  }

  /** Joining three pieces puts the separator between each pair. */
  lemma JoinThree(a: string, b: string, c: string, sep: char)
    ensures Join([a, b, c], sep) == a + [sep] + b + [sep] + c
  {
    assert [a, b, c][1..] == [b, c];
    assert [b, c][1..] == [c];
    assert Join([b, c], sep) == b + [sep] + c;
    assert Join([a, b, c], sep) == a + [sep] + (b + [sep] + c);
  }

  /** The spaced list is the comma-join of the three padded names. */
  lemma SpacedListIsPaddedJoin(s: string)
    requires s == " topic1 , topic2 , topic3 "
    ensures s == Join(Padded(["topic1", "topic2", "topic3"]), ',')
  {
    var items := ["topic1", "topic2", "topic3"];
    var parts := Padded(items);
    assert parts == [parts[0], parts[1], parts[2]];
    JoinThree(parts[0], parts[1], parts[2], ',');
    assert parts[0] == " " + "topic1" + " ";
    assert parts[1] == " " + "topic2" + " ";
    assert parts[2] == " " + "topic3" + " ";
  }

  /** The spaced-list example: " topic1 , topic2 , topic3 " parses to the
      three topic names. */
  lemma ParseSpacedExample(s: string)
    requires s == " topic1 , topic2 , topic3 "
    ensures ParsedList(s) == ["topic1", "topic2", "topic3"]
  {
    var items := ["topic1", "topic2", "topic3"];
    SpacedListIsPaddedJoin(s);
    forall i | 0 <= i < |items| ensures CleanItem(items[i]) {}
    ParsePaddedJoin(items);
  }

  // ---------------------------------------------------------- loading

  /** LoadFromEnv: the three required variables must be set, the parsed
      topic and subscription lists must have the same length; the greeting
      and the two ports (dashboard off by default, broker on 8085) fill the
      rest. */
  function LoadFromEnv(env: Env): (r: Result<Config, ConfigError>)
    ensures r == Err(MissingRequiredVariables) <==>
      Getenv(env, "PUBSUB_PROJECT") == "" || Getenv(env, "PUBSUB_TOPIC") == "" || Getenv(env, "PUBSUB_SUBSCRIPTION") == ""
    ensures r.Err? && r.error.CountMismatch? ==>
      && r.error.topics == |ParsedList(env["PUBSUB_TOPIC"])|
      && r.error.subscriptions == |ParsedList(env["PUBSUB_SUBSCRIPTION"])|
      && r.error.topics != r.error.subscriptions
    ensures r.Err? ==> r.error.MissingRequiredVariables? || r.error.CountMismatch?
    ensures r.Ok? ==> r.value.ProjectID != "" && |r.value.TopicIDs| == |r.value.SubscriptionIDs|
  {
    var projectID := Getenv(env, "PUBSUB_PROJECT");
    var topicsStr := Getenv(env, "PUBSUB_TOPIC");
    var subsStr := Getenv(env, "PUBSUB_SUBSCRIPTION");
    if projectID == "" || topicsStr == "" || subsStr == "" then
      Err(MissingRequiredVariables)
    else
      var topics := ParsedList(topicsStr);
      var subs := ParsedList(subsStr);
      if |topics| != |subs| then
        Err(CountMismatch(|topics|, |subs|))
      else
        Ok(Config(
          projectID, topics, subs, Greeting,
          GetEnvOrDefault(env, "DASHBOARD_PORT", ""),
          GetEnvOrDefault(env, "PUBSUB_PORT", DefaultPubSubPort)))
  }

  /** Validate: a project id, at least one topic, at least one
      subscription, and as many topics as subscriptions. */
  function Validate(c: Config): (r: Option<ConfigError>)
    ensures r == None <==>
      c.ProjectID != "" && |c.TopicIDs| > 0 && |c.SubscriptionIDs| > 0 && |c.TopicIDs| == |c.SubscriptionIDs|
  {
    if c.ProjectID == "" then Some(EmptyProjectID)
    else if |c.TopicIDs| == 0 then Some(NoTopics)
    else if |c.SubscriptionIDs| == 0 then Some(NoSubscriptions)
    else if |c.TopicIDs| != |c.SubscriptionIDs| then Some(TopicSubscriptionMismatch)
    else None
  }

  /** The dashboard runs exactly when a dashboard port is configured. */
  function IsDashboardEnabled(c: Config): (r: bool)
    ensures r <==> c.DashboardPort != ""
  {
    c.DashboardPort != ""
  }

  /** What LoadFromEnv accepts and rejects, and what it fills in. */
  lemma LoadFromEnvSpec(env: Env)
    ensures LoadFromEnv(env).Err? <==>
      || Getenv(env, "PUBSUB_PROJECT") == ""
      || Getenv(env, "PUBSUB_TOPIC") == ""
      || Getenv(env, "PUBSUB_SUBSCRIPTION") == ""
      || |ParsedList(Getenv(env, "PUBSUB_TOPIC"))| != |ParsedList(Getenv(env, "PUBSUB_SUBSCRIPTION"))|
    ensures LoadFromEnv(env).Ok? ==>
      var c := LoadFromEnv(env).value;
      && c.ProjectID == env["PUBSUB_PROJECT"]
      && c.MessageToPublish == Greeting
      && (forall k :: 0 <= k < |c.TopicIDs| ==> CleanItem(c.TopicIDs[k]))
      && (forall k :: 0 <= k < |c.SubscriptionIDs| ==> CleanItem(c.SubscriptionIDs[k]))
      && c.TopicIDs == ParsedList(env["PUBSUB_TOPIC"])
      && c.SubscriptionIDs == ParsedList(env["PUBSUB_SUBSCRIPTION"])
      && c.DashboardPort == Getenv(env, "DASHBOARD_PORT")
      && (IsDashboardEnabled(c) <==> Getenv(env, "DASHBOARD_PORT") != "")
      && (Getenv(env, "PUBSUB_PORT") == "" ==> c.PubSubPort == DefaultPubSubPort)
      && (Getenv(env, "PUBSUB_PORT") != "" ==> c.PubSubPort == env["PUBSUB_PORT"])
  {
    ParsedListClean(Getenv(env, "PUBSUB_TOPIC"));
    ParsedListClean(Getenv(env, "PUBSUB_SUBSCRIPTION"));
  }

  /** A loaded configuration with at least one topic passes Validate. */
  lemma LoadedConfigValidates(env: Env)
    requires LoadFromEnv(env).Ok? && LoadFromEnv(env).value.TopicIDs != []
    ensures Validate(LoadFromEnv(env).value) == None
  {
  }

  /** LoadFromEnv accepts lists that parse to nothing (PUBSUB_TOPIC and
      PUBSUB_SUBSCRIPTION both ","), which Validate then rejects. */
  lemma LoadAcceptsBlankLists()
    ensures
      var env := map["PUBSUB_PROJECT" := "p", "PUBSUB_TOPIC" := ",", "PUBSUB_SUBSCRIPTION" := ","];
      && LoadFromEnv(env).Ok?
      && LoadFromEnv(env).value.TopicIDs == []
      && Validate(LoadFromEnv(env).value) == Some(NoTopics)
  {
    var parts := ["", ""];
    assert Join(parts, ',') == ",";
    SplitJoin(parts, ',');
    assert parts[..1] == [""];
  }
}
