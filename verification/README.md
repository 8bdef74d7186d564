# pubsub-emulator core, modelled in Dafny

This project models the core of pubsub-emulator, a Go wrapper around the
Google Cloud Pub/Sub emulator. The core has four parts:

- **Dashboard store** (`dashboard.dfy`, module `Dashboard`): a class
  `Dashboard` holding
  - the bounded message store, which keeps the newest 1000 entries,
  - the set of WebSocket viewers,
  - the broadcast queue, which holds at most 256 events; a full queue
    drops the event.
  Its operations are `AddMessage`, `GetMessages`, `GetMessageByID`,
  `GetStats`, register/unregister, one round of the broadcast loop, and
  `extractID` (the last path segment of a resource name).
- **HTTP handlers** (`handlers.dfy`, module `Handlers`):
  - message search: case-insensitive substring of data or id, plus an
    exact topic filter;
  - replay of a stored message;
  - the checks on create-topic, create-subscription and publish requests;
  - the publish handler.
- **Configuration** (`config.dfy`, module `Config`): loading from the
  environment, comma-separated list parsing, `Validate`,
  `IsDashboardEnabled` and `getEnvOrDefault`.
- **Publisher** (`publisher.dfy`, module `Publisher`): one publish call,
  the fan-out to several topics that skips failed topics, and
  `CreateMessageInfo`.

Shared records live in `types.dfy` (module `Types`). The string
operations live in `text.dfy` (module `Text`): ASCII lower-casing,
substring search, `TrimSpace`, `Split`/`Join` on one separator, and their
properties.

The broker and the clock are not part of the model:

- Each publish call's answer is an input: `reply`, or `replies[i]` for
  the i-th call of the fan-out. It is either `Published(id)` or
  `Rejected(reason)`.
- What the code hands to the broker is returned as `sent`.
- `time.Now()` becomes a `now` parameter.
- The results of the topic and subscription listings become input
  sequences.

The dashboard store is specified by `Newest(s, n)`, the last `min(|s|, n)`
elements of `s`. `AfterAppendsIsNewest` and `BoundedRetention` prove what
repeated `AddMessage` calls leave in the store. `Filter` is the reference
definition of the search.

## Model

| member | source | states |
|---|---|---|
| Dashboard.Dashboard.constructor | internal/dashboard/dashboard.go:29-44 | A new dashboard has the given project id, an empty store with capacity 1000, no viewers and an empty broadcast queue |
| Dashboard.Dashboard.AddMessage | internal/dashboard/dashboard.go:47-77 | The store becomes the newest `maxMessages` entries of the old store followed by the new entry, whose received time is its publish time. The new entry is last. The event is queued only when the queue holds fewer than 256 events; otherwise it is dropped |
| Dashboard.Newest | internal/dashboard/dashboard.go:60-65 | The trimmed store has length min(len, cap) and is a suffix of the untrimmed one |
| Dashboard.NewestAppend | internal/dashboard/dashboard.go:60-65 | Trimming after every append equals trimming once after all appends |
| Dashboard.AfterAppendsIsNewest | internal/dashboard/dashboard.go:60-65 | Any sequence of AddMessage calls leaves exactly the newest `cap` entries of everything ever added |
| Dashboard.BoundedRetention | internal/dashboard/dashboard.go:60-65 | Once at least `cap` messages have been added, the store is exactly the last `cap` of them |
| Dashboard.CapacityExample | internal/dashboard/dashboard_test.go:76-94 | With capacity 10, adding 15 messages keeps exactly messages 5..14, in order |
| Dashboard.Dashboard.GetMessages | internal/dashboard/dashboard.go:148-155 | Returns the whole store, in order |
| Dashboard.FirstWithID | internal/dashboard/dashboard.go:158-168 | None exactly when no entry has the id; otherwise the entry at the first index with that id |
| Dashboard.Dashboard.GetMessageByID | internal/dashboard/dashboard.go:158-168 | The loop returns the first stored entry with the id, or nothing when there is none |
| Dashboard.Dashboard.GetStats | internal/dashboard/dashboard.go:80-145 | One topic entry and one subscription entry per listed resource, with ids extracted from the names. The counts equal the list lengths. Message counts are the store size. The last message time is absent exactly when the store is empty, and otherwise is the newest entry's received time. The recent messages are the last min(20, n) entries |
| Dashboard.ListTopics | internal/dashboard/dashboard.go:88-104 | Each listed topic name yields TopicInfo(name, extracted id) and its id in the id list, in listing order |
| Dashboard.ListSubscriptions | internal/dashboard/dashboard.go:106-124 | Each listed subscription yields its name, extracted id, topic and ack deadline, and its id in the id list, in listing order |
| Dashboard.Dashboard.RegisterWebSocketClient | internal/dashboard/dashboard.go:171-175 | The viewer set gains the connection |
| Dashboard.Dashboard.UnregisterWebSocketClient | internal/dashboard/dashboard.go:178-183 | The viewer set loses the connection |
| Dashboard.Dashboard.BroadcastRound | internal/dashboard/dashboard.go:186-199 | On an empty queue nothing changes. Otherwise the oldest event is taken off the queue and sent to every viewer; the viewers whose write fails are removed and the rest receive the event |
| Dashboard.ExtractID | internal/dashboard/dashboard.go:202-209 | The backwards scan returns the reference `ResourceID` of the name |
| Dashboard.ResourceIDSpec | internal/dashboard/dashboard.go:202-209 | The id is a suffix of the name without '/', and it is preceded by a '/' whenever it is shorter than the name, so a name without '/' is its own id |
| Dashboard.ResourceIDUnique | internal/dashboard/dashboard.go:202-209 | Any slash-free suffix that is either the whole name or preceded by '/' is the extracted id |
| Dashboard.ResourceIDOfName | internal/dashboard/dashboard_test.go:175-211 | For "prefix/id" with a slash-free id, the extracted id is that id |
| Handlers.SearchMessages | internal/dashboard/handlers.go:17-47 | The search loop returns exactly `Filter(store, lower(q), topic)` |
| Handlers.FilterAppend | internal/dashboard/handlers.go:31-47 | The search distributes over concatenation of the store, so results keep store order |
| Handlers.FilterCounts | internal/dashboard/handlers.go:31-47 | A matching entry occurs in the results as often as in the store, and a non-matching entry never occurs |
| Handlers.FilterNoCriteria | internal/dashboard/handlers.go:33-44 | With an empty term and no topic, the search returns the whole store |
| Handlers.FilterIntersection | internal/dashboard/handlers.go:33-44 | Searching by term and topic together equals filtering by topic and then by term |
| Handlers.FilterOfThree | internal/dashboard/handlers.go:31-47 | On a three-entry store, the search keeps exactly the matching entries, in order |
| Handlers.ExampleMatches1 | internal/dashboard/handlers_test.go:156-187 | "hello world" matches "hello", and does not match "goodbye" or "nonexistent" |
| Handlers.ExampleMatches2 | internal/dashboard/handlers_test.go:156-187 | "goodbye world" matches "goodbye", and does not match "hello" or "nonexistent" |
| Handlers.ExampleMatches3 | internal/dashboard/handlers_test.go:156-187 | "hello universe" matches "hello", and does not match "goodbye" or "nonexistent" |
| Handlers.MatchesLeadingTerm | internal/dashboard/handlers.go:37-44 | A message whose data has no upper-case letter and starts with the term matches it |
| Handlers.MissesTermWithout | internal/dashboard/handlers.go:37-44 | A message with no upper-case letters, whose data and id both lack some character of the term, does not match it |
| Handlers.SearchByTermExample | internal/dashboard/handlers_test.go:152-213 | On the three-message store, "hello" returns messages 1 and 3, "goodbye" returns message 2, "nonexistent" returns nothing, and no criteria returns all three |
| Handlers.CaseInsensitiveExample | internal/dashboard/handlers.go:24-43 | The query "HELLO" finds the message "Hello World" |
| Handlers.SearchByTopicExample | internal/dashboard/handlers_test.go:152-213 | Topic "topic2" returns message 3; "hello" on "topic1" returns message 1 |
| Handlers.Replay | internal/dashboard/handlers.go:306-370 | An empty id is a bad request and an unknown id is not found; neither sends anything. Otherwise the first entry with the id is republished with its data and attributes to its topic. A broker error changes nothing. On success the new id is stored under the original topic with `now` as its time, the event is queued, and (new id, original id) is returned |
| Handlers.ValidateCreateTopic | internal/dashboard/handlers.go:140-148 | Accepted exactly when the id has length 1..255. The error is "required" exactly when the id is empty, and "too long" exactly when it exceeds 255 |
| Handlers.CreatedTopicListsAsRequested | internal/dashboard/handlers.go:150-153 | The topic name built for an accepted slash-free id lists back under that id |
| Handlers.ValidateCreateSubscription | internal/dashboard/handlers.go:189-218 | Accepted exactly when the subscription id has length 1..255, the topic id is non-empty and the deadline is at most 600. A non-positive deadline becomes 10, so an accepted deadline lies in 1..600. The names are "projects/p/subscriptions/s" and "projects/p/topics/t". Errors are reported in the code's check order |
| Handlers.SubscriptionNormalisationIdempotent | internal/dashboard/handlers.go:205-211 | Resubmitting an accepted request with its normalised deadline yields the same broker call |
| Handlers.ValidatePublish | internal/dashboard/handlers.go:254-268 | Accepted exactly when the topic id is non-empty and the data has length 1..10 MiB. A missing topic id is reported before anything about the data. "Data required" is reported exactly when the topic is set and the data is empty. "Too large" is reported exactly when the topic is set and the data exceeds 10 MiB |
| Handlers.Publish | internal/dashboard/handlers.go:239-303 | Invalid requests are bad requests and send nothing. Valid ones send topic, data and attributes to the broker. A broker error changes nothing. On success the message is stored under the requested topic with the broker's id and `now`, the event is queued, and the id is returned |
| Config.GetEnvOrDefault | internal/config/config.go:85-90 | An unset or empty variable gives the default; otherwise its value |
| Config.ParseCommaSeparated | internal/config/config.go:69-82 | The loop returns the reference `ParsedList`: "" gives no items; otherwise the pieces between commas, trimmed, with the empty ones dropped |
| Config.KeepTrimmedClean | internal/config/config.go:75-80 | Every kept item is non-empty, has no surrounding whitespace and contains no comma |
| Config.ParsedListClean | internal/config/config.go:69-82 | Every parsed item is non-empty, trimmed and comma-free |
| Config.KeepTrimmedOfClean | internal/config/config.go:75-80 | Items that are already clean pass through unchanged |
| Config.ParseJoin | internal/config/config.go:69-82 | Parsing a comma-join of clean items gives back those items, including the empty list |
| Config.KeepTrimmedOfPadded | internal/config/config.go:75-80 | Clean items with a space on either side are trimmed back to themselves |
| Config.ParsePaddedJoin | internal/config/config.go:69-82 | Parsing a comma-join of clean items, each with a space on either side, gives back the items |
| Config.ParseSpacedExample | internal/config/config_test.go:220-233 | " topic1 , topic2 , topic3 " parses to the three names |
| Config.Validate | internal/config/config.go:47-61 | Valid exactly when the project id is set, there is at least one topic and one subscription, and the counts are equal |
| Config.LoadFromEnv | internal/config/config.go:20-44 | "Missing required variables" is returned exactly when PUBSUB_PROJECT, PUBSUB_TOPIC or PUBSUB_SUBSCRIPTION is empty. A count mismatch carries the two parsed list lengths, which differ. A loaded config has a project id and equally many topics and subscriptions |
| Config.LoadFromEnvSpec | internal/config/config.go:20-44 | An error occurs exactly when a required variable is empty or the parsed topic and subscription counts differ. Otherwise the config has the project id and the fixed greeting. Its topic and subscription ids are the parsed lists of PUBSUB_TOPIC and PUBSUB_SUBSCRIPTION, and every id is clean. The dashboard port is DASHBOARD_PORT ("" when unset), so the dashboard is enabled exactly when that variable is set. The emulator port is PUBSUB_PORT when set and 8085 otherwise |
| Config.IsDashboardEnabled | internal/config/config.go:64-66 | The dashboard is enabled exactly when the config has a dashboard port |
| Config.LoadedConfigValidates | internal/config/config.go:20-61 | A loaded config with at least one topic passes Validate |
| Config.LoadAcceptsBlankLists | internal/config/config.go:25-34 | With PUBSUB_TOPIC and PUBSUB_SUBSCRIPTION both ",", the load succeeds with no topics, and Validate then rejects the result |
| Publisher.PublishMessage | internal/pubsub/publisher.go:27-44 | A broker error gives ("", an error naming the topic); success gives (id, no error) |
| Publisher.PublishToTopics | internal/pubsub/publisher.go:47-64 | Every topic is attempted in order with the data and no attributes. The result is the reference `Collected` map, or the "no topic succeeded" error when that map is empty |
| Publisher.CollectedKeys | internal/pubsub/publisher.go:50-57 | A topic is in the result map exactly when some publish to it succeeded |
| Publisher.CollectedValues | internal/pubsub/publisher.go:50-57 | Each topic maps to the id returned by its last successful publish |
| Publisher.NoTopicSucceededIffAllRejected | internal/pubsub/publisher.go:59-61 | The fan-out fails exactly when every publish call failed |
| Publisher.FirstOfThreeSucceeds | internal/pubsub/publisher_test.go:279-303 | With "topic1" published and "nonexistent-topic" and "another-nonexistent" rejected, the collected map is exactly {"topic1": id} |
| Publisher.PartialSuccessExample | internal/pubsub/publisher_test.go:279-303 | Publishing to the test's three topics, where only the first exists, succeeds with exactly one message id |
| Publisher.AllTopicsNotFoundExample | internal/pubsub/publisher_test.go:305-318 | Publishing to two unknown topics returns the "no topic succeeded" error |
| Publisher.CreateMessageInfo | internal/pubsub/publisher.go:67-76 | The received time is the clock reading. Otherwise the record agrees field for field with the dashboard's store entry, which uses the publish time instead |
| Text.Lower | internal/dashboard/handlers.go:24-40 | Lower-casing keeps the length and lowers each character |
| Text.LowerFolds | internal/dashboard/handlers.go:24-40 | The lowered string has no upper-case letter, and lowering it again changes nothing |
| Text.CaseFoldChar | internal/dashboard/handlers.go:24-40 | A lower-case letter and its upper-case form lower to the same letter, and no other character does |
| Text.TrimSpaceSpec | internal/config/config.go:76 | The trimmed string is a slice of the input with no whitespace at either end. Everything cut off before and after it is whitespace. It is empty exactly when the input is all whitespace |
| Text.JoinSplit | internal/config/config.go:73 | Joining the pieces of a split restores the input |
| Text.SplitJoin | internal/config/config.go:73 | Splitting a join of separator-free pieces restores the pieces |
| Text.SplitOn | internal/config/config.go:73 | A split yields at least one piece, and no piece contains the separator |

## Left out

- Broker calls (publish, CreateTopic, CreateSubscription, the listing
  iterators) are not modelled as code. Each publish answer is an input,
  and each listing is an input sequence. What is sent is returned as
  `sent`.
- The create-topic and create-subscription handlers are modelled only up
  to the broker call (`ValidateCreateTopic`, `ValidateCreateSubscription`
  and the names they build). The broker's error reply and the JSON
  response are not modelled.
- HTTP plumbing is not modelled: method checks, body size limits, JSON
  decoding and encoding, and the status codes. Request fields arrive
  already decoded.
- `handleExportJSON`, `handleExportCSV`, `handleStats`, `handleMessages`,
  `handleHealth`, `handleIndex`, `RegisterRoutes` and `StartHTTPServer`
  are not modelled. They are HTTP plumbing: they encode `GetMessages` and
  `GetStats` output, report health with the current time, serve files,
  wire up the routes or start the listener.
- `GetMessageByID` returns a pointer into the store, and `GetStats`'s
  recent messages share the store's backing array. The model returns
  both as values, so it does not capture later writes through them.
- Locks and goroutines are not modelled. Every operation is atomic, and
  the broadcast goroutine is one `BroadcastRound` per queued event.
- WebSocket writes and `Close` are not modelled. The set of viewers whose
  write fails is an input.
- Logging is not modelled.
- `time.Now()` is a `now` parameter. Times are integers.
- `Text.Lower` and `Text.TrimSpace` handle ASCII only. Go's `ToLower` and
  `TrimSpace` also fold and trim non-ASCII Unicode characters.
- String lengths count characters. Go's `len` counts UTF-8 bytes, so the
  255-byte id limit and the 10 MiB data limit coincide with the model
  only for ASCII input.
- Dashboard.Dashboard.AddMessage: the message is queued as an event, not
  as its JSON encoding.
- Go's distinction between a nil slice or map and an empty one is not
  modelled: `parseCommaSeparated("")` returns nil, and the model returns
  an empty sequence.
- `AckDeadlineSeconds` is an unbounded integer. The int32 range of the
  request field is not modelled.
- Publisher.PublishMessage: the data and attributes go to the broker and
  do not affect the result. `PublishToTopics` records them in `sent`.
- The `Publisher` and `Client` constructors are not modelled. Nor is
  `main.go`, which reads its own environment variables instead of
  calling `LoadFromEnv`.
