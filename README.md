# Community relay and live polls: a Dafny model

This project models the in-memory core of a real-time community chat server
(Node.js, socket.io). Clients join communities and exchange messages. They
can also run polls whose tallies are broadcast to the community each time a
vote is accepted. The model covers two parts of the source:

- `app.js`: the socket handlers over the two process-wide stores.
  `communityUsers` maps each community id to the set of its user ids, and
  `activePolls` maps each poll id to its poll record. The handlers are
  `joinCommunity`, `leaveCommunity`, `sendMessage` (embedded poll,
  `cast_vote` and plain message), `create_poll`, `share_document` and
  `disconnect`. Each one becomes a method of the class
  `Server.Coordinator`. The class holds the two stores as fields and an
  `outbox` of deliveries. A delivery is an event plus its target: the
  sending connection (`Self`), the room without the sender (`RoomExcept`),
  or the whole room (`Room`).
- `middleware/meilisearchErrorHandler.js`: the Express error handler that
  sorts search-service errors into a 503, a 500 or a pass-through to `next`.
  It becomes the pure function `SearchErrors.Classify`.

Modules:

- `Wrappers`: `Option` and JavaScript truthiness of an optional string.
- `SearchErrors`: the error classifier, and `Includes`, JavaScript's
  `String.prototype.includes`.
- `Polls`: the poll record, its invariant `WellFormed` (one count per option,
  and the sum of the counts equals the number of voters), poll creation, an
  accepted vote, integer round-half-up percentages, and the `vote_update` record.
- `Relay`: messages, events, targets and deliveries. Also the self/peer echo
  pair, the `userLeft` notices of a disconnect, and the log preview.
- `Server`: the `Coordinator` class. The predicates `PollMessageStep` and
  `VoteStep` state what the two special `sendMessage` branches do. The file
  ends with the three-voter scenario.

A JavaScript `Map` iterates its keys in insertion order, and communities are
never removed. The class therefore keeps a `joinOrder` sequence beside
`communityUsers`. `Disconnect` loops over it, so the `userLeft` notices come
out in the order the source emits them.

The model follows the code, including where it departs from what the feature
naturally suggests:

- `leaveCommunity` sends `userLeft` whenever the community has an entry, even
  if the user was not a member (app.js:51-53). It is not limited to actual
  members.
- `cast_vote` does not check that `option` is in range (app.js:107).
- `create_poll` stores a poll only when `pollData` is truthy and parses. It
  broadcasts `poll_update` with the raw data in every case, parse failures
  included (app.js:165-180).
- A poll made by `create_poll` records a community only if the parsed data
  carries one (app.js:168-172).
- The tally goes to the room named by the vote event's `communityId`, not the
  poll's stored community. The voter comes from `message.voterId`, not the
  connection's user id (app.js:98, app.js:132).

## Model

| member | source | states |
|---|---|---|
| `SearchErrors.Classify` | middleware/meilisearchErrorHandler.js:3-35 | With a cause, a code of `UND_ERR_SOCKET` or a message containing "has failed" gives 503 `SEARCH_SERVICE_UNAVAILABLE`. This takes precedence over an auth code. Otherwise `missing_authorization_header` or `invalid_api_key` gives 500 `SEARCH_SERVICE_AUTH_ERROR`. Without a cause the same error always goes to `next`. The result is exactly one of a response or `next`, and iff-conditions for `next` are given. Every response has `success == false`. |
| `SearchErrors.MessageSaysFailed` | middleware/meilisearchErrorHandler.js:8 | True exactly when the message is present and "has failed" occurs in it at some index. An empty message never qualifies. |
| `SearchErrors.Includes` | middleware/meilisearchErrorHandler.js:8 | True exactly when the substring occurs at some index of the string. |
| `Polls.Sum` | app.js:110 | The reduce total of the counts is 0 exactly when every count is 0. |
| `Polls.Percent` | app.js:114 | With a positive total, the percentage lies within half a unit of `100 v / total`, with an exact half rounded up. With a zero total it is 0. |
| `Polls.PercentagesOf` | app.js:113-115 | The `map` over the counts gives one entry per count, each the percentage of that count against the same total. |
| `Polls.Zeros` | app.js:77 | One zero per option, summing to 0. |
| `Polls.NewPoll` | app.js:73-80 | A new poll keeps the given question, options and community. It has zero votes per option and no voters, so it is well formed. |
| `Polls.SumIncrement` | app.js:107-110 | Adding one to a single count adds exactly one to the total of the reduce. |
| `Polls.Cast` | app.js:104-107 | An accepted vote adds the voter to the voter set. The chosen count grows by exactly one and every other count is unchanged. The tally still equals the number of voters. |
| `Polls.RoundHalfUp` | app.js:114 | The result is the nearest integer to `100 v / t`, with an exact half rounded up. It is at most 100 when `v <= t`. |
| `Polls.Percentages` | app.js:110-115 | One percentage per option. Each is the rounded share of that option in the total, at most 100. All are 0 when the total is 0. |
| `Polls.Tally` | app.js:109-126 | The `vote_update` carries the counts and one percentage per count. `totalVoters` is the size of the voter set and equals the total of the counts. It names the poll, voter and option. |
| `Relay.EchoPair` | app.js:143-153 | Exactly two copies of the unchanged message. The sender gets exactly one flagged `isSent == true`, the room minus the sender gets one flagged false, and the sender never gets a peer-flagged copy. |
| `Relay.LeftNotices` | app.js:195-200 | The `userLeft` emissions of a disconnect, in the order the communities are visited. There is at most one per community visited, and every one is a `userLeft` for that user sent to a whole room. |
| `Relay.LeftNoticesCount` | app.js:195-200 | Over distinct communities, a disconnect sends exactly one `userLeft` to each community the user belonged to and none to any other. |
| `Relay.LeftNoticesOnlyMembers` | app.js:195-200 | Every delivery a disconnect makes is a `userLeft` for that user, sent to the whole room of a community it belonged to. |
| `Relay.Preview` | app.js:60-64 | With content, the preview is the content's first 100 Unicode scalar values (not UTF-16 code units) followed by "...", and the whole content when it is shorter. Without content (absent or empty), it is "No content". |
| `Server.RemovedEverywhere` | app.js:195-199 | Afterwards the user is in no community. Every other member stays, the set of communities is unchanged, and a community the user was not in is untouched. |
| `Server.Coordinator.constructor` | app.js:22-23 | Both stores and the outbox start empty. |
| `Server.Coordinator.Join` | app.js:31-45 | The user is a member afterwards, and the set is created if absent. Other communities are unchanged. The room minus the joiner gets `userJoined`. Joining again leaves both stores unchanged. |
| `Server.Coordinator.Leave` | app.js:48-56 | For a known community the user is removed and the room minus the sender gets `userLeft`, even if the user was not a member. An unknown community changes nothing and notifies nobody. |
| `Server.Coordinator.SendMessage` | app.js:59-155 | Returns the log preview. A `poll` message follows `PollMessageStep`: a parse failure changes nothing and sends nothing, and an existing poll id leaves the polls unchanged (first writer wins). A `cast_vote` follows `VoteStep`. Any other type only appends the echo pair. Membership never changes. |
| `Server.PollMessageStep` | app.js:67-95 | The embedded-poll branch as a relation between the old and new polls and outbox. No poll id is lost, and an existing poll id leaves the polls unchanged (first writer wins). Unparseable content sends nothing. Parsed content stores the poll id and appends exactly the two echo copies. |
| `Server.VoteStep` | app.js:96-136 | The vote branch as a relation between the old and new polls and outbox. The set of poll ids is unchanged. A vote changes the polls exactly when it sends something. It sends exactly one delivery iff the poll exists and the voter has not voted. |
| `Server.Coordinator.ReceivePoll` | app.js:67-95 | Creates the poll only when its id is new, then echoes the message to sender and peers. Content that does not parse drops the event. Content without options is echoed only for an existing poll. |
| `Server.Coordinator.ReceiveVote` | app.js:96-136 | An unknown poll or a repeat voter changes nothing and sends nothing. Otherwise the vote is cast and one `vote_update` goes to the whole room of the event's community. Every poll stays well formed. |
| `Server.VotesOnlyGrow` | app.js:104-107 | After a vote step every poll still exists with the same number of counts. No count decreases, and polls other than the one voted on are unchanged. |
| `Server.Coordinator.CreatePoll` | app.js:158-181 | Truthy, parseable data always replaces the poll with zero votes and no voters. Otherwise the polls are unchanged. `poll_update` with the raw data goes to the whole room in every case. |
| `Server.Coordinator.ShareDocument` | app.js:184-190 | `document_shared` goes to the whole room and no store changes. |
| `Server.Coordinator.Disconnect` | app.js:192-201 | The user is removed from every community. Each community it was in gets exactly one `userLeft` and every other community gets none, in first-join order. Polls are unchanged. |
| `Server.DropEverywhere` | app.js:195-200 | The loop of `disconnect`: visiting the communities in first-join order leaves the user in no community, with every other member and community as before, and collects exactly the `userLeft` notices of those communities the user belonged to, in that order. |
| `Server.NoticesOfDisconnect` | app.js:195-200 | Counted per community, a disconnect's notices are one `userLeft` where the user was a member and none elsewhere. |
| `Server.ScenarioTally` | app.js:104-115 | On poll [A, B], X voting A and then Y voting B gives counts [1, 1] and percentages [50, 50]. |
| `Server.PollScenario` | app.js:96-136 | X, Y and Z are in c1 with poll p1. X votes 0, Y votes 1, then Y votes 0 again and is refused. The result is votes [1, 1], voters {X, Y}, percentages [50, 50] and totalVoters 2. Exactly two `vote_update`s are sent, both to the whole room of c1. |

## Left out

- The socket.io transport is not modelled: `socket.join`/`socket.leave`, room bookkeeping and the actual emits. Deliveries are appended to an outbox instead. A `Self` delivery does not record which connection it goes to.
- Server bootstrap, CORS, `server.listen` and `dotenv` (app.js:1-19, app.js:218-220) are framework plumbing with no state logic.
- The debug endpoints `/api/active-polls` and `/api/community-users` (app.js:205-216) are left out. They only read the stores.
- middleware/logger.js is left out. It only prints request fields and a wall-clock time.
- `console.log`/`console.error` output is left out. The one exception is the content preview of the `sendMessage` log line, which `SendMessage` returns.
- `JSON.parse` is an abstract input `PollContent` (unparseable, parsed without an `options` array, or a poll definition). It stands for `JSON.parse(message.content)` in the `sendMessage` poll branch (the `content` argument of `SendMessage` and `ReceivePoll`, app.js:69) and for `JSON.parse(pollData)` in `create_poll` (the `content` argument of `CreatePoll`, app.js:167). The model does not check that either matches the raw string it stands for.
- Of a parsed poll definition only `question`, `options` and `communityId` are modelled. Other fields spread into the stored record by `create_poll` are not.
- Server.Coordinator.SendMessage: requires that a vote that would be accepted names an existing option. The source has no bounds check (app.js:107). An out-of-range `option` writes `NaN` into the votes array, or extends it with holes, and still broadcasts.
- Server.Coordinator.ReceiveVote: the same in-range requirement as `SendMessage`, for the same reason.
- Polls.RoundHalfUp: uses integer round-half-up `(200 v + t) div (2 t)` instead of `Math.round` on the floating-point value of `v / t * 100`. The two can differ where that float quotient lands just beside an exact .5.
- User ids, poll ids and message fields are strings. JavaScript's `undefined` (a missing `voterId` or `id`, stored under the key "undefined") is not modelled. Neither are keys inherited from `Object.prototype`, such as a poll id "toString", which reads as an existing poll.
- A `content` that is truthy but not a string would make `substring` throw before any state change. This is not modelled, and neither is a missing `message`.
- Relay.Preview: lengths are counted in Unicode scalar values, not the UTF-16 code units of JavaScript's `substring(0, 100)` (app.js:63). For content with characters outside the Basic Multilingual Plane, such as emoji, the source keeps fewer characters and may cut a surrogate pair in half; the model keeps whole characters.
- The `userId` handshake fallback to the socket id (app.js:27) is left out. The user id is a given string.
- The member sets inside `communityUsers` are `Set` objects mutated in place. Here they are values replaced in the map. Nothing else holds a reference to them, so no aliasing is lost.
- SearchErrors.Classify: the error logging is left out, and so are `err.cause.code` values that are not strings. The status codes are the numbers 503 and 500 that the `http-status-codes` names stand for.
