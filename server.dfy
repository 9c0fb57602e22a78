/**
 * The socket handlers of app.js over the two process-wide stores:
 * `communityUsers` (community id to the set of its user ids) and
 * `activePolls` (poll id to its poll record). Each handler is a method of one
 * `Coordinator` object that updates the stores in place and appends to
 * `outbox` the deliveries the handler emits.
 */
module Server {
  import opened Wrappers
  import opened Polls
  import opened Relay

  /** The members of community `c`, empty when `c` has no entry yet. */
  function Members(users: map<string, set<string>>, c: string): set<string> {
    if c in users then users[c] else {}
  }

  /** Every community with `userId` taken out of its member set. */
  function RemovedEverywhere(users: map<string, set<string>>, userId: string): (r: map<string, set<string>>)
    ensures r.Keys == users.Keys
    ensures forall c :: c in users ==> userId !in r[c] && r[c] + {userId} >= users[c] && r[c] <= users[c]
    ensures forall c :: c in users && userId !in users[c] ==> r[c] == users[c]
  {
    map c | c in users :: users[c] - {userId}
  }

  /**
   * The one precondition the model adds: a vote that would be accepted names
   * an existing option. app.js never checks `option` before `votes[option] += 1`.
   */
  predicate VoteOptionInRange(polls: map<string, Poll>, m: Message) {
    m.msgType == "cast_vote" && m.pollId in polls && m.voterId !in polls[m.pollId].voters
    ==> 0 <= m.option < |polls[m.pollId].votes|
  }

  /**
   * What a `poll` message sent in `c` does to the polls and the outbox.
   * Content that does not parse drops the event. Parsed content creates the
   * poll only if its id is new: the first writer wins and an existing poll
   * stays exactly as it was. The message is then echoed to sender and peers.
   * Content without an options array is echoed only if the poll already
   * exists, because only creating a poll reads the options.
   */
  ghost predicate PollMessageStep(polls: map<string, Poll>, polls': map<string, Poll>,
                                  out: seq<Delivery>, out': seq<Delivery>,
                                  c: string, m: Message, content: PollContent)
    ensures PollMessageStep(polls, polls', out, out', c, m, content) ==>
              && polls.Keys <= polls'.Keys
              && (m.id in polls ==> polls' == polls)
              && (content.Unparseable? ==> out' == out)
              && (content.Parsed? ==> m.id in polls' && |out'| == |out| + 2)
  {
    match content
    case Unparseable => polls' == polls && out' == out
    case NoOptions =>
      polls' == polls && out' == out + (if m.id in polls then EchoPair(c, m) else [])
    case Parsed(data) =>
      && out' == out + EchoPair(c, m)
      && polls' == if m.id in polls then polls else polls[m.id := NewPoll(data.question, data.options, Some(c))]
  }

  /**
   * What a `cast_vote` message sent in `c` does. A vote on an unknown poll or
   * from someone who already voted changes nothing and sends nothing.
   * Otherwise the vote is cast and the tally goes to the whole room of `c`
   * (the event's community, not the poll's).
   */
  ghost predicate VoteStep(polls: map<string, Poll>, polls': map<string, Poll>,
                           out: seq<Delivery>, out': seq<Delivery>, c: string, m: Message)
    ensures VoteStep(polls, polls', out, out', c, m) ==>
              && polls'.Keys == polls.Keys
              && (out' == out <==> polls' == polls)
              && (m.pollId in polls && m.voterId !in polls[m.pollId].voters <==> |out'| == |out| + 1)
  {
    if m.pollId !in polls || m.voterId in polls[m.pollId].voters then
      polls' == polls && out' == out
    else
      var poll := polls[m.pollId];
      && WellFormed(poll) && 0 <= m.option < |poll.votes|
      && polls' == polls[m.pollId := Cast(poll, m.voterId, m.option)]
      && out' == out + [Delivery(Room(c), VoteUpdated(Tally(m.pollId, polls'[m.pollId], m.voterId, m.option)))]
  }

  /**
   * A vote step never lowers a count: every poll keeps its options and each
   * of its counts stays the same or grows, and only the poll voted on grows.
   */
  lemma VotesOnlyGrow(polls: map<string, Poll>, polls': map<string, Poll>,
                      out: seq<Delivery>, out': seq<Delivery>, c: string, m: Message, id: string, i: int)
    requires VoteStep(polls, polls', out, out', c, m)
    requires id in polls && 0 <= i < |polls[id].votes|
    ensures id in polls' && |polls'[id].votes| == |polls[id].votes|
    ensures polls'[id].votes[i] >= polls[id].votes[i]
    ensures id != m.pollId ==> polls'[id] == polls[id]
  {
    if m.pollId in polls && m.voterId !in polls[m.pollId].voters && id == m.pollId {
      var p := polls[id];
      assert polls'[id] == Cast(p, m.voterId, m.option);
    }
  }

  class Coordinator {
    var communityUsers: map<string, set<string>>
    /** The keys of `communityUsers` in insertion order, the order in which a JavaScript Map iterates. */
    var joinOrder: seq<string>
    var activePolls: map<string, Poll>
    /** Everything emitted so far, oldest first. */
    var outbox: seq<Delivery>

    /** Each community is listed once in `joinOrder`, and every stored poll is well formed. */
    ghost predicate Valid()
      reads this
    {
      && Distinct(joinOrder)
      && (forall c :: c in joinOrder <==> c in communityUsers)
      && (forall id :: id in activePolls ==> WellFormed(activePolls[id]))
    }

    constructor ()
      ensures Valid()
      ensures communityUsers == map[] && joinOrder == [] && activePolls == map[] && outbox == []
    {
      communityUsers := map[];
      joinOrder := [];
      activePolls := map[];
      outbox := [];
    }

    /**
     * `joinCommunity`: the user becomes a member (the community's set is
     * created on first use) and every other connection in the room hears
     * `userJoined`. Joining again changes no store, though it notifies again.
     */
    method Join(userId: string, communityId: string)
      requires Valid()
      modifies this
      ensures Valid()
      ensures communityUsers == old(communityUsers)[communityId := Members(old(communityUsers), communityId) + {userId}]
      ensures joinOrder == if communityId in old(communityUsers) then old(joinOrder) else old(joinOrder) + [communityId]
      ensures activePolls == old(activePolls)
      ensures outbox == old(outbox) + [Delivery(RoomExcept(communityId), UserJoined(userId))]
      ensures userId in communityUsers[communityId]
      ensures forall c :: c != communityId ==> Members(communityUsers, c) == Members(old(communityUsers), c)
      ensures userId in Members(old(communityUsers), communityId) ==>
                communityUsers == old(communityUsers) && joinOrder == old(joinOrder)
    {
      if communityId !in communityUsers {
        communityUsers := communityUsers[communityId := {}];
        joinOrder := joinOrder + [communityId];
      }
      var was := communityUsers[communityId];
      communityUsers := communityUsers[communityId := was + {userId}];
      outbox := outbox + [Delivery(RoomExcept(communityId), UserJoined(userId))];
      if userId in was {
        assert was + {userId} == was;
      }
    }

    /**
     * `leaveCommunity`: for a known community the user is removed and the
     * room hears `userLeft`, whether or not the user was a member; an unknown
     * community changes nothing and notifies nobody.
     */
    method Leave(userId: string, communityId: string)
      requires Valid()
      modifies this
      ensures Valid()
      ensures communityId in old(communityUsers) ==>
                && communityUsers == old(communityUsers)[communityId := old(communityUsers)[communityId] - {userId}]
                && outbox == old(outbox) + [Delivery(RoomExcept(communityId), UserLeft(userId))]
      ensures communityId !in old(communityUsers) ==>
                communityUsers == old(communityUsers) && outbox == old(outbox)
      ensures joinOrder == old(joinOrder) && activePolls == old(activePolls)
    {
      if communityId in communityUsers {
        communityUsers := communityUsers[communityId := communityUsers[communityId] - {userId}];
        outbox := outbox + [Delivery(RoomExcept(communityId), UserLeft(userId))];
      }
    }

    /**
     * `sendMessage`, returning the content preview of its log line. The
     * message's type selects the branch: an embedded poll, a vote, or any
     * other message, which is only echoed.
     */
    method SendMessage(communityId: string, message: Message, content: PollContent) returns (preview: string)
      requires Valid()
      requires VoteOptionInRange(activePolls, message)
      modifies this
      ensures Valid()
      ensures preview == Preview(message.content)
      ensures communityUsers == old(communityUsers) && joinOrder == old(joinOrder)
      ensures message.msgType == "poll" ==>
                PollMessageStep(old(activePolls), activePolls, old(outbox), outbox, communityId, message, content)
      ensures message.msgType == "poll" && message.id in old(activePolls) ==> activePolls == old(activePolls)
      ensures message.msgType == "cast_vote" ==>
                VoteStep(old(activePolls), activePolls, old(outbox), outbox, communityId, message)
      ensures message.msgType != "poll" && message.msgType != "cast_vote" ==>
                activePolls == old(activePolls) && outbox == old(outbox) + EchoPair(communityId, message)
    {
      preview := Preview(message.content);
      if message.msgType == "poll" {
        ReceivePoll(communityId, message, content);
      } else if message.msgType == "cast_vote" {
        ReceiveVote(communityId, message);
      } else {
        outbox := outbox + EchoPair(communityId, message);
      }
    }

    /** The `poll` branch of `sendMessage`: create the poll if its id is new, then echo the message. */
    method ReceivePoll(communityId: string, message: Message, content: PollContent)
      requires Valid()
      modifies this
      ensures Valid()
      ensures communityUsers == old(communityUsers) && joinOrder == old(joinOrder)
      ensures PollMessageStep(old(activePolls), activePolls, old(outbox), outbox, communityId, message, content)
    {
      var pollId := message.id;
      match content {
        case Unparseable =>
        case NoOptions =>
          if pollId in activePolls {
            outbox := outbox + EchoPair(communityId, message);
          }
        case Parsed(data) =>
          if pollId !in activePolls {
            activePolls := activePolls[pollId := NewPoll(data.question, data.options, Some(communityId))];
          }
          outbox := outbox + EchoPair(communityId, message);
      }
    }

    /** The `cast_vote` branch of `sendMessage`: record a first vote and send the tally to the room. */
    method ReceiveVote(communityId: string, message: Message)
      requires Valid()
      requires VoteOptionInRange(activePolls, message) && message.msgType == "cast_vote"
      modifies this
      ensures Valid()
      ensures communityUsers == old(communityUsers) && joinOrder == old(joinOrder)
      ensures VoteStep(old(activePolls), activePolls, old(outbox), outbox, communityId, message)
    {
      var pollId, option, voterId := message.pollId, message.option, message.voterId;
      if pollId in activePolls {
        var poll := activePolls[pollId];
        if voterId !in poll.voters {
          poll := Cast(poll, voterId, option);
          activePolls := activePolls[pollId := poll];
          var update := Tally(pollId, poll, voterId, option);
          outbox := outbox + [Delivery(Room(communityId), VoteUpdated(update))];
        }
      }
    }

    /**
     * `create_poll`: truthy `pollData` that parses into a poll definition
     * replaces any poll with that id by a fresh one (zero votes, no voters);
     * the room hears `poll_update` with the raw data whatever happened.
     */
    method CreatePoll(communityId: string, pollId: string, pollData: Option<string>, content: PollContent)
      requires Valid()
      modifies this
      ensures Valid()
      ensures Truthy(pollData) && content.Parsed? ==>
                activePolls == old(activePolls)[pollId :=
                  NewPoll(content.data.question, content.data.options, content.data.communityId)]
      ensures !(Truthy(pollData) && content.Parsed?) ==> activePolls == old(activePolls)
      ensures outbox == old(outbox) + [Delivery(Room(communityId), PollUpdated(pollId, pollData))]
      ensures communityUsers == old(communityUsers) && joinOrder == old(joinOrder)
    {
      if Truthy(pollData) {
        match content {
          case Parsed(data) =>
            activePolls := activePolls[pollId := NewPoll(data.question, data.options, data.communityId)];
          case _ =>
        }
      }
      outbox := outbox + [Delivery(Room(communityId), PollUpdated(pollId, pollData))];
    }

    /** `share_document`: the document goes to the whole room; no store changes. */
    method ShareDocument(communityId: string, documentName: string, documentData: string)
      requires Valid()
      modifies this
      ensures Valid()
      ensures outbox == old(outbox) + [Delivery(Room(communityId), DocumentShared(documentName, documentData))]
      ensures communityUsers == old(communityUsers) && joinOrder == old(joinOrder) && activePolls == old(activePolls)
    {
      outbox := outbox + [Delivery(Room(communityId), DocumentShared(documentName, documentData))];
    }

    /**
     * `disconnect`: the user is removed from every community, and exactly the
     * communities it belonged to hear one `userLeft` each, in the order the
     * communities were first joined.
     */
    method Disconnect(userId: string)
      requires Valid()
      modifies this
      ensures Valid()
      ensures communityUsers == RemovedEverywhere(old(communityUsers), userId)
      ensures outbox == old(outbox) + LeftNotices(old(communityUsers), joinOrder, userId)
      ensures forall c :: multiset(outbox[|old(outbox)|..])[Delivery(Room(c), UserLeft(userId))]
                          == if c in old(communityUsers) && userId in old(communityUsers)[c] then 1 else 0
      ensures joinOrder == old(joinOrder) && activePolls == old(activePolls)
    {
      var users, sent := DropEverywhere(communityUsers, joinOrder, userId);
      NoticesOfDisconnect(communityUsers, joinOrder, userId, sent);
      ghost var out0 := outbox;
      communityUsers := users;
      outbox := outbox + sent;
      assert outbox[|out0|..] == sent;
    }
  }

  /**
   * The loop of `disconnect`: visit the communities in `order`, take the user
   * out of each one it belongs to, and collect one `userLeft` for each of those.
   */
  method DropEverywhere(users0: map<string, set<string>>, order: seq<string>, userId: string)
    returns (users: map<string, set<string>>, sent: seq<Delivery>)
    requires Distinct(order) && (forall c :: c in order <==> c in users0)
    ensures users == RemovedEverywhere(users0, userId)
    ensures sent == LeftNotices(users0, order, userId)
  {
    users, sent := users0, [];
    var i := 0;
    assert order[..0] == [];
    while i < |order|
      invariant 0 <= i <= |order|
      invariant users == RemovedFrom(users0, order[..i], userId)
      invariant sent == LeftNotices(users0, order[..i], userId)
    {
      var c := order[i];
      DisconnectStep(users0, order, userId, i, users, sent);
      if userId in users[c] {
        users := users[c := users[c] - {userId}];
        sent := sent + [Delivery(Room(c), UserLeft(userId))];
      }
      assert users == RemovedFrom(users0, order[..i + 1], userId);
      assert sent == LeftNotices(users0, order[..i + 1], userId);
      i := i + 1;
    }
    assert order[..i] == order;
    RemovedFromAll(users0, order, userId);
  }

  /** `users` with `userId` taken out of the communities listed in `cs` only. */
  ghost function RemovedFrom(users: map<string, set<string>>, cs: seq<string>, userId: string): map<string, set<string>> {
    map c | c in users :: if c in cs then users[c] - {userId} else users[c]
  }

  /** Taking the user out of one more community, not listed before, updates that one entry. */
  lemma RemovedFromStep(users: map<string, set<string>>, cs: seq<string>, userId: string)
    requires cs != [] && cs[|cs| - 1] in users && cs[|cs| - 1] !in cs[..|cs| - 1]
    ensures var c := cs[|cs| - 1];
            && RemovedFrom(users, cs[..|cs| - 1], userId)[c] == users[c]
            && RemovedFrom(users, cs, userId)
               == RemovedFrom(users, cs[..|cs| - 1], userId)[c := users[c] - {userId}]
            && (userId !in users[c] ==> RemovedFrom(users, cs, userId) == RemovedFrom(users, cs[..|cs| - 1], userId))
  {
    var c := cs[|cs| - 1];
    assert forall d :: d in cs <==> d in cs[..|cs| - 1] || d == c;
    if userId !in users[c] {
      assert users[c] - {userId} == users[c];
    }
  }

  /** Once every community has been visited, the user is out of all of them. */
  lemma RemovedFromAll(users: map<string, set<string>>, cs: seq<string>, userId: string)
    requires forall c :: c in cs <==> c in users
    ensures RemovedFrom(users, cs, userId) == RemovedEverywhere(users, userId)
  {
  }

  /**
   * One pass of the `disconnect` loop: visiting the next community takes the
   * user out of it and adds its notice, or changes nothing when the user was
   * not a member there.
   */
  lemma DisconnectStep(users0: map<string, set<string>>, order: seq<string>, userId: string, i: int,
                       users: map<string, set<string>>, sent: seq<Delivery>)
    requires 0 <= i < |order| && Distinct(order) && (forall c :: c in order <==> c in users0)
    requires users == RemovedFrom(users0, order[..i], userId)
    requires sent == LeftNotices(users0, order[..i], userId)
    ensures var c := order[i];
            && c in users && users[c] == users0[c]
            && (userId in users[c] ==>
                  && RemovedFrom(users0, order[..i + 1], userId) == users[c := users[c] - {userId}]
                  && LeftNotices(users0, order[..i + 1], userId) == sent + [Delivery(Room(c), UserLeft(userId))])
            && (userId !in users[c] ==>
                  && RemovedFrom(users0, order[..i + 1], userId) == users
                  && LeftNotices(users0, order[..i + 1], userId) == sent)
  {
    assert order[i] !in order[..i];
    assert order[..i + 1][..i] == order[..i];
    RemovedFromStep(users0, order[..i + 1], userId);
  }

  /** The count of `userLeft` deliveries a disconnect makes, community by community. */
  lemma NoticesOfDisconnect(users: map<string, set<string>>, order: seq<string>, userId: string, sent: seq<Delivery>)
    requires Distinct(order) && (forall c :: c in order <==> c in users)
    requires sent == LeftNotices(users, order, userId)
    ensures forall c :: multiset(sent)[Delivery(Room(c), UserLeft(userId))]
                        == if c in users && userId in users[c] then 1 else 0
  {
    forall c {
      LeftNoticesCount(users, order, userId, c);
    }
  }

  /** The poll of the scenario below after no vote, after X voted A, and after Y voted B. */
  const ScenarioPoll0: Poll := NewPoll("Q", ["A", "B"], None)
  const ScenarioPoll1: Poll := Poll("Q", ["A", "B"], [1, 0], {"X"}, None)
  const ScenarioPoll2: Poll := Poll("Q", ["A", "B"], [1, 1], {"X", "Y"}, None)

  /** X's vote for A and then Y's vote for B give one vote each, shown as 50% each. */
  lemma ScenarioTally()
    ensures WellFormed(ScenarioPoll0) && WellFormed(ScenarioPoll1)
    ensures Cast(ScenarioPoll0, "X", 0) == ScenarioPoll1
    ensures Cast(ScenarioPoll1, "Y", 1) == ScenarioPoll2
    ensures Percentages(ScenarioPoll2.votes) == [50, 50]
  {
    assert ScenarioPoll0.votes == [0, 0];
    assert Cast(ScenarioPoll0, "X", 0).votes == [1, 0];
    assert Sum([1, 0]) == 1;
    assert Cast(ScenarioPoll1, "Y", 1).votes == [1, 1];
    assert Sum([1, 1]) == 2;
  }

  /** A vote as a client sends it. */
  function VoteMessage(pollId: string, option: int, voterId: string): Message {
    Message("cast_vote", None, "", pollId, option, voterId)
  }

  /** Community c1 with members X, Y and Z, and poll p1 over options A and B created there. */
  method ScenarioSetUp() returns (hub: Coordinator)
    ensures fresh(hub) && hub.Valid()
    ensures "c1" in hub.communityUsers && hub.communityUsers["c1"] == {"X", "Y", "Z"}
    ensures hub.activePolls == map["p1" := ScenarioPoll0]
  {
    hub := new Coordinator();
    hub.Join("X", "c1");
    assert Members(map[], "c1") == {};
    assert hub.communityUsers["c1"] == {"X"};
    hub.Join("Y", "c1");
    assert hub.communityUsers["c1"] == {"X", "Y"};
    hub.Join("Z", "c1");
    hub.CreatePoll("c1", "p1", Some("{\"question\":\"Q\",\"options\":[\"A\",\"B\"]}"),
                   Parsed(PollData("Q", ["A", "B"], None)));
  }

  /** One `cast_vote` for poll p1 sent in community c1, seen from the poll's state before it. */
  method ScenarioVote(hub: Coordinator, option: int, voterId: string, ghost before: Poll)
    requires hub.Valid() && hub.activePolls == map["p1" := before] && WellFormed(before)
    requires voterId !in before.voters ==> 0 <= option < |before.votes|
    modifies hub
    ensures hub.Valid() && hub.communityUsers == old(hub.communityUsers)
    ensures voterId in before.voters ==> hub.activePolls == old(hub.activePolls) && hub.outbox == old(hub.outbox)
    ensures voterId !in before.voters ==>
              && hub.activePolls == map["p1" := Cast(before, voterId, option)]
              && hub.outbox == old(hub.outbox) + [Delivery(Room("c1"),
                   VoteUpdated(Tally("p1", Cast(before, voterId, option), voterId, option)))]
  {
    var m := VoteMessage("p1", option, voterId);
    assert m.msgType == "cast_vote" && m.msgType != "poll";
    var log := hub.SendMessage("c1", m, Unparseable);
  }

  /**
   * X, Y and Z are in community c1 with a poll p1 over options A and B.
   * X votes A, Y votes B, then Y votes A and is refused as a repeat voter:
   * the tally ends at one vote each, 50% each, two voters, and exactly two
   * `vote_update`s were sent, both to the whole room.
   */
  method PollScenario() returns (members: set<string>, poll: Poll, updates: seq<Delivery>)
    ensures members == {"X", "Y", "Z"}
    ensures poll.votes == [1, 1] && poll.voters == {"X", "Y"}
    ensures |updates| == 2
    ensures forall d :: d in updates ==> d.target == Room("c1") && d.event.VoteUpdated?
    ensures updates[1].event.update.votes == [1, 1]
    ensures updates[1].event.update.percentages == [50, 50]
    ensures updates[1].event.update.totalVoters == 2
  {
    var hub := ScenarioSetUp();
    var start := |hub.outbox|;
    ScenarioTally();
    ScenarioVote(hub, 0, "X", ScenarioPoll0);
    ScenarioVote(hub, 1, "Y", ScenarioPoll1);
    ScenarioVote(hub, 0, "Y", ScenarioPoll2);
    members := hub.communityUsers["c1"];
    poll := hub.activePolls["p1"];
    updates := hub.outbox[start..];
  }
}
