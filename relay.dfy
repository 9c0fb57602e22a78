/**
 * The events the socket handlers of app.js emit and where each goes. The
 * transport is not modelled: a handler's effect on the outside world is the
 * list of deliveries it appends to an outbox.
 */
module Relay {
  import opened Wrappers
  import opened Polls

  /**
   * The `message` of a `sendMessage` event. `msgType` selects the branch;
   * `content` and `id` are read for an embedded poll, `pollId`, `option` and
   * `voterId` for a vote. Any other field travels inside the value untouched.
   */
  datatype Message = Message(msgType: string, content: Option<string>, id: string,
                             pollId: string, option: int, voterId: string)

  /** The outbound events (socket.io event name and payload). */
  datatype Event =
    | UserJoined(userId: string)
    | UserLeft(userId: string)
    | NewMessage(message: Message, isSent: bool)
    | VoteUpdated(update: VoteUpdate)
    | PollUpdated(pollId: string, pollData: Option<string>)
    | DocumentShared(documentName: string, documentData: string)

  /**
   * Who receives a delivery: the sending connection (`socket.emit`), every
   * connection in the room but the sender (`socket.to(c)`,
   * `socket.broadcast.to(c)`), or the whole room (`io.to(c)`).
   */
  datatype Target = Self | RoomExcept(communityId: string) | Room(communityId: string)

  datatype Delivery = Delivery(target: Target, event: Event)

  /**
   * The two copies of a relayed message: the peers get it flagged
   * `isSent == false`, the sender gets it back flagged `isSent == true`, and
   * both carry the message itself unchanged.
   */
  function EchoPair(communityId: string, m: Message): (r: seq<Delivery>)
    ensures |r| == 2
    ensures forall d :: d in r ==> d.event.NewMessage? && d.event.message == m
    ensures forall d :: d in r ==> (d.event.isSent <==> d.target == Self)
    ensures forall d :: d in r ==> d.target in {Self, RoomExcept(communityId)}
    ensures multiset(r)[Delivery(Self, NewMessage(m, true))] == 1
    ensures multiset(r)[Delivery(RoomExcept(communityId), NewMessage(m, false))] == 1
    ensures Delivery(Self, NewMessage(m, false)) !in r
  {
    [Delivery(RoomExcept(communityId), NewMessage(m, false)), Delivery(Self, NewMessage(m, true))]
  }

  /** No two entries of `s` are equal. */
  predicate Distinct(s: seq<string>) {
    forall i, j :: 0 <= i < j < |s| ==> s[i] != s[j]
  }

  /** The notice for community `c` when `userId` disconnects: one `userLeft` if it was a member, none otherwise. */
  function LeftNotice(users: map<string, set<string>>, c: string, userId: string): seq<Delivery> {
    if c in users && userId in users[c] then [Delivery(Room(c), UserLeft(userId))] else []
  }

  /** The `userLeft` notices of a disconnect, visiting the communities in `order`. */
  function LeftNotices(users: map<string, set<string>>, order: seq<string>, userId: string): (r: seq<Delivery>)
    ensures |r| <= |order|
    ensures forall d :: d in r ==> d.event == UserLeft(userId) && d.target.Room?
  {
    if order == [] then []
    else LeftNotices(users, order[..|order| - 1], userId) + LeftNotice(users, order[|order| - 1], userId)
  }

  /**
   * A disconnect notifies each community listed once in `order` exactly once
   * if the user was a member and never otherwise, and sends nothing but
   * `userLeft` for that user to the whole room.
   */
  lemma {:induction false} LeftNoticesCount(users: map<string, set<string>>, order: seq<string>,
                                            userId: string, c: string)
    requires Distinct(order)
    ensures multiset(LeftNotices(users, order, userId))[Delivery(Room(c), UserLeft(userId))]
            == if c in order && c in users && userId in users[c] then 1 else 0
  {
    if order != [] {
      var init := order[..|order| - 1];
      var last := order[|order| - 1];
      assert Distinct(init);
      LeftNoticesCount(users, init, userId, c);
      assert c in order <==> c in init || c == last;
      assert last !in init;
    }
  }

  /** Every notice of a disconnect is a `userLeft` for that user, sent to a community of `order` it belonged to. */
  lemma {:induction false} LeftNoticesOnlyMembers(users: map<string, set<string>>, order: seq<string>,
                                                  userId: string, d: Delivery)
    requires d in LeftNotices(users, order, userId)
    ensures d.event == UserLeft(userId) && d.target.Room?
    ensures d.target.communityId in order && d.target.communityId in users
            && userId in users[d.target.communityId]
  {
    if order != [] {
      var init := order[..|order| - 1];
      if d in LeftNotices(users, init, userId) {
        LeftNoticesOnlyMembers(users, init, userId, d);
      }
    }
  }

  const PreviewLength: nat := 100

  /**
   * The content preview in the `sendMessage` log line: the first 100
   * characters followed by "..." when there is content, otherwise "No content".
   */
  function Preview(content: Option<string>): (r: string)
    ensures !Truthy(content) ==> r == "No content"
    ensures Truthy(content) ==>
              && 3 < |r| <= PreviewLength + 3
              && r[|r| - 3..] == "..."
              && r[..|r| - 3] <= content.value
              && (|content.value| <= PreviewLength ==> r[..|r| - 3] == content.value)
              && (|content.value| > PreviewLength ==> |r| == PreviewLength + 3)
  {
    if Truthy(content) then
      var s := content.value;
      var head := if |s| <= PreviewLength then s else s[..PreviewLength];
      assert (head + "...")[..|head|] == head;
      head + "..."
    else "No content"
  }
}
