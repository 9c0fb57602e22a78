/**
 * Poll records and the vote arithmetic of app.js: the stored poll
 * `{question, options, votes, voters, communityId}`, the zero-filled tally a
 * new poll starts with, an accepted vote, and the `vote_update` record with its
 * total and per-option percentages.
 */
module Polls {
  import opened Wrappers

  /** What `JSON.parse` yields for a poll's content, reduced to what the handlers use. */
  datatype PollData = PollData(question: string, options: seq<string>, communityId: Option<string>)

  /**
   * The outcome of parsing poll content: the text is not JSON at all
   * (`JSON.parse` throws), it is JSON without an `options` array (reading
   * `options.map` throws), or it is a usable poll definition.
   */
  datatype PollContent = Unparseable | NoOptions | Parsed(data: PollData)

  /** A stored poll: `votes` runs parallel to `options`, `voters` holds who has voted. */
  datatype Poll = Poll(question: string, options: seq<string>, votes: seq<nat>,
                       voters: set<string>, communityId: Option<string>)

  /** The `vote_update` payload broadcast after an accepted vote. */
  datatype VoteUpdate = VoteUpdate(pollId: string, votes: seq<nat>, percentages: seq<nat>,
                                   totalVoters: nat, voterId: string, option: int)

  /** `votes.reduce((sum, count) => sum + count, 0)`. */
  function Sum(s: seq<nat>): (r: nat)
    ensures r == 0 <==> forall i :: 0 <= i < |s| ==> s[i] == 0
  {
    if s == [] then 0 else
      var rest := Sum(s[1..]);
      assert forall i :: 1 <= i < |s| ==> s[i] == s[1..][i - 1];
      s[0] + rest
  }

  /**
   * The poll invariant: one count per option, and every vote in the tally
   * belongs to exactly one voter.
   */
  predicate WellFormed(p: Poll) {
    |p.votes| == |p.options| && Sum(p.votes) == |p.voters|
  }

  /** `options.map(() => 0)`. */
  function Zeros(n: nat): (r: seq<nat>)
    ensures |r| == n
    ensures forall i :: 0 <= i < n ==> r[i] == 0
    ensures Sum(r) == 0
  {
    if n == 0 then [] else
      var rest := Zeros(n - 1);
      assert ([0] + rest)[1..] == rest;
      [0] + rest
  }

  /** A freshly created poll: zero votes per option and nobody has voted. */
  function NewPoll(question: string, options: seq<string>, communityId: Option<string>): (p: Poll)
    ensures WellFormed(p)
    ensures p.question == question && p.options == options && p.communityId == communityId
    ensures p.voters == {}
    ensures forall i :: 0 <= i < |p.votes| ==> p.votes[i] == 0
  {
    Poll(question, options, Zeros(|options|), {}, communityId)
  }

  /** Adding one to a single count adds one to the total. */
  lemma {:induction false} SumIncrement(s: seq<nat>, k: int)
    requires 0 <= k < |s|
    ensures Sum(s[k := s[k] + 1]) == Sum(s) + 1
  {
    var t := s[k := s[k] + 1];
    if k == 0 {
      assert t[1..] == s[1..];
    } else {
      SumIncrement(s[1..], k - 1);
      assert t[1..] == s[1..][k - 1 := s[1..][k - 1] + 1];
    }
  }

  /**
   * An accepted vote: the voter joins the voter set and the chosen option's
   * count grows by exactly one, nothing else changes, and the poll stays
   * well formed (the tally still equals the number of voters).
   */
  function Cast(p: Poll, voterId: string, option: int): (r: Poll)
    requires WellFormed(p)
    requires voterId !in p.voters
    requires 0 <= option < |p.votes|
    ensures WellFormed(r)
    ensures r.voters == p.voters + {voterId} && |r.voters| == |p.voters| + 1
    ensures |r.votes| == |p.votes| && Sum(r.votes) == Sum(p.votes) + 1
    ensures r.votes[option] == p.votes[option] + 1
    ensures forall i :: 0 <= i < |p.votes| && i != option ==> r.votes[i] == p.votes[i]
    ensures r.question == p.question && r.options == p.options && r.communityId == p.communityId
  {
    SumIncrement(p.votes, option);
    p.(voters := p.voters + {voterId}, votes := p.votes[option := p.votes[option] + 1])
  }

  /**
   * `Math.round(v / t * 100)` for a positive total, in integers: the nearest
   * whole percentage, with an exact half rounded up.
   */
  function RoundHalfUp(v: nat, t: nat): (r: nat)
    requires t > 0
    ensures (2 * r - 1) * t <= 200 * v < (2 * r + 1) * t
    ensures v <= t ==> r <= 100
  {
    var r := (200 * v + t) / (2 * t);
    RoundHalfUpBounds(v, t, r);
    r
  }

  /** The quotient of `200 v + t` by `2 t` lies within half a unit of `100 v / t`. */
  lemma RoundHalfUpBounds(v: nat, t: nat, r: nat)
    requires t > 0 && r == (200 * v + t) / (2 * t)
    ensures (2 * r - 1) * t <= 200 * v < (2 * r + 1) * t
    ensures v <= t ==> r <= 100
  {
    var q, d := 200 * v + t, 2 * t;
    var m := q % d;
    assert q == d * r + m && 0 <= m < d;
    assert (2 * r - 1) * t == d * r - t;
    assert (2 * r + 1) * t == d * r + t;
    if v <= t {
      assert q <= 201 * t;
      if r >= 101 {
        MulMonotone(d, 101, r);
      }
    }
  }

  /** Multiplying by a non-negative factor keeps order. */
  lemma MulMonotone(d: nat, a: nat, b: nat)
    requires a <= b
    ensures d * a <= d * b
  {
    assert d * b == d * a + d * (b - a);
  }

  /** The percentage shown for one option: 0 when nobody has voted. */
  function Percent(v: nat, total: nat): (r: nat)
    ensures total > 0 ==> (2 * r - 1) * total <= 200 * v < (2 * r + 1) * total
    ensures total == 0 ==> r == 0
  {
    if total > 0 then RoundHalfUp(v, total) else 0
  }

  /** The percentage of every count, all against the same `total`. */
  function PercentagesOf(votes: seq<nat>, total: nat): (r: seq<nat>)
    ensures |r| == |votes|
    ensures forall i :: 0 <= i < |votes| ==> r[i] == Percent(votes[i], total)
  {
    if votes == [] then [] else [Percent(votes[0], total)] + PercentagesOf(votes[1..], total)
  }

  /** Every count is at most the total of the counts. */
  lemma {:induction false} CountBelowSum(s: seq<nat>, i: int)
    requires 0 <= i < |s|
    ensures s[i] <= Sum(s)
  {
    if i > 0 { CountBelowSum(s[1..], i - 1); }
  }

  /**
   * The `percentages` array: one entry per option, each the rounded share of
   * that option in the total, never above 100, and all zero when there are no votes.
   */
  function Percentages(votes: seq<nat>): (r: seq<nat>)
    ensures |r| == |votes|
    ensures Sum(votes) > 0 ==> forall i :: 0 <= i < |votes| ==>
              (2 * r[i] - 1) * Sum(votes) <= 200 * votes[i] < (2 * r[i] + 1) * Sum(votes)
    ensures Sum(votes) == 0 ==> forall i :: 0 <= i < |votes| ==> r[i] == 0
    ensures forall i :: 0 <= i < |votes| ==> r[i] <= 100
  {
    var r := PercentagesOf(votes, Sum(votes));
    forall i | 0 <= i < |votes| ensures r[i] <= 100 {
      CountBelowSum(votes, i);
    }
    r
  }

  /**
   * The record broadcast after `voterId` voted for `option` and the poll
   * became `p`: the counts themselves, a percentage per option, and the number
   * of voters, which for a well-formed poll is also the total number of votes.
   */
  function Tally(pollId: string, p: Poll, voterId: string, option: int): (u: VoteUpdate)
    requires WellFormed(p)
    ensures u.pollId == pollId && u.voterId == voterId && u.option == option
    ensures u.votes == p.votes && |u.percentages| == |u.votes| == |p.options|
    ensures u.totalVoters == |p.voters| == Sum(u.votes)
    ensures u.percentages == Percentages(p.votes)
  {
    VoteUpdate(pollId, p.votes, Percentages(p.votes), |p.voters|, voterId, option)
  }
}
