/** The voter figures: how many distinct users voted (`getUniqueVoters`),
    and which options the signed-in user voted for (`getUserVotes`), which
    decides each option card's voted state. */
module Voters {
  import opened PollTypes

  /** The distinct voter ids, `new Set(votes.map(v => v.user_id))`. */
  function VoterIds(votes: seq<Vote>): set<string> {
    set i | 0 <= i < |votes| :: votes[i].userId
  }

  lemma VoterIdsSnoc(votes: seq<Vote>, v: Vote)
    ensures VoterIds(votes + [v]) == VoterIds(votes) + {v.userId}
  {
    var s := votes + [v];
    assert forall i :: 0 <= i < |votes| ==> s[i] == votes[i];
    assert s[|votes|] == v;
  }

  lemma {:induction false} VoterIdsBound(votes: seq<Vote>)
    ensures |VoterIds(votes)| <= |votes|
  {
    if votes != [] {
      var pre := votes[..|votes| - 1];
      assert votes == pre + [votes[|votes| - 1]];
      VoterIdsBound(pre);
      VoterIdsSnoc(pre, votes[|votes| - 1]);
    }
  }

  /** `getUniqueVoters()`: the size of the voter-id set. */
  function UniqueVoters(votes: seq<Vote>): (n: nat)
    ensures n <= |votes|
    ensures n == 0 <==> votes == []
  {
    VoterIdsBound(votes);
    assert votes != [] ==> votes[0].userId in VoterIds(votes);
    |VoterIds(votes)|
  }

  /** A new vote adds one voter exactly when its user had not voted yet. */
  lemma CastVoteVoters(votes: seq<Vote>, v: Vote)
    ensures UniqueVoters(votes + [v]) ==
      UniqueVoters(votes) + (if exists i :: 0 <= i < |votes| && votes[i].userId == v.userId then 0 else 1)
  {
    VoterIdsSnoc(votes, v);
    if exists i :: 0 <= i < |votes| && votes[i].userId == v.userId {
      assert v.userId in VoterIds(votes);
      assert VoterIds(votes) + {v.userId} == VoterIds(votes);
    } else {
      assert v.userId !in VoterIds(votes);
    }
  }

  /** The option ids of the votes cast by `uid`, in vote order. */
  function VotedOptionIds(uid: string, votes: seq<Vote>): (r: seq<string>)
    ensures |r| <= |votes|
  {
    if votes == [] then []
    else (if votes[0].userId == uid then [votes[0].optionId] else []) + VotedOptionIds(uid, votes[1..])
  }

  /** `getUserVotes()`: nothing without a user, else the option ids of the
      user's votes. */
  function UserVotes(user: Option<User>, votes: seq<Vote>): (r: seq<string>)
    ensures user.None? ==> r == []
    ensures |r| <= |votes|
  {
    match user
    case None => []
    case Some(u) => VotedOptionIds(u.id, votes)
  }

  /** `getUserVotes().includes(id)`: the card's voted state. */
  predicate HasVoted(user: Option<User>, votes: seq<Vote>, id: string) {
    id in UserVotes(user, votes)
  }

  /** The user has voted for `id` exactly when one of the user's votes
      carries `id`. */
  lemma {:induction false} HasVotedIff(u: User, votes: seq<Vote>, id: string)
    ensures HasVoted(Some(u), votes, id) <==>
      exists i :: 0 <= i < |votes| && votes[i].userId == u.id && votes[i].optionId == id
  {
    if votes != [] {
      HasVotedIff(u, votes[1..], id);
      assert forall i :: 1 <= i < |votes| ==> votes[i] == votes[1..][i - 1];
      if exists i :: 0 <= i < |votes| && votes[i].userId == u.id && votes[i].optionId == id {
        var i :| 0 <= i < |votes| && votes[i].userId == u.id && votes[i].optionId == id;
        if i > 0 {
          assert votes[1..][i - 1] == votes[i];
        }
      }
    }
  }

  /** The user's list follows the vote list: filtering a concatenation is
      the concatenation of the filtered parts, so the order is vote order. */
  lemma {:induction false} UserVotesAppend(u: User, a: seq<Vote>, b: seq<Vote>)
    ensures UserVotes(Some(u), a + b) == UserVotes(Some(u), a) + UserVotes(Some(u), b)
  {
    if a == [] {
      assert a + b == b;
    } else {
      assert (a + b)[0] == a[0] && (a + b)[1..] == a[1..] + b;
      UserVotesAppend(u, a[1..], b);
    }
  }
}
