/** Casting and retracting a vote (`handleVote`, `handleUnvote`) and the
    reload that follows.

    The hosted backend is abstracted as an object holding the two tables.
    Its one rule that matters here, that a user has at most one vote per
    option, is enforced by the backend and not by the view: an insert of an
    existing (option, user) pair leaves the table as it was. */
module Gating {
  import opened PollTypes
  import opened Clock

  /** Some row pairs `optionId` with `userId`. */
  predicate HasPair(rows: seq<Vote>, optionId: string, userId: string) {
    exists i :: 0 <= i < |rows| && rows[i].optionId == optionId && rows[i].userId == userId
  }

  /** No (option, user) pair appears twice. */
  ghost predicate UniquePairs(rows: seq<Vote>) {
    forall i, j :: 0 <= i < j < |rows| ==>
      rows[i].optionId != rows[j].optionId || rows[i].userId != rows[j].userId
  }

  /** The votes table after inserting `row` under the uniqueness rule. */
  function WithVote(rows: seq<Vote>, row: Vote): (r: seq<Vote>)
    ensures HasPair(r, row.optionId, row.userId)
    ensures UniquePairs(rows) ==> UniquePairs(r)
    ensures rows <= r && |r| <= |rows| + 1
    ensures |r| == |rows| + 1 ==> r[|rows|] == row
  {
    if HasPair(rows, row.optionId, row.userId) then rows
    else
      var r := rows + [row];
      assert r[|rows|] == row;
      r
  }

  /** `delete().eq('option_id', optionId).eq('user_id', userId)`: the rows
      that do not pair `optionId` with `userId`, in their order. */
  function WithoutVote(rows: seq<Vote>, optionId: string, userId: string): (r: seq<Vote>)
    ensures !HasPair(r, optionId, userId)
    ensures |r| <= |rows|
    ensures forall i :: 0 <= i < |r| ==> r[i] in rows
    ensures forall v :: v in rows && (v.optionId != optionId || v.userId != userId) ==> v in r
  {
    if rows == [] then []
    else
      var rest := WithoutVote(rows[1..], optionId, userId);
      assert forall v :: v in rows[1..] ==> v in rows;
      assert forall v :: v in rows ==> v == rows[0] || v in rows[1..];
      if rows[0].optionId == optionId && rows[0].userId == userId then rest
      else
        var r := [rows[0]] + rest;
        assert forall i :: 1 <= i < |r| ==> r[i] == rest[i - 1];
        r
  }

  /** Retracting a vote that is not there changes nothing. */
  lemma {:induction false} UnvoteAbsentUnchanged(rows: seq<Vote>, optionId: string, userId: string)
    requires !HasPair(rows, optionId, userId)
    ensures WithoutVote(rows, optionId, userId) == rows
  {
    if rows != [] {
      assert forall i :: 1 <= i < |rows| ==> rows[1..][i - 1] == rows[i];
      UnvoteAbsentUnchanged(rows[1..], optionId, userId);
      assert rows == [rows[0]] + rows[1..];
    }
  }

  /** Retracting twice is retracting once. */
  lemma UnvoteIdempotent(rows: seq<Vote>, optionId: string, userId: string)
    ensures WithoutVote(WithoutVote(rows, optionId, userId), optionId, userId) ==
            WithoutVote(rows, optionId, userId)
  {
    UnvoteAbsentUnchanged(WithoutVote(rows, optionId, userId), optionId, userId);
  }

  /** Voting twice for the same option leaves one row for the pair. */
  lemma VoteTwiceKeepsOne(rows: seq<Vote>, first: Vote, second: Vote)
    requires first.optionId == second.optionId && first.userId == second.userId
    ensures WithVote(WithVote(rows, first), second) == WithVote(rows, first)
  {
  }

  lemma {:induction false} WithoutVoteAppend(a: seq<Vote>, b: seq<Vote>, optionId: string, userId: string)
    ensures WithoutVote(a + b, optionId, userId) ==
            WithoutVote(a, optionId, userId) + WithoutVote(b, optionId, userId)
  {
    if a == [] {
      assert a + b == b;
    } else {
      assert (a + b)[0] == a[0] && (a + b)[1..] == a[1..] + b;
      WithoutVoteAppend(a[1..], b, optionId, userId);
    }
  }

  /** Retracting a vote just cast restores the table it was cast on. */
  lemma UnvoteUndoesVote(rows: seq<Vote>, row: Vote)
    requires !HasPair(rows, row.optionId, row.userId)
    ensures WithoutVote(WithVote(rows, row), row.optionId, row.userId) == rows
  {
    WithoutVoteAppend(rows, [row], row.optionId, row.userId);
    UnvoteAbsentUnchanged(rows, row.optionId, row.userId);
    assert WithoutVote([row], row.optionId, row.userId) == [];
  }

  lemma {:induction false} WithoutVoteKeepsUnique(rows: seq<Vote>, optionId: string, userId: string)
    requires UniquePairs(rows)
    ensures UniquePairs(WithoutVote(rows, optionId, userId))
  {
    if rows != [] {
      var rest := WithoutVote(rows[1..], optionId, userId);
      assert forall i :: 1 <= i < |rows| ==> rows[1..][i - 1] == rows[i];
      WithoutVoteKeepsUnique(rows[1..], optionId, userId);
      forall i | 0 <= i < |rest|
        ensures rest[i].optionId != rows[0].optionId || rest[i].userId != rows[0].userId
      {
        assert rest[i] in rows[1..];
      }
    }
  }

  /** `user.user_metadata?.full_name || user.user_metadata?.name || null` */
  function VoterName(u: User): (r: Option<string>)
    ensures Truthy(u.fullName) ==> r == u.fullName
    ensures !Truthy(u.fullName) && Truthy(u.name) ==> r == u.name
    ensures r.Some? ==> r.value != ""
    ensures r.None? <==> !Truthy(u.fullName) && !Truthy(u.name)
  {
    if Truthy(u.fullName) then u.fullName
    else if Truthy(u.name) then u.name
    else None
  }

  /** The row `handleVote` asks the backend to insert; the backend assigns
      `rowId` and `createdAt`. */
  function NewVoteRow(optionId: string, u: User, rowId: string, createdAt: int): Vote {
    Vote(rowId, optionId, u.id, u.email, VoterName(u), createdAt)
  }

  /** The hosted tables. `optionRows` is in the order the options query
      returns (cached count, descending). */
  class Backend {
    var optionRows: seq<PollOption>
    var voteRows: seq<Vote>

    ghost predicate Valid()
      reads this
    {
      UniquePairs(voteRows)
    }

    constructor (options: seq<PollOption>, votes: seq<Vote>)
      requires UniquePairs(votes)
      ensures Valid() && optionRows == options && voteRows == votes
    {
      optionRows := options;
      voteRows := votes;
    }

    /** `from('votes').insert(row)` */
    method InsertVote(row: Vote) returns (inserted: bool)
      requires Valid()
      modifies this
      ensures Valid()
      ensures inserted <==> !HasPair(old(voteRows), row.optionId, row.userId)
      ensures voteRows == WithVote(old(voteRows), row) && optionRows == old(optionRows)
    {
      inserted := !HasPair(voteRows, row.optionId, row.userId);
      voteRows := WithVote(voteRows, row);
    }

    /** `from('votes').delete().eq(...).eq(...)` */
    method DeleteVotes(optionId: string, userId: string)
      requires Valid()
      modifies this
      ensures Valid()
      ensures voteRows == WithoutVote(old(voteRows), optionId, userId) && optionRows == old(optionRows)
    {
      WithoutVoteKeepsUnique(voteRows, optionId, userId);
      voteRows := WithoutVote(voteRows, optionId, userId);
    }
  }

  /** How a vote or unvote request ended. */
  datatype Gate =
    | VotingClosedNotice   // the closed alert; nothing sent
    | AuthRequired         // `onRequireAuth()`; nothing sent
    | Submitted            // the change was sent and the view reloaded

  /** The state of the poll view that voting reads and writes. */
  class PollView {
    var options: seq<PollOption>
    var votes: seq<Vote>
    var now: int
    var user: Option<User>
    /** The page's fixed deadline. */
    const deadline: int := VotingDeadline
    const backend: Backend

    ghost predicate Valid()
      reads this, backend
    {
      backend.Valid()
    }

    constructor (backend: Backend, now: int, user: Option<User>)
      requires backend.Valid()
      ensures Valid()
      ensures this.backend == backend && this.now == now && this.user == user
      ensures options == [] && votes == []
    {
      this.backend := backend;
      this.now := now;
      this.user := user;
      options := [];
      votes := [];
    }

    /** `loadData`: replace both lists with what the backend holds. */
    method LoadData()
      requires Valid()
      modifies this
      ensures Valid()
      ensures options == backend.optionRows && votes == backend.voteRows
      ensures now == old(now) && user == old(user)
    {
      options := backend.optionRows;
      votes := backend.voteRows;
    }

    /** The minute tick: `setNow(new Date())`. */
    method Tick(t: int)
      requires Valid()
      modifies this
      ensures Valid()
      ensures now == t
      ensures options == old(options) && votes == old(votes) && user == old(user)
    {
      now := t;
    }

    /** `handleVote(optionId)` */
    method HandleVote(optionId: string, rowId: string, createdAt: int) returns (gate: Gate)
      requires Valid()
      modifies this, backend
      ensures Valid()
      ensures now == old(now) && user == old(user)
      ensures gate == VotingClosedNotice <==> IsVotingClosed(now, deadline)
      ensures gate == AuthRequired <==> !IsVotingClosed(now, deadline) && user.None?
      ensures gate != Submitted ==>
                backend.voteRows == old(backend.voteRows) && backend.optionRows == old(backend.optionRows) &&
                votes == old(votes) && options == old(options)
      ensures gate == Submitted ==>
                backend.voteRows == WithVote(old(backend.voteRows), NewVoteRow(optionId, user.value, rowId, createdAt)) &&
                backend.optionRows == old(backend.optionRows) &&
                votes == backend.voteRows && options == backend.optionRows
    {
      if IsVotingClosed(now, deadline) {
        return VotingClosedNotice;
      }
      if user.None? {
        return AuthRequired;
      }
      var _ := backend.InsertVote(NewVoteRow(optionId, user.value, rowId, createdAt));
      LoadData();
      gate := Submitted;
    }

    /** `handleUnvote(optionId)` */
    method HandleUnvote(optionId: string) returns (gate: Gate)
      requires Valid()
      modifies this, backend
      ensures Valid()
      ensures now == old(now) && user == old(user)
      ensures gate == VotingClosedNotice <==> IsVotingClosed(now, deadline)
      ensures gate == AuthRequired <==> !IsVotingClosed(now, deadline) && user.None?
      ensures gate != Submitted ==>
                backend.voteRows == old(backend.voteRows) && backend.optionRows == old(backend.optionRows) &&
                votes == old(votes) && options == old(options)
      ensures gate == Submitted ==>
                backend.voteRows == WithoutVote(old(backend.voteRows), optionId, user.value.id) &&
                backend.optionRows == old(backend.optionRows) &&
                votes == backend.voteRows && options == backend.optionRows
    {
      if IsVotingClosed(now, deadline) {
        return VotingClosedNotice;
      }
      if user.None? {
        return AuthRequired;
      }
      backend.DeleteVotes(optionId, user.value.id);
      LoadData();
      gate := Submitted;
    }
  }

  /** A client: vote, then retract, from a table without that vote; the
      table ends as it began. */
  method VoteThenUnvote(view: PollView, optionId: string, rowId: string, createdAt: int)
    requires view.Valid() && !IsVotingClosed(view.now, view.deadline) && view.user.Some?
    requires !HasPair(view.backend.voteRows, optionId, view.user.value.id)
    modifies view, view.backend
    ensures view.backend.voteRows == old(view.backend.voteRows)
    ensures view.votes == old(view.backend.voteRows)
  {
    var g1 := view.HandleVote(optionId, rowId, createdAt);
    var g2 := view.HandleUnvote(optionId);
    UnvoteUndoesVote(old(view.backend.voteRows), NewVoteRow(optionId, old(view.user.value), rowId, createdAt));
  }
}
