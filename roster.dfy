/** The voter roster (`votesWithOptionNames`): every vote annotated with the
    name of its option and a display name for its voter, newest first. */
module Roster {
  import opened PollTypes

  /** Shown for a vote whose option id names no listed option. */
  const MissingOptionName: string := "Opsi tidak ditemukan"

  /** Prefix of the generated display name. */
  const UserPrefix: string := "User "

  /** How many characters of the user id the generated name keeps. */
  const UserIdChars: nat := 6

  datatype RosterRow = RosterRow(vote: Vote, optionName: string, votedAt: int, displayName: string)

  function Min(a: int, b: int): int {
    if a <= b then a else b
  }

  /** Position of the last listed option with id `id`. */
  function LastWithId(options: seq<PollOption>, id: string): (r: Option<nat>)
    ensures r.None? <==> forall j :: 0 <= j < |options| ==> options[j].id != id
    ensures r.Some? ==> r.value < |options| && options[r.value].id == id
    ensures r.Some? ==> forall j :: r.value < j < |options| ==> options[j].id != id
  {
    if options == [] then None
    else if options[|options| - 1].id == id then Some(|options| - 1)
    else
      var pre := options[..|options| - 1];
      assert forall j :: 0 <= j < |pre| ==> pre[j] == options[j];
      LastWithId(pre, id)
  }

  /** `new Map(options.map(o => [o.id, o.name])).get(id)`: building the map
      sets each entry in list order, so the last option with an id wins. */
  function NameFor(options: seq<PollOption>, id: string): Option<string> {
    match LastWithId(options, id)
    case None => None
    case Some(k) => Some(options[k].name)
  }

  /** `optionNameMap.get(vote.option_id) || 'Opsi tidak ditemukan'`: the
      name of the last option listing `id`, unless it is missing or empty. */
  function OptionName(options: seq<PollOption>, id: string): (r: string)
    ensures r != ""
    ensures (forall j :: 0 <= j < |options| ==> options[j].id != id) ==> r == MissingOptionName
    ensures forall k :: 0 <= k < |options| && options[k].id == id &&
                        (forall j :: k < j < |options| ==> options[j].id != id) ==>
                        r == (if options[k].name == "" then MissingOptionName else options[k].name)
  {
    match NameFor(options, id)
    case Some(n) => if n != "" then n else MissingOptionName
    case None => MissingOptionName
  }

  /** `vote.user_name || vote.user_email || 'User ' + user_id.slice(0, 6)`:
      the first non-empty of the recorded name and email, else a name made
      from the start of the user id. Never empty. */
  function DisplayName(v: Vote): (r: string)
    ensures r != ""
    ensures Truthy(v.userName) ==> r == v.userName.value
    ensures !Truthy(v.userName) && Truthy(v.userEmail) ==> r == v.userEmail.value
    ensures !Truthy(v.userName) && !Truthy(v.userEmail) ==>
              |r| == |UserPrefix| + Min(UserIdChars, |v.userId|) &&
              r[..|UserPrefix|] == UserPrefix && r[|UserPrefix|..] <= v.userId
  {
    if Truthy(v.userName) then v.userName.value
    else if Truthy(v.userEmail) then v.userEmail.value
    else UserPrefix + v.userId[..Min(UserIdChars, |v.userId|)]
  }

  /** One roster row, before sorting. */
  function Row(options: seq<PollOption>, v: Vote): RosterRow {
    RosterRow(v, OptionName(options, v.optionId), v.createdAt, DisplayName(v))
  }

  /** `votes.map(...)` */
  function Annotate(options: seq<PollOption>, votes: seq<Vote>): (r: seq<RosterRow>)
    ensures |r| == |votes|
    ensures forall i :: 0 <= i < |votes| ==> r[i] == Row(options, votes[i])
  {
    seq(|votes|, i requires 0 <= i < |votes| => Row(options, votes[i]))
  }

  /** The votes the rows stand for, in row order. */
  function VotesOf(rows: seq<RosterRow>): (r: seq<Vote>)
    ensures |r| == |rows|
  {
    seq(|rows|, i requires 0 <= i < |rows| => rows[i].vote)
  }

  /** Non-increasing in vote time: the order `(a, b) => b.votedAt - a.votedAt` asks for. */
  ghost predicate NewestFirst(rows: seq<RosterRow>) {
    forall i, j :: 0 <= i < j < |rows| ==> rows[i].votedAt >= rows[j].votedAt
  }

  lemma VotesOfCons(x: RosterRow, rows: seq<RosterRow>)
    ensures VotesOf([x] + rows) == [x.vote] + VotesOf(rows)
  {
    assert forall i :: 0 <= i < |rows| ==> ([x] + rows)[i + 1] == rows[i];
  }

  /** Puts `x` after every strictly newer row of `sorted` and before the
      rest, so that rows with equal times keep their order. */
  function InsertNewestFirst(sorted: seq<RosterRow>, x: RosterRow): (r: seq<RosterRow>)
    ensures multiset(r) == multiset(sorted) + multiset{x}
    ensures multiset(VotesOf(r)) == multiset(VotesOf(sorted)) + multiset{x.vote}
  {
    if sorted == [] || sorted[0].votedAt <= x.votedAt then
      VotesOfCons(x, sorted);
      [x] + sorted
    else
      var rest := InsertNewestFirst(sorted[1..], x);
      assert sorted == [sorted[0]] + sorted[1..];
      VotesOfCons(sorted[0], sorted[1..]);
      VotesOfCons(sorted[0], rest);
      [sorted[0]] + rest
  }

  /** Inserting into a newest-first list keeps it newest first. */
  lemma {:induction false} InsertKeepsNewestFirst(sorted: seq<RosterRow>, x: RosterRow)
    requires NewestFirst(sorted)
    ensures NewestFirst(InsertNewestFirst(sorted, x))
  {
    if sorted == [] || sorted[0].votedAt <= x.votedAt {
      assert forall j :: 0 <= j < |sorted| ==> sorted[j].votedAt <= x.votedAt;
    } else {
      var rest := InsertNewestFirst(sorted[1..], x);
      InsertKeepsNewestFirst(sorted[1..], x);
      forall j | 0 <= j < |rest| ensures rest[j].votedAt <= sorted[0].votedAt {
        assert rest[j] in multiset(rest);
        assert rest[j] in multiset(sorted[1..]) || rest[j] == x;
      }
    }
  }

  /** The `.sort(...)` step: an insertion sort, newest first. */
  function SortNewestFirst(rows: seq<RosterRow>): (r: seq<RosterRow>)
    ensures NewestFirst(r)
    ensures multiset(r) == multiset(rows)
    ensures multiset(VotesOf(r)) == multiset(VotesOf(rows))
    ensures |r| == |rows|
  {
    if rows == [] then []
    else
      assert rows == [rows[0]] + rows[1..];
      VotesOfCons(rows[0], rows[1..]);
      var r := InsertNewestFirst(SortNewestFirst(rows[1..]), rows[0]);
      InsertKeepsNewestFirst(SortNewestFirst(rows[1..]), rows[0]);
      assert |r| == |multiset(r)|;
      r
  }

  /** Rows already newest first come out as they went in: in particular
      rows with equal times keep their order. */
  lemma {:induction false} SortKeepsSorted(rows: seq<RosterRow>)
    requires NewestFirst(rows)
    ensures SortNewestFirst(rows) == rows
  {
    if rows != [] {
      var tail := rows[1..];
      assert forall i :: 0 <= i < |tail| ==> tail[i] == rows[i + 1];
      SortKeepsSorted(tail);
      assert rows == [rows[0]] + tail;
    }
  }

  /** `votesWithOptionNames` */
  function VotesWithOptionNames(options: seq<PollOption>, votes: seq<Vote>): seq<RosterRow> {
    SortNewestFirst(Annotate(options, votes))
  }

  /** The roster lists every vote once (a permutation of the vote list),
      newest first, each row carrying its vote's option name, time and
      display name. */
  lemma RosterIsSortedPermutation(options: seq<PollOption>, votes: seq<Vote>)
    ensures |VotesWithOptionNames(options, votes)| == |votes|
    ensures NewestFirst(VotesWithOptionNames(options, votes))
    ensures multiset(VotesOf(VotesWithOptionNames(options, votes))) == multiset(votes)
    ensures forall i :: 0 <= i < |votes| ==>
              var row := VotesWithOptionNames(options, votes)[i];
              row == Row(options, row.vote)
  {
    var rows := Annotate(options, votes);
    var r := VotesWithOptionNames(options, votes);
    assert VotesOf(rows) == votes;
    forall i | 0 <= i < |r| ensures r[i] == Row(options, r[i].vote) {
      assert r[i] in multiset(r);
      assert r[i] in multiset(rows);
      var k :| 0 <= k < |rows| && rows[k] == r[i];
    }
  }
}
