/** The per-option tally and the total, derived from the option rows and the
    live vote rows on every change.

    `voteCountByOption` fills a `Map` in two passes: one increment per vote
    for the vote's option id (ids of unlisted options included), then, for
    each listed option whose id is still missing, that option's cached
    `vote_count`. `totalVotes` adds up the map's values. */
module Tally {
  import opened PollTypes
  import opened JsMap

  // ---------------------------------------------------------------------
  // Reference definitions

  /** The number of live votes carrying option id `id`. */
  function CountOf(votes: seq<Vote>, id: string): (n: nat)
    ensures n <= |votes|
    ensures n > 0 <==> exists i :: 0 <= i < |votes| && votes[i].optionId == id
  {
    if votes == [] then 0
    else
      var pre := votes[..|votes| - 1];
      assert forall i :: 0 <= i < |pre| ==> pre[i] == votes[i];
      CountOf(pre, id) + (if votes[|votes| - 1].optionId == id then 1 else 0)
  }

  /** Some listed option has id `id`. */
  predicate Listed(options: seq<PollOption>, id: string) {
    exists j :: 0 <= j < |options| && options[j].id == id
  }

  /** Position of the first listed option with id `id`. */
  function FirstWithId(options: seq<PollOption>, id: string): (r: Option<nat>)
    ensures r.Some? ==> r.value < |options| && options[r.value].id == id
    ensures r.Some? ==> forall j :: 0 <= j < r.value ==> options[j].id != id
    ensures r.None? <==> !Listed(options, id)
  {
    if options == [] then None
    else if options[0].id == id then Some(0)
    else
      match FirstWithId(options[1..], id)
      case None =>
        assert forall j :: 1 <= j < |options| ==> options[j] == options[1..][j - 1];
        None
      case Some(i) => Some(i + 1)
  }

  /** `opt.vote_count || 0`: on an integer this is the integer itself. */
  function Cached(o: PollOption): int {
    o.voteCount
  }

  /** The cached count the second pass would store for `id`: that of the
      first listed option with this id, if any. */
  function CachedFor(options: seq<PollOption>, id: string): Option<int> {
    match FirstWithId(options, id)
    case None => None
    case Some(i) => Some(Cached(options[i]))
  }

  /** `voteCountByOption.get(id) || 0`, the count the view shows for `id`. */
  function DisplayCount(counts: Entries, id: string): int {
    Get(counts, id).GetOr(0)
  }

  // ---------------------------------------------------------------------
  // The two passes, as functions

  /** `map.set(id, (map.get(id) || 0) + 1)` */
  function Bump(m: Entries, id: string): Entries {
    Put(m, id, Get(m, id).GetOr(0) + 1)
  }

  /** The map after the first pass over `votes`. */
  function LiveCounts(votes: seq<Vote>): Entries {
    if votes == [] then []
    else Bump(LiveCounts(votes[..|votes| - 1]), votes[|votes| - 1].optionId)
  }

  /** The map after the second pass over `options`, starting from `m`. */
  function WithFallbacks(m: Entries, options: seq<PollOption>): Entries {
    if options == [] then m
    else
      var before := WithFallbacks(m, options[..|options| - 1]);
      var o := options[|options| - 1];
      if Has(before, o.id) then before else Put(before, o.id, Cached(o))
  }

  /** The value of `voteCountByOption`. */
  function VoteCounts(options: seq<PollOption>, votes: seq<Vote>): Entries {
    WithFallbacks(LiveCounts(votes), options)
  }

  /** What the cached counts add to the total: for each listed id without a
      live vote, the cache of the first option listing it. */
  function FallbackTotal(options: seq<PollOption>, votes: seq<Vote>): int {
    if options == [] then 0
    else
      var pre := options[..|options| - 1];
      var o := options[|options| - 1];
      FallbackTotal(pre, votes)
        + (if CountOf(votes, o.id) > 0 || Listed(pre, o.id) then 0 else Cached(o))
  }

  /** The sum of the cached counts of the listed options. */
  function SumCached(options: seq<PollOption>): int {
    if options == [] then 0
    else SumCached(options[..|options| - 1]) + Cached(options[|options| - 1])
  }

  /** No two listed options share an id (the ids are server-assigned). */
  ghost predicate DistinctIds(options: seq<PollOption>) {
    forall i, j :: 0 <= i < j < |options| ==> options[i].id != options[j].id
  }

  /** The count `id` loses from its cache when its first live vote arrives. */
  function StaleCache(options: seq<PollOption>, votes: seq<Vote>, id: string): int {
    if CountOf(votes, id) > 0 then 0 else CachedFor(options, id).GetOr(0)
  }

  // ---------------------------------------------------------------------
  // The source's loops

  /** `voteCountByOption`: both passes, as the source runs them. */
  method VoteCountByOption(options: seq<PollOption>, votes: seq<Vote>) returns (counts: Entries)
    ensures counts == VoteCounts(options, votes)
    ensures DistinctKeys(counts)
    ensures forall id :: Get(counts, id) ==
                         if CountOf(votes, id) > 0 then Some(CountOf(votes, id)) else CachedFor(options, id)
  {
    counts := [];
    for i := 0 to |votes|
      invariant counts == LiveCounts(votes[..i])
    {
      var id := votes[i].optionId;
      LiveCountsStep(votes, i);
      counts := Put(counts, id, Get(counts, id).GetOr(0) + 1);
    }
    assert votes[..|votes|] == votes;
    for j := 0 to |options|
      invariant counts == WithFallbacks(LiveCounts(votes), options[..j])
    {
      var o := options[j];
      WithFallbacksStep(LiveCounts(votes), options, j);
      if !Has(counts, o.id) {
        counts := Put(counts, o.id, o.voteCount);
      }
    }
    assert options[..|options|] == options;
    VoteCountsGetAll(options, votes, counts);
  }

  lemma LiveCountsStep(votes: seq<Vote>, i: nat)
    requires i < |votes|
    ensures LiveCounts(votes[..i + 1]) == Bump(LiveCounts(votes[..i]), votes[i].optionId)
  {
    assert votes[..i + 1][..i] == votes[..i];
  }

  lemma WithFallbacksStep(m: Entries, options: seq<PollOption>, j: nat)
    requires j < |options|
    ensures WithFallbacks(m, options[..j + 1]) ==
      var before := WithFallbacks(m, options[..j]);
      if Has(before, options[j].id) then before else Put(before, options[j].id, Cached(options[j]))
  {
    assert options[..j + 1][..j] == options[..j];
  }

  /** `totalVotes`: the running sum over the map, in insertion order. */
  method TotalVotes(counts: Entries) returns (sum: int)
    ensures sum == SumValues(counts)
  {
    sum := 0;
    var i := 0;
    while i < |counts|
      invariant 0 <= i <= |counts|
      invariant sum == SumValues(counts[..i])
    {
      sum := sum + counts[i].value;
      assert counts[..i + 1][..i] == counts[..i];
      i := i + 1;
    }
    assert counts[..|counts|] == counts;
  }

  // ---------------------------------------------------------------------
  // What the tally means

  lemma {:induction false} CountOfSnoc(votes: seq<Vote>, v: Vote, id: string)
    ensures CountOf(votes + [v], id) == CountOf(votes, id) + (if v.optionId == id then 1 else 0)
  {
    assert (votes + [v])[..|votes|] == votes;
  }

  lemma FirstWithIdSnoc(options: seq<PollOption>, id: string)
    requires options != []
    ensures FirstWithId(options, id) ==
      var pre := options[..|options| - 1];
      if FirstWithId(pre, id).Some? then FirstWithId(pre, id)
      else if options[|options| - 1].id == id then Some(|options| - 1)
      else None
  {
    var pre := options[..|options| - 1];
    assert forall j :: 0 <= j < |pre| ==> pre[j] == options[j];
    match FirstWithId(pre, id)
    case Some(i) =>
      assert options[i].id == id;
    case None =>
      if options[|options| - 1].id == id {
        assert Listed(options, id);
      } else {
        assert forall j :: 0 <= j < |options| ==> options[j].id != id by {
          forall j | 0 <= j < |options| ensures options[j].id != id {
            if j < |pre| {
              assert pre[j] == options[j];
            }
          }
        }
      }
  }

  /** One increment raises `k`'s count by one and leaves the others. */
  lemma BumpGet(m: Entries, k: string, id: string)
    ensures Get(Bump(m, k), id) == if id == k then Some(Get(m, k).GetOr(0) + 1) else Get(m, id)
  {
    PutGet(m, k, Get(m, k).GetOr(0) + 1, id);
  }

  lemma {:induction false} LiveCountsAt(votes: seq<Vote>, id: string)
    ensures Get(LiveCounts(votes), id) == if CountOf(votes, id) == 0 then None else Some(CountOf(votes, id))
  {
    if votes != [] {
      var pre := votes[..|votes| - 1];
      LiveCountsAt(pre, id);
      BumpGet(LiveCounts(pre), votes[|votes| - 1].optionId, id);
    }
  }

  lemma BumpDistinct(m: Entries, k: string)
    requires DistinctKeys(m)
    ensures DistinctKeys(Bump(m, k))
  {
    PutDistinct(m, k, Get(m, k).GetOr(0) + 1);
  }

  lemma {:induction false} LiveCountsDistinct(votes: seq<Vote>)
    ensures DistinctKeys(LiveCounts(votes))
  {
    if votes != [] {
      var pre := votes[..|votes| - 1];
      LiveCountsDistinct(pre);
      BumpDistinct(LiveCounts(pre), votes[|votes| - 1].optionId);
    }
  }

  lemma {:induction false} LiveCountsSum(votes: seq<Vote>)
    ensures SumValues(LiveCounts(votes)) == |votes|
  {
    if votes != [] {
      var pre := votes[..|votes| - 1];
      var id := votes[|votes| - 1].optionId;
      LiveCountsSum(pre);
      PutSum(LiveCounts(pre), id, Get(LiveCounts(pre), id).GetOr(0) + 1);
    }
  }

  /** After the first pass each voted id maps to its number of votes, no
      other id is a key, the keys are distinct and the values add up to the
      number of votes. */
  lemma LiveCountsGet(votes: seq<Vote>)
    ensures forall id :: Get(LiveCounts(votes), id) ==
                         if CountOf(votes, id) == 0 then None else Some(CountOf(votes, id))
    ensures DistinctKeys(LiveCounts(votes))
    ensures SumValues(LiveCounts(votes)) == |votes|
  {
    forall id ensures Get(LiveCounts(votes), id) ==
                      if CountOf(votes, id) == 0 then None else Some(CountOf(votes, id))
    {
      LiveCountsAt(votes, id);
    }
    LiveCountsDistinct(votes);
    LiveCountsSum(votes);
  }

  /** The second pass keeps every key already present and adds, for each
      other listed id, the cache of the first option with that id. */
  lemma {:induction false} WithFallbacksGet(m: Entries, options: seq<PollOption>, id: string)
    ensures Get(WithFallbacks(m, options), id) ==
      if Has(m, id) then Get(m, id) else CachedFor(options, id)
    ensures DistinctKeys(m) ==> DistinctKeys(WithFallbacks(m, options))
  {
    if options != [] {
      var pre := options[..|options| - 1];
      var o := options[|options| - 1];
      WithFallbacksGet(m, pre, id);
      WithFallbacksGet(m, pre, o.id);
      FirstWithIdSnoc(options, id);
      PutGet(WithFallbacks(m, pre), o.id, Cached(o), id);
      if DistinctKeys(m) {
        PutDistinct(WithFallbacks(m, pre), o.id, Cached(o));
      }
    }
  }

  /** Every id with a live vote maps to exactly its number of live votes,
      listed or not; every other listed id maps to the cache of the first
      option with that id; nothing else is a key, and no key repeats. */
  lemma VoteCountsGet(options: seq<PollOption>, votes: seq<Vote>, id: string)
    ensures Get(VoteCounts(options, votes), id) ==
      if CountOf(votes, id) > 0 then Some(CountOf(votes, id)) else CachedFor(options, id)
    ensures Has(VoteCounts(options, votes), id) <==> CountOf(votes, id) > 0 || Listed(options, id)
    ensures DistinctKeys(VoteCounts(options, votes))
  {
    LiveCountsGet(votes);
    WithFallbacksGet(LiveCounts(votes), options, id);
  }

  lemma VoteCountsGetAll(options: seq<PollOption>, votes: seq<Vote>, counts: Entries)
    requires counts == VoteCounts(options, votes)
    ensures DistinctKeys(counts)
    ensures forall id :: Get(counts, id) ==
                         if CountOf(votes, id) > 0 then Some(CountOf(votes, id)) else CachedFor(options, id)
  {
    forall id ensures Get(counts, id) ==
                      if CountOf(votes, id) > 0 then Some(CountOf(votes, id)) else CachedFor(options, id)
    {
      VoteCountsGet(options, votes, id);
    }
    VoteCountsGet(options, votes, "");
  }

  /** An option with no live vote shows its own cache (the first option
      when ids repeat); one with a live vote never does. */
  lemma FallbackToCache(options: seq<PollOption>, votes: seq<Vote>, i: nat)
    requires i < |options|
    requires forall j :: 0 <= j < i ==> options[j].id != options[i].id
    ensures CountOf(votes, options[i].id) == 0 ==>
      Get(VoteCounts(options, votes), options[i].id) == Some(options[i].voteCount)
    ensures CountOf(votes, options[i].id) > 0 ==>
      Get(VoteCounts(options, votes), options[i].id) == Some(CountOf(votes, options[i].id))
  {
    VoteCountsGet(options, votes, options[i].id);
    assert FirstWithId(options, options[i].id) == Some(i);
  }

  /** The counts are never negative when the caches are not. */
  lemma DisplayCountNonNegative(options: seq<PollOption>, votes: seq<Vote>, id: string)
    requires forall j :: 0 <= j < |options| ==> options[j].voteCount >= 0
    ensures DisplayCount(VoteCounts(options, votes), id) >= 0
  {
    VoteCountsGet(options, votes, id);
  }

  lemma {:induction false} WithFallbacksSum(m: Entries, options: seq<PollOption>, votes: seq<Vote>)
    requires forall id :: Has(m, id) <==> CountOf(votes, id) > 0
    ensures SumValues(WithFallbacks(m, options)) == SumValues(m) + FallbackTotal(options, votes)
  {
    if options != [] {
      var pre := options[..|options| - 1];
      var o := options[|options| - 1];
      WithFallbacksSum(m, pre, votes);
      WithFallbacksGet(m, pre, o.id);
      PutSum(WithFallbacks(m, pre), o.id, Cached(o));
    }
  }

  /** The total is the number of live votes plus what the caches add. */
  lemma TotalVotesDecomposition(options: seq<PollOption>, votes: seq<Vote>)
    ensures SumValues(VoteCounts(options, votes)) == |votes| + FallbackTotal(options, votes)
  {
    LiveCountsGet(votes);
    WithFallbacksSum(LiveCounts(votes), options, votes);
  }

  lemma {:induction false} FallbackTotalZero(options: seq<PollOption>, votes: seq<Vote>)
    requires forall i :: 0 <= i < |options| ==> CountOf(votes, options[i].id) > 0
    ensures FallbackTotal(options, votes) == 0
  {
    if options != [] {
      var pre := options[..|options| - 1];
      assert forall i :: 0 <= i < |pre| ==> pre[i] == options[i];
      FallbackTotalZero(pre, votes);
    }
  }

  /** Once every listed option has a live vote, the total is the number of
      votes. */
  lemma TotalWhenEveryOptionVoted(options: seq<PollOption>, votes: seq<Vote>)
    requires forall i :: 0 <= i < |options| ==> CountOf(votes, options[i].id) > 0
    ensures SumValues(VoteCounts(options, votes)) == |votes|
  {
    TotalVotesDecomposition(options, votes);
    FallbackTotalZero(options, votes);
  }

  lemma {:induction false} FallbackTotalNoVotes(options: seq<PollOption>)
    requires DistinctIds(options)
    ensures FallbackTotal(options, []) == SumCached(options)
  {
    if options != [] {
      var pre := options[..|options| - 1];
      assert forall i :: 0 <= i < |pre| ==> pre[i] == options[i];
      FallbackTotalNoVotes(pre);
    }
  }

  /** Before any vote has loaded, the total is the sum of the cached counts. */
  lemma TotalWithoutVotes(options: seq<PollOption>)
    requires DistinctIds(options)
    ensures SumValues(VoteCounts(options, [])) == SumCached(options)
  {
    TotalVotesDecomposition(options, []);
    FallbackTotalNoVotes(options);
  }

  lemma {:induction false} FallbackTotalCastVote(options: seq<PollOption>, votes: seq<Vote>, v: Vote)
    ensures FallbackTotal(options, votes + [v]) ==
      FallbackTotal(options, votes) - StaleCache(options, votes, v.optionId)
  {
    if options != [] {
      var pre := options[..|options| - 1];
      var o := options[|options| - 1];
      FallbackTotalCastVote(pre, votes, v);
      CountOfSnoc(votes, v, o.id);
      CountOfSnoc(votes, v, v.optionId);
      FirstWithIdSnoc(options, v.optionId);
    }
  }

  /** A new vote adds one to its option's count and to the total, less the
      cache it displaces when it is the option's first live vote; every
      other id keeps its count. */
  lemma CastVoteEffect(options: seq<PollOption>, votes: seq<Vote>, v: Vote)
    ensures DisplayCount(VoteCounts(options, votes + [v]), v.optionId) ==
      DisplayCount(VoteCounts(options, votes), v.optionId) + 1 - StaleCache(options, votes, v.optionId)
    ensures forall id :: id != v.optionId ==>
      Get(VoteCounts(options, votes + [v]), id) == Get(VoteCounts(options, votes), id)
    ensures SumValues(VoteCounts(options, votes + [v])) ==
      SumValues(VoteCounts(options, votes)) + 1 - StaleCache(options, votes, v.optionId)
  {
    VoteCountsGet(options, votes, v.optionId);
    VoteCountsGet(options, votes + [v], v.optionId);
    CountOfSnoc(votes, v, v.optionId);
    forall id | id != v.optionId
      ensures Get(VoteCounts(options, votes + [v]), id) == Get(VoteCounts(options, votes), id)
    {
      VoteCountsGet(options, votes, id);
      VoteCountsGet(options, votes + [v], id);
      CountOfSnoc(votes, v, id);
    }
    TotalVotesDecomposition(options, votes);
    TotalVotesDecomposition(options, votes + [v]);
    FallbackTotalCastVote(options, votes, v);
  }

  /** When the cache is stale (3 cached, no live vote), the first live vote
      makes the shown count drop from 3 to 1 rather than rise to 4. */
  lemma StaleCacheExample()
    ensures
      var o := PollOption("a", "Cafe", "Street", None, "u0", 0, 3);
      var v := Vote("v1", "a", "u1", None, None, 10);
      DisplayCount(VoteCounts([o], []), "a") == 3 &&
      DisplayCount(VoteCounts([o], [v]), "a") == 1
  {
    var o := PollOption("a", "Cafe", "Street", None, "u0", 0, 3);
    var v := Vote("v1", "a", "u1", None, None, 10);
    VoteCountsGet([o], [], "a");
    VoteCountsGet([o], [v], "a");
    assert FirstWithId([o], "a") == Some(0);
    assert [v][0].optionId == "a";
  }
}
