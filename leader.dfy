/** The leading option: `options.reduce` that keeps the best so far and
    replaces it only on a strictly higher count, starting from no option
    whose count is taken as -1. */
module Leader {
  import opened PollTypes
  import opened JsMap
  import opened Tally

  /** The count the reduce compares for option `o`. */
  function CountFor(counts: Entries, o: PollOption): int {
    DisplayCount(counts, o.id)
  }

  /** Position the reduce ends on, if it ever takes an option. */
  function TopIndex(options: seq<PollOption>, counts: Entries): (r: Option<nat>)
    ensures r.None? <==> forall j :: 0 <= j < |options| ==> CountFor(counts, options[j]) < 0
    ensures r.Some? ==> r.value < |options|
    ensures r.Some? ==> forall j :: 0 <= j < |options| ==>
                          CountFor(counts, options[j]) <= CountFor(counts, options[r.value])
    ensures r.Some? ==> forall j :: 0 <= j < r.value ==>
                          CountFor(counts, options[j]) < CountFor(counts, options[r.value])
  {
    if options == [] then None
    else
      var pre := options[..|options| - 1];
      assert forall j :: 0 <= j < |pre| ==> pre[j] == options[j];
      var best := TopIndex(pre, counts);
      var current := CountFor(counts, options[|options| - 1]);
      var bestCount := if best.None? then -1 else CountFor(counts, options[best.value]);
      if current > bestCount then Some(|options| - 1) else best
  }

  /** `topOption` */
  function TopOption(options: seq<PollOption>, counts: Entries): (r: Option<PollOption>)
    ensures r.None? <==> forall j :: 0 <= j < |options| ==> CountFor(counts, options[j]) < 0
    ensures r.Some? ==> exists k :: 0 <= k < |options| && options[k] == r.value &&
                          (forall j :: 0 <= j < k ==> CountFor(counts, options[j]) < CountFor(counts, r.value)) &&
                          (forall j :: 0 <= j < |options| ==> CountFor(counts, options[j]) <= CountFor(counts, r.value))
  {
    if |options| == 0 then None
    else
      match TopIndex(options, counts)
      case None => None
      case Some(k) => Some(options[k])
  }

  /** On the derived tally with non-negative caches, there is a leading
      option exactly when there is an option. */
  lemma TopOptionExists(options: seq<PollOption>, votes: seq<Vote>)
    requires forall j :: 0 <= j < |options| ==> options[j].voteCount >= 0
    ensures TopOption(options, VoteCounts(options, votes)).Some? <==> options != []
  {
    if options != [] {
      DisplayCountNonNegative(options, votes, options[0].id);
    }
  }

  /** Before any vote has loaded, options whose cached counts are all
      negative never beat the -1 start, so even a non-empty list has no
      leading option. */
  lemma NegativeCacheHasNoLeader(options: seq<PollOption>)
    requires forall j :: 0 <= j < |options| ==> options[j].voteCount < 0
    ensures TopOption(options, VoteCounts(options, [])) == None
  {
    forall j | 0 <= j < |options| ensures CountFor(VoteCounts(options, []), options[j]) < 0 {
      VoteCountsGet(options, [], options[j].id);
    }
  }

  /** Counts A:3, B:5, C:5 in that order: the leader is B, the first of the
      two maxima. */
  lemma FirstMaximumWins()
    ensures
      var a := PollOption("A", "A", "", None, "", 0, 0);
      var b := PollOption("B", "B", "", None, "", 0, 0);
      var c := PollOption("C", "C", "", None, "", 0, 0);
      TopOption([a, b, c], [Entry("A", 3), Entry("B", 5), Entry("C", 5)]) == Some(b)
  {
    var a := PollOption("A", "A", "", None, "", 0, 0);
    var b := PollOption("B", "B", "", None, "", 0, 0);
    var c := PollOption("C", "C", "", None, "", 0, 0);
    var counts := [Entry("A", 3), Entry("B", 5), Entry("C", 5)];
    assert CountFor(counts, a) == 3 by { assert IndexOf(counts, "A") == Some(0); }
    assert CountFor(counts, b) == 5 by { assert counts[1..][0].key == "B"; }
    assert CountFor(counts, c) == 5 by { assert counts[1..][1..][0].key == "C"; }
    var s := [a, b, c];
    assert s[0] == a && s[1] == b && s[2] == c;
    var r := TopIndex(s, counts);
    assert r.Some?;
    assert r.value != 0 && r.value != 2;
  }
}
