# Coffee-shop poll: tally engine, voting clock and vote gating

The poll page lists coffee-shop options and lets signed-in users vote for
them until a fixed deadline. Everything it shows comes from two lists read
from the hosted backend, the option rows and the vote rows, plus the
current time. This project models the logic that turns those inputs into
what the page shows, and the gating that decides when a vote may change the
vote table:

- **Per-option counts** (`voteCountByOption`), in module `Tally`. A
  JavaScript `Map` is filled in two passes. The first adds one per live
  vote under the vote's option id, including ids no listed option carries.
  The second stores, for each listed option whose id is still missing, that
  option's server-cached `vote_count`. The `Map` is modelled in `JsMap` as
  an insertion-ordered association list. `set` on a present key replaces
  its value in place, and `set` on a new key appends it.
- **Total votes** (`totalVotes`): the running sum over the map's values.
- **Leading option** (`topOption`), in `Leader`: a `reduce` that starts
  from "no option, count -1" and replaces the best only on a strictly
  higher count, so ties go to the earlier option.
- **Voter figures** (`getUniqueVoters`, `getUserVotes`), in `Voters`.
- **Voter roster** (`votesWithOptionNames`), in `Roster`. Each vote gets
  its option's name or a placeholder, and a display name from a fallback
  chain. The rows are then sorted newest first; the sort is stable, so
  equal times keep their order.
- **Countdown and closed flag** (`deadlineCountdown`, `isVotingClosed`),
  in `Clock`. Times are integer milliseconds, and the deadline is
  2025-12-24T16:30:00+07:00, i.e. 1766568600000.
- **Vote / unvote gating** (`handleVote`, `handleUnvote`), in `Gating`.
  The backend is a `Backend` object holding the two tables. The page state
  that voting reads and writes is a `PollView` object.

The shown count does not always grow by one when a vote arrives. An option
with no live vote shows its cached `vote_count`. Its first live vote
replaces that cache with 1, so an option showing a cached 3 drops to 1
(`Tally.StaleCacheExample`). `Tally.CastVoteEffect` states the exact
change: the shown count and the total both move by `+1 - StaleCache`. The
model follows the code here.

The leading option is absent exactly when no option's count beats the
starting -1, that is, when every count is negative. An empty list is one
such case. With non-negative cached counts, there is a leader exactly when
there is an option (`Leader.TopOptionExists`). A non-empty list has no
leader exactly when every count is negative: before any vote has loaded,
that is when every cached count is negative, for example a lone option
cached at -2 (`Leader.NegativeCacheHasNoLeader`).

The countdown label cannot tell days from hours. The days case prints
`Sisa <days>h <hours>m` and the hours case prints `Sisa <hours>h <minutes>m`,
so 2 days 3 hours and 2 hours 3 minutes both read "Sisa 2h 3m"
(`Clock.DaysLabelMatchesHoursLabel`, `Clock.AmbiguousCountdownLabel`). The
split into days, hours and minutes is proved on the `Clock.Countdown` value,
not on the text.

The rule that a user has at most one vote per option is enforced by the
backend, not by the page: inserting an existing (option, user) pair leaves
the table as it was (`Gating.WithVote`).

## Model

| member | source | states |
|---|---|---|
| JsMap.Has | src/components/Poll.tsx:141 | no contract of its own: `map.has(k)`; see `JsMap.IndexOfFirst` |
| JsMap.Get | src/components/Poll.tsx:137 | no contract of its own: `map.get(k)`, none for a missing key; see `JsMap.PutGet` |
| JsMap.Put | src/components/Poll.tsx:137 | no contract of its own: `map.set(k, v)`; see `JsMap.PutGet`, `JsMap.PutKeys`, `JsMap.PutDistinct` and `JsMap.PutSum` |
| JsMap.SumValues | src/components/Poll.tsx:150-152 | no contract of its own: the sum of the values in insertion order; see `JsMap.PutSum` and `Tally.TotalVotes` |
| JsMap.IndexOf | src/components/Poll.tsx:141 | a found position holds the key |
| JsMap.IndexOfFirst | src/components/Poll.tsx:141 | the position found is the first holding the key; none is found exactly when no entry holds it |
| JsMap.PutGet | src/components/Poll.tsx:137 | `map.set(k, v)` makes `get(k)` return `v` and leaves every other key's value as it was |
| JsMap.PutKeys | src/components/Poll.tsx:137 | after `map.set(k, v)` the keys are the old keys plus `k` |
| JsMap.PutDistinct | src/components/Poll.tsx:137 | `map.set` never creates a second entry for a key |
| JsMap.DistinctKeysPairwise | src/components/Poll.tsx:134 | a map's keys are distinct exactly when no two positions hold the same key |
| JsMap.PutSum | src/components/Poll.tsx:150-152 | after `map.set(k, v)` the sum of the values changes by `v` minus the old value of `k` (0 if absent) |
| Tally.CountOf | src/components/Poll.tsx:136-138 | the number of votes for an id is at most the number of votes, and is positive exactly when some vote carries the id |
| Tally.FirstWithId | src/components/Poll.tsx:140-144 | the position of the first listed option with an id; none exactly when no option is listed with it |
| Tally.Cached | src/components/Poll.tsx:142 | no contract of its own: `opt.vote_count \|\| 0` on an integer; see `Tally.FallbackToCache` |
| Tally.DisplayCount | src/components/Poll.tsx:418 | no contract of its own: `get(id) \|\| 0`; see `Tally.DisplayCountNonNegative` and `Tally.CastVoteEffect` |
| Tally.Bump | src/components/Poll.tsx:137 | no contract of its own: one first-pass update; see `Tally.BumpGet` and `Tally.BumpDistinct` |
| Tally.LiveCounts | src/components/Poll.tsx:135-139 | no contract of its own: the map after the first pass; see `Tally.LiveCountsGet` |
| Tally.WithFallbacks | src/components/Poll.tsx:140-144 | no contract of its own: the map after the second pass; see `Tally.WithFallbacksGet` |
| Tally.VoteCounts | src/components/Poll.tsx:133-146 | no contract of its own: the value of `voteCountByOption`; see `Tally.VoteCountsGet` and `Tally.TotalVotesDecomposition` |
| Tally.VoteCountByOption | src/components/Poll.tsx:133-146 | the two loops build the map: every voted id maps to its number of live votes, every other listed id maps to the cache of the first option with it, nothing else is a key, and no key repeats |
| Tally.TotalVotes | src/components/Poll.tsx:148-154 | the loop's sum is the sum of the map's values |
| Tally.LiveCountsStep | src/components/Poll.tsx:136-138 | one more vote in the first pass is one more `set(id, (get(id) \|\| 0) + 1)` |
| Tally.WithFallbacksStep | src/components/Poll.tsx:140-144 | one more option in the second pass adds its cache only when its id is missing |
| Tally.BumpGet | src/components/Poll.tsx:137 | one increment raises the voted id's count by one and leaves all other ids unchanged |
| Tally.LiveCountsAt | src/components/Poll.tsx:136-138 | after the first pass, an id maps to its number of live votes, and is absent when it has none |
| Tally.BumpDistinct | src/components/Poll.tsx:137 | an increment keeps the keys distinct |
| Tally.LiveCountsDistinct | src/components/Poll.tsx:136-138 | the first pass produces distinct keys |
| Tally.LiveCountsSum | src/components/Poll.tsx:136-138 | after the first pass the values add up to the number of votes |
| Tally.LiveCountsGet | src/components/Poll.tsx:133-139 | the first pass's result for every id at once, with distinct keys and the sum |
| Tally.WithFallbacksGet | src/components/Poll.tsx:140-144 | the second pass keeps every key already present, and gives each other listed id the cache of the first option with that id |
| Tally.VoteCountsGet | src/components/Poll.tsx:133-146 | an id maps to its live count if it has a vote, else to the first listed cache; it is a key exactly when it has a vote or is listed |
| Tally.VoteCountsGetAll | src/components/Poll.tsx:133-146 | the map's value for every id and the distinctness of its keys |
| Tally.FallbackToCache | src/components/Poll.tsx:140-144 | an option with no live vote shows its own cached count, and one with a live vote shows its live count |
| Tally.DisplayCountNonNegative | src/components/Poll.tsx:418 | with non-negative caches every shown count `get(id) \|\| 0` is non-negative |
| Tally.WithFallbacksSum | src/components/Poll.tsx:140-144 | the second pass adds exactly the caches of listed ids without votes to the sum |
| Tally.TotalVotesDecomposition | src/components/Poll.tsx:148-154 | the total is the number of live votes plus the caches of listed ids without a live vote |
| Tally.FallbackTotalZero | src/components/Poll.tsx:140-144 | no cache contributes when every listed option has a live vote |
| Tally.TotalWhenEveryOptionVoted | src/components/Poll.tsx:148-154 | when every listed option has a live vote, the total is the number of votes |
| Tally.FallbackTotalNoVotes | src/components/Poll.tsx:140-144 | with no votes and distinct ids, the caches contribute their sum |
| Tally.TotalWithoutVotes | src/components/Poll.tsx:148-154 | with no votes and distinct option ids, the total is the sum of the cached counts |
| Tally.CountOfSnoc | src/components/Poll.tsx:136-138 | a new vote raises its own id's count by one and no other |
| Tally.FirstWithIdSnoc | src/components/Poll.tsx:140-144 | the first option with an id in a longer list is the one in the shorter list if any, else the new last one if it matches |
| Tally.FallbackTotalCastVote | src/components/Poll.tsx:140-144 | a new vote removes from the caches' contribution exactly the cache it displaces |
| Tally.CastVoteEffect | src/components/Poll.tsx:133-154 | a new vote changes its option's shown count and the total by `+1 - StaleCache`, and leaves every other id unchanged |
| Tally.StaleCacheExample | src/components/Poll.tsx:140-144 | an option cached at 3 with no live vote shows 3, and after its first live vote shows 1 |
| Leader.CountFor | src/components/Poll.tsx:159-160 | no contract of its own: the count the reduce compares; see `Leader.TopIndex` |
| Leader.TopIndex | src/components/Poll.tsx:158-162 | the reduce ends on no option exactly when every count is negative; otherwise on a maximum, with every earlier option strictly lower |
| Leader.TopOption | src/components/Poll.tsx:156-163 | no leader exactly when every count is negative (an empty list included); otherwise a listed option with the maximum count, the earliest among equal maxima |
| Leader.TopOptionExists | src/components/Poll.tsx:156-163 | on the derived counts with non-negative caches, there is a leader exactly when the list is non-empty |
| Leader.NegativeCacheHasNoLeader | src/components/Poll.tsx:156-163 | with no vote loaded and every cached count negative, there is no leading option, whatever the length of the list |
| Leader.FirstMaximumWins | src/components/Poll.tsx:161 | with counts 3, 5, 5 the leader is the first 5 |
| Voters.VoterIds | src/components/Poll.tsx:130 | no contract of its own: the set of voter ids; see `Voters.VoterIdsSnoc` and `Voters.VoterIdsBound` |
| Voters.VoterIdsSnoc | src/components/Poll.tsx:130 | a new vote adds its user id to the voter-id set |
| Voters.VoterIdsBound | src/components/Poll.tsx:130 | there are no more distinct voters than votes |
| Voters.UniqueVoters | src/components/Poll.tsx:129-131 | the distinct-voter count is at most the number of votes, and is 0 exactly when there is no vote |
| Voters.CastVoteVoters | src/components/Poll.tsx:129-131 | a new vote adds one voter exactly when its user had not voted |
| Voters.VotedOptionIds | src/components/Poll.tsx:126 | a user's voted ids number at most the votes |
| Voters.UserVotes | src/components/Poll.tsx:124-127 | no user gives an empty list; the list is never longer than the votes |
| Voters.HasVoted | src/components/Poll.tsx:417 | no contract of its own: `getUserVotes().includes(id)`; see `Voters.HasVotedIff` |
| Voters.HasVotedIff | src/components/Poll.tsx:417 | an option card shows "voted" exactly when one of the user's votes carries that option id |
| Voters.UserVotesAppend | src/components/Poll.tsx:126 | the user's list of a concatenation is the concatenation of the lists, so it follows vote order |
| Roster.NameFor | src/components/Poll.tsx:166 | no contract of its own: the name map's lookup, the last option with the id; see `Roster.LastWithId` and `Roster.OptionName` |
| Roster.VotesWithOptionNames | src/components/Poll.tsx:165-178 | no contract of its own: the roster; see `Roster.RosterIsSortedPermutation` |
| Roster.Row | src/components/Poll.tsx:168-176 | no contract of its own: one vote's row; see `Roster.OptionName`, `Roster.DisplayName` and `Roster.RosterIsSortedPermutation` |
| Roster.LastWithId | src/components/Poll.tsx:166 | the position of the last option with an id; none exactly when no option has it |
| Roster.OptionName | src/components/Poll.tsx:166-170 | never empty; the placeholder for an unlisted id; otherwise the last such option's name, or the placeholder when that name is empty |
| Roster.DisplayName | src/components/Poll.tsx:172-175 | never empty; the user name if non-empty, else the e-mail if non-empty, else "User " and the first six characters of the user id |
| Roster.Annotate | src/components/Poll.tsx:167-176 | one row per vote, in vote order, each row built from its own vote |
| Roster.VotesOfCons | src/components/Poll.tsx:167-176 | the votes behind a list of rows follow the rows |
| Roster.InsertNewestFirst | src/components/Poll.tsx:177 | inserting one row adds exactly that row, and that row's vote, to the list |
| Roster.InsertKeepsNewestFirst | src/components/Poll.tsx:177 | inserting into a newest-first list keeps it newest first |
| Roster.SortNewestFirst | src/components/Poll.tsx:177 | the sorted rows are newest first and a permutation of the input |
| Roster.SortKeepsSorted | src/components/Poll.tsx:177 | rows already newest first come out unchanged, so equal times keep their order |
| Roster.RosterIsSortedPermutation | src/components/Poll.tsx:165-178 | the roster has one row per vote, is a permutation of the votes, is newest first, and every row carries its own vote's name, time and display name |
| Clock.IsVotingClosed | src/components/Poll.tsx:20 | no contract of its own: closed once `now` reaches the deadline; see `Clock.DeadlineCountdown` and `Clock.ClosedTextIffClosed` |
| Clock.CountdownText | src/components/Poll.tsx:182-189 | no contract of its own: the label text; see `Clock.ClosedTextIffClosed` and `Clock.DaysLabelMatchesHoursLabel` |
| Clock.WholeMinutes | src/components/Poll.tsx:183 | no contract of its own: the whole minutes left; see `Clock.DeadlineCountdown` and `Clock.MinutesSplit` |
| Clock.DeadlineCountdown | src/components/Poll.tsx:180-190 | closed exactly when now is at or past the deadline; otherwise days-and-hours when there is at least one day, hours-and-minutes when under a day but at least an hour, and minutes alone below an hour, each within its bounds |
| Clock.MinutesSplit | src/components/Poll.tsx:183-186 | the hour of the day is below 24, and days, hours and minutes add back up to the whole minutes |
| Clock.CountdownExamples | src/components/Poll.tsx:180-190 | 2 days 3 hours ahead shows days 2 and hours 3; 45 minutes ahead shows 45 minutes; the deadline itself is closed |
| Clock.NatToString | src/components/Poll.tsx:187-189 | a printed number is a non-empty string of decimal digits, with exactly one digit below ten and a leading '0' only for zero itself (no padding) |
| Clock.NatToStringRoundTrip | src/components/Poll.tsx:187-189 | a printed number reads back as itself |
| Clock.DaysLabelMatchesHoursLabel | src/components/Poll.tsx:187-188 | `d` days `h` hours and `d` hours `h` minutes print the same label |
| Clock.AmbiguousCountdownLabel | src/components/Poll.tsx:180-190 | 3060 minutes before the deadline counts as 2 days 3 hours and 123 minutes as 2 hours 3 minutes, and both print the same label |
| Clock.ClosedTextIffClosed | src/components/Poll.tsx:180-190 | the label is the closed text exactly when voting is closed |
| Gating.WithVote | src/components/Poll.tsx:90-95 | after an insert the pair is present, the old rows are kept as a prefix, at most one row is added and it is the given row, and uniqueness is kept |
| Gating.WithoutVote | src/components/Poll.tsx:113-117 | after a delete no row pairs the option with the user; every remaining row was there before; every row with another option or user stays |
| Gating.UnvoteAbsentUnchanged | src/components/Poll.tsx:113-117 | deleting a pair that is absent changes nothing |
| Gating.UnvoteIdempotent | src/components/Poll.tsx:113-117 | deleting twice is deleting once |
| Gating.VoteTwiceKeepsOne | src/components/Poll.tsx:90-95 | a second insert of the same pair leaves the table as the first left it |
| Gating.WithoutVoteAppend | src/components/Poll.tsx:113-117 | deleting from a concatenation deletes from each part |
| Gating.UnvoteUndoesVote | src/components/Poll.tsx:90-117 | deleting a pair just inserted into a table without it restores the table |
| Gating.WithoutVoteKeepsUnique | src/components/Poll.tsx:113-117 | a delete keeps the pairs unique |
| Gating.NewVoteRow | src/components/Poll.tsx:90-95 | no contract of its own: the inserted row, with the option id, the user's id and e-mail, and `Gating.VoterName` |
| Gating.VoterName | src/components/Poll.tsx:94 | the recorded name is the full name if non-empty (even when the name is also set), else the name if non-empty, else null |
| Gating.Backend.constructor | src/components/Poll.tsx:22-41 | the backend starts with the given tables |
| Gating.Backend.InsertVote | src/components/Poll.tsx:90-95 | the insert reports whether the pair was new, and the votes table becomes the old one with the row inserted under the uniqueness rule |
| Gating.Backend.DeleteVotes | src/components/Poll.tsx:113-117 | the votes table loses exactly the rows pairing the option with the user |
| Gating.PollView.constructor | src/components/Poll.tsx:13-20 | the page starts with empty lists, the given clock and user, and the fixed deadline `Clock.VotingDeadline` |
| Gating.PollView.LoadData | src/components/Poll.tsx:34-35 | both lists are replaced by the backend's tables, clock and user stay, and the page's invariant is kept |
| Gating.PollView.Tick | src/components/Poll.tsx:75 | the minute tick sets the clock and nothing else, keeping the page's invariant |
| Gating.PollView.HandleVote | src/components/Poll.tsx:79-100 | closed voting gives the closed notice; otherwise no user requires auth; in both cases nothing changes; otherwise the user's row is inserted and the page reloaded |
| Gating.PollView.HandleUnvote | src/components/Poll.tsx:102-122 | closed voting gives the closed notice; otherwise no user requires auth; in both cases nothing changes; otherwise every row of this option and user is deleted and the page reloaded |
| Gating.VoteThenUnvote | src/components/Poll.tsx:79-122 | voting then unvoting an option the user had not voted for, while voting is open and a user is signed in, leaves the votes table as it was, and the page's vote list equal to that table (a stale page list is refreshed) |

## Left out

- JSX rendering, and the option card and add-option form components: presentation only.
- The realtime subscriptions that reload the page on any table change (src/components/Poll.tsx:43-72): event-driven I/O. A reload is `PollView.LoadData`.
- The network fetch in `loadData` and its error path: the fetched lists are the `Backend` tables. A failed fetch keeps the old lists, which the model does not represent.
- Transport errors from insert and delete (the `catch` branches at lines 97-99 and 119-121): the backend calls always succeed in the model.
- The 60-second timer: `now` is a parameter, advanced by `PollView.Tick`.
- Date parsing and formatting: `created_at` and the deadline are integer milliseconds, and the roster's localised date text is not modelled.
- The percentage bar (src/components/Poll.tsx:321-323): floating-point display arithmetic.
- The leading-option banner, which shows the cached `vote_count` rather than the derived count (src/components/Poll.tsx:381-390): display only. It can disagree with the tally.
- `vote_count` values that are `null` or `NaN`: the cached count is an integer, so `vote_count || 0` is the integer itself.
- The schema that makes the backend reject a second vote of a user for an option is not part of this model. `Gating.WithVote` takes that rule as given.
- Tally.TotalWithoutVotes: requires distinct option ids. With repeated ids only the first option's cache counts, which `Tally.FallbackTotal` and `Tally.TotalVotesDecomposition` state in general.
- Roster.SortKeepsSorted: stability is stated only for input that is already newest first. The general statement, that equal times keep their input order, is not proved, though the insertion places a row before equal-time rows that came later in the input.
- Voters.UserVotes: its own contract gives the empty case and a length bound. Membership and order are in `Voters.HasVotedIff` and `Voters.UserVotesAppend`.
- Backend.InsertVote, Backend.DeleteVotes: the server's upkeep of each option's cached `vote_count`, which follows a vote, is not modelled. The options table is taken as unchanged by a vote, so its counts and the order of the options query stay as they were.
- Roster.DisplayName: `slice(0, 6)` counts UTF-16 code units, while a Dafny string counts Unicode scalar values. They differ only for user ids with characters outside the Basic Multilingual Plane.
- JavaScript numbers are doubles. The model uses unbounded integers, which agree with them at the magnitudes here (millisecond times and vote counts).
- The `await`s in `handleVote` and `handleUnvote` are treated as atomic. A write by another client, or a realtime reload, between the insert or delete and the reload is not represented.
- The votes query has no order (src/components/Poll.tsx:29-31). The model takes the backend's row order as given, and the roster's order among equal times and the order of the user's voted list depend on it.
