# Carrel, modelled and proved

Carrel is a self-hosted front end to CalDAV and CardDAV accounts. Most of it moves
documents between servers and pages; this project models the seven parts that hold
algorithms or state machines, and proves what they promise.

- **Duplicate detection** (`EditDistance`, `UnionFind`, `Sets`, `Scoring`, `Bucketing`,
  `Clusters`): records are bucketed, pairs within a bucket are scored, and scoring pairs
  joined by a path-halving union-find. For every threshold above fifty this equals the
  comparison of all pairs.
- **Merging cards** (`Patches`, `MergedPatches`): property-level edits, and the edit that
  combines a group of cards without losing anything.
- **The fan-out** (`FanOut`, `FanOutProtocol`, `FanOutVerdicts`, `Registry`): one query to
  many sources, as critical sections of a task, as a protocol over every interleaving of
  them, by what each source then shows, and as a registry of tasks by session.
- **The session cache and its process budget** (`Recency`, `CacheState`, `CacheEviction`,
  `BudgetState`, `SessionCache`): recency lists with counters in every session, and one
  budget that evicts across sessions.
- **The key schedule** (`SymbolicCrypto`, `KeySchedule`, `AccountStore`): passwords, data
  keys, sealed secrets and deposited copies through every administrative operation.
- **Formats** (`Fold`, `FoldedText`, `SplitCalendar`, `YamlScalars`, `Markdown`,
  `FrontMatter`, `MarkdownRoundTrip`, `MarkdownFile`, `MarkdownFormat`): line folding, the split of a
  calendar into resources, and the round trip of a note through a Markdown file.
- **Writing beside other clients** (`Versions`, `CalendarProvider`): conditional writes and
  cached reads over a server that keeps versions, with anyone else writing in between.
- **Decisions about duplicates** (`Duplicates`): a family of disjoint groups.

`Ordering`, `Sums`, `Quotients` and `GoText` hold what these share. Classes follow the
source's own records: `UnionFind`, `Task`, `TaskRegistry`, `Cache`, `Budget`, `Store`,
`Object`, `MarkdownNote`, `Duplicates`, `Provider`. Their methods update fields in place
and are proved against value-level specifications, about which the lemmas speak.

`dafny verify dfyconfig.toml` checks everything.

## Where the code does less than it says

- Two unequal names of more than a hundred characters can score as identical, because the
  ratio is an integer division (`EditDistance.FullScoreExactly`).
- A merge is refused whole when a repeatable property is blank in the target and in every
  other card that has it: the patch then carries no value (`MergedPatches.AcceptedExactly`,
  and two such cards in `BlankNumbersAreRefused`). And because lengths are compared, a new
  value is missed when as many blanks or repeats stand in the target
  (`MergedPatches.CoverageExactly`; a number that stands twice hides a new one in
  `RepeatedNumberHidesNew`).
- After the ceiling a run that still holds its slot can reopen a source that has timed out,
  and the in-flight count is then short by one (`FanOutProtocol.BeginKeepsCountExactly`,
  `UndercountAfterCeiling`).
- Starting a task drops, without cancelling them, the tasks its own sweep finds stale
  (`Registry.StartCancelsAllItDropsExactly`, `StaleTaskIsLeft`).
- A destructive reset and the end of that user's sessions are two steps, one right after
  the other (internal/web/handler/escrow.go:265-272). A request that holds the old data key
  at that moment can still write to the emptied secrets, and seals them away from their
  owner; a session found afterwards cannot (`KeySchedule.WriteKeepsSecretsExactly`,
  `HeldKeyHidesSecrets`).
- An entry without a UID is grouped under a made-up name, which another entry could have as
  its UID (`SplitCalendar.SharesByUidExactly`, `MadeUpNameClashes`).
- An object read by two requests, first the tag and then the body, can be cached under the
  tag of a version it is not. It is that version exactly when no different body was stored
  in between (`Versions.TagAndBodyAgreeExactly`, `TagAndBodyCanPart`). Since the tag is read
  first, the body is never older than its tag, and no current tag ever yields a stale body
  (`CalendarProvider.CachedIsCurrent`).
- The preferences given with a duplicate decision are walked in the order of a map. What is
  kept depends on that order unless names that fold to one carry one value
  (`DuplicateDecisions.FieldsDeterminedExactly`).
- Two members of a decision are one record when their joined keys agree. The key joins
  account, path and UID with a bar, so an account or a path that holds a bar could be
  mistaken for another; without bars it tells all three apart
  (`DuplicateDecisions.KeyTellsApart`, `BarsConfuse`).
- A note's relations all come back from a file as parents, so they come back as they were
  exactly when they were parents (`MarkdownRoundTrip.RelationsComeBackExactly`).

## Model

| member | source | states |
|---|---|---|
| `EditDistance.Levenshtein` | internal/merge/normalize.go:166-190 | the two swapped rows compute the recursive distance of the whole strings |
| `EditDistance.DistanceIsLeastEdits` | internal/merge/normalize.go:166-190 | the distance is the length of a shortest script of insertions, deletions and replacements that turns one string into the other: a script of that length exists and none is shorter |
| `EditDistance.Symmetric` | internal/merge/normalize.go:166-190 | the distance is the same both ways |
| `EditDistance.Triangle` | internal/merge/normalize.go:166-190 | the triangle inequality |
| `EditDistance.ZeroOnlyOnEqual` | internal/merge/normalize.go:166-190 | it is zero just on equal strings |
| `EditDistance.AtMostLonger` | internal/merge/normalize.go:166-190 | it is at most the longer length |
| `EditDistance.Similarity` | internal/merge/normalize.go:146-162 | the ratio the code computes, division included, is the specified one |
| `EditDistance.SimilaritySymmetricAndBounded` | internal/merge/normalize.go:146-162 | similarity is symmetric and stays in 0..100 |
| `EditDistance.FullScoreExactly` | internal/merge/normalize.go:161 | similarity is 100 exactly when neither name is empty and the distance times a hundred is less than the longer length: the division truncates |
| `EditDistance.FullScoreMeansEqualWhenShort` | internal/merge/normalize.go:161 | up to a hundred characters, a full score means equal names |
| `EditDistance.FullScoreOnUnequalNames` | internal/merge/normalize.go:161 | for every tail of more than 99 characters there are two unequal names with a full score |
| `DisjointSets.UnionFind.Find` | internal/merge/cluster.go:260-266 | path halving ends at the representative, keeps the forest and does not move the partition |
| `DisjointSets.UnionFind.Union` | internal/merge/cluster.go:268-286 | the partition is that of the old joins and the new one; the representative carries the highest score and all signals of its joined pairs |
| `DisjointSets.HalvingKeepsForest` | internal/merge/cluster.go:260-266 | pointing a node at its grandparent keeps every root and every rank falling toward it |
| `DisjointSets.JoinCarries` | internal/merge/cluster.go:268-293 | after a join the merged component carries the maximum score and the union of the signals of all its pairs |
| `Grouping.Sets` | internal/merge/cluster.go:118-138 | the result is the family of classes of the pairs in range: every place in one set, two places together just when connected, sets ascending and ordered by least element |
| `Grouping.GroupsDetermined` | internal/merge/cluster.go:118-138 | that description determines the result: two lists that meet it are equal, place by place, so it is the finest partition |
| `Scoring.Score` | internal/merge/score.go:61-69 | the two scoring branches add up to the specified score and signals |
| `Scoring.ReachesDefaultExactly` | internal/merge/score.go:61-110 | a pair scores sixty or more if and only if the kinds agree, neither record is empty, and it shares a UID, or for events the moment under one title, or else an address or a number |
| `Scoring.SignalsExactly` | internal/merge/score.go:71-110 | each of the six signals is in the result if and only if its evidence is in the fields, and there is no other signal |
| `Scoring.PointsOfSignals` | internal/merge/score.go:14-31 | the points are those of the signals: sixty for each that identifies, thirty, twenty or ten for the names by their distance and length, twenty for the day |
| `Scoring.NameWeightMeans` | internal/merge/score.go:112-126 | thirty points up to one edit in a hundred letters, twenty below eleven, ten below twenty-one |
| `Scoring.ScoreSymmetric` | internal/merge/score.go:61-140 | score and signals do not depend on the order of the pair |
| `Scoring.SharesAny` | internal/merge/score.go:128-140 | true exactly when some non-empty value is in both lists |
| `Scoring.TakeNamePrefix` | internal/merge/fingerprint.go:149-158 | the loop takes the first letters of the name without its spaces |
| `Scoring.Buckets` | internal/merge/fingerprint.go:124-145 | the keys a record is filed under, in order |
| `Scoring.BucketsExactly` | internal/merge/fingerprint.go:124-145 | a key is among them if and only if it is the UID, an address, a number, the name prefix, or the second in which the start falls |
| `Scoring.NamePrefixMeans` | internal/merge/fingerprint.go:149-158 | the prefix is the letters of the shortest beginning of the name that has four, or of the whole name |
| `Scoring.BucketsLoseNothingExactly` | internal/merge/score.go:71-110 | two records of whatever score at or above a threshold share a bucket, for all records, exactly when the threshold is above fifty |
| `Clustering.BucketedEqualsExhaustive` | internal/merge/cluster.go:74-112 | above fifty, the joins made through buckets are the joins of the exhaustive comparison of all pairs |
| `Clustering.DefaultJoinsExactly` | internal/merge/cluster.go:45-106 | with no threshold set, two records are joined if and only if they are not skipped, comparable, and identified as one |
| `Clustering.JoinsExactly` | internal/merge/cluster.go:45-106 | with one set, if and only if they are not skipped and score that much |
| `Clustering.Clusters` | internal/merge/cluster.go:74-112 | for every threshold above fifty: exactly the connected components of two or more of the graph of all unskipped pairs that score enough, each with the highest score and the sorted union of signals of its pairs, in the sorted order |
| `Clustering.TryPair` | internal/merge/cluster.go:92-106 | one pair is scored once, skipped pairs join nothing, and the sets become those of one more pair |
| `Clustering.Collect` | internal/merge/cluster.go:295-317 | what is read off the union-find is the family of components |
| `Ordering.TextLeqExactly` | internal/merge/cluster.go:310-316 | the order signals are sorted in: one text begins the other, or has the lesser character at the first difference |
| `MergedPatches.DedupeValues` | internal/merge/vcard.go:113-132 | base first, then incoming, leaving out blanks and keys already seen |
| `MergedPatches.DedupeKeys` | internal/merge/vcard.go:113-132 | one value for each key, and every key that was not seen |
| `MergedPatches.MergedPatch` | internal/merge/vcard.go:50-98 | refused exactly when something is no card; else one operation for each mergeable name, over all names in sorted order; what they come to is MergeExactly |
| `MergedPatches.AcceptedExactly` | internal/merge/vcard.go:83-92 | applying the patch is accepted if and only if no repeatable property of the target, carried by another card too, is blank throughout |
| `MergedPatches.BlankNumbersAreRefused` | internal/merge/vcard.go:83-92 | two cards with VERSION and UID whose only number is blank: the patch carries no value and is refused whole |
| `MergedPatches.AppliedMerge` | internal/merge/vcard.go:50-98 | carrying the patch out leaves under every name exactly what the merge says |
| `MergedPatches.MergeExactly` | internal/merge/vcard.go:50-132 | under every name: as it was for what the server maintains, what no other card has, and what is there and not repeatable; what the target lacks is the first value of each usable key of the other cards, in card order; a repeatable property is the first of each key of the target and then the others, unless it has as many values already |
| `MergedPatches.CoveredExactly` | internal/merge/vcard.go:50-98 | every usable key of every other card is in the result, except exactly for what the server maintains, a non-repeatable property that stood there, and where the lengths agreed |
| `MergedPatches.MergeLosesNothing` | internal/merge/vcard.go:33-98 | every key the target had it still has; UID, VERSION, PRODID, REV and each existing non-repeatable property keep their exact values |
| `MergedPatches.UnionInOrder` | internal/merge/vcard.go:83-132 | a repeatable property becomes the target's own values and then those nobody had yet |
| `MergedPatches.CoverageExactly` | internal/merge/vcard.go:87 | the comparison of lengths: a repeatable property is left alone exactly when as many new keys come in as blanks and repeats would go, and only then can a key be missed |
| `MergedPatches.RepeatedNumberHidesNew` | internal/merge/vcard.go:87 | for any two numbers that compare as different: a target that has one of them twice, merged with a card that has the other, gets an empty patch and not the new number |
| `MergedPatches.SecondMergeIsEmpty` | internal/merge/vcard.go:50-98 | merging the same cards into the result again gives an empty patch |
| `Patches.Object.Apply` | internal/model/patch.go:176-238 | refused exactly when an operation is bad or there is nothing to patch, and then nothing changes; else each property is what the last operation on it left, and the rest of the object is the same |
| `Patches.CheckedExactly` | internal/model/patch.go:176-204 | an operation is turned down exactly for a name that is none, for VERSION or UID, or for setting no value |
| `Patches.CanonicalMeans` | internal/model/patch.go:242-258 | a name is trimmed, in upper case, letters, digits and hyphens, neither BEGIN nor END, and its own canonical form |
| `Patches.StoredExactly` | internal/model/patch.go:68-92 | stored values are the given ones in order, with text and parameters as they are |
| `Patches.UnnamedStays` | internal/model/patch.go:173-238 | a property no operation names keeps its exact values |
| `Patches.LastOneWins` | internal/model/patch.go:207-236 | a named property has what the last operation on it gave, whatever was there |
| `FanOut.Task.Begin` | internal/fanout/fanout.go:252-273 | the fields after it are those of the section the protocol steps with: the source opens, or is interrupted when the task is cancelled; what that means for a whole run is in FanOutProtocol |
| `FanOut.Task.Finish` | internal/fanout/fanout.go:275-311 | the fields after it are those of the section: verdict, items and settling, with the late and cancelled cases; its meaning is in QuiescentIsSettled and ExactBeforeCeiling |
| `FanOut.Task.WatchCeiling` | internal/fanout/fanout.go:337-364 | the ceiling marks exactly the open sources timed out, and settles |
| `FanOut.Task.Retry` | internal/fanout/fanout.go:367-395 | the fields after it are those of the section, and it is accepted exactly for a terminal source of a task that is not cancelled; its meaning is in AlwaysInv and StepsAreBounded |
| `FanOut.Task.Cancel` | internal/fanout/fanout.go:399-412 | cancel computes its section, and does nothing the second time |
| `FanOut.Task.TakeSnapshot` | internal/fanout/fanout.go:476-515 | the snapshot loop gathers the specified counts, one row for each source in order, and the sorted items |
| `FanOut.SnapshotItems` | internal/fanout/fanout.go:476-515 | the items are the sources' items sorted by key, as a permutation, equal keys in source order |
| `FanOut.RowsAre` | internal/fanout/fanout.go:487-496 | the rows are the sources in the order they were chosen, each with its own state, count, attempt, reason and duration |
| `FanOut.RowsAddUp` | internal/fanout/fanout.go:487-508 | the counts of the rows add up to the number of records |
| `FanOut.RowIsClose` | internal/fanout/fanout.go:495 | a shown duration is within half a millisecond of the true one |
| `FanOutProtocol.AnswerOrderDoesNotMatter` | internal/fanout/fanout.go:230-334 | any two behaviours of any interleaving over the same sources, whose sources give the same answers, show the same list of items once all have answered before the ceiling |
| `FanOut.SnapshotCounts` | internal/fanout/fanout.go:476-554 | sources that have answered and open sources add up to the total, and Percent is in 0..100, 100 just when none is open |
| `FanOutVerdicts.VerdictsExactly` | internal/fanout/fanout.go:252-412 | in every state of every interleaving: each of the seven states of a source if and only if the last thing that moved it was of the matching kind; Done and Empty by its answer, with its items; Error with the reason of the failure; Timeout and Cancelled in their exact cases; with time, cache flag and number of attempts |
| `FanOutVerdicts.SnapshotTells` | internal/fanout/fanout.go:476-515 | the page counts as failed exactly the sources that broke or came too late, and as open exactly those asked or waiting |
| `FanOutVerdicts.CachedAndPercent` | internal/fanout/fanout.go:501-554 | shown as cached are the sources that stopped without failing and came from a cache; the bar is the share of stopped ones, rounded down |
| `FanOutVerdicts.ClockMoves` | internal/fanout/fanout.go:315-334 | the elapsed time is taken when the last open source closes, stands, and starts anew only with an accepted retry |
| `FanOutVerdicts.OpenedExactly` | internal/fanout/fanout.go:178-215 | a task has the named sources, each where it first stands |
| `FanOutProtocol.AlwaysInv` | internal/fanout/fanout.go:178-412 | in every behaviour of every interleaving each open source is served by a live run, and the counts are consistent |
| `FanOutProtocol.QuiescentIsSettled` | internal/fanout/fanout.go:178-412 | when every run and the watcher have returned, all sources are terminal, in-flight is 0 and the elapsed time is settled |
| `FanOutProtocol.NeverStuck` | internal/fanout/fanout.go:230-248 | a system that is not quiescent has an enabled step of its own |
| `FanOutProtocol.RunsMoveOnTheirOwn` | internal/fanout/fanout.go:230-248 | while runs are live one of them can move without any caller |
| `FanOutProtocol.StepsAreBounded` | internal/fanout/fanout.go:178-412 | apart from the calls of Retry and Cancel, a behaviour has at most as many steps as its first state has work, and three more for each retry |
| `FanOutProtocol.CancelIsFinal` | internal/fanout/fanout.go:252-412 | after a cancel no source is ever open again, in every later state |
| `FanOutProtocol.CancelSettles` | internal/fanout/fanout.go:399-412 | right after a cancel all sources are terminal, in-flight is 0 and the time is settled |
| `FanOutProtocol.ExactBeforeCeiling` | internal/fanout/fanout.go:252-334 | before the ceiling, in-flight equals the number of open sources |
| `FanOutProtocol.SweepWithinParallel` | internal/fanout/fanout.go:195-248 | never more runs hold a slot than the parallel limit |
| `FanOutProtocol.RunningMeansOpen` | internal/fanout/fanout.go:476-515 | a snapshot that says running has an open source |
| `FanOutProtocol.BeginKeepsCountExactly` | internal/fanout/fanout.go:252-273 | after the ceiling a begin keeps the count exact if and only if the task is cancelled or the source was open |
| `FanOutProtocol.UndercountAfterCeiling` | internal/fanout/fanout.go:233-273 | a behaviour that ends with an open source and in-flight 0 |
| `Registry.TaskRegistry.Start` | internal/fanout/registry.go:55-72 | the sweep, the new entry and the trimming of its session, on consistent indexes with at most four tasks to a session; the new task is filed, young and last of its list, nothing stale is left, and of other sessions nothing else is gone |
| `Registry.LastFourStay` | internal/fanout/registry.go:159-173 | of a list that is too long exactly the last four stay |
| `Registry.TaskRegistry.Cancel` | internal/fanout/registry.go:87-97 | the task of that session is dropped and settled, others stay |
| `Registry.TaskRegistry.CancelSession` | internal/fanout/registry.go:101-114 | every task the session had is dropped and settled |
| `Registry.TaskRegistry.Sweep` | internal/fanout/registry.go:137-156 | exactly the stale tasks go and are settled, and their number is reported |
| `Registry.TaskRegistry.DropLocked` | internal/fanout/registry.go:176-194 | one identifier leaves both indexes, the others keep their order |
| `Registry.CancelStops` | internal/fanout/registry.go:196-200 | a cancelled task has no open source, nothing in flight and a settled time |
| `Registry.StartCancelsAllItDropsExactly` | internal/fanout/registry.go:55-72 | Start cancels every task it drops if and only if its own sweep finds nothing stale |
| `Registry.StaleTaskIsLeft` | internal/fanout/registry.go:55-72 | a session with one stale task: the next Start forgets it and does not cancel it |
| `Registry.MinusConsistent` | internal/fanout/registry.go:159-194 | removing any tasks keeps the two indexes consistent |
| `CacheEviction.EvictedIsUnder` | internal/session/cache.go:361-372 | what an eviction leaves is under every ceiling of the session |
| `CacheEviction.NothingToEvict` | internal/session/cache.go:361-372 | a session under its ceilings loses nothing |
| `Recency.FitIsLongest` | internal/session/cache.go:361-372 | what the loops keep is the longest most-recent prefix that fits, by count and by bytes |
| `SessionCache.Cache.Evict` | internal/session/cache.go:361-417 | bodies, thumbnails and collections are each cut to their longest most-recent prefix, bodies going with their collection; lists and counters stay true |
| `SessionCache.Cache.DropCollection` | internal/session/cache.go:399-417 | the collection and exactly its bodies go, in place, and the counters follow |
| `SessionCache.Cache.PutBody` | internal/session/cache.go:300-326 | what is held of that key afterwards is that body, every other key still held has its old bytes, and nothing else is changed; where it fits, it is held and nothing goes; the session is cut to its ceilings, then the process to its own; everything in every cache stays sound |
| `SessionCache.ReadBack` | internal/session/cache.go:300-349 | a body that was put is what is read afterwards, or nothing; and nothing only when it did not fit |
| `SessionCache.Cache.GetBody` | internal/session/cache.go:329-349 | the body held, or none; a hit moves body and collection to the front of their lists and changes nothing that is held |
| `SessionCache.Cache.SetETags` | internal/session/cache.go:269-296 | what is held of that collection afterwards is that tag and map, the others are as they were; where it fits, it is held and nothing goes; and the ceilings are met |
| `SessionCache.Cache.GetETags` | internal/session/cache.go:249-265 | the map held, or none; the collection moves to the front |
| `SessionCache.Cache.InvalidateCollection` | internal/session/cache.go:155-165 | the collection goes, nothing else is evicted anywhere |
| `SessionCache.Cache.Wipe` | internal/session/cache.go:136-149 | the cache is empty and off the budget, the others are untouched |
| `SessionCache.Cache.PutThumb` | internal/session/thumb.go:27-48 | refused without an ETag or bytes; else what is held under that key is that thumbnail, the others are as they were; where it fits, it is held and nothing goes; and the ceilings are met |
| `SessionCache.Cache.GetThumb` | internal/session/thumb.go:51-66 | the thumbnail under that ETag, or none; a hit moves it to the front |
| `SessionCache.Budget.Set` | internal/session/budget.go:66-74 | the book is true again, the total is at most the ceiling, and the eviction across sessions is as specified |
| `SessionCache.Budget.EvictUntilUnder` | internal/session/budget.go:88-122 | the loop ends, under the ceiling, having made an eviction as specified |
| `SessionCache.Budget.Adjust` | internal/session/budget.go:76-86 | one entry of the book moves and the total by the difference; that the total is then what is held is TotalIsHeld |
| `SessionCache.Cache.PeekVictim` | internal/session/cache.go:419-436 | the offer of this session: its oldest body, else its oldest thumbnail (BudgetState.OfferMeans); that taking the least of all offers is right is BestEvicts |
| `BudgetState.TotalIsHeld` | internal/session/budget.go:76-86 | the total equals the bytes really held over all caches |
| `BudgetState.DropsExactlyTheOldest` | internal/session/budget.go:88-122 | with no empty bodies, what is kept is exactly what is newer than one point of the recency order merged across all sessions |
| `BudgetState.ThumbsGoLast` | internal/session/budget.go:88-122 | no thumbnail goes while any session holds body bytes |
| `BudgetState.BestEvicts` | internal/session/budget.go:100-120 | dropping the best victim keeps the eviction exact: one cut-off in the merged order, and the newest thing dropped was needed |
| `CacheState.WithBodyWf` | internal/session/cache.go:300-326 | storing a body keeps the three lists duplicate-free enumerations, sequence numbers falling and counters true |
| `CacheState.FrontIsRecentRef` | internal/session/cache.go:456-471 | shifting the slice in place brings the one reference to the front |
| `SymbolicCrypto.RecoveryIsExact` | internal/crypto/escrow.go:140-170 | a deposited key comes back with the master password and with no other |
| `SymbolicCrypto.MasterChangeKeepsCopies` | internal/crypto/escrow.go:117-136 | a new master password opens every copy to the key it opened to before |
| `KeySchedule.Rewritten` | internal/store/users.go:170-257 | rewriting one account soundly keeps the whole invariant, other accounts included |
| `KeySchedule.Remastered` | internal/store/escrow.go:104-122 | changing the master password keeps the invariant of all accounts |
| `KeySchedule.Issued` | internal/store/users.go:266-310 | giving a session one account's key touches no other account and no unconfirmed one |
| `KeySchedule.WriteKeepsSecretsExactly` | internal/store/accounts.go:76-92 | a write of secrets keeps them readable by their owner if and only if it uses the account's key or there is already something sealed, in which case it is refused |
| `KeySchedule.HeldKeyHidesSecrets` | internal/store/accounts.go:76-92 | a write to empty secrets with any key but the account's: it is accepted, opens with that key, and not with the account's |
| `AccountStore.Store.Commit` | internal/store/store.go:179-195 | all or nothing: the new state is there only if it was written |
| `AccountStore.Store.SetCredentials` | internal/store/users.go:170-209 | a password verifier, a wrapped fresh key and, just while escrow is on, a copy that recovers that key; the two salts differ |
| `AccountStore.Store.RewrapDEK` | internal/store/users.go:232-257 | new credentials around the same key |
| `AccountStore.Store.Authenticate` | internal/store/users.go:266-310 | succeeds exactly for the current password of an enabled, confirmed account, and returns that account's key |
| `AccountStore.Store.CreateFirstAdmin` | internal/store/users.go:58-99 | succeeds exactly when there is no administrator and the login is free; the new account alone is added, with that login, address and password, an administrator with nothing to change; which error, exactly |
| `AccountStore.Store.CreateUser` | internal/store/users.go:104-142 | succeeds exactly when the login is free; the new account alone is added, with that login, address and role, signs in with the temporary password and must change it; which error, exactly |
| `AccountStore.Store.Register` | internal/store/register.go:18-88 | succeeds exactly when registration is open and the login is free or an unconfirmed account of the same address; a new account is an ordinary user that waits for its link, at that address and until that time; an old one gets new credentials and a new link and nothing else |
| `AccountStore.Store.ConfirmEmail` | internal/store/email_change.go:67-110 | refused exactly when no account has the link with an address pending and unexpired; else that account alone is confirmed with that address, and no key moves |
| `AccountStore.Store.ChangePassword` | internal/store/users.go:344-377 | succeeds exactly with the current password; the data key, the secrets and the copy stay |
| `AccountStore.Store.ResetPassword` | internal/store/users.go:383-413 | refused exactly when a copy is deposited; else the account has a key nobody ever held, no secrets, a password to change, a copy just while escrow is on, and is otherwise as it was |
| `AccountStore.Store.RecoverUser` | internal/store/escrow.go:207-254 | succeeds exactly with the master password and a deposited copy; only the way to the key changes, the secrets and the copy stay |
| `AccountStore.Store.EscrowOptIn` | internal/store/escrow.go:128-169 | succeeds exactly with the account's own password, while active and not yet deposited |
| `AccountStore.Store.EscrowOptOut` | internal/store/escrow.go:174-195 | the copy goes and nothing else |
| `AccountStore.Store.EnableEscrow` | internal/store/escrow.go:34-53 | only the first key pair is accepted |
| `AccountStore.Store.ResumeEscrow` | internal/store/escrow.go:60-82 | asks for the master password and changes the switch alone |
| `AccountStore.Store.ChangeEscrowMasterPassword` | internal/store/escrow.go:104-122 | succeeds exactly with the current master password; the public key, the switch and every account stay, and every copy still recovers its key |
| `AccountStore.Store.UpdateSecrets` | internal/store/accounts.go:209-232 | with any key a session was given: refused exactly when the key does not open what is there or the change refuses; else the text is replaced by the caller's change of it, and the invariant of all accounts holds afterwards if and only if the key is the account's current one |
| `AccountStore.Store.SetDisabled` | internal/store/users.go:417-444 | refused exactly for the only active administrator, so one always remains |
| `AccountStore.Store.SetRole` | internal/store/users.go:448-475 | refused exactly for demoting the only active administrator |
| `AccountStore.Store.DeleteUser` | internal/store/users.go:521-548 | refused exactly for the only active administrator; else that record alone goes |
| `AccountStore.Store.IsLastActiveAdmin` | internal/store/users.go:644-655 | true exactly when no other account is an active administrator |
| `AccountStore.SignInOpensSecrets` | internal/store/users.go:214-226 | in every reachable state the current password opens what the account last wrote |
| `Fold.FoldLines` | internal/model/fold.go:21-33 | the loops write the folded form of each line |
| `Fold.WriteFolded` | internal/model/fold.go:35-50 | one line is cut at boundaries, 75 octets and then 74 |
| `Fold.UnfoldUndoesFold` | internal/model/fold.go:21-50 | unfolding gives the input back, with its last line ended, if and only if no line but the first starts with white space |
| `FoldedText.FoldedTextIsFine` | internal/model/fold.go:15-63 | of valid UTF-8, every physical line is at most 75 octets and is valid UTF-8 by itself |
| `FoldedText.LinesOfTextAreTight` | internal/model/fold.go:35-63 | no line is cut before it has to be: a part that is followed by another lacks at most three octets of what it may hold, and a line of 75 octets is left as it is |
| `SplitCalendar.SplitByComponent` | internal/model/icals.go:87-135 | the calendar itself for one group; else one resource for each group, in order of appearance |
| `SplitCalendar.TimezonesUsedBy` | internal/model/icals.go:140-166 | exactly the zone names that occur anywhere in the trees, once each |
| `SplitCalendar.ResourceHolds` | internal/model/icals.go:114-133 | a resource holds exactly its group in order, and exactly the defined zones that are named in it |
| `SplitCalendar.EntriesExactly` | internal/model/icals.go:94-112 | the entries are exactly the events, tasks and journals among the children, in order |
| `SplitCalendar.MembersExactly` | internal/model/icals.go:98-112 | the members of a group are exactly the entries of its key, in order |
| `SplitCalendar.OrderExactly` | internal/model/icals.go:108-111 | the groups come in the order of their first entries |
| `SplitCalendar.ZonesExactly` | internal/model/icals.go:96-97 | a zone name stands for the last definition that has it |
| `SplitCalendar.ZonesUsedExactly` | internal/model/icals.go:140-166 | a zone is named if and only if some component, however deep, has it in a parameter of a property |
| `SplitCalendar.NothingLostNorDoubled` | internal/model/icals.go:87-135 | the resources together hold every entry once |
| `SplitCalendar.SharesByUidExactly` | internal/model/icals.go:102-112 | two entries share a resource just when they share a UID, for all pairs, if and only if no UID equals the name made up for an entry without one |
| `SplitCalendar.MadeUpNameClashes` | internal/model/icals.go:102-117 | two entries, the first named as the second one would be called: they form one group, and nothing is split |
| `SplitCalendar.OrdinaryUidsNeverClash` | internal/model/icals.go:106-109 | no UID that lacks the made-up prefix clashes |
| `YamlScalars.UnescapeUndoesEscape` | internal/model/markdown.go:387-399 | the two replacements undo the two of writing, for every text of backslashes and quotes |
| `YamlScalars.UnquoteUndoesScalar` | internal/model/markdown.go:387-399 | a written scalar reads as its value with line breaks flattened |
| `YamlScalars.ScalarIsNeat` | internal/model/markdown.go:553-565 | a scalar is one line with no space about it, whatever the value |
| `YamlScalars.FlatOfOneLine` | internal/model/markdown.go:554-555 | a value on one line is not changed by the flattening |
| `Markdown.RenderMarkdown` | internal/model/markdown.go:50-99 | what the buffer ends up holding |
| `FrontMatter.ParseMarkdown` | internal/model/markdown.go:189-216 | reads fences, front matter and body line by line |
| `FrontMatter.MarkdownNote.ReadFrontMatter` | internal/model/markdown.go:256-278 | the fields after all lines |
| `FrontMatter.MarkdownNote.AppendExtra` | internal/model/markdown.go:338-354 | an unprotected property joins those of its canonical name |
| `MarkdownRoundTrip.FrontRead` | internal/model/markdown.go:256-336 | reading the front matter that was written gives every field back |
| `MarkdownRoundTrip.DedupedMeans` | internal/model/markdown.go:508-519 | a list holds each trimmed, non-blank item once |
| `MarkdownRoundTrip.NeatListComesBack` | internal/model/markdown.go:508-519 | a list of trimmed one-line items, none twice, is not changed by writing and reading |
| `MarkdownRoundTrip.RelationsComeBackExactly` | internal/model/markdown.go:305-330 | such relations come back as they were if and only if all of them are to parents |
| `MarkdownFile.CloseFinds` | internal/model/markdown.go:236-250 | the closing fence is found after exactly the lines written, whatever values they hold |
| `MarkdownFile.ParseOfRender` | internal/model/markdown.go:50-99 | every note with a title to show, read back from its file, is itself up to flattening in front matter and outer white space of the body |
| `MarkdownFile.ExtraIsKept` | internal/model/markdown.go:338-354 | every unprotected property comes back under its name with all its values in order |
| `MarkdownFormat.ScalarExactly` | internal/model/markdown.go:553-565 | a value stands bare exactly when it holds no indicator, no outer space and does not begin like a list; else in quotes, each backslash and quote behind a backslash |
| `MarkdownFormat.FileExactly` | internal/model/markdown.go:50-99 | the file is fence, fields in their order, fence, blank line, body, and nothing else |
| `MarkdownFormat.DedupedExactly` | internal/model/markdown.go:508-519 | a list holds each trimmed, non-blank item where it first stands |
| `MarkdownFormat.NamesAreTaken` | internal/model/markdown.go:291-320 | the other names of title and date fill the same fields |
| `MarkdownFormat.ListNamesAreTaken` | internal/model/markdown.go:299-309 | the other names of tags, relations and attachments fill the same lists |
| `MarkdownFormat.BracketsAreTaken` | internal/model/markdown.go:374-385 | words on one line, between brackets or not, are the list of them |
| `MarkdownFormat.CommentsArePassedOver` | internal/model/markdown.go:263-266 | blank lines and comments change nothing |
| `MarkdownFormat.SingleQuotes` | internal/model/markdown.go:387-399 | a value between single quotes is what is between them |
| `DuplicateDecisions.Duplicates.Decide` | internal/account/duplicates.go:231-263 | which error, exactly and in which order; a bad verdict, kind or membership changes nothing; else the members leave their groups and form a new one with the identifier, the kind, the verdict and the preferences given, and the groups stay disjoint with two or more members; when no identifier can be made, the members have left and no group is added |
| `DuplicateDecisions.Duplicates.SetField` | internal/account/duplicates.go:266-295 | the first group of that identifier has the preference set or taken away, and nothing else changes |
| `DuplicateDecisions.FieldsDeterminedExactly` | internal/account/duplicates.go:258-295 | all orders of walking the given preferences lead to the same group if and only if names that fold to one carry one value |
| `DuplicateDecisions.LastNameDecides` | internal/account/duplicates.go:258-295 | of the names that fold to one, the last one set decides: its value stands, or nothing when it is blank |
| `DuplicateDecisions.Duplicates.Release` | internal/account/duplicates.go:315-339 | exactly those members leave, groups of fewer than two dissolve |
| `DuplicateDecisions.Duplicates.Prune` | internal/account/duplicates.go:348-374 | as release, for members that are gone; reports exactly whether any was |
| `DuplicateDecisions.Duplicates.Remove` | internal/account/duplicates.go:299-311 | the first group of that identifier goes whole |
| `DuplicateDecisions.Duplicates.PurgeCollection` | internal/account/duplicates.go:377-385 | every member of the collection leaves, and whether any did is reported |
| `DuplicateDecisions.Duplicates.Find` | internal/account/duplicates.go:173-181 | the group that has the member, or none |
| `DuplicateDecisions.Duplicates.IsIgnored` | internal/account/duplicates.go:216-224 | exactly whether the two share a group decided against |
| `DuplicateDecisions.NormalizeMembers` | internal/account/duplicates.go:387-403 | usable members, one for each key, sorted by key |
| `DuplicateDecisions.ThinKeepsOthers` | internal/account/duplicates.go:315-374 | two members that stay share a group of a verdict afterwards if and only if they did before |
| `DuplicateDecisions.ThinExactly` | internal/account/duplicates.go:315-374 | a group stays if and only if two of its members do, with everything it had but the others, and the groups stay in order |
| `DuplicateDecisions.DecisionErrorsExactly` | internal/account/duplicates.go:231-257 | what a decision is refused for, each in its exact case |
| `DuplicateDecisions.NormalPathMeans` | internal/account/views.go:152-164 | a path has a slash at either end however it was written, and that form is left alone |
| `DuplicateDecisions.KeyTellsApart` | internal/account/duplicates.go:50-52 | without bars in account and path, two members have one key if and only if account, path and UID agree |
| `DuplicateDecisions.BarsConfuse` | internal/account/duplicates.go:50-52 | two members of different accounts with one key |
| `DuplicateDecisions.PurgedExactly` | internal/account/duplicates.go:377-385 | exactly the members of that collection are purged, under any spelling of its path |
| `DuplicateDecisions.DecidedAreTogether` | internal/account/duplicates.go:231-263 | each named member is in a group if and only if it is the new one |
| `DuplicateDecisions.DecisionSparesOthers` | internal/account/duplicates.go:231-263 | any two others stand as they stood |
| `CalendarProvider.Provider.Multiget` | internal/provider/calendar/provider.go:196-237 | every path ends up among the objects or the failures; every object is the version the server stored under its tag, unless tag and body of it were once read across a write of a different body, and then a later version; and when the tags are current and nobody writes meanwhile, objects and failures equal those of an uncached read, in the order of the paths, whatever was evicted |
| `CalendarProvider.ObjectsExactly` | internal/provider/calendar/provider.go:229-236 | the objects of an uncached read are those behind the named paths that have one, in the order of the paths |
| `CalendarProvider.FailuresExactly` | internal/provider/calendar/provider.go:207-228 | the failures are the named paths without one, in order |
| `CalendarProvider.OneExactly` | internal/provider/calendar/provider.go:246-264 | an object is read exactly when the current version is one, under the tag of that version |
| `CalendarProvider.Provider.MultigetBatch` | internal/provider/calendar/provider.go:239-267 | one request: the objects as they are, and as failures exactly the paths without one, both in order |
| `CalendarProvider.Provider.GetDirect` | internal/provider/calendar/provider.go:290-310 | an object exactly when both requests are answered and a readable body is there; its tag is that of the first history, its body that of the second, and it is its tag's version if and only if these two have the same body |
| `CalendarProvider.Provider.Get` | internal/provider/calendar/provider.go:269-288 | the object with a tag that is current at the call or later; at most one pair is torn, and only by a write in between |
| `CalendarProvider.CachedIsCurrent` | internal/provider/calendar/provider.go:424-429 | a cached body under the current tag is the current body, even if it was read in a race |
| `Versions.TagAndBodyAgreeExactly` | internal/provider/calendar/provider.go:290-310 | for all histories at the tag and at the body: the body read is stored under the tag read if and only if the two current bodies are equal |
| `Versions.TagAndBodyCanPart` | internal/provider/calendar/provider.go:290-310 | two legal histories, one a continuation of the other, between which tag and body part |
| `CalendarProvider.Provider.Update` | internal/provider/calendar/write.go:62-77 | refused exactly without a path or a version; a conflict exactly when the answer is a failed precondition, and then the tag was not the current one; if written, the new version stands right on the version the object was read at |
| `CalendarProvider.Provider.Create` | internal/provider/calendar/write.go:41-60 | refused exactly without a UID; a conflict exactly when the answer is a failed precondition, and then something was there; if written, at its own path or the default one, nothing was there |
| `CalendarProvider.Provider.Delete` | internal/provider/calendar/write.go:122-138 | refused exactly without a path or a version; a conflict exactly when the answer is a failed precondition, and then the tag was not the current one; if done, the deletion stands right on that version and the cache is dropped |
| `CalendarProvider.Provider.Write` | internal/provider/calendar/write.go:79-120 | written, conflict or failed if and only if the answer was stored, precondition failed or failed; a conflict means the precondition did not hold of what was there, that this request stored nothing, and carries what was sent and what was read again after it; the tag in the result names the version written or a later one; a result is verified only when it was read back in the same kind, and otherwise it is what was sent |
| `CalendarProvider.Provider.ConflictAt` | internal/provider/calendar/write.go:140-147 | the cache is dropped, and the conflict carries what the server holds now or later |
| `CalendarProvider.Provider.EditAndUpdate` | internal/provider/calendar/write.go:62-120 | read, patched and written beside any other clients: refused exactly for a bad patch, no path or no version; what is sent has each property as the last operation on it leaves; an accepted write is that edit of the version it was read from, and nothing else of the object; a conflict exactly when the answer is a failed precondition |
| `CalendarProvider.AcceptedEditIsClean` | internal/provider/calendar/write.go:62-120 | an accepted version differs from its immediate predecessor in the properties its patch names alone: the other components and the calendar around them are the same |
| `Versions.UntouchedThroughout` | internal/model/patch.go:173-238 | a property no accepted patch names keeps its exact values through the whole run |
| `Versions.RestThroughout` | internal/model/patch.go:173-238 | everything around the edited component is the same after any number of accepted edits, whatever they name |

## Left out

- Clusters: the equality with the comparison of all pairs is for thresholds above fifty, which is exactly where it holds (BucketsLoseNothingExactly); record names, addresses and numbers come already normalised, as FingerprintContact leaves them.
- PhoneKey, phoneDigits, NormalizeName and BirthdayKey are not modelled: they clean single values and would add only easy members.
- DetectContacts and the other front ends of the clustering are lists of fields and are not modelled.
- MergedPatch: how two values compare (valueKey) is a parameter, so the results hold for every folding; card names are taken as the decoder delivers them, canonical or no property names at all.
- Object.Apply: parameter names are taken in upper case, as every constructor leaves them; upper-casing covers the characters whose upper case is ASCII, which are the only ones a name can hold.
- FanOutProtocol: each critical section is one step and time is a number; fairness, real-time bounds and the notifications of subscribers are not modelled.
- TaskRegistry.Start: requires that the random identifier is not in use, and the clock is a parameter; the error of a failing Start of the task is not told apart from no task.
- Cache: one flat map from collection and path to body stands for the nested maps, each public operation is one step, and a cache is bound to its budget when it is made.
- Cache.GetBody and the other reads: bodies are values, so the copies the source makes are not modelled; NeedsRefresh and the read times of collections are left out.
- Budget: the total is a number without width.
- SymbolicCrypto: ciphertexts, derived keys and agreements are symbolic constructors; collisions, weak parameters and failing randomness are not modelled.
- Store: invitations, display preferences, the audit log and the syntax of logins and addresses are left out; passwords are counted in characters.
- Store.UpdateSecrets: the key is one that was issued at some sign-in, as no request has another.
- Store.Register: the token is a fresh name and stands for its digest.
- FoldLines: octets, without the encoder before it.
- SplitByComponent: the zones of one resource come in some order, as ranging over a map gives them; parsing the stream before it is left out.
- RenderMarkdown: the display title, the text of the date and the attachment links are inputs.
- ParseMarkdown: files that have front matter naming their title; titles and dates taken from headings, file names and times are left out, the date is the text handed to the time parser, and the limit of the line scanner is not modelled. Related entries are identifiers; reading takes each for a parent (RelationsComeBackExactly).
- ExtraIsKept: parameters and groups of these properties are not written by the source and do not come back.
- Duplicates.Decide: field names are upper-cased as property names are, on the characters whose upper case is ASCII; Verdict compares joined key lists and is left out.
- Provider: one collection; path and tag are a pair, as the source's joined key is for paths without NUL; listing, the agenda query and the report of lost properties are left out. Bodies are parsed payloads, so writing and parsing a payload are taken as inverse.
- Provider.Multiget: servers with weak tags, or that ignore preconditions, are outside the model; the answer to a multiget has one response for each path, in order, with the tag of each body.
- Provider.Update: the explicit choice to overwrite is a new read with the server's tag, and is not a separate operation here.
- The contacts provider repeats the calendar algorithm and is not modelled a second time.
- HTTP, DAV transport, templates, the desktop shell, mail, configuration and image handling are not modelled.
