# Algorithms and protocols of the Codecov services

This project models the parts of the Codecov monorepo whose correctness cannot be read off any
single branch, and proves what they promise. `dafny verify dfyconfig.toml` checks all of it.

| file | what it models |
|---|---|
| `UnifiedDiff`, `Traversal`, `Visitors`, `Comparison` | the walk over a file comparison: hunks of a unified diff (POSIX.1-2017, `diff` utility, "Diff -u or -U Output Format"), the traverse manager that walks two line counters through them, and its two visitors |
| `WalkEnd`, `WalkedLines`, `Numbering`, `LaggingWalk`, `Segments`, `RoundTrip`, `ServedHeaders` | when the walk ends, which lines it shows and what the reports say about them, the line numbers that it gives out, also when one of its counters lags, the regrouping of its lines into padded segments, the way from served segments back to a walkable diff, and the headers of segments that do not show every line |
| `PathTrie`, `PathLookups`, `LookupExample`, `PathMap` | the reverse-component path tree: as a value, and on the heap with the lists that lookups pass on and extend in place |
| `Directories` | flat file paths grouped into a tree of directories with summed totals |
| `ArchiveFields` | a model field spread over a cache, a database column and an archive file |
| `CronTask`, `FlakeQueue` | two Redis protocols: a lock with a key that has a time to live, and a list drained under a lock |
| `Timeseries`, `TestRollups` | time bins and gap filling; running averages and the upsert that merges batches |
| `QueryValidation`, `AncestorSearch` | GraphQL rules with counters; the search for a commit's parent, level by level |
| `Seats`, `Heads` | licence seats; the heads of pull requests and branches |

Code that changes state is a class or a loop here too. Each such method is tied by its `ensures` to
a function on values (`Traversal.Step`, `PathTrie.Inserted`, `PathTrie.Found`, `ArchiveFields.Got`,
`ArchiveFields.Assign`, `TestRollups.RowsAfter`, ...), and the main results are lemmas about runs of
these functions. Redis protocols are systems of steps that may interleave in any way.

## Findings

Some promises hold only under a condition. Each has a lemma with the exact condition and, where it
fails, an input.

- **Termination of the walk.** For any list of hunks and any state, it ends exactly when every hunk
  line is met in turn by one of the counters, no hunk without lines is met, and the source has the
  lines in between (`WalkEnd.EndsExactlyWhen`). For hunks in order that is: each hunk line lies in
  the ranges of its header and the source has the lines between hunks (`FinishesExactlyWhen`). In
  all other cases it loops for ever or indexes past a list. A hunk with one line more than its
  header announces keeps it going (`LongHunkNeverEnds`).
- **Hunks that start at line 0.** The walker treats a start of 0 as a line number of its own, so the
  first unchanged line behind such a hunk gets a number that is one too small. For every unified
  diff, the walk ends with both files numbered from 1 exactly when the source is long enough and no
  hunk starts at line 0, or that hunk is the only one and nothing follows it
  (`UnifiedWalkExactlyWhen`; `ZeroStartMisnumbers` is an input that fails). Without source it always
  ends (`UnifiedWalkEnds`), and with source exactly when the source has every line that the walk
  without source visits between the hunks (`UnifiedWalkEndsExactlyWhen`).
- **Segment headers.** With the source loaded, the header of a segment as it is cut is right, and
  the round trip holds (`ServedSegmentsRoundTrip`). It can be wrong in two ways. First, visits
  without code, such as unchanged lines between hunks when there is no source, are left out. For any
  walk, the header is right on a side exactly when all its lines with a number on that side have
  equally many visits without code before them (`WalkedHeader`, `HeaderWithoutSourceFails`). For a
  unified diff without source that the counters follow, which leaves out those with a start of 0 and
  a further hunk, that means: exactly when these lines come from one hunk
  (`HeaderWithoutSourceExactlyWhen`). And when the query asks for segments without unintended
  changes, these are taken out of the segment before its header is computed: it is right on a side
  exactly when none of them lay between two remaining lines with a number on that side
  (`FilteredHeaderExactlyWhen`, `FilteredHeaderFails`).
- **Change summary.** Its documentation speaks of lines changed in the source code; the code skips
  every line that begins with `+` or `-`, in a hunk or not (`SummaryScope`,
  `SummaryMissesMaskedLine`). For any walk, it is the change over the unchanged code, whatever the
  reports say, exactly when no unchanged source line begins with one of them (`SummaryIsExactWhen`).
  A line type without a name, such as a skipped line, raises a `KeyError` and ends the walk (`Apply`).
- **Path lookups change the tree.** A lookup does so exactly when it ends at a node without paths,
  has passed one with paths, and a straight branch leads on to paths (`LookupChangesTreeExactlyWhen`).
  It can then change the answer to a later, unrelated lookup (`LookupChangesLaterAnswer`); any other
  lookup has no effect on anything later (`OtherLookupsDoNotMatter`). Inserted paths are always found.
- **Directory recursion.** For the files below any prefix, the top included, it ends exactly under
  the condition `Fits`: no leading slash at the top, and no file that is the prefix itself unless
  that has no slash; paths differ and none with a slash is a directory above another; and next to a
  file `a` without a slash there is no `a/a`, `a/a/a` and so on (`RecursionEndsExactlyWhen`).
- **Archive field.** A `None` that goes to the column after a storage write brings the old value
  back (`NoneShowsOldValue`). A falsy value that goes to the column is rehydrated at the next read
  without having been encoded, so it is read back exactly when that leaves it alone
  (`FalsyIsReadBackExactlyWhen`). A read that missed its file is repaired by the next one exactly when
  the default value is falsy.
- **Cron lock.** Two runs can be inside the lock together exactly when there is no hard time limit.
  A task without a limit that outlasts the lock's timeout also reports that it has not executed, and
  so hides an exception of its own work (`RunsAlone`).
- **Flake queue.** Entries are pushed and popped at the same end, so commits come in push order
  exactly when no pop ever finds more than one (`PushOrderExactlyWhen`); otherwise the newest is
  first.
- **Query depth.** The nesting that the depth rule measures is the depth of the query, whatever the
  fragments are, exactly when there are no fragment spreads (`NestingIsDepthExactlyWhen`), and for
  given fragments exactly when none of them reaches below the nesting from its spread
  (`NestingIsDepthOf`). So the rule puts no bound on the depth of a query with its fragments put in
  (`FragmentsEscapeDepthRule`).
- **Test rollups.** Within a batch the average is the mean of the durations exactly when no run
  before the last one is skipped; merging two batches keeps the weighted mean exactly when the
  stored row counts no run, the batch counts one, or both averages agree. Failing commits and flaky
  failures are taken from the first run of a test in a batch only.
- **Pull heads.** A head goes back in time exactly when a commit update replaces a newer head that
  is deleted (`StepGoesBackExactlyWhen`).

## Model

| member | source | states |
|---|---|---|
| Comparison.FileComparisonTraverseManager.constructor | apps/codecov-api/services/comparison.py:72-126 | the counters begin where the initial state of the walk says: at 1, or at 0 on a side whose first hunk starts at 0 |
| Comparison.FileComparisonTraverseManager.TraverseFinished | apps/codecov-api/services/comparison.py:128-133 | the end test is that of the walk on values: no hunks left and the source, or else both ends of file, passed |
| Comparison.FileComparisonTraverseManager.TraversingDiff | apps/codecov-api/services/comparison.py:135-151 | true exactly when either counter lies in the range that the first hunk's header announces, a blank count standing for 1 |
| Comparison.FileComparisonTraverseManager.PopLine | apps/codecov-api/services/comparison.py:153-158 | takes the next hunk line away inside a hunk; outside it gives the source line at the head counter, the last one for counter 0, or nothing without source |
| Comparison.FileComparisonTraverseManager.NextVisit | apps/codecov-api/services/comparison.py:170-180 | the visitors' arguments are those of the walk's step, although the diff test is repeated after the pop |
| Comparison.FileComparisonTraverseManager.MoveOn | apps/codecov-api/services/comparison.py:182-194 | with the pop before it, completes exactly one step of the walk on values |
| Comparison.FileComparisonTraverseManager.Apply | apps/codecov-api/services/comparison.py:160-194 | for every walkable input the loop ends, having made exactly the visits of the listing; the lines gained are those compared for them, the summary changed by the coverage change over unmarked lines and its values still sum to what they did; it fails exactly when some visit has an uncountable line type |
| Traversal.StepKeeps | apps/codecov-api/services/comparison.py:160-194 | each iteration keeps the state walkable, takes the first visit of the remaining listing, and uses up a hunk line or comes closer to the next hunk or the end |
| Traversal.Completes | apps/codecov-api/services/comparison.py:160-194 | every walkable state reaches the end in finitely many steps |
| Traversal.Stuck | apps/codecov-api/services/comparison.py:135-194 | a hunk with lines left behind both of its ranges is never left again |
| Traversal.Diverges | apps/codecov-api/services/comparison.py:160-194 | lines outside the announced ranges, or a source too short, keep the walk from its normal end for any number of steps |
| Traversal.FinishesExactlyWhen | apps/codecov-api/services/comparison.py:121-194 | for hunks in order, the walk ends normally if and only if header ranges cover the lines and the source has the lines in between |
| WalkEnd.EndsExactlyWhen | apps/codecov-api/services/comparison.py:121-194 | for every list of hunks and every state, with source or without, the walk ends normally if and only if each hunk line in turn is met by a counter, no hunk without lines is met, and the source has the lines in between; overlapping, unordered and miscounted hunks included |
| Traversal.VisitsAreListing | apps/codecov-api/services/comparison.py:160-194 | a walk that ends has made exactly the visits of the listing, hunk by hunk with the lines in between |
| Visitors.CreateLineComparisonVisitor.Call | apps/codecov-api/services/comparison.py:255-270 | appends one line for a visit with code, with its numbers and what each report has on its own side at that number, and nothing when there is no code |
| WalkedLines.LinesRecordVisits | apps/codecov-api/services/comparison.py:207-270 | one line is recorded for each visit with code, in order, with the report's element at number minus 1 on each side, and none beyond the report |
| WalkedLines.CoverageIsThatOfTheReports | apps/codecov-api/services/comparison.py:314-343 | for any walk: the coverage beside a line's base number `n` is what the base report says about line `n`, and the same of the head; without a number there is no coverage |
| Visitors.CreateChangeSummaryVisitor.UpdateSummary | apps/codecov-api/services/comparison.py:290-297 | moves one line from its base type to its head type and keeps the sum of hits, misses and partials; fails exactly when one of the types is none of these |
| Visitors.CreateChangeSummaryVisitor.Call | apps/codecov-api/services/comparison.py:299-310 | changes each count by head minus base over the visited line when it is unmarked and tracked on both sides, and fails exactly on uncountable types |
| Visitors.VisitMovesSummary | apps/codecov-api/services/comparison.py:299-310 | a visit whose value begins with neither `+` nor `-` and for which both reports have a line counts one more of the head type and one less of the base type; any other visit changes nothing |
| Visitors.SummaryScope | apps/codecov-api/services/comparison.py:273-310 | the summary is the coverage change over all unchanged code minus that over unchanged source lines that begin with `+` or `-` |
| Visitors.SummaryIsExactWhen | apps/codecov-api/services/comparison.py:299-301 | for the visits of any walk, the summary is the coverage change over the unchanged code for all reports if and only if no unchanged source line begins with `+` or `-` |
| Visitors.SummaryMissesMaskedLine | apps/codecov-api/services/comparison.py:299-301 | an unchanged source line `-x` that went from hit to miss is not in the summary |
| Visitors.SummaryWithoutSource | apps/codecov-api/services/comparison.py:299-310 | without source the summary is about exactly the unchanged code |
| Numbering.NumbersAreConsecutive | apps/codecov-api/services/comparison.py:325-330 | in a numbered list the numbers that are given on a side are consecutive and as many as its lines |
| Numbering.VisitsNumbered | apps/codecov-api/services/comparison.py:160-194 | any number of steps from any state, whatever the hunks are, number their lines one after the other on both sides, from where the counters stood |
| Numbering.WalkNumbersLines | apps/codecov-api/services/comparison.py:121-194 | for any hunks, state and number of steps, the non-None base numbers are consecutive from the base counter on, and so are the head numbers, as many as there are lines on that side |
| Numbering.HeadNumbersMatchSource | apps/codecov-api/services/comparison.py:112-194 | with a source, the head numbers are 1 to its length if and only if the hunks end inside it |
| Numbering.UnifiedWalkExactlyWhen | apps/codecov-api/services/comparison.py:121-194 | for every unified diff, the walk ends with both files numbered from 1 if and only if the source reaches all its hunks, and no hunk starts at line 0 or that hunk is the only one with nothing behind it |
| LaggingWalk.UnifiedWalkEnds | apps/codecov-api/services/comparison.py:121-194 | without source, the walk of every unified diff ends, also with a counter that lags behind a hunk that starts at line 0 |
| LaggingWalk.EndsWithSourceExactlyWhen | apps/codecov-api/services/comparison.py:128-158 | for any hunks for which the walk without source ends: with source it ends if and only if the source has every line visited between the hunks |
| LaggingWalk.UnifiedWalkEndsExactlyWhen | apps/codecov-api/services/comparison.py:121-194 | for every unified diff with source, also with a counter that lags, the walk ends if and only if the source has every line that the walk without source visits between the hunks |
| Numbering.ZeroStartMisnumbers | apps/codecov-api/services/comparison.py:121-188 | a new first line and a replaced fifth one: the walk ends, with number 4 for removed line 5 |
| Numbering.LongHunkNeverEnds | apps/codecov-api/services/comparison.py:135-194 | a hunk of two unchanged lines whose header announces one keeps the walk going for any number of steps |
| Numbering.VisitsHunkLinesInOrder | apps/codecov-api/services/comparison.py:153-180 | every hunk line is visited exactly once, in order and as part of the diff; every other visit has both counters and the source line at the head counter |
| WalkedLines.VisitsShowLines | apps/codecov-api/services/comparison.py:153-180 | for any number of steps of any walk: a visit outside the hunks with head number `m` shows the source's line `m`, or nothing without source; one inside shows a hunk line, without a base number exactly when it begins with `+` and without a head number exactly when it begins with `-` |
| WalkedLines.SourceIsShownInOrder | apps/codecov-api/services/comparison.py:99-158 | with source, what is shown outside the hunks are the source lines at the head numbers, in ascending order |
| WalkedLines.LinesBehindHunks | apps/codecov-api/services/comparison.py:128-133 | behind the last hunk there are as many visits as lines up to the end of the source, or without source up to the later of both ends of file |
| Segments.LineNumbers | apps/codecov-api/services/comparison.py:402-410 | the numbers, ascending, of exactly the lines whose coverage differs or that are changed lines of a hunk |
| Segments.SegmentedLines | apps/codecov-api/services/comparison.py:412-420 | splits the numbers, losing none, exactly where neighbours are more than the line distance apart |
| Segments.GroupsAreSegmentation | apps/codecov-api/services/comparison.py:402-432 | the groups formed by the loop satisfy the definition of a segmentation, which mentions no loop |
| Segments.FileSegments | apps/codecov-api/services/comparison.py:396-434 | the segments are the padded slices around the cores of a segmentation of the lines; none without lines |
| Segments.SegmentsCoverNeighbourhoods | apps/codecov-api/services/comparison.py:390-432 | a line is in some segment if and only if a line of interest is at most three lines away |
| Segments.SegmentsAreDisjoint | apps/codecov-api/services/comparison.py:390-432 | segments ascend and do not overlap |
| Segments.InterestIsInOneSegment | apps/codecov-api/services/comparison.py:390-432 | every line of interest is in exactly one segment |
| Segments.NeighboursShareSegment | apps/codecov-api/services/comparison.py:393-420 | neighbouring lines of interest share a core if and only if they are at most six lines apart |
| Segments.Segment.Header | apps/codecov-api/services/comparison.py:439-464 | starts are the first numbers on each side, or 0, and counts are the lines that each side has |
| Segments.Segment.HasDiffChanges | apps/codecov-api/services/comparison.py:470-475 | true if and only if some line is a line of a hunk that begins with `+` or `-` |
| Segments.Segment.HasUnintendedChanges | apps/codecov-api/services/comparison.py:477-484 | true if and only if some unchanged line changed its coverage |
| Segments.Segment.RemoveUnintendedChanges | apps/codecov-api/services/comparison.py:486-493 | leaves the intended lines, in order |
| Segments.IntendedKeepsTheRest | apps/codecov-api/services/comparison.py:486-493 | of every line all occurrences stay, or none when it is an unintended change |
| ServedHeaders.ServedExactlyWhen | apps/codecov-api/graphql_api/types/impacted_file/impacted_file.py:96-105 | without a filter every segment is served as it is; with unintended changes wanted, exactly those with an unchanged line whose coverage differs; with none wanted, exactly those with a changed line, less their unintended changes |
| ServedHeaders.PickedKeepsOrder | apps/codecov-api/graphql_api/types/impacted_file/impacted_file.py:96-105 | the segments that stay keep their order |
| RoundTrip.ListingShown | apps/codecov-api/services/comparison.py:153-158 | with the source at hand every visit has code |
| RoundTrip.ComparedLinesAreNumbered | apps/codecov-api/services/comparison.py:255-330 | with the source at hand the compared lines carry the kinds and numbers of the visits |
| RoundTrip.ContentsKeepKinds | apps/codecov-api/api/shared/compare/serializers.py:109-127 | serialized lines are added, removed or unchanged as the lines they show, so lengths on both sides agree |
| RoundTrip.ContentShowsCode | apps/codecov-api/api/shared/compare/serializers.py:112-116 | the code can be read back from a serialized line: a line of a hunk behind its mark and a space, any other behind a space |
| RoundTrip.HeaderIsCorrect | apps/codecov-api/services/comparison.py:439-464 | for a segment as it is cut from numbered lines, the numbers of its lines are exactly start to start + count - 1 on each side, and start where the counters stand before it |
| RoundTrip.SegmentsRetraceTheWalk | apps/codecov-api/services/comparison.py:396-464 | the hunks made from a whole file's segments satisfy the walker's own conditions, and walking them gives every line its kind and numbers back |
| RoundTrip.ServedSegmentsRoundTrip | apps/codecov-api/api/shared/compare/serializers.py:94-140 | from a unified diff and its source, through walk, comparison and segments, to hunks that retrace the original walk |
| RoundTrip.SegmentIsStretch | apps/codecov-api/services/comparison.py:422-432 | the lines of any segment are what was recorded for some stretch of the walk |
| RoundTrip.HeaderWithoutSourceFails | apps/codecov-api/services/comparison.py:439-464 | two one-line hunks eight lines apart, without source: the header would claim base lines 1 and 2, the lines are 1 and 9 |
| ServedHeaders.WalkedHeader | apps/codecov-api/services/comparison.py:255-464 | for any number of steps of any walk, with source or without, a header is right on a side if and only if all its lines on that side have equally many visits without code before them |
| ServedHeaders.HeaderWithoutSourceExactlyWhen | apps/codecov-api/services/comparison.py:255-464 | without source, for the walk of a unified diff that the counters follow, a header is right on a side if and only if all lines of the segment on that side come from one hunk |
| ServedHeaders.FilteredHeaderExactlyWhen | apps/codecov-api/services/comparison.py:439-493 | after unintended changes were removed from a segment, its header is right on a side if and only if none of them lay between two remaining lines with a number on that side |
| ServedHeaders.FilteredHeaderFails | apps/codecov-api/graphql_api/types/impacted_file/impacted_file.py:99-105 | an unchanged, an unintendedly changed and a removed line: after the filter the header claims base lines 1 and 2 for 1 and 3 |
| ServedHeaders.ResolveSegments | apps/codecov-api/graphql_api/types/impacted_file/impacted_file.py:94-107 | the segments that a query gets, in order, and the lines they are left with |
| PathMap.Tree.constructor | apps/worker/helpers/pathmap.py:88-91 | the new tree is that of inserting the paths one after the other |
| PathMap.Tree.Insert | apps/worker/helpers/pathmap.py:93-104 | adds the missing nodes for the lower-cased reversed components and one list entry; nodes and lists stay unshared |
| PathMap.Tree.Drill | apps/worker/helpers/pathmap.py:120-129 | finds the very list of the first node with paths down a straight branch, or none; the loop ends |
| PathMap.Tree.RecursiveLookup | apps/worker/helpers/pathmap.py:131-162 | result and changed tree are those of the lookup on values, in which extending the results changes the node that owns them |
| PathMap.Tree.Lookup | apps/worker/helpers/pathmap.py:164-183 | the answer and the tree afterwards are those of the lookup on values |
| PathMap.GetBestMatch | apps/worker/helpers/pathmap.py:30-41 | the loop finds the first most similar possibility |
| PathTrie.InsertedNodes | apps/worker/helpers/pathmap.py:93-104 | an insert adds exactly the nodes on the way and exactly one entry, at the end of the last node's list |
| PathTrie.SplitJoins | apps/worker/helpers/pathmap.py:94-97 | the components of a path are without slashes and joined by slashes they are the path |
| PathTrie.SameKeyExactlyWhen | apps/worker/helpers/pathmap.py:94-103 | two paths end at the same node if and only if their components agree in lower case |
| PathTrie.BestIsMostSimilar | apps/worker/helpers/pathmap.py:30-41 | the best match is one of the possibilities and none is more similar |
| PathTrie.BestIsFirst | apps/worker/helpers/pathmap.py:30-41 | of equally similar possibilities the best match is the first |
| PathTrie.ClosestIsClosest | apps/worker/helpers/pathmap.py:177-180 | with ancestors given, the choice is the first result whose length differs least from that number |
| PathTrie.RootedExactlyWhen | apps/worker/helpers/pathmap.py:177 | the path counts as absolute if and only if it has a slash with nothing but dots before it |
| PathTrie.ChoiceAmongSeveral | apps/worker/helpers/pathmap.py:173-183 | of several results, an absolute query with ancestors given gets the first whose length is closest to that number, any other query the most similar one, the last of those in a tie |
| PathTrie.StepKeepsInv | apps/worker/helpers/pathmap.py:93-183 | inserts and lookups keep the tree's invariant: what a node lists was inserted and passes through it, what was inserted is listed where its key ends, every node leads to an inserted path |
| PathTrie.RunsKeepInv | apps/worker/helpers/pathmap.py:88-183 | after every run of inserts and lookups: what a node lists was inserted and passes through it, every inserted path is listed where its key ends, and every node leads to an inserted path |
| PathLookups.InsertedPathIsItsOwnAnswer | apps/worker/helpers/pathmap.py:131-183 | after any run, looking up an inserted path without ancestors, or one that has no slash with only dots before it, returns exactly it, and changes nothing |
| PathLookups.LookupReturnsExactly | apps/worker/helpers/pathmap.py:131-162 | after any run: the lookup follows the key as far as there are nodes; its results are the list met last on the way and, when it ends at a node without paths, behind it the list at the end of a straight branch |
| PathLookups.DrilledExactlyWhen | apps/worker/helpers/pathmap.py:120-129 | a straight branch leads from a node to paths at another if and only if each node up to there has one child only and none in between has paths |
| PathLookups.AnswersAreInserted | apps/worker/helpers/pathmap.py:131-183 | every answer was inserted and shares the last component with the query, up to case |
| PathLookups.LookupsKeepShape | apps/worker/helpers/pathmap.py:131-162 | a lookup keeps the nodes and changes at most one list, on the way of the key, by appending a list from below it |
| PathLookups.LookupChangesTreeExactlyWhen | apps/worker/helpers/pathmap.py:147-162 | after any run, a lookup changes the tree if and only if it ends at a node without paths, passed a node with paths, and a straight branch leads on to paths |
| PathLookups.OtherLookupsDoNotMatter | apps/worker/helpers/pathmap.py:131-183 | in any other case every later tree, and so every later answer, is as if the lookup had not happened |
| PathLookups.LoneFileIsFound | apps/worker/helpers/pathmap.py:120-183 | a file whose name occurs once is the answer to every query that ends in its name, after any run |
| LookupExample.LookupChangesLaterAnswer | apps/worker/helpers/pathmap.py:150-162 | one lookup makes another path, equally similar, the answer to an unrelated query |
| Directories.SingleDirectory | apps/codecov-api/services/path.py:238-260 | ends for all paths that fit the prefix, with one node per base name in order of first occurrence: a file for a lone file, else the directory of the group |
| Directories.Grouped | apps/codecov-api/services/path.py:241-243 | the groups hold exactly the paths of each base name, in order, keys in order of first occurrence |
| Directories.KeysAreInOrder | apps/codecov-api/services/path.py:241-247 | base names come in the order in which they first occur |
| Directories.ListDirectory | apps/codecov-api/services/path.py:166-170 | whenever the files below the prefix fit it, they can be listed; the leaves are exactly the files that are the prefix or begin with it and a slash, each as often as given |
| Directories.UnderKeeps | apps/codecov-api/services/path.py:120-170 | a file is kept, as often as given, if and only if there is no prefix, or it is the prefix, or it begins with the prefix and a slash |
| Directories.GroupIsInside | apps/codecov-api/services/path.py:102-117 | a group that is not a lone file lies inside its base name, which is longer than the prefix, and is still prefix-free |
| Directories.GroupFits | apps/codecov-api/services/path.py:238-260 | a group of fitting paths that is not a lone file fits its base name, which is longer than the prefix and a directory above one of them |
| Directories.PrefixFreeFilesFit | apps/codecov-api/services/path.py:120-170 | prefix-free files, of which none is the prefix or starts with a slash, fit |
| Directories.GroupsArePartition | apps/codecov-api/services/path.py:241-243 | grouping loses and repeats nothing |
| Directories.LeavesArePaths | apps/codecov-api/services/path.py:238-260 | the leaves of the tree are a permutation of the listed paths and carry their totals |
| Directories.ListingIsArranged | apps/codecov-api/services/path.py:238-260 | for all paths that fit: siblings have distinct names, each node sits directly in its directory, and every leaf lies under every directory around it, save a file without a slash in a directory that repeats it; for prefix-free paths there is no such file |
| Directories.Totals | apps/codecov-api/services/path.py:74-83 | a directory's totals add up those of its children, a missing number counting 0 |
| Directories.CountsAreSums | apps/codecov-api/services/path.py:74-83 | at every level, totals are the sums over all files below |
| Directories.NumbersAreSums | apps/codecov-api/services/path.py:23-83 | at every level, lines, hits, partials and misses are each the sum of that number over the files below, a missing one counting 0 |
| Directories.ListingKeepsTotals | apps/codecov-api/services/path.py:74-83 | totals over the whole listing equal those over the flat list |
| Directories.RecursionEndsExactlyWhen | apps/codecov-api/services/path.py:238-260 | for paths below any prefix, the empty one included, the recursion ends if and only if they fit |
| Directories.ReportEndsExactlyWhen | apps/codecov-api/services/path.py:166-260 | the same for the files of a report as filtered by the prefix |
| Directories.OutgrownNeverEnds | apps/codecov-api/services/path.py:91-117 | a path with a slash that is not longer than the prefix, such as the prefix itself, keeps the recursion going for ever |
| Directories.LeadingSlashNeverEnds | apps/codecov-api/services/path.py:107-117 | a path with a leading slash keeps the recursion at the top going for ever |
| ArchiveFields.ArchiveField.ValueFromArchive | apps/worker/database/utils.py:95-149 | the retry loop ends, with the stored value if some attempt within the timeout finds the file and with the default otherwise |
| ArchiveFields.ArchiveField.Get | apps/worker/database/utils.py:151-161 | a truthy cached value, else the rehydrated column, else the archive value; the result is cached |
| ArchiveFields.ArchiveField.Set | apps/worker/database/utils.py:163-184 | writes to storage or to the column, moves the reference and deletes the old file as the assignment on values does |
| ArchiveFields.FilesStayTidy | apps/worker/database/utils.py:163-184 | in every run, references lead to existing files and a field has at most one file |
| ArchiveFields.GetReturnsLastSet | apps/worker/database/utils.py:151-184 | after any sets, gets and reloads of any fields, falsy values going to storage or rehydrating to themselves and missed reads not yielding a truthy default, a get that reads in time returns what was set last |
| ArchiveFields.FalsyIsReadBackExactlyWhen | apps/worker/database/utils.py:151-184 | before a reload, a value set in the column is read back if and only if it is truthy or rehydrating leaves it alone |
| ArchiveFields.ColumnSetIsReadBackExactlyWhen | apps/worker/database/utils.py:155-183 | a value set in the column is read back after a reload if and only if it is not `None`, or the archive value behind it is |
| ArchiveFields.NoneShowsOldValue | apps/worker/database/utils.py:163-184 | a set to storage followed by `None` to the column: a get returns the first value |
| ArchiveFields.MissedReadRecoversExactlyWhen | apps/worker/database/utils.py:151-161 | after a missed read, the next one of the object returns the stored value if and only if the default is falsy, and one after a reload always does |
| CronTask.Redis.RunImpl | apps/worker/tasks/crontasks.py:35-63 | an undisturbed execution of the code, with tries for the lock within the waiting time and with an exception of its own work or without, is the sequence of steps of the concurrent model after the wait, and its report that of the model's run |
| CronTask.RunsAlone | apps/worker/tasks/crontasks.py:35-63 | an undisturbed run executes exactly when the lock is free by the end of its wait and no key is alive whose stored second is later than its generation time less the interval; it reports so, or lets its exception through, exactly when it also beat the lock's timeout, the hard limit but at least five minutes |
| CronTask.CheckClearsExactlyWhen | apps/worker/tasks/crontasks.py:45-57 | in every run of the system with a hard limit: a task that looks at the key goes on if and only if nothing was executed before, or its generation time is the interval behind that of the last execution, cut off to the second, or the clock is the interval behind its start |
| CronTask.KilledRunKeepsLock | apps/worker/tasks/base.py:151-157 | after a run in the lock is killed, another gets the lock if and only if it has timed out |
| CronTask.Redis.TryLock | apps/worker/tasks/crontasks.py:40-44 | the lock is granted at the first of the tries at which nobody holds it any more, and to nobody when there is none; a lock that expires during the wait is granted |
| CronTask.WaitedIsFirstFree | apps/worker/tasks/crontasks.py:40-44 | the wait for the lock ends at a try; the lock is free then if and only if it is at some try, and that is the first |
| CronTask.AtMostOneInLock | apps/worker/tasks/crontasks.py:40-44 | with a hard time limit, no two runs of any interleaving are inside the lock together |
| CronTask.ExecutionsAreApart | apps/worker/tasks/crontasks.py:45-57 | consecutive executions are at least the interval apart by generation time, less the second cut off in the stored time, or by the clock |
| CronTask.OverlapExactlyWithoutLimit | apps/worker/tasks/base.py:151-157 | two runs can be inside the lock together if and only if there is no hard time limit |
| FlakeQueue.GetRedisVal | apps/worker/tasks/process_flakes.py:26-31 | at most ten entries from the head, losing none, and empty exactly for an empty list |
| FlakeQueue.Drain | apps/worker/tasks/process_flakes.py:87-94 | with others pushing before any of its pops, the loop ends; it has processed exactly the popped entries before the first that raises an exception, in order; without one the list is empty, with one at most the batch in hand is lost and all behind it would still be popped in the same order |
| FlakeQueue.PoppedConserves | apps/worker/tasks/process_flakes.py:87-94 | what a drain pops is, each as often, what was in the list and all that was pushed before the pop that found the list empty |
| FlakeQueue.PoppedWithoutPushes | apps/worker/tasks/process_flakes.py:26-31 | when nobody pushes, a drain pops the list from the head on |
| FlakeQueue.NothingVanishesOrRepeats | apps/worker/tasks/process_flakes.py:78-103 | in every interleaving, with exceptions, deaths and lock timeouts, pushed entries are queued, in hand, processed or given up, and processed at most once |
| FlakeQueue.FinishedTasksDidEverything | apps/worker/tasks/process_flakes.py:87-103 | a task that ends its drain normally has processed everything it popped |
| FlakeQueue.DrainsInPopOrder | apps/worker/tasks/process_flakes.py:80-94 | while the lock outlasts its holder, one task drains at a time and processing follows the order of the pops |
| FlakeQueue.EmptyListMeansAllProcessed | apps/worker/tasks/process_flakes.py:87-90 | a task that finds the list empty under the lock knows that all pushed entries are processed or were given up |
| FlakeQueue.LockIsGivenBack | apps/worker/tasks/process_flakes.py:80-103 | in every run, whoever has the lock still drains or has died: the end of a drain and an exception give it back |
| FlakeQueue.DeadTaskKeepsLock | apps/worker/tasks/process_flakes.py:80-86 | after the death of its holder nobody gets the lock before it times out |
| FlakeQueue.PushOrderExactlyWhen | apps/worker/tasks/test_results_finisher.py:154 | commits are popped in push order if and only if at no pop of the run the list held more than one |
| FlakeQueue.NewestIsProcessedFirst | apps/worker/tasks/process_flakes.py:26-31 | two pushes before a drain: the second is processed first |
| Timeseries.AlignedStartDate | apps/codecov-api/timeseries/helpers.py:172-188 | the result is a bin start, and the date lies in its bin, of 1, 7 or 30 days |
| Timeseries.AlignmentIsUnique | apps/codecov-api/timeseries/helpers.py:172-188 | it is the only such bin start, before the aligning date as after it |
| Timeseries.AlignmentIsMonotone | apps/codecov-api/timeseries/helpers.py:172-188 | aligning is idempotent and keeps the order of dates |
| Timeseries.FillSparseMeasurements | apps/codecov-api/timeseries/helpers.py:191-253 | exactly the bins from the aligned start to the end date, each with what was last given for it or nothing; bin 0 carries the oldest values when it would be empty |
| Timeseries.FilledExactly | apps/codecov-api/timeseries/helpers.py:191-253 | there is one entry for each bin start in the range, in order, and no other; an entry for which nothing was given is empty, and only the first carries the oldest values, exactly when these are not later and it has no average of its own |
| Timeseries.LastAtIsLast | apps/codecov-api/timeseries/helpers.py:202-205 | of several measurements for a time the last one counts |
| Timeseries.GivenMeasurementsShow | apps/codecov-api/timeseries/helpers.py:222-236 | every in-range measurement whose time starts a bin has that bin, and the last one for each time shows in it, except that one without an average may give way in bin 0 |
| TestRollups.Structures.ModifyStructures | apps/worker/ta_storage/pg.py:51-107 | with one more run, the totals still summarize the runs of each test; instances and flag bridges gain the run's |
| TestRollups.Structures.UpdateDailyTotals | apps/worker/ta_storage/pg.py:151-184 | with a further run of a test, the totals still summarize the runs of each test |
| TestRollups.Structures.CreateDailyTotals | apps/worker/ta_storage/pg.py:187-214 | with the first run of a test, the totals still summarize the runs of each test |
| TestRollups.PGDriver.WriteTestruns | apps/worker/ta_storage/pg.py:290-333 | the stored rows are the old ones merged with the totals of the batch; all runs are stored |
| TestRollups.StoredCounts | apps/worker/ta_storage/pg.py:246-276 | however runs are split into batches, stored counts are the passes, the failures and errors, and the skips of all runs of the test; a test has a row if and only if it has run |
| TestRollups.StoredAverage | apps/worker/ta_storage/pg.py:246-276 | the stored average stays between the smallest and the largest duration seen, a missing first one counting 0 |
| TestRollups.MeanExactlyWhen | apps/worker/ta_storage/pg.py:151-184 | for given outcomes, the average of a batch is the mean of the durations whatever they are if and only if no run before the last is skipped |
| TestRollups.SpikeMissesMean | apps/worker/ta_storage/pg.py:161-184 | for any outcomes with an earlier skip, durations whose average is not their mean |
| TestRollups.MergeIsMeanExactlyWhen | apps/worker/ta_storage/pg.py:260-264 | the merged average is the weighted mean of row and batch if and only if the row counts none, the batch counts one, or the averages agree |
| TestRollups.FirstRunDecides | apps/worker/ta_storage/pg.py:151-214 | failing commit, flaky failures and last duration of a batch are those of the test's first run |
| TestRollups.StoredFirsts | apps/worker/ta_storage/pg.py:246-276 | over any batches, a row names the commits whose batch begins with a failure of the test, in order, counts the flaky ones among them, and has the duration that the last batch begins with |
| QueryValidation.MaxDepthRule.EnterField | apps/codecov-api/graphql_api/validation.py:71-81 | one level deeper; the field is reported exactly when it is too deep and none was before |
| QueryValidation.MaxDepthRule.VisitSelections | apps/codecov-api/graphql_api/validation.py:71-84 | the counter returns to where it was and the first too-deep field in pre-order is reported, unless one was already |
| QueryValidation.MaxDepthRule.VisitDocument | apps/codecov-api/graphql_api/validation.py:57-86 | the counter is 1 after every definition and the errors are those of the recursive definition |
| QueryValidation.DeepExactlyWhen | apps/codecov-api/graphql_api/validation.py:71-84 | some field is too deep if and only if depth plus nesting exceeds the limit |
| QueryValidation.DepthRuleIsExact | apps/codecov-api/graphql_api/validation.py:57-86 | an operation is reported exactly once if one more than its nesting exceeds the limit, and otherwise not; a document without too-deep fragments has no other errors; none at all if and only if no definition is too deep |
| QueryValidation.OperationErrorsAreReported | apps/codecov-api/graphql_api/validation.py:57-86 | in any document, too-deep fragments or not, every operation's error is among those reported, in order |
| QueryValidation.DefinitionIsReportedExactlyWhen | apps/codecov-api/graphql_api/validation.py:64-81 | each definition adds at most one error: an operation if and only if it is too deep, a fragment if and only if it is and nothing since the last operation began, that one included, was |
| QueryValidation.NestingIsDepthExactlyWhen | apps/codecov-api/graphql_api/validation.py:71-84 | the nesting that the rule measures is the depth of the query for all fragments if and only if the query has no fragment spread |
| QueryValidation.NestingIsDepthOf | apps/codecov-api/graphql_api/validation.py:71-84 | for given fragments, nesting and depth agree if and only if no fragment reaches below the nesting from its spread |
| QueryValidation.ExpandedWithinExactlyWhen | apps/codecov-api/graphql_api/validation.py:71-84 | for given fragments, an accepted operation stays within the limit with its fragments put in if and only if no fragment reaches below the limit from its spread |
| QueryValidation.FragmentsEscapeDepthRule | apps/codecov-api/graphql_api/validation.py:71-84 | for every limit from 2 on and every depth, a document without errors whose operation has that depth once fragments are put in |
| QueryValidation.MaxAliasesRule.EnterField | apps/codecov-api/graphql_api/validation.py:101-112 | counts the field if it has an alias, and reports the first one too many |
| QueryValidation.MaxAliasesRule.VisitDocument | apps/codecov-api/graphql_api/validation.py:89-114 | one error, at the first aliased field in pre-order beyond the limit, if there is one |
| QueryValidation.AliasRuleIsExact | apps/codecov-api/graphql_api/validation.py:89-114 | exactly one error if the number of aliased fields, counted along the tree, exceeds the limit, and none otherwise |
| AncestorSearch.PossiblyFilterOutBranch | apps/worker/services/repository.py:156-166 | the loop picks the only candidate or the first one on the branch |
| AncestorSearch.PickIsSound | apps/worker/services/repository.py:156-166 | the pick is a candidate, alone or the first on the branch; there is none if and only if there is not just one candidate and none is on the branch |
| AncestorSearch.ParentsAreFewer | apps/worker/services/repository.py:126-147 | going up a level leaves exactly the roots behind, so the search ends |
| AncestorSearch.FetchAppropriateParent | apps/worker/services/repository.py:105-153 | a usable direct parent, else the pick of the shallowest level among commits with a message, else that among all commits, else nothing |
| AncestorSearch.ShallowestIsLeast | apps/worker/services/repository.py:125-147 | the pick comes from the least level that has one, and there is none only if no level has one |
| AncestorSearch.FoundParentIsAncestor | apps/worker/services/repository.py:126-147 | what is found is a stored, undeleted ancestor in the same repository |
| AncestorSearch.AncestorOnBranchIsFound | apps/worker/services/repository.py:126-166 | whenever some stored, undeleted ancestor in the repository is on the commit's branch, something is found, at its level or a shallower one |
| Seats.AppendUniqueAdds | apps/worker/conftest.py:342-350 | `array_append_unique` adds exactly the one user, at the end, and keeps a list free of duplicates and a new user's predecessors as they are, also on a missing list |
| Seats.OwnerTable.CanActivateOwner | apps/codecov-api/services/self_hosted.py:98-106 | true exactly when the activated owners with this one stay within the seats, or within their number |
| Seats.OwnerTable.ActivateOwner | apps/codecov-api/services/self_hosted.py:109-128 | fails without a change when there is no seat, else lists the owner in exactly its organisations in addition; never exceeds the seats once within them |
| Seats.OwnerTable.DeactivateOwner | apps/codecov-api/services/self_hosted.py:131-152 | the owner is activated nowhere afterwards and everybody else where they were; organisations that did not list the owner are unchanged |
| Seats.OwnerTable.ActivateUser | apps/worker/services/activation.py:28-76 | under a valid licence, lists the user in the one organisation in addition and stays within the seats; otherwise nothing changes, and no seat was left or the organisation is unknown |
| Seats.OwnerTable.TryToAutoActivate | apps/worker/conftest.py:351-362 | true exactly for a user of a known organisation listed before or with credits left, and exactly when listed afterwards; the list loses nobody and stays within its credits, or its length; an unknown organisation changes nothing |
| Seats.StepRespectsSeats | apps/codecov-api/services/self_hosted.py:98-152 | the number of activated owners rises only from below the seats, by one, and for a new owner; deactivating removes exactly the one owner |
| Seats.SeatsAreRespected | apps/worker/services/activation.py:28-55 | over any run of both kinds of activation and deactivations, activated owners never exceed the seats once within them, and lists stay free of duplicates |
| Seats.CreditsAreRespected | apps/worker/conftest.py:351-362 | an organisation's own list never grows beyond its credits |
| Heads.Pull.CommitUpdate | apps/worker/tasks/commit_update.py:73-84 | the new head has the later of both timestamps, the old one winning a tie, and is the commit when there was no head or a deleted one |
| Heads.Pull.Sync | apps/worker/tasks/manual_trigger.py:154-157 | the new head has the later of both timestamps, the commit winning a tie, and is the commit when there was no head |
| Heads.Branch.CommitUpdate | apps/worker/tasks/commit_update.py:104-122 | the new head has the later of both timestamps, the old one winning a tie, and is the commit when there was no head or a deleted one; the author is listed afterwards, once, and authors only gain |
| Heads.AuthorsStayDistinct | apps/worker/tasks/commit_update.py:105-109 | authors stay distinct, none is lost, and a known author is listed afterwards |
| Heads.StepGoesBackExactlyWhen | apps/worker/services/repository.py:470-473 | a step takes the head back in time if and only if a commit update replaces a newer, deleted head |
| Heads.HeadNeverGoesBack | apps/worker/tasks/commit_update.py:73-84 | without deletions, over any interleaving of the three tasks, the final head is the initial one or a commit seen, and no commit seen is newer |
| Heads.FinalTimestampIgnoresOrder | apps/worker/tasks/commit_update.py:111-122 | the timestamp of the final head does not depend on the order of the tasks |

## Left out

- Traversal.FinishesExactlyWhen: is about hunks at the distances at which the counters meet them; `WalkEnd.EndsExactlyWhen` covers all other lists too.
- ServedHeaders.HeaderWithoutSourceExactlyWhen: is about unified diffs that the counters follow; in others lines of two hunks can share a right header, and `WalkedHeader` is the exact condition.
- LaggingWalk.EndsWithSourceExactlyWhen: is about hunks for which the walk without source ends; `WalkEnd.EndsExactlyWhen` covers all others.
- Comparison.FileComparisonTraverseManager.Apply: a failed walk is described by its visits only, not by what the visitors hold at that point.
- FlakeQueue.DrainsInPopOrder: assumes that the lock outlasts its holder; conservation and processing at most once need no such assumption.
- FlakeQueue.Drain: is about one task; several tasks that take turns are covered by the step system.
- ArchiveFields.GetReturnsLastSet: leaves out falsy values set to the column that rehydrating changes; for them it fails, as `FalsyIsReadBackExactlyWhen` says.
- TestRollups.StoredAverage: averages are real numbers here; the rounding of floats is not modelled.
- Segments.Segment.Header: header entries are numbers, or blank for a count left out; digit strings are not modelled.
- Raw coverage values: lines hold what `line_type` makes of them; report decoding, `apply_diff` and line sessions are not part of this model.
- `str.lower` and the similarity ratio are parameters of the path tree; only that the ratio lies between 0 and 1, and is 1 exactly on equal strings, is assumed.
- `_clean_path`, `_check_ancestors` and `resolve_path` around the lookup of paths.
- Search terms and flag filters of report paths, the URL helpers beside them, and the coverage ratio of a node.
- The archive path is a value with its parts, not a string; compression, encryption and storage errors other than a missing file.
- Clock readings and the visibility of a file are parameters of the retry loop, whose sleeps are at least one unit of time.
- Lock tokens, and how long a task waits for the flake lock; that lock's timeout is a step that may happen at any time.
- Other dimensions of rollup rows (repository, branch, day), `latest_run`, and the test and flag-bridge tables as stored.
- SQL row order: candidates of the ancestor search come in the order in which they are given.
- The rule on missing variables of GraphQL operations, and the names of operations.
- Licence validity, enterprise settings, admin checks and background tasks around the activation of users.
- Provider calls, commit updates from the provider, and what else the tasks around the head updates do.
- Views, serializers other than those cited, billing, webhooks, configuration and the SQL aggregates, which hold no such property or live in services outside the repository.
