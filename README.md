# Behave test controller: a Dafny model

This project models the core of a VS Code extension that finds Behave scenarios and runs them
from a test controller, all of it in `src/extension.ts`. The model has three parts:

- **Scenario extraction** (`Extractor`, extractor.dfy). `extractScenariosFromFeature` runs the
  global regular expression `/Scenario: (.+)/g` over a feature file's text with `exec` until it
  fails, and collects capture group 1 of each match. `Exec` describes one `exec` call for this
  pattern: the leftmost match at or after `lastIndex`, with `(.+)` taken greedily up to the next
  ECMAScript line terminator. The method `ExtractScenariosFromFeature` is the source's loop. It is
  proved to return `ScenarioNames`, which is an independent, line-by-line description of the
  result: each line contributes the rest of the line after its first `Scenario: `, untrimmed, when
  that rest is not empty.
- **The test tree** (`TestTree`, test_tree.dfy). `createTestItems` builds three levels of nodes:
  - folder nodes for the directories of the `function` directory whose names contain `cbs` or
    `cls` (exactly a directory, not a link to one);
  - feature nodes for the `.feature` files inside them (exactly a file);
  - one scenario node per extracted name, at the feature file's location.

  Directory listings and file texts are given values.
- **The run handler** (`Dispatcher`, dispatcher.dfy). `runHandler`, with `runTestItem` and
  `runFolder`, does the following:
  1. creates the terminal;
  2. selects the included tests, or every top-level item whose cancellation check does not see
     the token cancelled;
  3. walks the selection, checking the token before each top-level item and before each
     scenario of a folder;
  4. sends `behave <file> -n "<name>"` for each leaf and reports it started and then passed or
     failed;
  5. in every case, disposes the terminal and ends the run.

  The host's run, terminal and token are one `Session` object whose `log` records what the
  handler asks of them, in order. `RunEvents` gives the whole log as a function of the request,
  the top-level items, the token and what sending a command throws. `RunHandler` is proved to
  produce exactly that log.

The cancellation token is described by the number of the first check that sees it cancelled
(`Token.CancelledFrom`), because a host token never goes back from cancelled. Checks are
numbered across the selection's `forEach` (line 54), the main loop (line 63) and the folder loop
(line 40). `Performed` says which leaves a walk runs: exactly those scheduled before the first
check that sees the token cancelled.

## Model

| member | source | states |
|---|---|---|
| Extractor.ExtractScenariosFromFeature | src/extension.ts:116-124 | the `exec` loop returns exactly the line-by-line scenario names of the text |
| Extractor.ExecIsLeftmostGreedyMatch | src/extension.ts:117-120 | `exec` from lastIndex returns the leftmost position at or after lastIndex where `Scenario: ` is followed by a non-terminator; its capture runs to the end of that line and holds no line terminator; it returns null exactly when the pattern matches nowhere from lastIndex on |
| Extractor.ExecFindsNextName | src/extension.ts:120-121 | one `exec` from a line start yields the next name of the text from there, and the remaining names follow from the end of the match; null exactly when no name remains |
| Extractor.NoNamesIffNoMatch | src/extension.ts:117-123 | a text yields no names exactly when the pattern matches nowhere in it |
| Extractor.LineNameShape | src/extension.ts:117 | a line yields a name exactly when a marker on it is followed by at least one more character of the line; the name is everything after its first marker; at most one name per line; names are non-empty and free of line terminators |
| Extractor.NamesAreNonEmptyLines | src/extension.ts:117 | every extracted name is non-empty and contains no line terminator |
| Extractor.NamesPerLine | src/extension.ts:117-121 | there are no more names than the text has lines |
| Extractor.NameAfterMarker | src/extension.ts:117 | a one-line text that starts with `Scenario: ` is named by the whole rest of the text, spaces and later markers included |
| Extractor.MarkerLedLine | src/extension.ts:117-121 | a line of any text that starts with `Scenario: ` and has more after it is named by the whole rest of the line; the names of the later lines follow it |
| Extractor.BareMarkerNamesNothing | src/extension.ts:117 | a marker at the very end of a line names nothing: the text that is only the marker has no names, and when the first line is only the marker the names are those of the lines after it |
| TestTree.IncludesIffOccurs | src/extension.ts:87 | `includes` holds exactly when the substring occurs at some position |
| TestTree.CreateTestItems | src/extension.ts:86-90 | the top-level nodes are exactly the folder nodes of the directories named with `cbs` or `cls` |
| TestTree.TestItemsInListingOrder | src/extension.ts:86-90 | the top-level nodes are the folder nodes of the test directories, in listing order |
| TestTree.FolderItem | src/extension.ts:88-98 | a folder node has the directory's name as id and label, its location, and exactly the feature nodes of its `.feature` files as children |
| TestTree.FeatureItems | src/extension.ts:94-98 | the feature nodes of a listing are exactly those of its plain files that end in `.feature` |
| TestTree.FeatureItemsInListingOrder | src/extension.ts:94-98 | a folder's feature nodes are those of its `.feature` files, in listing order |
| TestTree.FeatureItem | src/extension.ts:96-107 | a feature node has the file's name as id and label and its location; its children are one childless node per extracted name, in order, with that name as id and label, at the file's location |
| TestTree.LinksAreSkipped | src/extension.ts:87-95 | a link to a directory is no test folder and a link to a file is no feature file, because both filters compare the file type exactly |
| TestTree.ScenarioItems | src/extension.ts:105-108 | one scenario node per name, in order, each with the name as id and label and the feature file's location |
| TestTree.ScenarioNodes | src/extension.ts:103-108 | every scenario node is childless, is named by an extracted name and sits at its feature file; every extracted name has its node |
| Dispatcher.CommandIsVerbatim | src/extension.ts:23-25 | the command holds the feature path and the scenario label verbatim, unescaped, at fixed places |
| Dispatcher.LeafOutcome | src/extension.ts:20-35 | a leaf is started first and gets exactly one status, last; it passes exactly when it has a location and sending its command does not throw, and only then is the command sent; a failure carries the message of what threw |
| Dispatcher.RunTestItem | src/extension.ts:20-35 | runTestItem appends exactly the leaf's events to the log and makes no cancellation check |
| Dispatcher.Session.IsCancellationRequested | src/extension.ts:40 | each check returns the token's state for its number and counts one check |
| Dispatcher.Session.SendText | src/extension.ts:28 | sending either throws with a message and logs nothing, or logs the command |
| Dispatcher.RunFolder | src/extension.ts:37-46 | runFolder leaves the log exactly as walking the folder's schedule says: a check before each scenario, and a cancelled check skips the rest of that feature; the check count is exact until the first cancelled check, after which every further check sees the token cancelled |
| Dispatcher.FeatureRuns | src/extension.ts:39-44 | the folder's inner loop schedules each scenario of a feature once, in order |
| Dispatcher.FolderRuns | src/extension.ts:38-45 | a folder walk schedules the scenarios of each feature, feature after feature |
| Dispatcher.SelectTests | src/extension.ts:49-59 | the selection is the request's tests, or the top-level items whose check is not cancelled, and makes one check per top-level item only when nothing is requested |
| Dispatcher.PushUncancelledIsPrefix | src/extension.ts:53-58 | although the early `return` only skips one item, the items pushed are exactly a prefix: those checked before the token is first seen cancelled |
| Dispatcher.SelectionShape | src/extension.ts:49-59 | a non-empty request is run as given without a check; an absent or empty one selects the prefix of top-level items before cancellation, one check each |
| Dispatcher.ScheduleRuns | src/extension.ts:62-71 | the main loop schedules the leaves of each selected item in order: a folder's grandchildren, or the item itself |
| Dispatcher.StopsIffCancelledCheck | src/extension.ts:62-71 | the walk stops exactly when one of its checks sees the token cancelled |
| Dispatcher.PerformedCutsAtCancelledCheck | src/extension.ts:62-71 | when the first cancelled check is the n-th step, exactly the leaves scheduled before it run, in order |
| Dispatcher.NoCancelledCheckRunsAll | src/extension.ts:62-71 | with no check seeing the token cancelled, every scheduled leaf runs |
| Dispatcher.EarlierCancellationRunsPrefix | src/extension.ts:62-71 | over the same schedule, an earlier cancellation runs a prefix of what a later one runs |
| Dispatcher.EarlierCancellationDispatchesPrefix | src/extension.ts:49-71 | for the same request and items, an earlier cancellation runs a prefix of the leaves a later one runs |
| Dispatcher.NeverCancelledRunsEverything | src/extension.ts:49-71 | without cancellation, every leaf of the request, or of every top-level item, runs in order |
| Dispatcher.CancelledBeforeMainLoop | src/extension.ts:62-75 | a token cancelled by the main loop's first check runs nothing: the log is only terminal creation, dispose and end |
| Dispatcher.DispatchedIsPrefixOfLeaves | src/extension.ts:62-71 | whatever the token does, the leaves run are a prefix of the selected items' leaves |
| Dispatcher.FeatureNodeRunsNothing | src/extension.ts:37-46 | run as a folder, a feature node runs nothing, because the folder walk looks two levels down |
| Dispatcher.FeatureNodesRunNothing | src/extension.ts:62-71 | a selection made only of feature nodes runs no leaf |
| Dispatcher.DiscoveredLeaves | src/extension.ts:81-114 | with nothing requested, every leaf run from a discovered tree is a scenario node of a feature file in a test folder, or a test folder without feature files, and it has a location |
| Dispatcher.RunEventsShape | src/extension.ts:14-76 | the terminal is created first and disposed and the run ended last, each once; in between every leaf run is reported started and finished, in order |
| Dispatcher.RunHandler | src/extension.ts:14-76 | the handler's log is exactly `RunEvents` of the request, the items, the token and what sending throws |

## Left out

- The VS Code API is not modelled. The controller, test items, run and terminal are the
  datatypes and the `Session` object above, and `createTestRun` and the run profile are not
  logged.
- The loop over several workspace folders in `activate` and the host exceptions raised outside
  the `try` (from `createTestRun` or `createTerminal`) are not modelled.
- File-system reads, `joinPath`, `fsPath` and UTF-8 decoding are not modelled. Locations and file
  texts are given strings.
- Discovery timing is not modelled. Each `forEach(async …)` callback adds its folder node
  (line 90) or feature node (line 98) before its first `await`, so those nodes are added in
  listing order, and the model keeps that order (`TestTree.TestItemsInListingOrder`,
  `TestTree.FeatureItemsInListingOrder`). Which folder's features and which feature's scenarios
  arrive first depends on when the host completes the reads. The model gives the finished tree
  only; a run started while discovery is still going on sees a partial tree.
- A `TestItemCollection` replaces an item that has the same id as one already added. The model
  keeps both; duplicate file or scenario names would merge in the host.
- What `terminal.sendText` throws is the function parameter `sendError`. The terminal's effect
  is not modelled beyond the command being logged.
- `MissingUriMessage` stands for the TypeError message that the engine produces for
  `testItem.uri!.fsPath` on an item without a location. The exact text is engine-defined.
- Behave's output is not parsed: a leaf whose command is sent is reported passed, as in the
  source.
- The cancellation token is assumed monotone, never going back from cancelled. It is described
  by the first check that sees it cancelled.
- Characters are Unicode scalar values, while JavaScript strings are UTF-16 code units. Names
  that hold characters outside the Basic Multilingual Plane have different lengths in the two.
