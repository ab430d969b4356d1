/**
 * The run handler (src/extension.ts, runHandler with runTestItem and runFolder): choose the
 * tests to run, walk them with cooperative cancellation checks, send one `behave` command per
 * leaf to a shared terminal, report each leaf's status, and always dispose the terminal and
 * end the run.
 *
 * The host's run, terminal and cancellation token are one `Session` object whose log records
 * what the handler asks of them. `RunEvents` is the reference description of the whole log; the
 * methods are the source's loops, proved to produce exactly that log.
 */
module Dispatcher {
  import opened Wrappers
  import opened TestTree
  import Seqs

  /** The name of the terminal every run creates. */
  const TerminalName: string := "Behave Test Runner"

  /** The message of the TypeError that `testItem.uri!.fsPath` throws for an item without a location. */
  const MissingUriMessage: string := "Cannot read properties of undefined (reading 'fsPath')"

  /** What the handler asks of the host, in order. */
  datatype Event =
    | CreateTerminal(name: string)
    | Started(item: TestItem)
    | Send(command: string)
    | Passed(item: TestItem)
    | Failed(item: TestItem, message: string)
    | Dispose
    | End

  /**
   * The cancellation token as seen by the handler's checks, numbered 0, 1, 2, ... in the order the
   * handler makes them. A host token never goes back from cancelled, so it is described by the
   * first check that sees it cancelled, if any.
   */
  datatype Token = NeverCancelled | CancelledFrom(check: nat)

  /** What `token.isCancellationRequested` returns at the check with the given number. */
  predicate Cancelled(token: Token, check: nat)
  {
    token.CancelledFrom? && token.check <= check
  }

  /** The command sent for a leaf: its feature file and its scenario name, pasted in as they are. */
  function Command(featureFile: string, scenarioName: string): string
  {
    "behave " + featureFile + " -n \"" + scenarioName + "\""
  }

  /** The command holds the feature file and the scenario name verbatim at fixed places, unescaped. */
  lemma {:induction false} CommandIsVerbatim(featureFile: string, scenarioName: string)
    ensures var c, f := Command(featureFile, scenarioName), |featureFile|;
      && |c| == f + |scenarioName| + 13
      && c[..7] == "behave " && c[7..7 + f] == featureFile && c[7 + f..12 + f] == " -n \""
      && c[12 + f..12 + f + |scenarioName|] == scenarioName && c[|c| - 1] == '"'
  {
    var c, f := Command(featureFile, scenarioName), |featureFile|;
    assert c == "behave " + featureFile + " -n \"" + scenarioName + "\"";
    assert forall k :: 0 <= k < f ==> c[7 + k] == featureFile[k];
    assert forall k :: 0 <= k < |scenarioName| ==> c[12 + f + k] == scenarioName[k];
    assert c[7..7 + f] == featureFile;
    assert c[12 + f..12 + f + |scenarioName|] == scenarioName;
  }

  // ---------------------------------------------------------------------------------------
  // One leaf (runTestItem)

  /**
   * What running one leaf adds to the log: `started`, then either the command and `passed`, or
   * `failed` with the message of what threw (the missing location, or sending the command).
   */
  function LeafEvents(item: TestItem, sendError: string -> Option<string>): seq<Event>
  {
    [Started(item)] +
    match item.uri
    case None => [Failed(item, MissingUriMessage)]
    case Some(path) =>
      var command := Command(path, item.itemLabel);
      match sendError(command)
      case None => [Send(command), Passed(item)]
      case Some(message) => [Failed(item, message)]
  }

  /** The item's terminal status: `passed` when nothing threw, `failed` with the message otherwise. */
  predicate IsStatus(e: Event, item: TestItem)
  {
    e == Passed(item) || (e.Failed? && e.item == item)
  }

  /**
   * A leaf is started first and gets exactly one terminal status, last; it passes exactly when it
   * has a location and sending its command does not throw, and exactly then its command is sent,
   * once. A failure carries the message of what threw.
   */
  lemma {:induction false} LeafOutcome(item: TestItem, sendError: string -> Option<string>)
    ensures var e := LeafEvents(item, sendError);
      && e[0] == Started(item) && IsStatus(e[|e| - 1], item)
      && (forall k :: 0 < k < |e| - 1 ==> e[k].Send?)
      && (e[|e| - 1] == Passed(item) <==> item.uri.Some? && sendError(Command(item.uri.value, item.itemLabel)).None?)
      && (item.uri.None? ==> e[|e| - 1] == Failed(item, MissingUriMessage))
      && (item.uri.Some? && sendError(Command(item.uri.value, item.itemLabel)).Some? ==>
            e[|e| - 1] == Failed(item, sendError(Command(item.uri.value, item.itemLabel)).value))
      && (forall c :: Send(c) in e <==>
            (item.uri.Some? && c == Command(item.uri.value, item.itemLabel) && sendError(c).None?))
      && |e| <= 3
  {
  }

  /** The events of the leaves run, leaf after leaf. */
  function Blocks(leaves: seq<TestItem>, sendError: string -> Option<string>): seq<Event>
  {
    if leaves == [] then [] else Blocks(leaves[..|leaves| - 1], sendError) + LeafEvents(leaves[|leaves| - 1], sendError)
  }

  lemma {:induction false} BlocksAppend(xs: seq<TestItem>, ys: seq<TestItem>, sendError: string -> Option<string>)
    ensures Blocks(xs + ys, sendError) == Blocks(xs, sendError) + Blocks(ys, sendError)
    decreases |ys|
  {
    if ys == [] {
      assert xs + ys == xs;
    } else {
      var init := ys[..|ys| - 1];
      assert (xs + ys)[..|xs + ys| - 1] == xs + init;
      BlocksAppend(xs, init, sendError);
      Seqs.AppendAssoc(Blocks(xs, sendError), Blocks(init, sendError), LeafEvents(ys[|ys| - 1], sendError));
    }
  }

  // ---------------------------------------------------------------------------------------
  // The schedule: where the checks and the leaves come, before cancellation cuts it short

  /** A step of the walk: a cancellation check, or running one leaf. */
  datatype Step = Check | Run(leaf: TestItem)

  /** The inner loop of runFolder: a check before each scenario. */
  function ScenarioSteps(scenario: TestItem): seq<Step>
  {
    [Check, Run(scenario)]
  }

  function FeatureSteps(feature: TestItem): seq<Step>
  {
    Seqs.FlatMap(feature.children, ScenarioSteps)
  }

  /** runFolder: the scenarios of each feature of the folder, feature after feature. */
  function FolderSteps(folder: TestItem): seq<Step>
  {
    Seqs.FlatMap(folder.children, FeatureSteps)
  }

  /** What the main loop does with a selected item: walk it as a folder if it has children, else run it. */
  function ItemBody(item: TestItem): seq<Step>
  {
    if |item.children| > 0 then FolderSteps(item) else [Run(item)]
  }

  /** The main loop: a check before each selected item. */
  function ItemSteps(item: TestItem): seq<Step>
  {
    [Check] + ItemBody(item)
  }

  function Schedule(tests: seq<TestItem>): seq<Step>
  {
    Seqs.FlatMap(tests, ItemSteps)
  }

  function Checks(steps: seq<Step>): nat
  {
    if steps == [] then 0 else (if steps[0].Check? then 1 else 0) + Checks(steps[1..])
  }

  function RunsOf(steps: seq<Step>): seq<TestItem>
  {
    if steps == [] then [] else (if steps[0].Run? then [steps[0].leaf] else []) + RunsOf(steps[1..])
  }

  /** Walking the steps with the first check numbered c reaches a check that sees the token cancelled. */
  predicate Stops(steps: seq<Step>, token: Token, c: nat)
  {
    if steps == [] then false
    else if steps[0].Check? then Cancelled(token, c) || Stops(steps[1..], token, c + 1)
    else Stops(steps[1..], token, c)
  }

  /**
   * The leaves the walk runs: those before the first check that sees the token cancelled. A check
   * that sees it stops the walk for good, because every later check sees it too.
   */
  function Performed(steps: seq<Step>, token: Token, c: nat): seq<TestItem>
  {
    if steps == [] then []
    else match steps[0]
      case Check => if Cancelled(token, c) then [] else Performed(steps[1..], token, c + 1)
      case Run(leaf) => [leaf] + Performed(steps[1..], token, c)
  }

  /** Checks and scheduled leaves of two pieces of a schedule add up. */
  lemma {:induction false} StepsAppend(xs: seq<Step>, ys: seq<Step>)
    ensures Checks(xs + ys) == Checks(xs) + Checks(ys)
    ensures RunsOf(xs + ys) == RunsOf(xs) + RunsOf(ys)
    decreases |xs|
  {
    if xs == [] {
      Seqs.EmptyAppend(xs, ys);
    } else {
      Seqs.HeadTail(xs, ys);
      StepsAppend(xs[1..], ys);
      if xs[0].Run? {
        Seqs.AppendAssoc([xs[0].leaf], RunsOf(xs[1..]), RunsOf(ys));
      }
    }
  }

  /** Walking two pieces of a schedule: the second piece is walked only if the first did not stop. */
  lemma {:induction false} PerformedAppend(xs: seq<Step>, ys: seq<Step>, token: Token, c: nat)
    ensures Performed(xs + ys, token, c) ==
      Performed(xs, token, c) + if Stops(xs, token, c) then [] else Performed(ys, token, c + Checks(xs))
    ensures Stops(xs + ys, token, c) == (Stops(xs, token, c) || Stops(ys, token, c + Checks(xs)))
    ensures Checks(xs + ys) == Checks(xs) + Checks(ys)
    ensures RunsOf(xs + ys) == RunsOf(xs) + RunsOf(ys)
    decreases |xs|
  {
    StepsAppend(xs, ys);
    if xs == [] {
      Seqs.EmptyAppend(xs, ys);
    } else {
      Seqs.HeadTail(xs, ys);
      var c' := if xs[0].Check? then c + 1 else c;
      PerformedAppend(xs[1..], ys, token, c');
      if xs[0].Run? {
        Seqs.AppendAssoc([xs[0].leaf], Performed(xs[1..], token, c),
          if Stops(xs[1..], token, c) then [] else Performed(ys, token, c + Checks(xs)));
      }
    }
  }

  /** The function describes the walk: once it stops, it runs nothing more. */
  lemma {:induction false} StoppedWalk(xs: seq<Step>, ys: seq<Step>, token: Token, c: nat)
    requires Stops(xs, token, c)
    ensures Performed(xs + ys, token, c) == Performed(xs, token, c) && Stops(xs + ys, token, c)
  {
    PerformedAppend(xs, ys, token, c);
    assert Performed(xs, token, c) + [] == Performed(xs, token, c);
  }

  /** The step at index n is a check, and it sees the token cancelled. */
  predicate CancelledCheckAt(steps: seq<Step>, token: Token, c: nat, n: nat)
  {
    n < |steps| && steps[n].Check? && Cancelled(token, c + Checks(steps[..n]))
  }

  /** A walk that never stops runs every leaf of its steps. */
  lemma {:induction false} UnstoppedRunsAll(steps: seq<Step>, token: Token, c: nat)
    requires !Stops(steps, token, c)
    ensures Performed(steps, token, c) == RunsOf(steps)
    decreases |steps|
  {
    if steps != [] {
      UnstoppedRunsAll(steps[1..], token, if steps[0].Check? then c + 1 else c);
    }
  }

  lemma ChecksShift(steps: seq<Step>, n: nat)
    requires n < |steps|
    ensures Checks(steps[..n + 1]) == (if steps[0].Check? then 1 else 0) + Checks(steps[1..][..n])
  {
    assert steps[..n + 1][1..] == steps[1..][..n];
  }

  /** A check that sees the token cancelled stops the walk. */
  lemma {:induction false} CancelledCheckStops(steps: seq<Step>, token: Token, c: nat, n: nat)
    requires CancelledCheckAt(steps, token, c, n)
    ensures Stops(steps, token, c)
    decreases n
  {
    if n == 0 {
      assert steps[..0] == [];
    } else {
      ChecksShift(steps, n - 1);
      CancelledCheckStops(steps[1..], token, if steps[0].Check? then c + 1 else c, n - 1);
    }
  }

  /** A walk stops only at a check that sees the token cancelled. */
  lemma {:induction false} StopsAtCancelledCheck(steps: seq<Step>, token: Token, c: nat) returns (n: nat)
    requires Stops(steps, token, c)
    ensures CancelledCheckAt(steps, token, c, n)
    decreases |steps|
  {
    assert steps[..0] == [];
    if steps[0].Check? && Cancelled(token, c) {
      n := 0;
    } else {
      var m := StopsAtCancelledCheck(steps[1..], token, if steps[0].Check? then c + 1 else c);
      ChecksShift(steps, m);
      n := m + 1;
    }
  }

  /** The walk stops exactly when one of its checks sees the token cancelled. */
  lemma StopsIffCancelledCheck(steps: seq<Step>, token: Token, c: nat)
    ensures Stops(steps, token, c) <==> exists n: nat :: CancelledCheckAt(steps, token, c, n)
  {
    if Stops(steps, token, c) {
      var n := StopsAtCancelledCheck(steps, token, c);
    } else {
      forall n: nat | CancelledCheckAt(steps, token, c, n) ensures false {
        CancelledCheckStops(steps, token, c, n);
      }
    }
  }

  /**
   * Cutting the walk at the first check that sees the token cancelled: exactly the leaves
   * scheduled before that check run, all of them, in order.
   */
  lemma {:induction false} PerformedCutsAtCancelledCheck(steps: seq<Step>, token: Token, c: nat, n: nat)
    requires CancelledCheckAt(steps, token, c, n)
    requires forall m: nat :: m < n ==> !CancelledCheckAt(steps, token, c, m)
    ensures Performed(steps, token, c) == RunsOf(steps[..n])
  {
    var pre, post := steps[..n], steps[n..];
    assert steps == pre + post;
    StopsIffCancelledCheck(pre, token, c);
    forall m: nat | CancelledCheckAt(pre, token, c, m) ensures false {
      assert pre[..m] == steps[..m];
      assert CancelledCheckAt(steps, token, c, m);
    }
    PerformedAppend(pre, post, token, c);
    UnstoppedRunsAll(pre, token, c);
    assert post[0] == Check;
    assert Performed(post, token, c + Checks(pre)) == [];
    assert RunsOf(pre) + [] == RunsOf(pre);
  }

  /** With no check seeing the token cancelled, every scheduled leaf runs. */
  lemma {:induction false} NoCancelledCheckRunsAll(steps: seq<Step>, token: Token, c: nat)
    requires forall n: nat :: !CancelledCheckAt(steps, token, c, n)
    ensures Performed(steps, token, c) == RunsOf(steps)
  {
    StopsIffCancelledCheck(steps, token, c);
    UnstoppedRunsAll(steps, token, c);
  }

  /** t1 is cancelled no later than t2: every check that sees t2 cancelled sees t1 cancelled. */
  predicate CancelsNoLater(t1: Token, t2: Token)
  {
    t2.CancelledFrom? ==> t1.CancelledFrom? && t1.check <= t2.check
  }

  /** An earlier cancellation runs a prefix of what a later one runs. */
  lemma {:induction false} EarlierCancellationRunsPrefix(steps: seq<Step>, t1: Token, t2: Token, c: nat)
    requires CancelsNoLater(t1, t2)
    ensures Performed(steps, t1, c) <= Performed(steps, t2, c)
    decreases |steps|
  {
    if steps != [] {
      EarlierCancellationRunsPrefix(steps[1..], t1, t2, if steps[0].Check? then c + 1 else c);
    }
  }

  /** The leaves run for an item when nothing is cancelled: its grandchildren if it has children, else itself. */
  function Leaves(item: TestItem): seq<TestItem>
  {
    if |item.children| > 0 then Seqs.FlatMap(item.children, Children) else [item]
  }

  function Children(item: TestItem): seq<TestItem>
  {
    item.children
  }

  lemma LeafStepsRun(x: TestItem)
    ensures RunsOf([Check, Run(x)]) == [x]
  {
    assert [Check, Run(x)][1..] == [Run(x)];
    assert [Run(x)][1..] == [];
    assert RunsOf([Run(x)]) == [x] + [] == [x];
    assert RunsOf([Check, Run(x)]) == [] + RunsOf([Run(x)]);
  }

  /** The inner loop schedules each scenario once, in order. */
  lemma {:induction false} FeatureRuns(scenarios: seq<TestItem>)
    ensures RunsOf(Seqs.FlatMap(scenarios, ScenarioSteps)) == scenarios
    decreases |scenarios|
  {
    if scenarios != [] {
      var init, x := scenarios[..|scenarios| - 1], scenarios[|scenarios| - 1];
      FeatureRuns(init);
      PerformedAppend(Seqs.FlatMap(init, ScenarioSteps), ScenarioSteps(x), NeverCancelled, 0);
      LeafStepsRun(x);
      assert scenarios == init + [x];
    }
  }

  /** A folder walk schedules the scenarios of each feature, feature after feature. */
  lemma {:induction false} FolderRuns(features: seq<TestItem>)
    ensures RunsOf(Seqs.FlatMap(features, FeatureSteps)) == Seqs.FlatMap(features, Children)
    decreases |features|
  {
    if features != [] {
      var init, f := features[..|features| - 1], features[|features| - 1];
      FolderRuns(init);
      PerformedAppend(Seqs.FlatMap(init, FeatureSteps), FeatureSteps(f), NeverCancelled, 0);
      FeatureRuns(f.children);
    }
  }

  /** The main loop schedules the leaves of each selected item, item after item. */
  lemma {:induction false} ScheduleRuns(tests: seq<TestItem>)
    ensures RunsOf(Schedule(tests)) == Seqs.FlatMap(tests, Leaves)
    decreases |tests|
  {
    if tests != [] {
      var init, t := tests[..|tests| - 1], tests[|tests| - 1];
      ScheduleRuns(init);
      PerformedAppend(Schedule(init), ItemSteps(t), NeverCancelled, 0);
      assert ItemSteps(t)[1..] == ItemBody(t);
      if |t.children| > 0 {
        FolderRuns(t.children);
      } else {
        LeafStepsRun(t);
      }
    }
  }

  // ---------------------------------------------------------------------------------------
  // Selection: the included list, or every top-level item whose check is not cancelled

  /** testController.items.forEach with an early `return` on cancellation: one check per item, skipping it if cancelled. */
  function PushUncancelled(items: seq<TestItem>, token: Token, c: nat): seq<TestItem>
  {
    if items == [] then []
    else
      var init := items[..|items| - 1];
      PushUncancelled(init, token, c) + if Cancelled(token, c + |init|) then [] else [items[|items| - 1]]
  }

  /** The requested tests when the request names some, else every top-level item that passed its check. */
  function Selected(included: Option<seq<TestItem>>, items: seq<TestItem>, token: Token, c: nat): seq<TestItem>
  {
    var requested := if included.Some? then included.value else [];
    if |requested| > 0 then requested else PushUncancelled(items, token, c)
  }

  /** How many checks the selection makes. */
  function SelectionChecks(included: Option<seq<TestItem>>, items: seq<TestItem>): nat
  {
    if included.Some? && |included.value| > 0 then 0 else |items|
  }

  /** The leaves the handler runs. */
  function Dispatched(included: Option<seq<TestItem>>, items: seq<TestItem>, token: Token): seq<TestItem>
  {
    Performed(Schedule(Selected(included, items, token, 0)), token, SelectionChecks(included, items))
  }

  /** The whole log of one run: the terminal, the leaves' events, then the `finally` cleanup. */
  function RunEvents(included: Option<seq<TestItem>>, items: seq<TestItem>, token: Token,
                     sendError: string -> Option<string>): seq<Event>
  {
    [CreateTerminal(TerminalName)] + Blocks(Dispatched(included, items, token), sendError) + [Dispose, End]
  }

  /**
   * How many of n items, checked with numbers c, c+1, ..., are pushed: those checked before the
   * token is first seen cancelled.
   */
  function KeptCount(n: nat, token: Token, c: nat): nat
  {
    if token.NeverCancelled? || token.check >= c + n then n
    else if token.check <= c then 0
    else token.check - c
  }

  /**
   * The early `return` of the forEach callback only skips the item at hand, but a cancelled
   * token stays cancelled, so the pushed items are exactly a prefix of the top-level items.
   */
  lemma {:induction false} PushUncancelledIsPrefix(items: seq<TestItem>, token: Token, c: nat)
    ensures KeptCount(|items|, token, c) <= |items|
    ensures PushUncancelled(items, token, c) == items[..KeptCount(|items|, token, c)]
    decreases |items|
  {
    if items == [] {
    } else {
      var n := |items|;
      var init := items[..n - 1];
      PushUncancelledIsPrefix(init, token, c);
      assert init[..KeptCount(n - 1, token, c)] == items[..KeptCount(n - 1, token, c)];
      if Cancelled(token, c + n - 1) {
        assert KeptCount(n, token, c) == KeptCount(n - 1, token, c);
        assert items[..KeptCount(n - 1, token, c)] + [] == items[..KeptCount(n - 1, token, c)];
      } else {
        assert KeptCount(n, token, c) == n && KeptCount(n - 1, token, c) == n - 1;
        assert init + [items[n - 1]] == items[..n];
      }
    }
  }

  /**
   * The selection runs the request's tests when it names any, without a check; otherwise (and
   * an absent list counts as empty) it makes one check per top-level item and keeps those before
   * the first one that sees the token cancelled.
   */
  lemma SelectionShape(included: Option<seq<TestItem>>, items: seq<TestItem>, token: Token, c: nat)
    ensures included.Some? && |included.value| > 0 ==>
      Selected(included, items, token, c) == included.value && SelectionChecks(included, items) == 0
    ensures !(included.Some? && |included.value| > 0) ==>
      && Selected(included, items, token, c) == items[..KeptCount(|items|, token, c)]
      && SelectionChecks(included, items) == |items|
      && Selected(included, items, token, c) == Selected(None, items, token, c)
  {
    PushUncancelledIsPrefix(items, token, c);
  }

  lemma NeverCancelledSeesNothing(steps: seq<Step>, c: nat)
    ensures forall n: nat :: !CancelledCheckAt(steps, NeverCancelled, c, n)
  {
  }

  /** Without cancellation every selected item runs: every leaf of the request, or of every top-level item. */
  lemma NeverCancelledRunsEverything(included: Option<seq<TestItem>>, items: seq<TestItem>)
    ensures var tests := if included.Some? && |included.value| > 0 then included.value else items;
      Dispatched(included, items, NeverCancelled) == Seqs.FlatMap(tests, Leaves)
  {
    SelectionShape(included, items, NeverCancelled, 0);
    assert items[..|items|] == items;
    var steps := Schedule(Selected(included, items, NeverCancelled, 0));
    NeverCancelledSeesNothing(steps, SelectionChecks(included, items));
    NoCancelledCheckRunsAll(steps, NeverCancelled, SelectionChecks(included, items));
    ScheduleRuns(Selected(included, items, NeverCancelled, 0));
  }

  /** A non-empty schedule opens with the check before its first item. */
  lemma ScheduleStartsWithCheck(tests: seq<TestItem>)
    requires tests != []
    ensures |Schedule(tests)| > 0 && Schedule(tests)[0] == Check
  {
    Seqs.FlatMapSplit(tests, 1, ItemSteps);
    Seqs.FlatMapSingle(tests[0], ItemSteps);
    assert tests[..1] == [tests[0]];
  }

  /**
   * A token already cancelled by the time the main loop makes its first check runs nothing: the
   * run only creates the terminal, disposes it and ends.
   */
  lemma CancelledBeforeMainLoop(included: Option<seq<TestItem>>, items: seq<TestItem>, token: Token,
                                sendError: string -> Option<string>)
    requires Cancelled(token, SelectionChecks(included, items))
    ensures Dispatched(included, items, token) == []
    ensures RunEvents(included, items, token, sendError) == [CreateTerminal(TerminalName), Dispose, End]
  {
    var tests := Selected(included, items, token, 0);
    if tests != [] {
      var steps := Schedule(tests);
      ScheduleStartsWithCheck(tests);
      assert steps[..0] == [];
      PerformedCutsAtCancelledCheck(steps, token, SelectionChecks(included, items), 0);
    }
    assert Blocks([], sendError) == [];
  }

  /**
   * An earlier cancellation runs a prefix of the leaves a later one runs: with the selection
   * fixed by the request, or with fewer top-level items kept.
   */
  lemma EarlierCancellationDispatchesPrefix(included: Option<seq<TestItem>>, items: seq<TestItem>, t1: Token, t2: Token)
    requires CancelsNoLater(t1, t2)
    ensures Dispatched(included, items, t1) <= Dispatched(included, items, t2)
  {
    var c := SelectionChecks(included, items);
    var s1, s2 := Selected(included, items, t1, 0), Selected(included, items, t2, 0);
    EarlierCancellationSelectsPrefix(included, items, t1, t2);
    assert s2[..|s1|] == s1;
    Seqs.FlatMapPrefix(s2, |s1|, ItemSteps);
    PerformedOfPrefix(Schedule(s1), Schedule(s2), t1, c);
    EarlierCancellationRunsPrefix(Schedule(s2), t1, t2, c);
  }

  lemma EarlierCancellationSelectsPrefix(included: Option<seq<TestItem>>, items: seq<TestItem>, t1: Token, t2: Token)
    requires CancelsNoLater(t1, t2)
    ensures Selected(included, items, t1, 0) <= Selected(included, items, t2, 0)
  {
    SelectionShape(included, items, t1, 0);
    SelectionShape(included, items, t2, 0);
    var k1, k2 := KeptCount(|items|, t1, 0), KeptCount(|items|, t2, 0);
    assert k1 <= k2;
    assert items[..k2][..k1] == items[..k1];
  }

  /** Walking a prefix of the steps runs a prefix of the leaves. */
  lemma PerformedOfPrefix(xs: seq<Step>, ys: seq<Step>, token: Token, c: nat)
    requires xs <= ys
    ensures Performed(xs, token, c) <= Performed(ys, token, c)
  {
    assert ys == xs + ys[|xs|..];
    PerformedAppend(xs, ys[|xs|..], token, c);
  }

  /** What would be run with no cancellation bounds what is run: the run is always a prefix of it. */
  lemma {:induction false} PerformedIsPrefixOfRuns(steps: seq<Step>, token: Token, c: nat)
    ensures Performed(steps, token, c) <= RunsOf(steps)
    decreases |steps|
  {
    if steps != [] {
      PerformedIsPrefixOfRuns(steps[1..], token, if steps[0].Check? then c + 1 else c);
    }
  }

  /** Whatever the token does, the handler runs a prefix of the selected items' leaves. */
  lemma DispatchedIsPrefixOfLeaves(included: Option<seq<TestItem>>, items: seq<TestItem>, token: Token)
    ensures Dispatched(included, items, token) <= Seqs.FlatMap(Selected(included, items, token, 0), Leaves)
  {
    var tests := Selected(included, items, token, 0);
    PerformedIsPrefixOfRuns(Schedule(tests), token, SelectionChecks(included, items));
    ScheduleRuns(tests);
  }

  /** A feature node: it has children, none of which has children. */
  predicate IsFeatureShaped(t: TestItem)
  {
    |t.children| > 0 && forall x <- t.children :: x.children == []
  }

  /** The folder walk only looks two levels down, so a feature node runs nothing. */
  lemma FeatureNodeRunsNothing(t: TestItem)
    requires IsFeatureShaped(t)
    ensures Leaves(t) == []
  {
    Seqs.FlatMapEmpty(t.children, Children);
  }

  /** A selection made only of feature nodes runs nothing at all. */
  lemma FeatureNodesRunNothing(included: Option<seq<TestItem>>, items: seq<TestItem>, token: Token)
    requires forall t <- Selected(included, items, token, 0) :: IsFeatureShaped(t)
    ensures Dispatched(included, items, token) == []
  {
    var sel := Selected(included, items, token, 0);
    forall t <- sel ensures Leaves(t) == [] {
      FeatureNodeRunsNothing(t);
    }
    Seqs.FlatMapEmpty(sel, Leaves);
    DispatchedIsPrefixOfLeaves(included, items, token);
  }

  /** Where a leaf of a discovered tree comes from: a scenario node of a feature file in a test folder, or a test folder without feature files. */
  predicate FromDiscovery(leaf: TestItem, listing: seq<FolderEntry>)
  {
    exists entry <- listing :: IsTestFolder(entry) &&
      ((leaf == FolderItem(entry) && FolderItem(entry).children == []) ||
       exists file <- entry.entries :: IsFeatureFile(file) && leaf in FeatureItem(file).children)
  }

  /**
   * With nothing requested, every leaf the handler runs from a discovered tree is such a node,
   * and has a location, so it never fails for want of one.
   */
  lemma DiscoveredLeaves(listing: seq<FolderEntry>, token: Token)
    ensures forall leaf <- Dispatched(None, CreateTestItems(listing), token) ::
      leaf.uri.Some? && FromDiscovery(leaf, listing)
  {
    var items := CreateTestItems(listing);
    var sel := Selected(None, items, token, 0);
    var d := Dispatched(None, items, token);
    DispatchedIsPrefixOfLeaves(None, items, token);
    SelectionShape(None, items, token, 0);
    forall leaf <- d ensures leaf.uri.Some? && FromDiscovery(leaf, listing) {
      var i :| 0 <= i < |d| && d[i] == leaf;
      assert Seqs.FlatMap(sel, Leaves)[i] == leaf;
      Seqs.FlatMapMember(sel, Leaves, leaf);
      var t :| t in sel && leaf in Leaves(t);
      assert t in items;
      var entry :| entry in listing && IsTestFolder(entry) && t == FolderItem(entry);
      LeafOfFolder(entry, leaf);
    }
  }

  lemma LeafOfFolder(entry: FolderEntry, leaf: TestItem)
    requires leaf in Leaves(FolderItem(entry))
    ensures leaf.uri.Some?
    ensures (leaf == FolderItem(entry) && FolderItem(entry).children == []) ||
      exists file <- entry.entries :: IsFeatureFile(file) && leaf in FeatureItem(file).children
  {
    var t := FolderItem(entry);
    if |t.children| > 0 {
      Seqs.FlatMapMember(t.children, Children, leaf);
      var f :| f in t.children && leaf in f.children;
      var file :| file in entry.entries && IsFeatureFile(file) && f == FeatureItem(file);
      ScenarioNodes(file);
    }
  }

  // ---------------------------------------------------------------------------------------
  // The shape of the log

  /** The events a leaf contributes. */
  predicate IsLeafEvent(e: Event)
  {
    e.Started? || e.Send? || e.Passed? || e.Failed?
  }

  /** The items of the `started` events, in order. */
  function StartedItems(events: seq<Event>): seq<TestItem>
  {
    if events == [] then []
    else
      var e := events[|events| - 1];
      StartedItems(events[..|events| - 1]) + if e.Started? then [e.item] else []
  }

  /** The items of the `passed` and `failed` events, in order. */
  function FinishedItems(events: seq<Event>): seq<TestItem>
  {
    if events == [] then []
    else
      var e := events[|events| - 1];
      FinishedItems(events[..|events| - 1]) + if e.Passed? || e.Failed? then [e.item] else []
  }

  lemma {:induction false} ReportsAppend(xs: seq<Event>, ys: seq<Event>)
    ensures StartedItems(xs + ys) == StartedItems(xs) + StartedItems(ys)
    ensures FinishedItems(xs + ys) == FinishedItems(xs) + FinishedItems(ys)
    decreases |ys|
  {
    if ys == [] {
      assert xs + ys == xs;
    } else {
      var init, e := ys[..|ys| - 1], ys[|ys| - 1];
      assert (xs + ys)[..|xs + ys| - 1] == xs + init;
      ReportsAppend(xs, init);
      var s, f := if e.Started? then [e.item] else [], if e.Passed? || e.Failed? then [e.item] else [];
      Seqs.AppendAssoc(StartedItems(xs), StartedItems(init), s);
      Seqs.AppendAssoc(FinishedItems(xs), FinishedItems(init), f);
    }
  }

  lemma SingleReports(e: Event)
    ensures StartedItems([e]) == if e.Started? then [e.item] else []
    ensures FinishedItems([e]) == if e.Passed? || e.Failed? then [e.item] else []
  {
    assert [e][..0] == [];
  }

  /** A leaf is reported started once and finished once. */
  lemma LeafReports(item: TestItem, sendError: string -> Option<string>)
    ensures StartedItems(LeafEvents(item, sendError)) == [item]
    ensures FinishedItems(LeafEvents(item, sendError)) == [item]
  {
    var tail := LeafEvents(item, sendError)[1..];
    assert LeafEvents(item, sendError) == [Started(item)] + tail;
    ReportsAppend([Started(item)], tail);
    SingleReports(Started(item));
    if |tail| == 1 {
      SingleReports(tail[0]);
      assert tail == [tail[0]];
    } else {
      assert tail == [tail[0]] + [tail[1]];
      ReportsAppend([tail[0]], [tail[1]]);
      SingleReports(tail[0]);
      SingleReports(tail[1]);
    }
  }

  /** The leaves' events report every leaf started and finished, in the order run. */
  lemma {:induction false} BlocksReports(leaves: seq<TestItem>, sendError: string -> Option<string>)
    ensures StartedItems(Blocks(leaves, sendError)) == leaves
    ensures FinishedItems(Blocks(leaves, sendError)) == leaves
    decreases |leaves|
  {
    if leaves != [] {
      var init, x := leaves[..|leaves| - 1], leaves[|leaves| - 1];
      BlocksReports(init, sendError);
      LeafReports(x, sendError);
      ReportsStep(Blocks(init, sendError), LeafEvents(x, sendError), init, x);
      Seqs.LastSplit(leaves);
    }
  }

  lemma ReportsStep(b: seq<Event>, l: seq<Event>, init: seq<TestItem>, x: TestItem)
    requires StartedItems(b) == init && FinishedItems(b) == init
    requires StartedItems(l) == [x] && FinishedItems(l) == [x]
    ensures StartedItems(b + l) == init + [x] && FinishedItems(b + l) == init + [x]
  {
    ReportsAppend(b, l);
  }

  /** The leaves' events hold nothing but leaf events. */
  lemma {:induction false} BlocksAreLeafEvents(leaves: seq<TestItem>, sendError: string -> Option<string>)
    ensures forall e <- Blocks(leaves, sendError) :: IsLeafEvent(e)
    decreases |leaves|
  {
    if leaves != [] {
      BlocksAreLeafEvents(leaves[..|leaves| - 1], sendError);
      LeafOutcome(leaves[|leaves| - 1], sendError);
    }
  }

  lemma Framed(b: seq<Event>)
    requires forall e <- b :: IsLeafEvent(e)
    ensures var r := [CreateTerminal(TerminalName)] + b + [Dispose, End];
      && |r| >= 3 && r[0] == CreateTerminal(TerminalName) && r[|r| - 2] == Dispose && r[|r| - 1] == End
      && (forall k :: 0 < k < |r| - 2 ==> IsLeafEvent(r[k]))
      && StartedItems(r) == StartedItems(b) && FinishedItems(r) == FinishedItems(b)
  {
    FramedIndices(CreateTerminal(TerminalName), b, [Dispose, End]);
    FramedReports(b);
  }

  lemma FramedIndices(first: Event, b: seq<Event>, last: seq<Event>)
    ensures var r := [first] + b + last;
      && r[0] == first && (forall k :: 0 < k <= |b| ==> r[k] == b[k - 1])
      && forall k :: 0 <= k < |last| ==> r[1 + |b| + k] == last[k]
  {
  }

  lemma FramedReports(b: seq<Event>)
    ensures StartedItems([CreateTerminal(TerminalName)] + b + [Dispose, End]) == [] + StartedItems(b) + []
    ensures FinishedItems([CreateTerminal(TerminalName)] + b + [Dispose, End]) == [] + FinishedItems(b) + []
  {
    ReportsAppend([CreateTerminal(TerminalName)], b);
    ReportsAppend([CreateTerminal(TerminalName)] + b, [Dispose, End]);
    SingleReports(CreateTerminal(TerminalName));
    ReportsAppend([Dispose], [End]);
    SingleReports(Dispose);
    SingleReports(End);
    assert [Dispose] + [End] == [Dispose, End];
  }

  /**
   * A run creates the terminal first, disposes it and ends the run last, each exactly once, and
   * in between reports every leaf it runs started and finished, in order.
   */
  lemma RunEventsShape(included: Option<seq<TestItem>>, items: seq<TestItem>, token: Token,
                       sendError: string -> Option<string>)
    ensures var r, d := RunEvents(included, items, token, sendError), Dispatched(included, items, token);
      && |r| >= 3 && r[0] == CreateTerminal(TerminalName) && r[|r| - 2] == Dispose && r[|r| - 1] == End
      && (forall k :: 0 < k < |r| - 2 ==> IsLeafEvent(r[k]))
      && StartedItems(r) == d && FinishedItems(r) == d
  {
    var d := Dispatched(included, items, token);
    BlocksReports(d, sendError);
    BlocksAreLeafEvents(d, sendError);
    Framed(Blocks(d, sendError));
  }

  // ---------------------------------------------------------------------------------------
  // The host objects and the source's loops

  /** The test run, its terminal and the cancellation token, as the handler uses them. */
  class Session {
    var log: seq<Event>
    /** How many cancellation checks the handler has made. */
    var checks: nat
    const token: Token
    /** What sending a command throws, if anything. */
    const sendError: string -> Option<string>

    constructor (token: Token, sendError: string -> Option<string>)
      ensures this.token == token && this.sendError == sendError
      ensures log == [] && checks == 0
    {
      this.token := token;
      this.sendError := sendError;
      log := [];
      checks := 0;
    }

    /** createTerminal, run.started, run.passed, run.failed, terminal.dispose and run.end: one event each. */
    method Record(e: Event)
      modifies this
      ensures log == old(log) + [e] && checks == old(checks)
    {
      log := log + [e];
    }

    /** token.isCancellationRequested: the answer for the next check. */
    method IsCancellationRequested() returns (cancelled: bool)
      modifies this
      ensures cancelled == Cancelled(token, old(checks))
      ensures checks == old(checks) + 1 && log == old(log)
    {
      cancelled := Cancelled(token, checks);
      checks := checks + 1;
    }

    /** terminal.sendText: either throws with a message, or sends the command. */
    method SendText(command: string) returns (error: Option<string>)
      modifies this
      ensures error == sendError(command) && checks == old(checks)
      ensures log == old(log) + if error.None? then [Send(command)] else []
    {
      error := sendError(command);
      if error.None? {
        log := log + [Send(command)];
      }
    }
  }

  /** runTestItem. */
  method RunTestItem(session: Session, item: TestItem)
    modifies session
    ensures session.log == old(session.log) + LeafEvents(item, session.sendError)
    ensures session.checks == old(session.checks)
  {
    session.Record(Started(item));
    match item.uri {
      case None =>
        session.Record(Failed(item, MissingUriMessage));
      case Some(path) =>
        var command := Command(path, item.itemLabel);
        var error := session.SendText(command);
        if error.None? {
          session.Record(Passed(item));
        } else {
          session.Record(Failed(item, error.value));
        }
    }
  }

  /**
   * The state after walking the steps `done` from log0 with first check number c0: the log holds
   * the events of the leaves performed, and the check count is exact until the walk stops, after
   * which every further check sees the token cancelled.
   */
  predicate Walked(log: seq<Event>, checks: nat, log0: seq<Event>, c0: nat, done: seq<Step>,
                   token: Token, sendError: string -> Option<string>)
  {
    && log == log0 + Blocks(Performed(done, token, c0), sendError)
    && (if Stops(done, token, c0) then Cancelled(token, checks) else checks == c0 + Checks(done))
  }

  lemma {:induction false} WalkCheck(log: seq<Event>, checks: nat, log0: seq<Event>, c0: nat, done: seq<Step>,
                                     token: Token, sendError: string -> Option<string>)
    requires Walked(log, checks, log0, c0, done, token, sendError)
    ensures Walked(log, checks + 1, log0, c0, done + [Check], token, sendError)
    ensures Stops(done + [Check], token, c0) <==> Cancelled(token, checks)
  {
    PerformedAppend(done, [Check], token, c0);
    var k := c0 + Checks(done);
    assert [Check][1..] == [];
    assert Performed([Check], token, k) == [];
    assert Stops([Check], token, k) == Cancelled(token, k);
    var p := Performed(done, token, c0);
    assert p + [] == p;
    assert Performed(done + [Check], token, c0) == p;
  }

  lemma {:induction false} WalkRun(log: seq<Event>, checks: nat, log0: seq<Event>, c0: nat, done: seq<Step>,
                                   token: Token, sendError: string -> Option<string>, leaf: TestItem)
    requires Walked(log, checks, log0, c0, done, token, sendError) && !Stops(done, token, c0)
    ensures Walked(log + LeafEvents(leaf, sendError), checks, log0, c0, done + [Run(leaf)], token, sendError)
  {
    PerformedAppend(done, [Run(leaf)], token, c0);
    RunOnly(leaf, token, c0 + Checks(done));
    var p := Performed(done, token, c0);
    BlocksSnoc(p, leaf, sendError);
    Seqs.AppendAssoc(log0, Blocks(p, sendError), LeafEvents(leaf, sendError));
  }

  lemma RunOnly(leaf: TestItem, token: Token, c: nat)
    ensures Performed([Run(leaf)], token, c) == [leaf] && !Stops([Run(leaf)], token, c) && Checks([Run(leaf)]) == 0
  {
    assert [Run(leaf)][1..] == [];
  }

  lemma BlocksSnoc(p: seq<TestItem>, leaf: TestItem, sendError: string -> Option<string>)
    ensures Blocks(p + [leaf], sendError) == Blocks(p, sendError) + LeafEvents(leaf, sendError)
  {
    assert (p + [leaf])[..|p|] == p;
  }

  lemma {:induction false} WalkSkip(log: seq<Event>, checks: nat, log0: seq<Event>, c0: nat, done: seq<Step>,
                                    token: Token, sendError: string -> Option<string>, rest: seq<Step>)
    requires Walked(log, checks, log0, c0, done, token, sendError) && Stops(done, token, c0)
    ensures Walked(log, checks, log0, c0, done + rest, token, sendError)
  {
    StoppedWalk(done, rest, token, c0);
  }

  lemma {:induction false} WalkCompose(log0: seq<Event>, c0: nat, xs: seq<Step>, log1: seq<Event>, c1: nat,
                                       ys: seq<Step>, log2: seq<Event>, c2: nat,
                                       token: Token, sendError: string -> Option<string>)
    requires Walked(log1, c1, log0, c0, xs, token, sendError) && !Stops(xs, token, c0)
    requires Walked(log2, c2, log1, c1, ys, token, sendError)
    ensures Walked(log2, c2, log0, c0, xs + ys, token, sendError)
  {
    PerformedAppend(xs, ys, token, c0);
    BlocksAppend(Performed(xs, token, c0), Performed(ys, token, c1), sendError);
    Seqs.AppendAssoc(log0, Blocks(Performed(xs, token, c0), sendError), Blocks(Performed(ys, token, c1), sendError));
  }

  /** The steps of the first n elements and of one more. */
  lemma FlatMapNext<A>(xs: seq<A>, n: nat, f: A -> seq<Step>)
    requires n < |xs|
    ensures Seqs.FlatMap(xs[..n + 1], f) == Seqs.FlatMap(xs[..n], f) + f(xs[n])
  {
    assert xs[..n + 1][..n] == xs[..n];
  }

  /** runFolder: each feature of the folder in turn, each of its scenarios after a check; a cancelled check leaves the feature. */
  method RunFolder(session: Session, folder: TestItem)
    modifies session
    ensures Walked(session.log, session.checks, old(session.log), old(session.checks), FolderSteps(folder),
                   session.token, session.sendError)
  {
    ghost var log0, c0 := session.log, session.checks;
    var features := folder.children;
    NothingYet(features, FeatureSteps);
    for i := 0 to |features|
      invariant Walked(session.log, session.checks, log0, c0, Seqs.FlatMap(features[..i], FeatureSteps),
                       session.token, session.sendError)
    {
      var feature := features[i];
      ghost var pre := Seqs.FlatMap(features[..i], FeatureSteps);
      FlatMapNext(features, i, FeatureSteps);
      var scenarios := feature.children;
      NothingYet(scenarios, ScenarioSteps);
      Seqs.AppendEmpty(pre, Seqs.FlatMap(scenarios[..0], ScenarioSteps));
      for j := 0 to |scenarios|
        invariant Walked(session.log, session.checks, log0, c0, pre + Seqs.FlatMap(scenarios[..j], ScenarioSteps),
                         session.token, session.sendError)
      {
        ghost var done := pre + Seqs.FlatMap(scenarios[..j], ScenarioSteps);
        FlatMapNext(scenarios, j, ScenarioSteps);
        WalkCheck(session.log, session.checks, log0, c0, done, session.token, session.sendError);
        var cancelled := session.IsCancellationRequested();
        if cancelled {
          FeatureAfterCheck(pre, scenarios, j);
          WalkSkip(session.log, session.checks, log0, c0, done + [Check], session.token, session.sendError,
                   [Run(scenarios[j])] + Seqs.FlatMap(scenarios[j + 1..], ScenarioSteps));
          assert Walked(session.log, session.checks, log0, c0, pre + FeatureSteps(feature), session.token, session.sendError);
          break;
        }
        WalkRun(session.log, session.checks, log0, c0, done + [Check], session.token, session.sendError, scenarios[j]);
        RunTestItem(session, scenarios[j]);
        Seqs.AppendPair(pre, Seqs.FlatMap(scenarios[..j], ScenarioSteps), Check, Run(scenarios[j]));
      }
      AllDone(scenarios, ScenarioSteps);
      assert Walked(session.log, session.checks, log0, c0, pre + FeatureSteps(feature), session.token, session.sendError);
    }
    AllDone(features, FeatureSteps);
  }

  lemma NothingYet<A>(xs: seq<A>, f: A -> seq<Step>)
    ensures Seqs.FlatMap(xs[..0], f) == []
  {
    assert xs[..0] == [];
  }

  lemma AllDone<A>(xs: seq<A>, f: A -> seq<Step>)
    ensures Seqs.FlatMap(xs[..|xs|], f) == Seqs.FlatMap(xs, f)
  {
    assert xs[..|xs|] == xs;
  }

  /** The steps of a feature around its j-th check. */
  lemma FeatureAfterCheck(pre: seq<Step>, scenarios: seq<TestItem>, j: nat)
    requires j < |scenarios|
    ensures pre + Seqs.FlatMap(scenarios[..j], ScenarioSteps) + [Check] +
      ([Run(scenarios[j])] + Seqs.FlatMap(scenarios[j + 1..], ScenarioSteps)) ==
      pre + Seqs.FlatMap(scenarios, ScenarioSteps)
  {
    var a, r := Seqs.FlatMap(scenarios[..j], ScenarioSteps), Seqs.FlatMap(scenarios[j + 1..], ScenarioSteps);
    Seqs.FlatMapSplit(scenarios, j + 1, ScenarioSteps);
    FlatMapNext(scenarios, j, ScenarioSteps);
    Seqs.RegroupPair(pre, a, Check, Run(scenarios[j]), r);
  }

  /** The main loop's steps around the check before its i-th item. */
  lemma ItemAfterCheck(tests: seq<TestItem>, i: nat)
    requires i < |tests|
    ensures Seqs.FlatMap(tests[..i], ItemSteps) + [Check] + (ItemBody(tests[i]) + Seqs.FlatMap(tests[i + 1..], ItemSteps)) ==
      Seqs.FlatMap(tests, ItemSteps)
  {
    var a, r := Seqs.FlatMap(tests[..i], ItemSteps), Seqs.FlatMap(tests[i + 1..], ItemSteps);
    Seqs.FlatMapSplit(tests, i + 1, ItemSteps);
    FlatMapNext(tests, i, ItemSteps);
    Seqs.Regroup(a, Check, ItemBody(tests[i]), r);
  }

  /** The selection: the request's tests, or, one check each, every top-level item not met by a cancelled check. */
  method SelectTests(session: Session, included: Option<seq<TestItem>>, items: seq<TestItem>)
    returns (testsToRun: seq<TestItem>)
    modifies session
    ensures testsToRun == Selected(included, items, session.token, old(session.checks))
    ensures session.checks == old(session.checks) + SelectionChecks(included, items)
    ensures session.log == old(session.log)
  {
    ghost var c0 := session.checks;
    testsToRun := if included.Some? then included.value else [];
    if |testsToRun| == 0 {
      assert items[..0] == [];
      for k := 0 to |items|
        invariant testsToRun == PushUncancelled(items[..k], session.token, c0)
        invariant session.checks == c0 + k && session.log == old(session.log)
      {
        assert items[..k + 1][..k] == items[..k];
        var cancelled := session.IsCancellationRequested();
        if !cancelled {
          testsToRun := testsToRun + [items[k]];
        }
      }
      assert items[..|items|] == items;
    }
  }

  /**
   * runHandler: create the terminal, select the tests, walk them with a check before each one,
   * and in every case dispose the terminal and end the run. The log is exactly `RunEvents`.
   */
  method RunHandler(included: Option<seq<TestItem>>, items: seq<TestItem>, token: Token,
                    sendError: string -> Option<string>) returns (log: seq<Event>)
    ensures log == RunEvents(included, items, token, sendError)
  {
    var session := new Session(token, sendError);
    session.Record(CreateTerminal(TerminalName));
    var testsToRun := SelectTests(session, included, items);
    ghost var log0, c0 := session.log, session.checks;
    assert log0 == [CreateTerminal(TerminalName)] && c0 == SelectionChecks(included, items);
    assert testsToRun == Selected(included, items, token, 0);
    NothingYet(testsToRun, ItemSteps);
    Seqs.AppendEmpty(log0, Blocks([], sendError));
    for i := 0 to |testsToRun|
      invariant Walked(session.log, session.checks, log0, c0, Seqs.FlatMap(testsToRun[..i], ItemSteps), token, sendError)
    {
      ghost var done := Seqs.FlatMap(testsToRun[..i], ItemSteps);
      FlatMapNext(testsToRun, i, ItemSteps);
      WalkCheck(session.log, session.checks, log0, c0, done, token, sendError);
      var cancelled := session.IsCancellationRequested();
      if cancelled {
        ItemAfterCheck(testsToRun, i);
        WalkSkip(session.log, session.checks, log0, c0, done + [Check], token, sendError,
                 ItemBody(testsToRun[i]) + Seqs.FlatMap(testsToRun[i + 1..], ItemSteps));
        assert Walked(session.log, session.checks, log0, c0, Seqs.FlatMap(testsToRun, ItemSteps), token, sendError);
        break;
      }
      var testItem := testsToRun[i];
      if |testItem.children| > 0 {
        ghost var log1, c1 := session.log, session.checks;
        RunFolder(session, testItem);
        WalkCompose(log0, c0, done + [Check], log1, c1, FolderSteps(testItem), session.log, session.checks, token, sendError);
      } else {
        WalkRun(session.log, session.checks, log0, c0, done + [Check], token, sendError, testItem);
        RunTestItem(session, testItem);
      }
      Seqs.AppendAssoc(done, [Check], ItemBody(testItem));
    }
    AllDone(testsToRun, ItemSteps);
    assert session.log == log0 + Blocks(Dispatched(included, items, token), sendError);
    ghost var body := session.log;
    session.Record(Dispose);
    session.Record(End);
    log := session.log;
    Seqs.SnocPair(body, Dispose, End);
  }
}
