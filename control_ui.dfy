/**
 * Program authoring in the control panel: the handlers that edit the
 * per-rover action lists (append with a cap, delete one, clear all), the
 * selection of the rover being programmed (by its button or by clicking the
 * rover), the gate in front of Execute, and the grouping of consecutive equal
 * commands into the runs the panel displays.
 */
module ControlUi {
  import opened Wrappers
  import opened Actions
  import Level
  import Rovers

  /** No rover's list grows past this many commands. */
  const MaxCommands: nat := 12000

  /** The panel's list of rover colours has six entries. */
  const UiRoverColorCount: nat := 6

  /** The game's 64-bit `usize` range, for the cast of a button's `i32` index. */
  const UsizeModulus: int := 0x1_0000_0000_0000_0000

  /** Bevy's button interaction states (Bevy's Interaction::None is NotInteracted). */
  datatype Interaction = Pressed | Hovered | NotInteracted

  /** The game states the panel looks at. */
  datatype GameState = TitleScreen | Programming | Execution

  /** A displayed group of equal consecutive commands: its last index in the list, its length, its type. */
  datatype Run = Run(lastIndex: nat, count: nat, kind: ActionType)

  /** The two indices a delete button carries. */
  datatype DeleteButton = DeleteButton(roverIndex: nat, actionIndex: nat)

  /** A rover of the scene, with the entity hierarchy below it. */
  datatype Entity = Entity(id: nat, children: seq<Entity>)
  datatype ClickableRover = ClickableRover(identifier: nat, entity: Entity)

  // ---------------------------------------------------------------------------
  // List edits as values

  /** No list exceeds the cap. */
  ghost predicate Capped(actions: seq<seq<Action>>)
  {
    forall r :: 0 <= r < |actions| ==> |actions[r]| <= MaxCommands
  }

  /** A press of a command button: append to the selected list, if it exists and has room. */
  function Appended(actions: seq<seq<Action>>, sel: nat, kind: ActionType): (a: seq<seq<Action>>)
    ensures |a| == |actions|
    ensures forall r :: 0 <= r < |actions| && r != sel ==> a[r] == actions[r]
    ensures sel < |actions| && |actions[sel]| < MaxCommands ==> a[sel] == actions[sel] + [Action(kind, sel)]
    ensures sel < |actions| && |actions[sel]| >= MaxCommands ==> a[sel] == actions[sel]
  {
    if sel < |actions| && |actions[sel]| < MaxCommands then actions[sel := actions[sel] + [Action(kind, sel)]] else actions
  }

  /** The types of the commands pressed, in order. */
  function PressedKinds(presses: seq<(Interaction, ActionType)>): (kinds: seq<ActionType>)
    ensures |kinds| <= |presses|
  {
    if presses == [] then []
    else
      var n := |presses| - 1;
      PressedKinds(presses[..n]) + (if presses[n].0 == Pressed then [presses[n].1] else [])
  }

  /** Several presses, in order. */
  function AppendedAll(actions: seq<seq<Action>>, sel: nat, kinds: seq<ActionType>): (a: seq<seq<Action>>)
    ensures |a| == |actions|
  {
    if kinds == [] then actions
    else
      var n := |kinds| - 1;
      Appended(AppendedAll(actions, sel, kinds[..n]), sel, kinds[n])
  }

  /** The actions for `kinds`, all addressed to rover `sel`. */
  function Tagged(kinds: seq<ActionType>, sel: nat): (t: seq<Action>)
    ensures |t| == |kinds| && forall k :: 0 <= k < |kinds| ==> t[k] == Action(kinds[k], sel)
  {
    seq(|kinds|, k requires 0 <= k < |kinds| => Action(kinds[k], sel))
  }

  function Min(a: int, b: int): int { if a < b then a else b }

  /**
   * The cap in closed form: presses append to the selected list until it holds
   * MaxCommands commands; the rest are dropped; the other lists never change.
   */
  lemma {:induction false} AppendedAllIsCapped(actions: seq<seq<Action>>, sel: nat, kinds: seq<ActionType>)
    requires sel < |actions| && |actions[sel]| <= MaxCommands
    ensures var a := AppendedAll(actions, sel, kinds);
      && (forall r :: 0 <= r < |actions| && r != sel ==> a[r] == actions[r])
      && a[sel] == actions[sel] + Tagged(kinds[..Min(|kinds|, MaxCommands - |actions[sel]|)], sel)
  {
    if kinds != [] {
      var n := |kinds| - 1;
      AppendedAllIsCapped(actions, sel, kinds[..n]);
      var room := MaxCommands - |actions[sel]|;
      assert kinds[..n][..Min(n, room)] == kinds[..Min(n, room)];
      if n < room {
        assert kinds[..Min(|kinds|, room)] == kinds[..Min(n, room)] + [kinds[n]];
      }
    }
  }

  /** Presses for a selection that has no list change nothing. */
  lemma {:induction false} AppendedAllMissing(actions: seq<seq<Action>>, sel: nat, kinds: seq<ActionType>)
    requires sel >= |actions|
    ensures AppendedAll(actions, sel, kinds) == actions
  {
    if kinds != [] {
      AppendedAllMissing(actions, sel, kinds[..|kinds| - 1]);
    }
  }

  /** A press of a delete button: remove exactly one command, keeping the order of the rest. */
  function Removed(actions: seq<seq<Action>>, rover: nat, index: nat): (a: seq<seq<Action>>)
    requires rover < |actions| && index < |actions[rover]|
    ensures |a| == |actions|
    ensures forall r :: 0 <= r < |actions| && r != rover ==> a[r] == actions[r]
    ensures |a[rover]| == |actions[rover]| - 1
    ensures forall k :: 0 <= k < index ==> a[rover][k] == actions[rover][k]
    ensures forall k :: index <= k < |a[rover]| ==> a[rover][k] == actions[rover][k + 1]
  {
    actions[rover := actions[rover][..index] + actions[rover][index + 1..]]
  }

  /** The removed command is the only one missing. */
  lemma RemovedMultiset(actions: seq<seq<Action>>, rover: nat, index: nat)
    requires rover < |actions| && index < |actions[rover]|
    ensures multiset(Removed(actions, rover, index)[rover]) + multiset{actions[rover][index]} == multiset(actions[rover])
  {
    var l := actions[rover];
    assert l == l[..index] + [l[index]] + l[index + 1..];
  }

  function PressedDeletes(presses: seq<(Interaction, DeleteButton)>): seq<DeleteButton>
  {
    if presses == [] then []
    else
      var n := |presses| - 1;
      PressedDeletes(presses[..n]) + (if presses[n].0 == Pressed then [presses[n].1] else [])
  }

  /** Each delete, after the ones before it, names an existing list and an existing command. */
  predicate DeletesDefined(actions: seq<seq<Action>>, deletes: seq<DeleteButton>)
    decreases |deletes|, 0
  {
    deletes == [] ||
      var n := |deletes| - 1;
      DeletesDefined(actions, deletes[..n]) &&
        var a := RemovedAll(actions, deletes[..n]);
        deletes[n].roverIndex < |a| && deletes[n].actionIndex < |a[deletes[n].roverIndex]|
  }

  function RemovedAll(actions: seq<seq<Action>>, deletes: seq<DeleteButton>): (a: seq<seq<Action>>)
    requires DeletesDefined(actions, deletes)
    ensures |a| == |actions|
    decreases |deletes|, 1
  {
    if deletes == [] then actions
    else
      var n := |deletes| - 1;
      Removed(RemovedAll(actions, deletes[..n]), deletes[n].roverIndex, deletes[n].actionIndex)
  }

  lemma {:induction false} DeletesPrefix(actions: seq<seq<Action>>, deletes: seq<DeleteButton>, i: nat)
    requires DeletesDefined(actions, deletes) && i <= |deletes|
    ensures DeletesDefined(actions, deletes[..i])
    decreases |deletes|
  {
    if i < |deletes| {
      var n := |deletes| - 1;
      DeletesPrefix(actions, deletes[..n], i);
      assert deletes[..n][..i] == deletes[..i];
    } else {
      assert deletes[..i] == deletes;
    }
  }

  /** The clear button: every list emptied, the number of lists kept. */
  function Cleared(actions: seq<seq<Action>>): (a: seq<seq<Action>>)
    ensures |a| == |actions| && forall r :: 0 <= r < |a| ==> a[r] == []
  {
    seq(|actions|, r => [])
  }

  /** Every list is empty (the game's has_no_actions). */
  function HasNoActions(actions: seq<seq<Action>>): (b: bool)
    ensures b <==> forall r :: 0 <= r < |actions| ==> actions[r] == []
  {
    actions == [] || (actions[0] == [] && HasNoActions(actions[1..]))
  }

  /** Some list is not empty (the game's has_commands, which shows the clear button). */
  function HasCommands(actions: seq<seq<Action>>): (b: bool)
    ensures b <==> exists r :: 0 <= r < |actions| && actions[r] != []
  {
    actions != [] && (actions[0] != [] || HasCommands(actions[1..]))
  }

  /** The clear button is shown exactly when Execute is allowed. */
  lemma ClearShownIffExecutable(actions: seq<seq<Action>>)
    ensures HasCommands(actions) <==> !HasNoActions(actions)
  {
  }

  /** After clearing, Execute is refused. */
  lemma ClearedHasNoActions(actions: seq<seq<Action>>)
    ensures HasNoActions(Cleared(actions)) && !HasCommands(Cleared(actions))
  {
  }

  // ---------------------------------------------------------------------------
  // The invariant the edits keep: every action sits in its rover's list, and no list passes the cap

  lemma AppendedKeeps(actions: seq<seq<Action>>, sel: nat, kind: ActionType)
    requires WellTagged(actions) && Capped(actions)
    ensures WellTagged(Appended(actions, sel, kind)) && Capped(Appended(actions, sel, kind))
  {
    var a: seq<seq<Action>> := Appended(actions, sel, kind);
    forall r, k | 0 <= r < |a| && 0 <= k < |a[r]| ensures a[r][k].rover == r {
      if r == sel && k == |actions[sel]| {
        assert a[r][k] == Action(kind, sel);
      }
    }
  }

  lemma RemovedKeeps(actions: seq<seq<Action>>, rover: nat, index: nat)
    requires rover < |actions| && index < |actions[rover]|
    requires WellTagged(actions) && Capped(actions)
    ensures WellTagged(Removed(actions, rover, index)) && Capped(Removed(actions, rover, index))
  {
    var a: seq<seq<Action>> := Removed(actions, rover, index);
    forall r, k | 0 <= r < |a| && 0 <= k < |a[r]| ensures a[r][k].rover == r {
      if r == rover && k >= index {
        assert a[r][k] == actions[r][k + 1];
      }
    }
  }

  lemma ClearedKeeps(actions: seq<seq<Action>>)
    ensures WellTagged(Cleared(actions)) && Capped(Cleared(actions))
  {
  }

  lemma InitialKeeps()
    ensures WellTagged(InitialActionList().actions) && Capped(InitialActionList().actions)
  {
  }

  // ---------------------------------------------------------------------------
  // Grouping for display

  function Repeat(t: ActionType, n: nat): (s: seq<ActionType>)
    ensures |s| == n && forall k :: 0 <= k < n ==> s[k] == t
  {
    seq(n, k => t)
  }

  function Total(runs: seq<Run>): nat
  {
    if runs == [] then 0 else Total(runs[..|runs| - 1]) + runs[|runs| - 1].count
  }

  /** The commands the runs stand for. */
  function Expand(runs: seq<Run>): (s: seq<ActionType>)
    ensures |s| == Total(runs)
  {
    if runs == [] then [] else
      var n := |runs| - 1;
      Expand(runs[..n]) + Repeat(runs[n].kind, runs[n].count)
  }

  /** Expanding the runs gives the list's action types. */
  ghost predicate Spells(list: seq<Action>, runs: seq<Run>)
  {
    |Expand(runs)| == |list| && forall k :: 0 <= k < |list| ==> Expand(runs)[k] == list[k].kind
  }

  ghost predicate NonEmptyRuns(runs: seq<Run>)
  {
    forall j :: 0 <= j < |runs| ==> runs[j].count >= 1
  }

  /** Neighbouring runs differ in type, so no run could be merged with the next. */
  ghost predicate Alternating(runs: seq<Run>)
  {
    forall j :: 0 <= j < |runs| - 1 ==> runs[j].kind != runs[j + 1].kind
  }

  /** Each run reports the index of its own last command. */
  ghost predicate Indexed(runs: seq<Run>)
  {
    forall j :: 0 <= j < |runs| ==> runs[j].lastIndex + 1 == Total(runs[..j + 1])
  }

  /** `runs` groups `list`: the maximal blocks of equal consecutive commands, in order. */
  ghost predicate RunsOf(list: seq<Action>, runs: seq<Run>)
  {
    Spells(list, runs) && NonEmptyRuns(runs) && Alternating(runs) && Indexed(runs)
  }

  /** The counts add up to the list's length, and an empty list has no runs. */
  lemma RunsCover(list: seq<Action>, runs: seq<Run>)
    requires RunsOf(list, runs)
    ensures Total(runs) == |list|
    ensures list == [] <==> runs == []
  {
    if runs != [] {
      var n := |runs| - 1;
      assert runs[..n + 1] == runs;
      assert Total(runs) >= runs[n].count;
    }
  }

  lemma TotalPrefix(runs: seq<Run>, r: Run, j: nat)
    requires j < |runs|
    ensures Total((runs + [r])[..j + 1]) == Total(runs[..j + 1])
  {
    assert (runs + [r])[..j + 1] == runs[..j + 1];
  }

  lemma ExpandAppend(runs: seq<Run>, r: Run)
    ensures Expand(runs + [r]) == Expand(runs) + Repeat(r.kind, r.count)
    ensures Total(runs + [r]) == Total(runs) + r.count
  {
    assert (runs + [r])[..|runs|] == runs;
  }

  /** The part of a run still open at position i: `count` commands of type `kind` ending before i. */
  ghost predicate OpenRun(list: seq<Action>, i: nat, count: nat, kind: ActionType)
  {
    count <= i <= |list| && forall k :: i - count <= k < i ==> list[k].kind == kind
  }

  /** Closing a run keeps the completed runs' last indices right. */
  lemma CloseRunIndices(runs: seq<Run>, r: Run)
    requires Indexed(runs)
    requires r.lastIndex + 1 == Total(runs) + r.count
    ensures Indexed(runs + [r])
  {
    var runs' := runs + [r];
    ExpandAppend(runs, r);
    forall j | 0 <= j < |runs'| ensures runs'[j].lastIndex + 1 == Total(runs'[..j + 1]) {
      if j < |runs| {
        TotalPrefix(runs, r, j);
      } else {
        assert runs'[..j + 1] == runs';
      }
    }
  }

  /** Closing a run makes the completed runs spell the whole prefix. */
  lemma CloseRunSpells(list: seq<Action>, i: nat, runs: seq<Run>, count: nat, kind: ActionType)
    requires 1 <= count && OpenRun(list, i, count, kind)
    requires Spells(list[..i - count], runs)
    ensures Spells(list[..i], runs + [Run(i - 1, count, kind)])
  {
    var runs' := runs + [Run(i - 1, count, kind)];
    ExpandAppend(runs, Run(i - 1, count, kind));
    forall k | 0 <= k < i ensures Expand(runs')[k] == list[..i][k].kind {
      if k >= i - count {
        assert Expand(runs')[k] == Repeat(kind, count)[k - (i - count)];
      } else {
        assert Expand(runs')[k] == Expand(runs)[k];
        assert list[..i - count][k] == list[k];
      }
    }
  }

  /** Close the open run: the completed runs then group the whole prefix. */
  lemma CloseRun(list: seq<Action>, i: nat, runs: seq<Run>, count: nat, kind: ActionType)
    requires 1 <= count && OpenRun(list, i, count, kind)
    requires Spells(list[..i - count], runs) && NonEmptyRuns(runs) && Alternating(runs) && Indexed(runs)
    requires runs != [] ==> runs[|runs| - 1].kind != kind
    requires Total(runs) == i - count
    ensures RunsOf(list[..i], runs + [Run(i - 1, count, kind)])
  {
    CloseRunSpells(list, i, runs, count, kind);
    CloseRunIndices(runs, Run(i - 1, count, kind));
  }

  /**
   * The state of the grouping loop after i commands: completed runs for all
   * but the last `count` commands, which are all of type `prev`.
   */
  ghost predicate GroupInv(list: seq<Action>, i: nat, runs: seq<Run>, prev: Option<ActionType>, count: nat)
  {
    && i <= |list|
    && (prev.None? <==> i == 0)
    && (i == 0 ==> count == 0 && runs == [])
    && (prev.Some? ==> 1 <= count && OpenRun(list, i, count, prev.value))
    && count <= i
    && Spells(list[..i - count], runs) && Total(runs) == i - count
    && NonEmptyRuns(runs) && Alternating(runs) && Indexed(runs)
    && (runs != [] && prev.Some? ==> runs[|runs| - 1].kind != prev.value)
  }

  /** The next command continues the open run. */
  lemma GroupSame(list: seq<Action>, i: nat, runs: seq<Run>, kind: ActionType, count: nat)
    requires GroupInv(list, i, runs, Some(kind), count) && i < |list| && list[i].kind == kind
    ensures GroupInv(list, i + 1, runs, Some(kind), count + 1)
  {
    assert (i + 1) - (count + 1) == i - count;
  }

  /** The first command opens the first run. */
  lemma GroupFirst(list: seq<Action>, runs: seq<Run>, count: nat)
    requires GroupInv(list, 0, runs, None, count) && 0 < |list|
    ensures GroupInv(list, 1, runs, Some(list[0].kind), 1)
  {
    assert list[..0] == [];
  }

  /** A command of another type emits the open run and starts a new one. */
  lemma GroupNew(list: seq<Action>, i: nat, runs: seq<Run>, kind: ActionType, count: nat)
    requires GroupInv(list, i, runs, Some(kind), count) && i < |list| && list[i].kind != kind
    ensures GroupInv(list, i + 1, runs + [Run(i - 1, count, kind)], Some(list[i].kind), 1)
  {
    var runs' := runs + [Run(i - 1, count, kind)];
    CloseRun(list, i, runs, count, kind);
    RunsCover(list[..i], runs');
    assert list[..i + 1 - 1] == list[..i];
  }

  /** One command of the grouping loop: it continues the open run, or emits it and opens a new one. */
  lemma GroupStep(list: seq<Action>, i: nat, runs: seq<Run>, prev: Option<ActionType>, count: nat,
                  runs': seq<Run>, prev': Option<ActionType>, count': nat)
    requires GroupInv(list, i, runs, prev, count) && i < |list|
    requires prev' == Some(list[i].kind)
    requires prev == prev' ==> runs' == runs && count' == count + 1
    requires prev != prev' && prev.Some? ==> i >= 1 && runs' == runs + [Run(i - 1, count, prev.value)] && count' == 1
    requires prev.None? ==> runs' == runs && count' == 1
    ensures GroupInv(list, i + 1, runs', prev', count')
  {
    if prev == prev' {
      GroupSame(list, i, runs, list[i].kind, count);
    } else if prev.Some? {
      GroupNew(list, i, runs, prev.value, count);
    } else {
      GroupFirst(list, runs, count);
    }
  }

  /** At the end of the list, emitting the open run completes the grouping. */
  lemma GroupDone(list: seq<Action>, runs: seq<Run>, kind: ActionType, count: nat)
    requires GroupInv(list, |list|, runs, Some(kind), count)
    ensures RunsOf(list, runs + [Run(|list| - 1, count, kind)])
  {
    CloseRun(list, |list|, runs, count, kind);
    RunsOfWhole(list, runs + [Run(|list| - 1, count, kind)]);
  }

  /** An empty list has no runs. */
  lemma GroupEmpty(list: seq<Action>, runs: seq<Run>, count: nat)
    requires GroupInv(list, |list|, runs, None, count)
    ensures RunsOf(list, runs)
  {
    assert list == [] && runs == [];
    NoRuns();
  }

  lemma NoRuns()
    ensures RunsOf([], [])
  {
  }

  lemma RunsOfWhole(list: seq<Action>, runs: seq<Run>)
    requires RunsOf(list[..|list|], runs)
    ensures RunsOf(list, runs)
  {
    assert list[..|list|] == list;
  }

  /** The grouping loop of the control panel, for one rover's list. */
  method GroupRuns(list: seq<Action>) returns (runs: seq<Run>)
    ensures RunsOf(list, runs)
  {
    runs := [];
    var i := 0;
    var prevAction: Option<ActionType> := None;
    var currentCount := 0;
    while i < |list|
      invariant GroupInv(list, i, runs, prevAction, currentCount)
    {
      var action := list[i];
      ghost var runs0, prev0, count0 := runs, prevAction, currentCount;
      if Some(action.kind) == prevAction {
        currentCount := currentCount + 1;
      } else {
        if prevAction.Some? {
          runs := runs + [Run(i - 1, currentCount, prevAction.value)];
        }
        currentCount := 1;
      }
      prevAction := Some(action.kind);
      GroupStep(list, i, runs0, prev0, count0, runs, prevAction, currentCount);
      i := i + 1;
    }
    runs := EmitLast(list, runs, prevAction, currentCount);
  }

  /** After the grouping loop: the run still open, if any, is emitted. */
  method EmitLast(list: seq<Action>, runs: seq<Run>, prevAction: Option<ActionType>, currentCount: nat) returns (runs': seq<Run>)
    requires GroupInv(list, |list|, runs, prevAction, currentCount)
    ensures RunsOf(list, runs')
  {
    if prevAction.Some? {
      GroupDone(list, runs, prevAction.value, currentCount);
      runs' := runs + [Run(|list| - 1, currentCount, prevAction.value)];
    } else {
      GroupEmpty(list, runs, currentCount);
      runs' := runs;
    }
  }

  /**
   * The panel rebuild: one column per rover of the level, each grouping that
   * rover's list when it exists. The colour slice demands at most six rovers.
   */
  method RebuildRuns(actions: seq<seq<Action>>, numberOfRovers: nat) returns (columns: seq<Option<seq<Run>>>)
    requires numberOfRovers <= UiRoverColorCount
    ensures |columns| == numberOfRovers
    ensures forall r :: 0 <= r < numberOfRovers ==>
      if r < |actions| then columns[r].Some? && RunsOf(actions[r], columns[r].value) else columns[r].None?
  {
    columns := [];
    var robotIdx := 0;
    while robotIdx < numberOfRovers
      invariant 0 <= robotIdx <= numberOfRovers && |columns| == robotIdx
      invariant forall r :: 0 <= r < robotIdx ==>
        if r < |actions| then columns[r].Some? && RunsOf(actions[r], columns[r].value) else columns[r].None?
    {
      if robotIdx < |actions| {
        var runs := GroupRuns(actions[robotIdx]);
        columns := columns + [Some(runs)];
      } else {
        columns := columns + [None];
      }
      robotIdx := robotIdx + 1;
    }
  }

  // ---------------------------------------------------------------------------
  // The entity hierarchy

  /** Whether `target` is `parent` or lies below it (the game's is_descendant). */
  function IsDescendant(parent: Entity, target: nat): bool
    decreases parent, 1
  {
    parent.id == target || AnyDescendant(parent.children, target)
  }

  function AnyDescendant(children: seq<Entity>, target: nat): bool
    decreases children, 0
  {
    children != [] && (IsDescendant(children[0], target) || AnyDescendant(children[1..], target))
  }

  /** The entities of a subtree. */
  ghost function SubtreeIds(e: Entity): set<nat>
    decreases e
  {
    {e.id} + set c, x | c in e.children && x in SubtreeIds(c) :: x
  }

  lemma {:induction false} IsDescendantIffInSubtree(parent: Entity, target: nat)
    ensures IsDescendant(parent, target) <==> target in SubtreeIds(parent)
    decreases parent, 1
  {
    AnyDescendantIffInChild(parent.children, target);
  }

  lemma {:induction false} AnyDescendantIffInChild(children: seq<Entity>, target: nat)
    ensures AnyDescendant(children, target) <==> exists c :: c in children && target in SubtreeIds(c)
    decreases children, 0
  {
    if children != [] {
      IsDescendantIffInSubtree(children[0], target);
      AnyDescendantIffInChild(children[1..], target);
      forall c | c in children ensures c == children[0] || c in children[1..] {
        var i :| 0 <= i < |children| && children[i] == c;
        if i > 0 {
          assert children[1..][i - 1] == c;
        }
      }
    }
  }

  /** A rover owns the clicked entity when it lies below one of the rover's children. */
  predicate Owns(rover: ClickableRover, target: nat)
  {
    exists j :: 0 <= j < |rover.entity.children| && IsDescendant(rover.entity.children[j], target)
  }

  /** The first rover, in query order, that owns the clicked entity. */
  function FirstOwner(rovers: seq<ClickableRover>, target: nat): (o: Option<nat>)
    ensures o.None? ==> forall k :: 0 <= k < |rovers| ==> !Owns(rovers[k], target)
    ensures o.Some? ==> o.value < |rovers| && Owns(rovers[o.value], target)
    ensures o.Some? ==> forall k :: 0 <= k < o.value ==> !Owns(rovers[k], target)
  {
    if rovers == [] then None
    else if Owns(rovers[0], target) then Some(0)
    else match FirstOwner(rovers[1..], target)
      case None => None
      case Some(k) => Some(k + 1)
  }

  /** The cast of a button's `i32` index to `usize`: negative values wrap around. */
  function AsUsize(b: int): (u: nat)
    requires -0x8000_0000 <= b < 0x8000_0000
    ensures 0 <= b ==> u == b
    ensures b < 0 ==> u == UsizeModulus + b && u >= UsizeModulus - 0x8000_0000
  {
    if b >= 0 then b else UsizeModulus + b
  }

  function LastPressed(presses: seq<(Interaction, int)>): (o: Option<int>)
    ensures o.Some? <==> exists k :: 0 <= k < |presses| && presses[k].0 == Pressed
    ensures o.Some? ==> exists k :: 0 <= k < |presses| && presses[k] == (Pressed, o.value) &&
                                  forall k' :: k < k' < |presses| ==> presses[k'].0 != Pressed
  {
    if presses == [] then None
    else
      var n := |presses| - 1;
      if presses[n].0 == Pressed then Some(presses[n].1) else LastPressed(presses[..n])
  }

  // ---------------------------------------------------------------------------
  // The ActionList resource and its handlers

  /** The game's ActionList resource, edited in place by the panel's handlers. */
  class ActionListResource {
    var actions: seq<seq<Action>>
    var currentSelection: nat

    /** The value written as an ActionList event. */
    function Snapshot(): ActionList
      reads this
    {
      ActionList(actions, currentSelection)
    }

    constructor ()
      ensures Snapshot() == InitialActionList()
    {
      actions := InitialActionList().actions;
      currentSelection := InitialActionList().currentSelection;
    }

    /**
     * command_button_handler for the interactions of one frame. A press or a
     * hover looks up the selected rover's colour, so the selection must index
     * the six colours; each press appends when it can and then writes the list.
     */
    method CommandButtonHandler(interactions: seq<(Interaction, ActionType)>) returns (written: seq<ActionList>)
      requires (exists k :: 0 <= k < |interactions| && interactions[k].0 != NotInteracted) ==>
        currentSelection < UiRoverColorCount
      modifies this
      ensures currentSelection == old(currentSelection)
      ensures actions == AppendedAll(old(actions), currentSelection, PressedKinds(interactions))
      ensures forall w :: w in written ==> w.currentSelection == currentSelection
      ensures written != [] ==> written[|written| - 1] == Snapshot()
      ensures old(Capped(actions)) && currentSelection < |actions| ==>
        |written| == Min(|PressedKinds(interactions)|, MaxCommands - |old(actions)[currentSelection]|)
      ensures currentSelection >= |actions| ==> written == []
    {
      written := [];
      ghost var sel := currentSelection;
      var i := 0;
      while i < |interactions|
        invariant 0 <= i <= |interactions|
        invariant currentSelection == sel
        invariant Pressing(old(actions), sel, interactions, i, actions, written)
      {
        var (interaction, kind) := interactions[i];
        ghost var before, writtenBefore := actions, written;
        var selection := currentSelection;
        if interaction == Pressed {
          if selection < |actions| && |actions[selection]| < MaxCommands {
            actions := actions[selection := actions[selection] + [Action(kind, selection)]];
            written := written + [ActionList(actions, selection)];
          }
        }
        PressingStep(old(actions), sel, interactions, i, before, writtenBefore, actions, written);
        i := i + 1;
      }
      PressingDone(old(actions), sel, interactions, actions, written);
    }

    /** delete_action_handler: every pressed delete button, in order, then one write. */
    method DeleteActionHandler(presses: seq<(Interaction, DeleteButton)>) returns (written: Option<ActionList>)
      requires DeletesDefined(actions, PressedDeletes(presses))
      modifies this
      ensures currentSelection == old(currentSelection)
      ensures actions == RemovedAll(old(actions), PressedDeletes(presses))
      ensures written == if PressedDeletes(presses) != [] then Some(Snapshot()) else None
    {
      var hasToUpdate := false;
      var i := 0;
      while i < |presses|
        invariant 0 <= i <= |presses|
        invariant currentSelection == old(currentSelection)
        invariant DeletesDefined(old(actions), PressedDeletes(presses[..i]))
        invariant actions == RemovedAll(old(actions), PressedDeletes(presses[..i]))
        invariant hasToUpdate <==> PressedDeletes(presses[..i]) != []
      {
        var (interaction, button) := presses[i];
        DeleteStep(old(actions), presses, i);
        if interaction == Pressed {
          actions := actions[button.roverIndex := actions[button.roverIndex][..button.actionIndex] + actions[button.roverIndex][button.actionIndex + 1..]];
          hasToUpdate := true;
        }
        i := i + 1;
      }
      assert presses[..i] == presses;
      written := if hasToUpdate then Some(Snapshot()) else None;
    }

    /** clear_all_handler: a press empties every list, then the list is written once. */
    method ClearAllHandler(interactions: seq<Interaction>) returns (written: Option<ActionList>)
      modifies this
      ensures currentSelection == old(currentSelection)
      ensures actions == if Pressed in interactions then Cleared(old(actions)) else old(actions)
      ensures written == if Pressed in interactions then Some(Snapshot()) else None
    {
      var hasToUpdate := false;
      var i := 0;
      while i < |interactions|
        invariant 0 <= i <= |interactions|
        invariant currentSelection == old(currentSelection)
        invariant actions == if Pressed in interactions[..i] then Cleared(old(actions)) else old(actions)
        invariant hasToUpdate <==> Pressed in interactions[..i]
      {
        assert interactions[..i + 1] == interactions[..i] + [interactions[i]];
        if interactions[i] == Pressed {
          var r := 0;
          ghost var before := actions;
          while r < |actions|
            invariant 0 <= r <= |actions| && |actions| == |before|
            invariant currentSelection == old(currentSelection)
            invariant forall q :: 0 <= q < |actions| ==> actions[q] == if q < r then [] else before[q]
          {
            actions := actions[r := []];
            r := r + 1;
          }
          assert actions == Cleared(old(actions));
          hasToUpdate := true;
        }
        i := i + 1;
      }
      assert interactions[..i] == interactions;
      written := if hasToUpdate then Some(Snapshot()) else None;
    }

    /** robot_button_handler: the last pressed robot button picks the selection, then one write. */
    method RobotButtonHandler(presses: seq<(Interaction, int)>) returns (written: Option<ActionList>)
      requires forall k :: 0 <= k < |presses| ==> -0x8000_0000 <= presses[k].1 < 0x8000_0000
      modifies this
      ensures actions == old(actions)
      ensures currentSelection == match LastPressed(presses) case None => old(currentSelection) case Some(b) => AsUsize(b)
      ensures written == if LastPressed(presses).Some? then Some(Snapshot()) else None
    {
      var hasToUpdate := false;
      var i := 0;
      while i < |presses|
        invariant 0 <= i <= |presses|
        invariant actions == old(actions)
        invariant currentSelection == match LastPressed(presses[..i]) case None => old(currentSelection) case Some(b) => AsUsize(b)
        invariant hasToUpdate <==> LastPressed(presses[..i]).Some?
      {
        assert presses[..i + 1][..i] == presses[..i];
        if presses[i].0 == Pressed {
          currentSelection := AsUsize(presses[i].1);
          hasToUpdate := true;
        }
        i := i + 1;
      }
      assert presses[..i] == presses;
      written := if hasToUpdate then Some(Snapshot()) else None;
    }

    /**
     * on_rover_click: outside Programming nothing happens; otherwise the first
     * rover owning the clicked entity becomes the selection, and the list is
     * written only when the selection actually changes.
     */
    method RoverClick(state: GameState, rovers: seq<ClickableRover>, target: nat) returns (written: Option<ActionList>)
      modifies this
      ensures actions == old(actions)
      ensures state != Programming || FirstOwner(rovers, target).None? ==>
        currentSelection == old(currentSelection) && written == None
      ensures state == Programming && FirstOwner(rovers, target).Some? ==>
        var id := rovers[FirstOwner(rovers, target).value].identifier;
        currentSelection == id && written == (if old(currentSelection) != id then Some(Snapshot()) else None)
    {
      written := None;
      if state != Programming {
        return;
      }
      var k := 0;
      while k < |rovers|
        invariant 0 <= k <= |rovers|
        invariant forall q :: 0 <= q < k ==> !Owns(rovers[q], target)
        invariant actions == old(actions) && currentSelection == old(currentSelection) && written == None
      {
        var children := rovers[k].entity.children;
        var c := 0;
        while c < |children|
          invariant 0 <= c <= |children|
          invariant forall j :: 0 <= j < c ==> !IsDescendant(children[j], target)
        {
          var child := children[c];
          if child.id == target || IsDescendant(child, target) {
            assert Owns(rovers[k], target);
            assert FirstOwner(rovers, target) == Some(k) by {
              FirstOwnerIsFirst(rovers, target, k);
            }
            var roverIndex := rovers[k].identifier;
            if currentSelection != roverIndex {
              currentSelection := roverIndex;
              written := Some(Snapshot());
            }
            return;
          }
          c := c + 1;
        }
        k := k + 1;
      }
    }
  }

  /** The state of the command button loop after i interactions. */
  ghost predicate Pressing(start: seq<seq<Action>>, sel: nat, interactions: seq<(Interaction, ActionType)>, i: nat,
                           actions: seq<seq<Action>>, written: seq<ActionList>)
    requires i <= |interactions|
  {
    && actions == AppendedAll(start, sel, PressedKinds(interactions[..i]))
    && (forall w :: w in written ==> w.currentSelection == sel)
    && (written != [] ==> written[|written| - 1] == ActionList(actions, sel))
    && (sel < |actions| ==> |written| + |start[sel]| == |actions[sel]|)
    && (sel >= |actions| ==> written == [])
  }

  /** One interaction of the command button loop. */
  lemma PressingStep(start: seq<seq<Action>>, sel: nat, interactions: seq<(Interaction, ActionType)>, i: nat,
                     actions: seq<seq<Action>>, written: seq<ActionList>, actions': seq<seq<Action>>, written': seq<ActionList>)
    requires i < |interactions| && Pressing(start, sel, interactions, i, actions, written)
    requires interactions[i].0 != Pressed ==> actions' == actions && written' == written
    requires interactions[i].0 == Pressed && sel < |actions| && |actions[sel]| < MaxCommands ==>
      actions' == actions[sel := actions[sel] + [Action(interactions[i].1, sel)]] && written' == written + [ActionList(actions', sel)]
    requires interactions[i].0 == Pressed && !(sel < |actions| && |actions[sel]| < MaxCommands) ==>
      actions' == actions && written' == written
    ensures Pressing(start, sel, interactions, i + 1, actions', written')
  {
    PressStep(start, sel, interactions, i);
  }

  /** What the command button loop has done once every interaction is read. */
  lemma PressingDone(start: seq<seq<Action>>, sel: nat, interactions: seq<(Interaction, ActionType)>,
                     actions: seq<seq<Action>>, written: seq<ActionList>)
    requires Pressing(start, sel, interactions, |interactions|, actions, written)
    ensures actions == AppendedAll(start, sel, PressedKinds(interactions))
    ensures forall w :: w in written ==> w.currentSelection == sel
    ensures written != [] ==> written[|written| - 1] == ActionList(actions, sel)
    ensures Capped(start) && sel < |actions| ==>
      |written| == Min(|PressedKinds(interactions)|, MaxCommands - |start[sel]|)
    ensures sel >= |actions| ==> written == []
  {
    assert interactions[..|interactions|] == interactions;
    if Capped(start) && sel < |actions| {
      AppendedAllIsCapped(start, sel, PressedKinds(interactions));
    }
  }

  lemma PressStep(actions: seq<seq<Action>>, sel: nat, interactions: seq<(Interaction, ActionType)>, i: nat)
    requires i < |interactions|
    ensures AppendedAll(actions, sel, PressedKinds(interactions[..i + 1])) ==
      if interactions[i].0 == Pressed then Appended(AppendedAll(actions, sel, PressedKinds(interactions[..i])), sel, interactions[i].1)
      else AppendedAll(actions, sel, PressedKinds(interactions[..i]))
  {
    assert interactions[..i + 1][..i] == interactions[..i];
    var kinds := PressedKinds(interactions[..i]);
    if interactions[i].0 == Pressed {
      assert PressedKinds(interactions[..i + 1]) == kinds + [interactions[i].1];
      assert (kinds + [interactions[i].1])[..|kinds|] == kinds;
    } else {
      assert PressedKinds(interactions[..i + 1]) == kinds;
    }
  }

  lemma {:induction false} FirstOwnerIsFirst(rovers: seq<ClickableRover>, target: nat, k: nat)
    requires k < |rovers| && Owns(rovers[k], target)
    requires forall q :: 0 <= q < k ==> !Owns(rovers[q], target)
    ensures FirstOwner(rovers, target) == Some(k)
  {
    if k > 0 {
      FirstOwnerIsFirst(rovers[1..], target, k - 1);
    }
  }

  /** One more press of the delete handler's loop, in terms of the whole frame's deletes. */
  lemma DeleteStep(actions: seq<seq<Action>>, presses: seq<(Interaction, DeleteButton)>, i: nat)
    requires i < |presses| && DeletesDefined(actions, PressedDeletes(presses))
    requires DeletesDefined(actions, PressedDeletes(presses[..i]))
    ensures DeletesDefined(actions, PressedDeletes(presses[..i + 1]))
    ensures presses[i].0 != Pressed ==> PressedDeletes(presses[..i + 1]) == PressedDeletes(presses[..i])
    ensures presses[i].0 == Pressed ==> PressedDeletes(presses[..i + 1]) == PressedDeletes(presses[..i]) + [presses[i].1]
    ensures var a := RemovedAll(actions, PressedDeletes(presses[..i]));
      presses[i].0 == Pressed ==>
        && presses[i].1.roverIndex < |a| && presses[i].1.actionIndex < |a[presses[i].1.roverIndex]|
        && RemovedAll(actions, PressedDeletes(presses[..i + 1])) == Removed(a, presses[i].1.roverIndex, presses[i].1.actionIndex)
  {
    assert presses[..i + 1][..i] == presses[..i];
    var ds := PressedDeletes(presses[..i + 1]);
    PressedDeletesPrefix(presses, i + 1);
    DeletesPrefix(actions, PressedDeletes(presses), |ds|);
    if presses[i].0 == Pressed {
      assert ds[..|ds| - 1] == PressedDeletes(presses[..i]);
    }
  }

  lemma {:induction false} PressedDeletesPrefix(presses: seq<(Interaction, DeleteButton)>, i: nat)
    requires i <= |presses|
    ensures |PressedDeletes(presses[..i])| <= |PressedDeletes(presses)|
    ensures PressedDeletes(presses)[..|PressedDeletes(presses[..i])|] == PressedDeletes(presses[..i])
    decreases |presses|
  {
    if i < |presses| {
      var n := |presses| - 1;
      PressedDeletesPrefix(presses[..n], i);
      assert presses[..n][..i] == presses[..i];
    } else {
      assert presses[..i] == presses;
    }
  }

  /**
   * execute_handler: a press of the Execute button, or Space in Programming,
   * is an attempt; with every list empty an attempt only shows the help, and
   * otherwise it switches to Execution and sends the current lists.
   */
  method ExecuteHandler(actions: seq<seq<Action>>, pressed: seq<Interaction>, spacePressed: bool, state: GameState)
    returns (showHelp: bool, nextState: Option<GameState>, sent: Option<seq<seq<Action>>>)
    ensures var tried := Pressed in pressed || (state == Programming && spacePressed);
      && (showHelp <==> tried && HasNoActions(actions))
      && (sent.Some? <==> tried && !HasNoActions(actions))
      && (sent.Some? ==> sent.value == actions)
      && (nextState.Some? <==> sent.Some?)
      && (nextState.Some? ==> nextState.value == Execution)
  {
    var hasNoActions := HasNoActions(actions);
    var shouldExecute := false;
    var triedToExecute := false;
    var i := 0;
    while i < |pressed|
      invariant 0 <= i <= |pressed|
      invariant triedToExecute <==> Pressed in pressed[..i]
      invariant shouldExecute <==> triedToExecute && !hasNoActions
    {
      assert pressed[..i + 1] == pressed[..i] + [pressed[i]];
      if pressed[i] == Pressed {
        triedToExecute := true;
        if !hasNoActions {
          shouldExecute := true;
        }
      }
      i := i + 1;
    }
    assert pressed[..i] == pressed;
    if state == Programming && spacePressed {
      triedToExecute := true;
      if !hasNoActions {
        shouldExecute := true;
      }
    }
    showHelp := false;
    nextState := None;
    sent := None;
    if triedToExecute && hasNoActions {
      showHelp := true;
      return;
    }
    if shouldExecute {
      nextState := Some(Execution);
      sent := Some(actions);
    }
  }

  /**
   * execute_handler refuses only lists that are all empty, while
   * start_execution indexes the lists and the index vector `[0, 0]` by a
   * rover's identifier and unwraps that rover's first action. So lists that
   * are sent can still make start_execution panic: a second rover whose own
   * list is empty, or a rover whose identifier is 2 or more.
   */
  lemma SentListsMayNotStart(a: Action, p: Level.Coord, b: Rovers.U8)
    ensures !HasNoActions([[a], []]) && !Rovers.CanStart(Rovers.Rover(p, b, 1), [[a], []])
    ensures !HasNoActions([[a], [a], [a]]) && !Rovers.CanStart(Rovers.Rover(p, b, 2), [[a], [a], [a]])
  {
  }
}
