/**
 * Rover command stepping: the logical (tile) position of each rover, the
 * per-rover command lists being executed, and the per-rover index of the
 * command in progress. Smooth movement between tiles is floating point and is
 * not modelled; whether a rover has reached its target tile in a frame is an
 * input.
 */
module Rovers {
  import opened Actions
  import opened Level

  /** The game's `u8`; leaving this range is an overflow panic. */
  type U8 = x: int | 0 <= x <= 255

  /** The logical part of a rover entity (the game's RoverEntity component). */
  datatype Rover = Rover(logicalPosition: Coord, batteryLevel: U8, identifier: U8)

  /** The answer of a puzzle evaluation, as the execution systems receive it. */
  datatype PuzzleResponse = InProgress | Solved | Failed

  /** Both coordinates fit the game's `I8Vec2`. */
  predicate InI8(p: Coord)
  {
    -128 <= p.0 <= 127 && -128 <= p.1 <= 127
  }

  /** The tile offset of an action; note that MoveLeft is +x and MoveRight is -x. */
  function Offset(t: ActionType): Coord
  {
    match t
    case MoveUp => (0, 1)
    case MoveDown => (0, -1)
    case MoveLeft => (1, 0)
    case MoveRight => (-1, 0)
    case Wait => (0, 0)
  }

  /** The logical position after performing action t at p. */
  function Moved(p: Coord, t: ActionType): (q: Coord)
    ensures t == Wait <==> q == p
    ensures t in {MoveUp, MoveDown} ==> q.0 == p.0 && (q.1 - p.1 == 1 || p.1 - q.1 == 1)
    ensures t in {MoveLeft, MoveRight} ==> q.1 == p.1 && (q.0 - p.0 == 1 || p.0 - q.0 == 1)
  {
    (p.0 + Offset(t).0, p.1 + Offset(t).1)
  }

  /** The action that undoes t. */
  function Opposite(t: ActionType): (u: ActionType)
    ensures t == Wait <==> u == Wait
    ensures u != t || t == Wait
  {
    match t
    case MoveUp => MoveDown
    case MoveDown => MoveUp
    case MoveLeft => MoveRight
    case MoveRight => MoveLeft
    case Wait => Wait
  }

  /** Up then Down, Left then Right (and the other way round) return a rover to where it was. */
  lemma MovesCancel(p: Coord, t: ActionType)
    ensures Moved(Moved(p, t), Opposite(t)) == p
    ensures Opposite(Opposite(t)) == t
  {
  }

  // ---------------------------------------------------------------------------
  // The index advance and the all-done test

  /**
   * The game's `all_done` walks the index vector in order and, for index i,
   * reads the length of action list i; it stops at the first rover that is not
   * done. This says that every list it reads exists.
   */
  predicate AllDoneDefinedFrom(idx: seq<nat>, lists: seq<seq<Action>>, i: nat)
    decreases |idx| - i
  {
    i >= |idx| || (i < |lists| && (idx[i] >= |lists[i]| ==> AllDoneDefinedFrom(idx, lists, i + 1)))
  }

  predicate AllDoneDefined(idx: seq<nat>, lists: seq<seq<Action>>)
  {
    AllDoneDefinedFrom(idx, lists, 0)
  }

  /** Every rover from the i-th on has run past the end of its list. */
  ghost predicate PastEndFrom(idx: seq<nat>, lists: seq<seq<Action>>, i: nat)
  {
    forall j :: i <= j < |idx| ==> j < |lists| && idx[j] >= |lists[j]|
  }

  function AllDoneFrom(idx: seq<nat>, lists: seq<seq<Action>>, i: nat): (b: bool)
    requires AllDoneDefinedFrom(idx, lists, i)
    ensures b <==> PastEndFrom(idx, lists, i)
    decreases |idx| - i
  {
    if i >= |idx| then true
    else if idx[i] >= |lists[i]| then
      assert i < |lists|;
      assert PastEndFrom(idx, lists, i) ==> PastEndFrom(idx, lists, i + 1);
      assert PastEndFrom(idx, lists, i + 1) ==> PastEndFrom(idx, lists, i);
      AllDoneFrom(idx, lists, i + 1)
    else false
  }

  /** Every rover has run past the end of its list. */
  function AllDone(idx: seq<nat>, lists: seq<seq<Action>>): (b: bool)
    requires AllDoneDefined(idx, lists)
    ensures b <==> PastEndFrom(idx, lists, 0)
  {
    AllDoneFrom(idx, lists, 0)
  }

  /** How many of the settled rovers carry identifier j. */
  function Hits(rs: seq<Rover>, settled: seq<bool>, j: nat): nat
    requires |settled| == |rs|
  {
    if rs == [] then 0
    else
      var n := |rs| - 1;
      Hits(rs[..n], settled[..n], j) + (if settled[n] && rs[n].identifier == j then 1 else 0)
  }

  /** How many rovers settled. */
  function Settled(settled: seq<bool>): nat
  {
    if settled == [] then 0 else Settled(settled[..|settled| - 1]) + (if settled[|settled| - 1] then 1 else 0)
  }

  /** The rovers may advance: each settled rover's identifier indexes the index vector. */
  predicate CanAdvance(rs: seq<Rover>, settled: seq<bool>, idx: seq<nat>)
  {
    |settled| == |rs| && forall k :: 0 <= k < |rs| && settled[k] ==> rs[k].identifier < |idx|
  }

  /** The index vector after the settled rovers, taken in order, each advance their own entry. */
  function Advanced(idx: seq<nat>, rs: seq<Rover>, settled: seq<bool>): (idx': seq<nat>)
    requires CanAdvance(rs, settled, idx)
    ensures |idx'| == |idx|
    ensures forall j :: 0 <= j < |idx| ==> idx'[j] == idx[j] + Hits(rs, settled, j)
  {
    if rs == [] then idx
    else
      var n := |rs| - 1;
      var before := Advanced(idx, rs[..n], settled[..n]);
      if settled[n] then before[rs[n].identifier := before[rs[n].identifier] + 1] else before
  }

  /** A rover's next action can be performed: the list and the index exist and the move stays in i8. */
  predicate CanPerform(r: Rover, list: seq<Action>, at: nat)
  {
    at < |list| && InI8(Moved(r.logicalPosition, list[at].kind))
  }

  function Perform(r: Rover, list: seq<Action>, at: nat): (r': Rover)
    requires CanPerform(r, list, at)
    ensures r'.batteryLevel == r.batteryLevel && r'.identifier == r.identifier
    ensures r'.logicalPosition == Moved(r.logicalPosition, list[at].kind)
  {
    r.(logicalPosition := Moved(r.logicalPosition, list[at].kind))
  }

  /** start_execution picks each rover's list by the rover's identifier and performs its first action. */
  predicate CanStart(r: Rover, lists: seq<seq<Action>>)
  {
    r.identifier < |lists| && r.identifier < |StartIndices| && CanPerform(r, lists[r.identifier], 0)
  }

  /** continue_execution pairs list k with the k-th rover of the query and performs its current action. */
  predicate CanContinue(rs: seq<Rover>, lists: seq<seq<Action>>, idx: seq<nat>)
  {
    forall k :: 0 <= k < |rs| && k < |lists| ==> k < |idx| && CanPerform(rs[k], lists[k], idx[k])
  }

  /** Every rover after start_execution has performed the first action of the list its identifier names. */
  function Started(rs: seq<Rover>, lists: seq<seq<Action>>): (rs': seq<Rover>)
    requires forall k :: 0 <= k < |rs| ==> CanStart(rs[k], lists)
    ensures |rs'| == |rs|
    ensures forall k :: 0 <= k < |rs| ==> CanStart(rs[k], lists) && rs'[k] == Perform(rs[k], lists[rs[k].identifier], 0)
  {
    seq(|rs|, k requires 0 <= k < |rs| => assert CanStart(rs[k], lists); Perform(rs[k], lists[rs[k].identifier], 0))
  }

  /** The k-th rover of the query after continue_execution: moved by list k when there is one. */
  function Continued(rs: seq<Rover>, lists: seq<seq<Action>>, idx: seq<nat>): (rs': seq<Rover>)
    requires CanContinue(rs, lists, idx)
    ensures |rs'| == |rs|
    ensures forall k :: 0 <= k < |rs| ==>
      rs'[k] == if k < |lists| then Perform(rs[k], lists[k], idx[k]) else rs[k]
  {
    seq(|rs|, k requires 0 <= k < |rs| => if k < |lists| then Perform(rs[k], lists[k], idx[k]) else rs[k])
  }

  /** Every execute event of a frame, taken in order, can be started. */
  ghost predicate CanStartAll(rs: seq<Rover>, events: seq<seq<seq<Action>>>)
    decreases |events|, 0
  {
    events == [] ||
      var n := |events| - 1;
      CanStartAll(rs, events[..n]) && forall k :: 0 <= k < |rs| ==> CanStart(StartedAll(rs, events[..n])[k], events[n])
  }

  /** The rovers after every execute event of a frame. */
  ghost function StartedAll(rs: seq<Rover>, events: seq<seq<seq<Action>>>): (rs': seq<Rover>)
    requires CanStartAll(rs, events)
    ensures |rs'| == |rs|
    decreases |events|, 1
  {
    if events == [] then rs
    else
      var n := |events| - 1;
      Started(StartedAll(rs, events[..n]), events[n])
  }

  lemma {:induction false} CanStartPrefix(rs: seq<Rover>, events: seq<seq<seq<Action>>>, i: nat)
    requires CanStartAll(rs, events) && i <= |events|
    ensures CanStartAll(rs, events[..i])
    decreases |events|
  {
    if i < |events| {
      var n := |events| - 1;
      CanStartPrefix(rs, events[..n], i);
      assert events[..n][..i] == events[..i];
    } else {
      assert events[..i] == events;
    }
  }

  /** The responses of a frame that ask the rovers to go on. */
  function InProgressCount(responses: seq<PuzzleResponse>): nat
  {
    if responses == [] then 0
    else InProgressCount(responses[..|responses| - 1]) + (if responses[|responses| - 1] == InProgress then 1 else 0)
  }

  /** Every InProgress response of a frame, against the same lists and indices, can be performed. */
  ghost predicate CanContinueAll(rs: seq<Rover>, lists: seq<seq<Action>>, idx: seq<nat>, m: nat)
    decreases m, 0
  {
    m == 0 || (CanContinueAll(rs, lists, idx, m - 1) && CanContinue(ContinuedAll(rs, lists, idx, m - 1), lists, idx))
  }

  /** The rovers after m InProgress responses. */
  ghost function ContinuedAll(rs: seq<Rover>, lists: seq<seq<Action>>, idx: seq<nat>, m: nat): (rs': seq<Rover>)
    requires CanContinueAll(rs, lists, idx, m)
    ensures |rs'| == |rs|
    decreases m, 1
  {
    if m == 0 then rs else Continued(ContinuedAll(rs, lists, idx, m - 1), lists, idx)
  }

  lemma {:induction false} CanContinueFewer(rs: seq<Rover>, lists: seq<seq<Action>>, idx: seq<nat>, m: nat, i: nat)
    requires CanContinueAll(rs, lists, idx, m) && i <= m
    ensures CanContinueAll(rs, lists, idx, i)
    decreases m
  {
    if i < m {
      CanContinueFewer(rs, lists, idx, m - 1, i);
    }
  }

  /** The index vector start_execution installs; it has room for two rovers only. */
  const StartIndices: seq<nat> := [0, 0]

  // ---------------------------------------------------------------------------
  // The execution resource

  /** The game's ActionExecution resource. */
  class ActionExecution {
    var isActive: bool
    var actionList: seq<seq<Action>>
    var activeActionIdx: seq<nat>

    constructor ()
      ensures !isActive && actionList == [] && activeActionIdx == StartIndices
    {
      isActive := false;
      actionList := [];
      activeActionIdx := StartIndices;
    }

    /** One execute event: install the lists and perform every rover's first action. */
    method Start(lists: seq<seq<Action>>, rovers: array<Rover>)
      requires forall k :: 0 <= k < rovers.Length ==> CanStart(rovers[k], lists)
      modifies this, rovers
      ensures isActive && actionList == lists && activeActionIdx == StartIndices
      ensures rovers[..] == Started(old(rovers[..]), lists)
    {
      isActive := true;
      actionList := lists;
      activeActionIdx := StartIndices;
      var k := 0;
      while k < rovers.Length
        invariant 0 <= k <= rovers.Length
        invariant isActive && actionList == lists && activeActionIdx == StartIndices
        invariant forall j :: 0 <= j < k ==> rovers[j] == Started(old(rovers[..]), lists)[j]
        invariant forall j :: k <= j < rovers.Length ==> rovers[j] == old(rovers[j])
      {
        var robotNum := rovers[k].identifier;
        var actions := actionList[robotNum];
        var action := actions[activeActionIdx[robotNum]];
        rovers[k] := rovers[k].(logicalPosition := Moved(rovers[k].logicalPosition, action.kind));
        k := k + 1;
      }
    }

    /**
     * The logical part of one frame of action_execution. `settled[k]` says
     * whether the k-th rover of the query reached its target tile this frame.
     * Returns how many evaluation requests were sent.
     */
    method Step(levelLoaded: bool, rovers: seq<Rover>, settled: seq<bool>) returns (requests: nat)
      requires |settled| == |rovers|
      requires isActive && levelLoaded ==>
        && (forall k :: 0 <= k < |rovers| ==> rovers[k].identifier < |actionList|)
        && CanAdvance(rovers, settled, activeActionIdx)
        && AllDoneDefined(Advanced(activeActionIdx, rovers, settled), actionList)
      modifies this
      ensures !(old(isActive) && levelLoaded) ==>
        isActive == old(isActive) && activeActionIdx == old(activeActionIdx) && requests == 0
      ensures actionList == old(actionList)
      ensures old(isActive) && levelLoaded ==>
        && activeActionIdx == Advanced(old(activeActionIdx), rovers, settled)
        && requests == Settled(settled)
        && (isActive <==> requests == 0 && !AllDone(activeActionIdx, actionList))
    {
      requests := 0;
      if !isActive {
        return;
      }
      if !levelLoaded {
        return;
      }
      ghost var idx0 := activeActionIdx;
      var anySettled := false;
      var k := 0;
      while k < |rovers|
        invariant 0 <= k <= |rovers|
        invariant actionList == old(actionList)
        invariant activeActionIdx == Advanced(idx0, rovers[..k], settled[..k])
        invariant requests == Settled(settled[..k])
        invariant isActive == !anySettled && anySettled == (requests > 0)
      {
        var robotNum := rovers[k].identifier;
        var actions := actionList[robotNum];
        AdvanceStep(idx0, rovers, settled, k);
        if settled[k] {
          activeActionIdx := activeActionIdx[robotNum := activeActionIdx[robotNum] + 1];
          isActive := false;
          anySettled := true;
          requests := requests + 1;
        }
        k := k + 1;
      }
      assert rovers == rovers[..k] && settled == settled[..k];
      var allDone := AllDone(activeActionIdx, actionList);
      if allDone {
        isActive := false;
      }
    }

    /** One puzzle response: on InProgress, resume and perform each rover's current action. */
    method Continue(response: PuzzleResponse, rovers: array<Rover>)
      requires response == InProgress ==> CanContinue(rovers[..], actionList, activeActionIdx)
      modifies this, rovers
      ensures actionList == old(actionList) && activeActionIdx == old(activeActionIdx)
      ensures response != InProgress ==> isActive == old(isActive) && rovers[..] == old(rovers[..])
      ensures response == InProgress ==> isActive
      ensures response == InProgress ==> rovers[..] == Continued(old(rovers[..]), actionList, activeActionIdx)
    {
      if response != InProgress {
        return;
      }
      isActive := true;
      var robotNum := 0;
      while robotNum < |actionList|
        invariant 0 <= robotNum <= |actionList|
        invariant isActive && actionList == old(actionList) && activeActionIdx == old(activeActionIdx)
        invariant forall j :: 0 <= j < rovers.Length ==>
          rovers[j] == if j < robotNum then Continued(old(rovers[..]), actionList, activeActionIdx)[j] else old(rovers[j])
      {
        if robotNum < rovers.Length {
          var actions := actionList[robotNum];
          var action := actions[activeActionIdx[robotNum]];
          rovers[robotNum] := rovers[robotNum].(logicalPosition := Moved(rovers[robotNum].logicalPosition, action.kind));
        }
        robotNum := robotNum + 1;
      }
    }

    /** start_execution: every execute event of the frame, in order. */
    method StartExecution(events: seq<seq<seq<Action>>>, rovers: array<Rover>)
      requires CanStartAll(rovers[..], events)
      modifies this, rovers
      ensures rovers[..] == StartedAll(old(rovers[..]), events)
      ensures events == [] ==> isActive == old(isActive) && actionList == old(actionList) && activeActionIdx == old(activeActionIdx)
      ensures events != [] ==> isActive && actionList == events[|events| - 1] && activeActionIdx == StartIndices
    {
      ghost var rs0 := rovers[..];
      var i := 0;
      while i < |events|
        invariant 0 <= i <= |events|
        invariant CanStartAll(rs0, events[..i])
        invariant rovers[..] == StartedAll(rs0, events[..i])
        invariant i == 0 ==> isActive == old(isActive) && actionList == old(actionList) && activeActionIdx == old(activeActionIdx)
        invariant i > 0 ==> isActive && actionList == events[i - 1] && activeActionIdx == StartIndices
      {
        CanStartPrefix(rs0, events, i + 1);
        assert events[..i + 1][..i] == events[..i];
        Start(events[i], rovers);
        i := i + 1;
      }
      assert events[..i] == events;
    }

    /** continue_execution: every response of the frame, in order. */
    method ContinueExecution(responses: seq<PuzzleResponse>, rovers: array<Rover>)
      requires CanContinueAll(rovers[..], actionList, activeActionIdx, InProgressCount(responses))
      modifies this, rovers
      ensures actionList == old(actionList) && activeActionIdx == old(activeActionIdx)
      ensures rovers[..] == ContinuedAll(old(rovers[..]), actionList, activeActionIdx, InProgressCount(responses))
      ensures isActive == (old(isActive) || InProgress in responses)
    {
      ghost var rs0 := rovers[..];
      var i := 0;
      while i < |responses|
        invariant 0 <= i <= |responses|
        invariant actionList == old(actionList) && activeActionIdx == old(activeActionIdx)
        invariant InProgressCount(responses[..i]) <= InProgressCount(responses)
        invariant CanContinueAll(rs0, actionList, activeActionIdx, InProgressCount(responses[..i]))
        invariant rovers[..] == ContinuedAll(rs0, actionList, activeActionIdx, InProgressCount(responses[..i]))
        invariant isActive == (old(isActive) || InProgress in responses[..i])
      {
        assert responses[..i + 1][..i] == responses[..i];
        InProgressPrefix(responses, i + 1);
        CanContinueFewer(rs0, actionList, activeActionIdx, InProgressCount(responses), InProgressCount(responses[..i + 1]));
        Continue(responses[i], rovers);
        i := i + 1;
      }
      assert responses[..i] == responses;
    }
  }

  /** One more rover of action_execution's loop, in terms of the rovers so far. */
  lemma AdvanceStep(idx: seq<nat>, rs: seq<Rover>, settled: seq<bool>, k: nat)
    requires CanAdvance(rs, settled, idx) && k < |rs|
    ensures CanAdvance(rs[..k], settled[..k], idx) && CanAdvance(rs[..k + 1], settled[..k + 1], idx)
    ensures var before := Advanced(idx, rs[..k], settled[..k]);
      Advanced(idx, rs[..k + 1], settled[..k + 1]) ==
        if settled[k] then before[rs[k].identifier := before[rs[k].identifier] + 1] else before
    ensures Settled(settled[..k + 1]) == Settled(settled[..k]) + if settled[k] then 1 else 0
  {
    assert rs[..k + 1][..k] == rs[..k];
    assert settled[..k + 1][..k] == settled[..k];
  }

  lemma {:induction false} InProgressPrefix(responses: seq<PuzzleResponse>, i: nat)
    requires i <= |responses|
    ensures InProgressCount(responses[..i]) <= InProgressCount(responses)
    decreases |responses|
  {
    if i < |responses| {
      var n := |responses| - 1;
      InProgressPrefix(responses[..n], i);
      assert responses[..n][..i] == responses[..i];
    } else {
      assert responses[..i] == responses;
    }
  }
}
