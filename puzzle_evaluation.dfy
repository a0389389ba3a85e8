/**
 * Puzzle evaluation: on each evaluation request, every rover standing on a
 * shadowed tile loses one unit of battery; the puzzle is solved when every
 * rover stands on a finish tile, and failed otherwise when some rover's
 * battery is empty. A rover standing where the level has no tile aborts the
 * evaluation without an answer.
 */
module PuzzleEvaluation {
  import opened Wrappers
  import opened Level
  import opened Rovers

  /** The events the evaluation writes. */
  datatype Answer = PuzzleSolved | PuzzleFailed

  /** What one evaluation request decides. */
  datatype Verdict = NoTile | AllOnFinish | OutOfBattery | Undecided

  /** The number of rovers, from the first, whose position has a tile: where a pass stops if it aborts. */
  function FirstMissing(tiles: map<Coord, Tile>, rs: seq<Rover>): (n: nat)
    ensures n <= |rs|
    ensures forall k :: 0 <= k < n ==> rs[k].logicalPosition in tiles
    ensures n < |rs| ==> rs[n].logicalPosition !in tiles
  {
    if rs == [] || rs[0].logicalPosition !in tiles then 0 else 1 + FirstMissing(tiles, rs[1..])
  }

  /** Every rover the pass reaches stands on a tile. */
  predicate OnTiles(tiles: map<Coord, Tile>, rs: seq<Rover>)
  {
    FirstMissing(tiles, rs) == |rs|
  }

  /** The u8 battery may be decremented wherever the pass decrements it. */
  predicate DrainSafe(tiles: map<Coord, Tile>, rs: seq<Rover>)
  {
    forall k :: 0 <= k < FirstMissing(tiles, rs) ==>
      tiles[rs[k].logicalPosition].shadow ==> rs[k].batteryLevel > 0
  }

  /** One rover's battery after a request, when it stands on `tile`. */
  function Drained(r: Rover, tile: Tile): (r': Rover)
    requires tile.shadow ==> r.batteryLevel > 0
    ensures r'.logicalPosition == r.logicalPosition && r'.identifier == r.identifier
    ensures r'.batteryLevel == if tile.shadow then r.batteryLevel - 1 else r.batteryLevel
  {
    if tile.shadow then r.(batteryLevel := r.batteryLevel - 1) else r
  }

  /** The rovers after one request: the ones the pass reached are drained, the rest untouched. */
  function AfterPass(tiles: map<Coord, Tile>, rs: seq<Rover>): (rs': seq<Rover>)
    requires DrainSafe(tiles, rs)
    ensures |rs'| == |rs|
  {
    var n := FirstMissing(tiles, rs);
    seq(|rs|, k requires 0 <= k < |rs| => if k < n then Drained(rs[k], tiles[rs[k].logicalPosition]) else rs[k])
  }

  /** Every rover stands on a finish tile. */
  ghost predicate AllFinished(tiles: map<Coord, Tile>, rs: seq<Rover>)
  {
    forall k :: 0 <= k < |rs| ==> rs[k].logicalPosition in tiles && tiles[rs[k].logicalPosition].kind == Finish
  }

  ghost predicate SomeEmpty(rs: seq<Rover>)
  {
    exists k :: 0 <= k < |rs| && rs[k].batteryLevel == 0
  }

  /** What one request decides, from the rovers as they were before it. */
  ghost function PassVerdict(tiles: map<Coord, Tile>, rs: seq<Rover>): Verdict
    requires DrainSafe(tiles, rs)
  {
    if !OnTiles(tiles, rs) then NoTile
    else if AllFinished(tiles, rs) then AllOnFinish
    else if SomeEmpty(AfterPass(tiles, rs)) then OutOfBattery
    else Undecided
  }

  /** One pass over the rovers, for one request. */
  method EvaluatePass(tiles: map<Coord, Tile>, rovers: array<Rover>) returns (v: Verdict)
    requires DrainSafe(tiles, rovers[..])
    modifies rovers
    ensures rovers[..] == AfterPass(tiles, old(rovers[..]))
    ensures v == PassVerdict(tiles, old(rovers[..]))
  {
    ghost var rs := rovers[..];
    ghost var n := FirstMissing(tiles, rs);
    ghost var after := AfterPass(tiles, rs);
    var allRoversInFinishTile := true;
    var k := 0;
    while k < rovers.Length
      invariant 0 <= k <= rovers.Length && k <= n
      invariant forall j :: 0 <= j < k ==> rovers[j] == after[j]
      invariant forall j :: k <= j < rovers.Length ==> rovers[j] == rs[j]
      invariant allRoversInFinishTile == forall j :: 0 <= j < k ==> tiles[rs[j].logicalPosition].kind == Finish
    {
      var rover := rovers[k];
      if rover.logicalPosition !in tiles {
        assert k == n;
        assert rovers[..] == after;
        return NoTile;
      }
      var tile := tiles[rover.logicalPosition];
      if tile.shadow {
        rovers[k] := rover.(batteryLevel := rover.batteryLevel - 1);
      }
      allRoversInFinishTile := allRoversInFinishTile && tile.kind == Finish;
      k := k + 1;
    }
    assert rovers[..] == after;
    if allRoversInFinishTile {
      return AllOnFinish;
    }
    var j := 0;
    while j < rovers.Length
      invariant 0 <= j <= rovers.Length
      invariant forall i :: 0 <= i < j ==> rovers[i].batteryLevel != 0
    {
      if rovers[j].batteryLevel == 0 {
        return OutOfBattery;
      }
      j := j + 1;
    }
    return Undecided;
  }

  // ---------------------------------------------------------------------------
  // Several requests in one frame

  /** Every request of a frame, taken in order, drains only batteries that are not empty. */
  ghost predicate RequestsSafe(tiles: map<Coord, Tile>, rs: seq<Rover>, requests: nat)
    decreases requests
  {
    requests == 0 ||
      (DrainSafe(tiles, rs) &&
        (PassVerdict(tiles, rs) in {OutOfBattery, Undecided} ==> RequestsSafe(tiles, AfterPass(tiles, rs), requests - 1)))
  }

  /** The answers written for `requests` requests, and the rovers afterwards. */
  ghost function Requests(tiles: map<Coord, Tile>, rs: seq<Rover>, requests: nat): (seq<Answer>, seq<Rover>)
    requires RequestsSafe(tiles, rs, requests)
    decreases requests
  {
    if requests == 0 then ([], rs)
    else
      var after := AfterPass(tiles, rs);
      match PassVerdict(tiles, rs)
      case NoTile => ([], after)
      case AllOnFinish => ([PuzzleSolved], after)
      case OutOfBattery =>
        var rest := Requests(tiles, after, requests - 1);
        ([PuzzleFailed] + rest.0, rest.1)
      case Undecided => Requests(tiles, after, requests - 1)
  }

  /**
   * The game's on_puzzle_evaluation_request system: `requests` is the number of
   * pending evaluation requests and `level` the active level, if any.
   */
  method OnPuzzleEvaluationRequest(requests: nat, level: Option<Level>, rovers: array<Rover>) returns (answers: seq<Answer>)
    requires level.Some? ==> RequestsSafe(level.value.tiles, rovers[..], requests)
    modifies rovers
    ensures level.None? ==> answers == [] && rovers[..] == old(rovers[..])
    ensures level.Some? ==> (answers, rovers[..]) == Requests(level.value.tiles, old(rovers[..]), requests)
  {
    answers := [];
    var remaining := requests;
    if level.Some? {
      AnsweringStart(level.value.tiles, rovers[..], requests);
    }
    while remaining > 0
      invariant level.None? ==> answers == [] && rovers[..] == old(rovers[..])
      invariant level.Some? ==> Answering(level.value.tiles, old(rovers[..]), requests, rovers[..], remaining, answers)
    {
      if level.None? {
        return;
      }
      var tiles := level.value.tiles;
      AnsweringStep(tiles, old(rovers[..]), requests, rovers[..], remaining, answers);
      var v := EvaluatePass(tiles, rovers);
      if v == NoTile {
        return;
      }
      if v == AllOnFinish {
        answers := answers + [PuzzleSolved];
        break;
      }
      if v == OutOfBattery {
        answers := answers + [PuzzleFailed];
      }
      remaining := remaining - 1;
    }
    if level.Some? && remaining == 0 {
      AnsweringDone(level.value.tiles, old(rovers[..]), requests, rovers[..], answers);
    }
  }

  /**
   * The state of the request loop: `answers` have been written and `rs` are the
   * rovers, and the `remaining` requests will write the rest.
   */
  ghost predicate Answering(tiles: map<Coord, Tile>, start: seq<Rover>, requests: nat, rs: seq<Rover>, remaining: nat, answers: seq<Answer>)
  {
    && RequestsSafe(tiles, start, requests)
    && RequestsSafe(tiles, rs, remaining)
    && var rest := Requests(tiles, rs, remaining);
       (answers + rest.0, rest.1) == Requests(tiles, start, requests)
  }

  lemma AnsweringStart(tiles: map<Coord, Tile>, rs: seq<Rover>, requests: nat)
    requires RequestsSafe(tiles, rs, requests)
    ensures Answering(tiles, rs, requests, rs, requests, [])
  {
    assert [] + Requests(tiles, rs, requests).0 == Requests(tiles, rs, requests).0;
  }

  lemma AnsweringDone(tiles: map<Coord, Tile>, start: seq<Rover>, requests: nat, rs: seq<Rover>, answers: seq<Answer>)
    requires Answering(tiles, start, requests, rs, 0, answers)
    ensures (answers, rs) == Requests(tiles, start, requests)
  {
    assert answers + [] == answers;
  }

  /** One request of the loop, by what it decides. */
  lemma AnsweringStep(tiles: map<Coord, Tile>, start: seq<Rover>, requests: nat, rs: seq<Rover>, remaining: nat, answers: seq<Answer>)
    requires remaining > 0 && Answering(tiles, start, requests, rs, remaining, answers)
    ensures DrainSafe(tiles, rs)
    ensures PassVerdict(tiles, rs) == NoTile ==> (answers, AfterPass(tiles, rs)) == Requests(tiles, start, requests)
    ensures PassVerdict(tiles, rs) == AllOnFinish ==>
      (answers + [PuzzleSolved], AfterPass(tiles, rs)) == Requests(tiles, start, requests)
    ensures PassVerdict(tiles, rs) == OutOfBattery ==>
      Answering(tiles, start, requests, AfterPass(tiles, rs), remaining - 1, answers + [PuzzleFailed])
    ensures PassVerdict(tiles, rs) == Undecided ==>
      Answering(tiles, start, requests, AfterPass(tiles, rs), remaining - 1, answers)
  {
    var after := AfterPass(tiles, rs);
    var v := PassVerdict(tiles, rs);
    if v == NoTile {
      assert answers + [] == answers;
    } else if v == OutOfBattery {
      var rest := Requests(tiles, after, remaining - 1);
      assert (answers + [PuzzleFailed]) + rest.0 == answers + ([PuzzleFailed] + rest.0);
    }
  }

  // ---------------------------------------------------------------------------
  // What the outcome rules promise

  /** A request answers Solved exactly when every rover stands on a finish tile. */
  lemma SolvedIffAllOnFinish(tiles: map<Coord, Tile>, rs: seq<Rover>)
    requires DrainSafe(tiles, rs)
    ensures PassVerdict(tiles, rs) == AllOnFinish <==> AllFinished(tiles, rs)
  {
    if AllFinished(tiles, rs) {
      var n := FirstMissing(tiles, rs);
      assert n == |rs|;
    }
  }

  /** With no rovers the puzzle counts as solved. */
  lemma NoRoversSolved(tiles: map<Coord, Tile>)
    ensures PassVerdict(tiles, []) == AllOnFinish
  {
  }

  /** Failed is only answered when not solved and some rover's battery is empty after the drain. */
  lemma FailedOnlyWhenEmpty(tiles: map<Coord, Tile>, rs: seq<Rover>)
    requires DrainSafe(tiles, rs)
    ensures PassVerdict(tiles, rs) == OutOfBattery ==>
      !AllFinished(tiles, rs) && exists k :: 0 <= k < |rs| && AfterPass(tiles, rs)[k].batteryLevel == 0
  {
    SolvedIffAllOnFinish(tiles, rs);
  }

  /** A rover on a shadowed tile loses exactly one unit per request; any other keeps its battery. */
  lemma DrainIsExact(tiles: map<Coord, Tile>, rs: seq<Rover>, k: nat)
    requires DrainSafe(tiles, rs) && OnTiles(tiles, rs) && k < |rs|
    ensures AfterPass(tiles, rs)[k].logicalPosition == rs[k].logicalPosition
    ensures AfterPass(tiles, rs)[k].batteryLevel ==
      rs[k].batteryLevel - (if tiles[rs[k].logicalPosition].shadow then 1 else 0)
  {
  }

  /** The drain comes before the win check: a rover emptied on a finish tile still wins. */
  lemma DrainedOnFinishStillSolves(tiles: map<Coord, Tile>, rs: seq<Rover>, k: nat)
    requires DrainSafe(tiles, rs) && AllFinished(tiles, rs) && k < |rs|
    requires rs[k].batteryLevel == 1 && tiles[rs[k].logicalPosition].shadow
    ensures AfterPass(tiles, rs)[k].batteryLevel == 0
    ensures PassVerdict(tiles, rs) == AllOnFinish
  {
    SolvedIffAllOnFinish(tiles, rs);
  }

  /** A missing tile stops the pass: rovers before it were drained, itself and later ones are untouched. */
  lemma AbortLeavesRest(tiles: map<Coord, Tile>, rs: seq<Rover>)
    requires DrainSafe(tiles, rs) && !OnTiles(tiles, rs)
    ensures PassVerdict(tiles, rs) == NoTile
    ensures var n := FirstMissing(tiles, rs);
      AfterPass(tiles, rs)[n..] == rs[n..] && rs[n].logicalPosition !in tiles
    ensures var n := FirstMissing(tiles, rs);
      forall k :: 0 <= k < n ==> AfterPass(tiles, rs)[k] == Drained(rs[k], tiles[rs[k].logicalPosition])
  {
  }

  /** A frame writes at most one Solved, as its last answer, and at most one answer per request. */
  lemma {:induction false} SolvedEndsTheFrame(tiles: map<Coord, Tile>, rs: seq<Rover>, requests: nat)
    requires RequestsSafe(tiles, rs, requests)
    ensures var answers := Requests(tiles, rs, requests).0;
      |answers| <= requests &&
      forall i :: 0 <= i < |answers| && answers[i] == PuzzleSolved ==> i == |answers| - 1
    decreases requests
  {
    if requests > 0 {
      var after := AfterPass(tiles, rs);
      var v := PassVerdict(tiles, rs);
      if v in {OutOfBattery, Undecided} {
        SolvedEndsTheFrame(tiles, after, requests - 1);
      }
    }
  }
}
