/**
 * The command vocabulary of the rover game: the five action types a player
 * can program, the action record that ties a type to the rover it is for,
 * the per-rover action lists, and the icon shown for each action type.
 */
module Actions {

  /** One programmable command. */
  datatype ActionType = MoveUp | MoveDown | MoveLeft | MoveRight | Wait

  /** An action pairs its type with the index of the rover whose list holds it. */
  datatype Action = Action(kind: ActionType, rover: nat)

  /** The program being authored: one list of actions per rover, and the rover being edited. */
  datatype ActionList = ActionList(actions: seq<seq<Action>>, currentSelection: nat)

  const IconDirectory: string := "command_icons/"

  /** The file name of an action type's image inside the icon directory. */
  function IconFile(t: ActionType): string
  {
    match t
    case MoveUp => "arrow_up_outlined.png"
    case MoveDown => "arrow_down_outlined.png"
    case MoveLeft => "arrow_left_outlined.png"
    case MoveRight => "arrow_right_outlined.png"
    case Wait => "clock_outlined.png"
  }

  /** The image shown for an action type. */
  function ImgPath(t: ActionType): (path: string)
    ensures |path| > |IconDirectory| && path[..|IconDirectory|] == IconDirectory
  {
    IconDirectory + IconFile(t)
  }

  /** Distinct action types are drawn with distinct images. */
  lemma ImgPathInjective(s: ActionType, t: ActionType)
    ensures ImgPath(s) == ImgPath(t) ==> s == t
  {
    if s != t {
      // the images differ at the first character after the directory, or at the one after it
      var k := |IconDirectory|;
      assert ImgPath(s)[k] != ImgPath(t)[k] || ImgPath(s)[k + 6] != ImgPath(t)[k + 6];
    }
  }

  /** The program a game starts with: a single empty list, the first rover selected. */
  function InitialActionList(): (a: ActionList)
    ensures |a.actions| == 1 && a.actions[0] == []
    ensures a.currentSelection == 0
  {
    ActionList([[]], 0)
  }

  /** Every action sits in the list of the rover it names. */
  ghost predicate WellTagged(actions: seq<seq<Action>>)
  {
    forall r, k :: 0 <= r < |actions| && 0 <= k < |actions[r]| ==> actions[r][k].rover == r
  }

  lemma InitialIsWellTagged()
    ensures WellTagged(InitialActionList().actions)
  {
  }
}
