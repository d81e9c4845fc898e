/**
 * NavActionsProperty: the property listing the actions of the selected
 * navigation destinations, one entry per action title.
 */
module NavActions {
  import opened Wrappers

  /**
   * The attributes of a destination's child that the property reads: whether it
   * is an <action>, its destination id, its popUpTo target and its popUpToInclusive flag.
   */
  datatype NavChild = NavChild(isAction: bool, actionDestinationId: Option<string>,
                               popUpTo: Option<string>, inclusive: Option<bool>)

  /** A selected destination component, through its children. */
  datatype NavComponent = NavComponent(children: seq<NavChild>)

  /** An entry of the list: its title and the components it edits. */
  datatype SimpleProperty = SimpleProperty(name: string, components: seq<NavChild>)

  const InvalidActionTitle: string := "Invalid Action"
  const CallerOfPrefix: string := "Caller of "

  /** `components.flatMap { it.children }`: all children, component after component. */
  function FlatChildren(components: seq<NavComponent>): (r: seq<NavChild>)
    ensures forall c :: c in r <==> exists i :: 0 <= i < |components| && c in components[i].children
  {
    if components == [] then [] else components[0].children + FlatChildren(components[1..])
  }

  /**
   * The title of an action: its destination id; without one, its popUpTo target,
   * prefixed with "Caller of " when popUpToInclusive is true; without either,
   * "Invalid Action".
   */
  function ActionTitle(child: NavChild): (r: string)
    ensures || Some(r) == child.actionDestinationId
            || (child.popUpTo.Some? && (r == child.popUpTo.value || r == CallerOfPrefix + child.popUpTo.value))
            || r == InvalidActionTitle
  {
    match child.actionDestinationId
    case Some(id) => id
    case None =>
      match child.popUpTo
      case Some(target) => (if child.inclusive == Some(true) then CallerOfPrefix else "") + target
      case None => InvalidActionTitle
  }

  /** The entries after putting the action children of `children`, in order, into an empty map. */
  function ActionEntries(children: seq<NavChild>): (r: map<string, SimpleProperty>)
    ensures forall title :: title in r ==>
              && r[title].name == title
              && |r[title].components| == 1
              && r[title].components[0] in children
              && r[title].components[0].isAction
              && ActionTitle(r[title].components[0]) == title
  {
    if children == [] then map[]
    else
      var entries := ActionEntries(children[..|children| - 1]);
      var child := children[|children| - 1];
      if child.isAction then entries[ActionTitle(child) := SimpleProperty(ActionTitle(child), [child])]
      else entries
  }

  /** Whether some action child of `children` has the given title. */
  predicate HasActionTitled(children: seq<NavChild>, title: string) {
    exists j :: 0 <= j < |children| && children[j].isAction && ActionTitle(children[j]) == title
  }

  /** There is an entry for a title exactly when some action child has that title. */
  lemma {:induction false} ActionEntriesKeys(children: seq<NavChild>, title: string)
    ensures title in ActionEntries(children) <==> HasActionTitled(children, title)
  {
    if children != [] {
      var init := children[..|children| - 1];
      ActionEntriesKeys(init, title);
      if HasActionTitled(init, title) {
        var j :| 0 <= j < |init| && init[j].isAction && ActionTitle(init[j]) == title;
        assert children[j] == init[j];
      }
      if HasActionTitled(children, title) {
        var j :| 0 <= j < |children| && children[j].isAction && ActionTitle(children[j]) == title;
        if j < |init| {
          assert init[j] == children[j];
        }
      }
    }
  }

  /**
   * The entry for a title wraps exactly one child under that title: the last
   * action child with that title, which replaced every earlier one.
   */
  lemma {:induction false} ActionEntriesLastWins(children: seq<NavChild>, j: nat)
    requires j < |children| && children[j].isAction
    requires forall k :: j < k < |children| && children[k].isAction ==> ActionTitle(children[k]) != ActionTitle(children[j])
    ensures ActionTitle(children[j]) in ActionEntries(children)
    ensures ActionEntries(children)[ActionTitle(children[j])] == SimpleProperty(ActionTitle(children[j]), [children[j]])
  {
    if j < |children| - 1 {
      var init := children[..|children| - 1];
      assert init[j] == children[j];
      ActionEntriesLastWins(init, j);
    }
  }

  /** A child with a destination id is filed under that id, whatever its popUpTo says. */
  lemma ActionTitleOfDestination(child: NavChild, id: string)
    requires child.actionDestinationId == Some(id)
    ensures ActionTitle(child) == id
  {
  }

  /**
   * A child without a destination id but with a popUpTo target is filed under
   * that target, after "Caller of " exactly when popUpToInclusive is true.
   */
  lemma ActionTitleOfPopUp(child: NavChild, target: string)
    requires child.actionDestinationId.None? && child.popUpTo == Some(target)
    ensures child.inclusive == Some(true) ==> ActionTitle(child) == CallerOfPrefix + target
    ensures child.inclusive != Some(true) ==> ActionTitle(child) == target
  {
  }

  /** A child with neither a destination id nor a popUpTo target is filed as "Invalid Action". */
  lemma ActionTitleOfNeither(child: NavChild)
    requires child.actionDestinationId.None? && child.popUpTo.None?
    ensures ActionTitle(child) == InvalidActionTitle
  {
  }

  /** The list property over the selected destinations. */
  class NavActionsProperty {
    const components: seq<NavComponent>
    var properties: map<string, SimpleProperty>

    /** The constructor fills the list from the components (`init { refreshList() }`). */
    constructor (components: seq<NavComponent>)
      ensures this.components == components
      ensures properties == ActionEntries(FlatChildren(components))
    {
      this.components := components;
      properties := map[];
      new;
      RefreshList();
    }

    /**
     * refreshList: clears the entries, then puts one entry per action child of
     * the components, in order, so that the result depends on the components only.
     */
    method RefreshList()
      modifies this`properties
      ensures properties == ActionEntries(FlatChildren(components))
    {
      properties := map[];
      var children := FlatChildren(components);
      for i := 0 to |children|
        invariant properties == ActionEntries(children[..i])
      {
        var child := children[i];
        assert children[..i + 1][..i] == children[..i];
        if child.isAction {
          match child.actionDestinationId {
            case Some(id) =>
              properties := properties[id := SimpleProperty(id, [child])];
            case None =>
              match child.popUpTo {
                case Some(target) =>
                  var title := (if child.inclusive == Some(true) then CallerOfPrefix else "") + target;
                  properties := properties[title := SimpleProperty(title, [child])];
                case None =>
                  properties := properties[InvalidActionTitle := SimpleProperty(InvalidActionTitle, [child])];
              }
          }
        }
      }
      assert children[..|children|] == children;
    }
  }
}
