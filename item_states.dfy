/** `clear`: the menu renderer's item-processing hook that settles one final
    ITEM_STATE per item from the states `processArrayPostRender` proposed and the
    states the menu configuration enables. */
module ItemStates {
  import opened Wrappers
  import opened MenuTree

  /** `$menueItemStates`: the states in order of priority.  NO is not among them;
      it is the fallback. */
  const Priority: seq<State> := [USERDEF2, USERDEF1, SPC, USR, CURIFSUB, CUR, ACTIFSUB, ACT, IFSUB]

  /** A menu item as the renderer hands it over: the node array, plus the
      page-record flag DO_NOT_RENDER. */
  datatype MenuItem = MenuItem(node: Node, doNotRender: bool)

  /** The first state of `states` that is enabled and listed, or NO. */
  function FirstEnabled(states: seq<State>, enabled: set<State>, listed: seq<State>): State {
    if |states| == 0 then NO
    else if states[0] in enabled && states[0] in listed then states[0]
    else FirstEnabled(states[1..], enabled, listed)
  }

  /** FirstEnabled picks a state that is enabled and listed, and no state before
      it in `states` is both; it gives NO exactly when no state of `states` is both. */
  lemma {:induction false} FirstEnabledIsFirst(states: seq<State>, enabled: set<State>, listed: seq<State>)
    requires NO !in states
    ensures var r := FirstEnabled(states, enabled, listed);
      (r == NO <==> forall j :: 0 <= j < |states| ==> !(states[j] in enabled && states[j] in listed))
      && (r != NO ==> exists i :: 0 <= i < |states| && states[i] == r && r in enabled && r in listed
                       && forall j :: 0 <= j < i ==> !(states[j] in enabled && states[j] in listed))
  {
    if |states| > 0 {
      FirstEnabledIsFirst(states[1..], enabled, listed);
      var r := FirstEnabled(states, enabled, listed);
      if !(states[0] in enabled && states[0] in listed) && r != NO {
        var i :| 0 <= i < |states[1..]| && states[1..][i] == r && r in enabled && r in listed
                 && forall j :: 0 <= j < i ==> !(states[1..][j] in enabled && states[1..][j] in listed);
        assert states[i + 1] == r;
        forall j | 0 <= j < i + 1 ensures !(states[j] in enabled && states[j] in listed) {
          if j > 0 { assert states[j] == states[1..][j - 1]; }
        }
      }
    }
  }

  /** The state `clear` gives one item. */
  function ResolveItem(item: MenuItem, enabled: set<State>): MenuItem {
    if item.node.state != Some(NO) && |item.node.statesList| > 0 then
      item.(node := item.node.(state := Some(FirstEnabled(Priority, enabled, item.node.statesList))))
    else item
  }

  /** `clear` as a whole: nothing when the first item is not a commerce item or
      some item must not be rendered; otherwise every item resolved. */
  function Cleared(items: seq<MenuItem>, enabled: set<State>): seq<MenuItem> {
    if |items| == 0 || !items[0].node.commerceMenu || exists i :: 0 <= i < |items| && items[i].doNotRender then []
    else seq(|items|, i requires 0 <= i < |items| => ResolveItem(items[i], enabled))
  }

  /** `clear`. */
  method Clear(menuArr: seq<MenuItem>, enabled: set<State>) returns (r: seq<MenuItem>)
    ensures r == Cleared(menuArr, enabled)
  {
    r := menuArr;
    if |r| == 0 || !r[0].node.commerceMenu {
      r := [];
    }
    var i := 0;
    var cleared := false;
    while i < |menuArr|
      invariant 0 <= i <= |menuArr|
      invariant cleared <==> exists j :: 0 <= j < i && menuArr[j].doNotRender
      invariant r == if cleared || |menuArr| == 0 || !menuArr[0].node.commerceMenu then [] else menuArr
    {
      if menuArr[i].doNotRender {
        r := [];
        cleared := true;
      }
      i := i + 1;
    }
    if |r| > 0 && r[0].node.commerceMenu {
      var m := 0;
      while m < |r|
        invariant 0 <= m <= |r| == |menuArr|
        invariant forall j :: 0 <= j < m ==> r[j] == ResolveItem(menuArr[j], enabled)
        invariant forall j :: m <= j < |r| ==> r[j] == menuArr[j]
      {
        if r[m].node.state != Some(NO) && |r[m].node.statesList| > 0 {
          var chosen := ResolveState(r[m].node.statesList, enabled);
          r := r[m := r[m].(node := r[m].node.(state := Some(chosen)))];
        }
        m := m + 1;
      }
    }
  }

  /** The walk over `$menueItemStates` for one item. */
  method ResolveState(listed: seq<State>, enabled: set<State>) returns (state: State)
    ensures state == FirstEnabled(Priority, enabled, listed)
  {
    var found: Option<State> := None;
    var k := 0;
    while k < |Priority|
      invariant 0 <= k <= |Priority|
      invariant found.None? ==> FirstEnabled(Priority, enabled, listed) == FirstEnabled(Priority[k..], enabled, listed)
      invariant found.Some? ==> found.value == FirstEnabled(Priority, enabled, listed)
    {
      assert Priority[k..][1..] == Priority[k + 1..];
      if Priority[k] in enabled && found.None? && Priority[k] in listed {
        found := Some(Priority[k]);
      }
      k := k + 1;
    }
    assert Priority[k..] == [];
    state := found.GetOr(NO);
  }

  /** An item proposed as current or as current with sub-items, with CUR
      enabled, is settled on a current state (CURIFSUB when that is enabled). */
  lemma ListedCurrentResolves(listed: seq<State>, enabled: set<State>)
    requires CUR in listed && CUR in enabled
    requires forall s :: s in listed ==> s in {CURIFSUB, CUR, ACTIFSUB, ACT, IFSUB, NO}
    ensures FirstEnabled(Priority, enabled, listed) == (if CURIFSUB in enabled && CURIFSUB in listed then CURIFSUB else CUR)
  {
    FirstEnabledIsFirst(Priority, enabled, listed);
    var r := FirstEnabled(Priority, enabled, listed);
    assert Priority[5] == CUR;
    var i :| 0 <= i < |Priority| && Priority[i] == r && r in enabled && r in listed
             && forall j :: 0 <= j < i ==> !(Priority[j] in enabled && Priority[j] in listed);
    assert i <= 5;
    assert forall j :: 0 <= j < 4 ==> Priority[j] !in listed;
    if i == 5 { assert Priority[4] == CURIFSUB; }
  }

  /** The whole array is dropped when any item must not be rendered. */
  lemma DoNotRenderClearsAll(items: seq<MenuItem>, enabled: set<State>, i: int)
    requires 0 <= i < |items| && items[i].doNotRender
    ensures Cleared(items, enabled) == []
  {
  }

  /** Items that are settled (NO) or carry no list keep their state; the others
      end with a state of their list or NO, never with an unset state. */
  lemma ClearedStates(items: seq<MenuItem>, enabled: set<State>, i: int)
    requires 0 <= i < |Cleared(items, enabled)|
    ensures |Cleared(items, enabled)| == |items|
    ensures items[i].node.state == Some(NO) || |items[i].node.statesList| == 0 ==> Cleared(items, enabled)[i] == items[i]
    ensures items[i].node.state != Some(NO) && |items[i].node.statesList| > 0 ==>
      var s := Cleared(items, enabled)[i].node.state.value;
      (s == NO || (s in items[i].node.statesList && s in enabled))
  {
    FirstEnabledIsFirst(Priority, enabled, items[i].node.statesList);
  }
}
