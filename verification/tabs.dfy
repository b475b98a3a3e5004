/**
 The main window's tab bar: the list of open tabs and the index of the active one.
 Tabs are compared by identity, so a tab is its identity here; layouts, refreshes
 and mouse handling are not part of this model.
 */
module Tabs {
  import opened Results

  /** A tab's identity. */
  type Tab = nat

  datatype Window = Window(tabs: seq<Tab>, active: nat)
  {
    /** The active index names an open tab. */
    predicate Valid()
    {
      active < |tabs|
    }

    /** No tab is open twice. */
    predicate Distinct()
    {
      forall i, j :: 0 <= i < j < |tabs| ==> tabs[i] != tabs[j]
    }
  }

  /** The window at start: one tab, active. */
  function NewWindow(first: Tab): (w: Window)
    ensures w.Valid() && w.Distinct() && w.tabs == [first] && w.tabs[w.active] == first
  {
    Window([first], 0)
  }

  /** `switch_tab`: an index outside the list is ignored. */
  function SwitchTab(w: Window, idx: int): (r: Window)
    ensures r.tabs == w.tabs
    ensures 0 <= idx < |w.tabs| ==> r.Valid() && r.active == idx
    ensures !(0 <= idx < |w.tabs|) ==> r == w
  {
    if idx < 0 || idx >= |w.tabs| then w else w.(active := idx)
  }

  /** `add_tab`: the tab goes last, and becomes active only when asked to. */
  function AddTab(w: Window, tab: Tab, switchTo: bool): (r: Window)
    ensures r.tabs == w.tabs + [tab]
    ensures switchTo ==> r.active == |w.tabs| && r.tabs[r.active] == tab
    ensures !switchTo ==> r.active == w.active
    ensures w.Valid() ==> r.Valid() && (!switchTo ==> r.tabs[r.active] == w.tabs[w.active])
  {
    var grown := w.(tabs := w.tabs + [tab]);
    if switchTo then SwitchTab(grown, |grown.tabs| - 1) else grown
  }

  /** With no tab open, the wrap-around takes a remainder by zero. */
  const NoTabsError := External("ZeroDivisionError", "integer division or modulo by zero")

  /**
   `next_tab`: the following tab, wrapping from the last to the first.  Python's `%`
   by a positive count agrees with Dafny's, also for the -1 of `prev_tab`.
   */
  function NextTab(w: Window): (r: Result<Window>)
    ensures |w.tabs| == 0 <==> r == Err(NoTabsError)
    ensures r.Ok? ==> r.value.tabs == w.tabs && r.value.Valid()
    ensures w.Valid() && w.active + 1 < |w.tabs| ==> r == Ok(w.(active := w.active + 1))
    ensures w.Valid() && w.active + 1 == |w.tabs| ==> r == Ok(w.(active := 0))
  {
    if |w.tabs| == 0 then Err(NoTabsError)
    else Ok(SwitchTab(w, (w.active + 1) % |w.tabs|))
  }

  /** `prev_tab`: the preceding tab, wrapping from the first to the last. */
  function PrevTab(w: Window): (r: Result<Window>)
    ensures |w.tabs| == 0 <==> r == Err(NoTabsError)
    ensures r.Ok? ==> r.value.tabs == w.tabs && r.value.Valid()
    ensures w.Valid() && w.active > 0 ==> r == Ok(w.(active := w.active - 1))
    ensures w.Valid() && w.active == 0 ==> r == Ok(w.(active := |w.tabs| - 1))
  {
    if |w.tabs| == 0 then Err(NoTabsError)
    else Ok(SwitchTab(w, (w.active as int - 1) % |w.tabs|))
  }

  /** Moving to the next tab and back returns to the same tab. */
  lemma NextThenPrev(w: Window)
    requires w.Valid()
    ensures NextTab(w).Ok? && PrevTab(NextTab(w).value) == Ok(w)
  {
  }

  /** Moving `k` tabs forward from the active one. */
  function NextTimes(w: Window, k: nat): Result<Window>
    decreases k
  {
    if k == 0 then Ok(w)
    else
      var n :- NextTab(w);
      NextTimes(n, k - 1)
  }

  /** Within one round of next_tab, the active tab is `k` places on, wrapping past the end. */
  lemma {:induction false} NextTimesWraps(w: Window, k: nat)
    requires w.Valid() && k <= |w.tabs|
    ensures var steps := w.active + k;
      NextTimes(w, k) == Ok(w.(active := if steps < |w.tabs| then steps else steps - |w.tabs|))
    decreases k
  {
    if k > 0 {
      var n := NextTab(w).value;
      NextTimesWraps(n, k - 1);
    }
  }

  /** A full round of next_tab comes back to the tab it started from. */
  lemma FullRound(w: Window)
    requires w.Valid()
    ensures NextTimes(w, |w.tabs|) == Ok(w)
  {
    NextTimesWraps(w, |w.tabs|);
  }

  /** `active_tab`: the tab at the active index. */
  function ActiveTab(w: Window): (r: Result<Tab>)
    ensures w.Valid() <==> r.Ok?
    ensures r.Ok? ==> r.value == w.tabs[w.active]
    ensures r.Err? ==> r.error == IndexError("list index out of range")
  {
    if w.active < |w.tabs| then Ok(w.tabs[w.active]) else Err(IndexError("list index out of range"))
  }

  /** The position of the first listing of a tab. */
  function IndexOf(tabs: seq<Tab>, tab: Tab): (i: nat)
    requires tab in tabs
    ensures i < |tabs| && tabs[i] == tab && forall j :: 0 <= j < i ==> tabs[j] != tab
  {
    if tabs[0] == tab then 0 else 1 + IndexOf(tabs[1..], tab)
  }

  /** `list.remove`: the first listing of the tab goes. */
  function Remove(tabs: seq<Tab>, tab: Tab): (r: seq<Tab>)
    requires tab in tabs
    ensures r == tabs[..IndexOf(tabs, tab)] + tabs[IndexOf(tabs, tab) + 1..]
  {
    var i := IndexOf(tabs, tab);
    tabs[..i] + tabs[i + 1..]
  }

  const NotListedMessage := "list.remove(x): x not in list"

  /**
   `close_tab` as written: closing the active tab first switches to the previous
   index (nothing happens at index 0), then the tab is removed; the active index is
   not adjusted when a tab before it goes.  The flag says the window exits, which it
   does when no tab is left.
   */
  function CloseTabAsWritten(w: Window, tab: Tab): (r: Result<(Window, bool)>)
    ensures !w.Valid() ==> r == Err(IndexError("list index out of range"))
    ensures w.Valid() && tab !in w.tabs ==> r == Err(ValueError(NotListedMessage))
    ensures w.Valid() && tab in w.tabs ==>
      && r.Ok? && r.value.0.tabs == Remove(w.tabs, tab) && (r.value.1 <==> |w.tabs| == 1)
      && r.value.0.active == (if tab == w.tabs[w.active] && w.active > 0 then w.active - 1 else w.active)
  {
    var current :- ActiveTab(w);
    var switched := if current == tab then SwitchTab(w, w.active - 1) else w;
    if tab !in switched.tabs then Err(ValueError(NotListedMessage))
    else
      var closed := switched.(tabs := Remove(switched.tabs, tab));
      Ok((closed, |closed.tabs| == 0))
  }

  /**
   With two tabs and the second active, closing the first leaves the active index
   past the end of the list, and the remaining tab can then no longer be closed.
   */
  lemma StaleActiveIndex()
    ensures CloseTabAsWritten(Window([1, 2], 1), 1) == Ok((Window([2], 1), false))
    ensures !Window([2], 1).Valid()
    ensures CloseTabAsWritten(Window([2], 1), 2) == Err(IndexError("list index out of range"))
  {
    assert IndexOf([1, 2], 1) == 0;
    assert [1, 2][..0] + [1, 2][1..] == [2];
  }

  /** Closing a tab before the active one makes a different tab active. */
  lemma ActiveTabShifts()
    ensures CloseTabAsWritten(Window([1, 2, 3], 1), 1) == Ok((Window([2, 3], 1), false))
    ensures Window([1, 2, 3], 1).tabs[1] == 2 && Window([2, 3], 1).tabs[1] == 3
  {
    assert IndexOf([1, 2, 3], 1) == 0;
    assert [1, 2, 3][..0] + [1, 2, 3][1..] == [2, 3];
  }

  /**
   `close_tab` as intended: the active index also moves down when a tab before it
   is removed, so the same tab stays active.
   */
  function CloseTab(w: Window, tab: Tab): (r: Result<(Window, bool)>)
    ensures !w.Valid() ==> r == Err(IndexError("list index out of range"))
    ensures w.Valid() && tab !in w.tabs ==> r == Err(ValueError(NotListedMessage))
    ensures w.Valid() && tab in w.tabs ==>
      r.Ok? && r.value.0.tabs == Remove(w.tabs, tab) && (r.value.1 <==> |w.tabs| == 1)
    ensures r.Ok? && !r.value.1 ==> r.value.0.Valid()
  {
    var current :- ActiveTab(w);
    var switched := if current == tab then SwitchTab(w, w.active - 1) else w;
    if tab !in switched.tabs then Err(ValueError(NotListedMessage))
    else
      var i := IndexOf(switched.tabs, tab);
      var closed := Window(Remove(switched.tabs, tab), if i < switched.active then switched.active - 1 else switched.active);
      Ok((closed, |closed.tabs| == 0))
  }

  /**
   Closing a tab keeps the active tab when another tab is closed, and activates the
   tab before it (or after it, at the front) when the active tab is closed.
   */
  lemma CloseTabKeepsActive(w: Window, tab: Tab)
    requires w.Valid() && w.Distinct() && tab in w.tabs && |w.tabs| > 1
    ensures CloseTab(w, tab).Ok?
    ensures var r := CloseTab(w, tab).value.0;
      && r.Valid() && r.Distinct()
      && (tab != w.tabs[w.active] ==> r.tabs[r.active] == w.tabs[w.active])
      && (tab == w.tabs[w.active] && w.active > 0 ==> r.tabs[r.active] == w.tabs[w.active - 1])
      && (tab == w.tabs[w.active] && w.active == 0 ==> r.tabs[r.active] == w.tabs[1])
  {
    var r := CloseTab(w, tab).value.0;
    var i := IndexOf(w.tabs, tab);
    forall a, b | 0 <= a < b < |r.tabs| ensures r.tabs[a] != r.tabs[b] {
      var a' := if a < i then a else a + 1;
      var b' := if b < i then b else b + 1;
      assert r.tabs[a] == w.tabs[a'] && r.tabs[b] == w.tabs[b'];
    }
    if tab == w.tabs[w.active] {
      assert i == w.active;
    }
  }
}
