/**
 * The TabPanel of the GUI server (gui/server/tabpanel.go): a content panel
 * and a tab bar holding one tab per content component, the selected and the
 * previously selected tab index, and the style class that marks each tab
 * cell as selected or not.
 */
module TabPanels {
  import opened Wrappers
  import opened Ids
  import opened Comps
  import opened Panels
  import Seqs

  const SelectedClass := "gui-TabBar-Selected"
  const NotSelectedClass := "gui-TabBar-NotSelected"
  const ContentClass := "gui-TabPanel-Content"

  /** The classes of a tab cell that is (or is not) the selected one. */
  predicate TabStyle(classes: set<string>, isSelected: bool) {
    if isSelected then SelectedClass in classes && NotSelectedClass !in classes
    else NotSelectedClass in classes && SelectedClass !in classes
  }

  /**
   * Every tab has cell classes (cm maps a component id to its cell's
   * classes), and every tab other than skip carries the style that says
   * whether it is tab sel.
   */
  predicate Styled(tabs: seq<Comp>, cm: map<ID, set<string>>, sel: int, skip: int) {
    forall k :: 0 <= k < |tabs| ==> tabs[k].id in cm && (k != skip ==> TabStyle(cm[tabs[k].id], k == sel))
  }

  /** The classes of every cell formatter, by component id. */
  ghost function ClassesOf(fmts: map<ID, CellFmt>): map<ID, set<string>>
    reads fmts.Values
  {
    map x | x in fmts :: fmts[x].classes
  }

  /** When every formatter but id's still has the classes recorded in before, only id's entry differs. */
  lemma ClassesRestyled(fmts: map<ID, CellFmt>, before: map<ID, set<string>>, id: ID)
    requires id in fmts && fmts.Keys == before.Keys
    requires forall x :: x in fmts && x != id ==> fmts[x].classes == before[x]
    ensures ClassesOf(fmts) == before[id := fmts[id].classes]
  {
  }

  /** When every formatter still has the classes recorded in before, the classes are before. */
  lemma ClassesKept(fmts: map<ID, CellFmt>, before: map<ID, set<string>>)
    requires fmts.Keys == before.Keys
    requires forall x :: x in fmts ==> fmts[x].classes == before[x]
    ensures ClassesOf(fmts) == before
  {
  }

  /**
   * A tab cell's classes after StyleTab: the other tab class is taken out
   * and the one for isSelected put in; no other class changes.
   */
  function Swapped(classes: set<string>, isSelected: bool): (r: set<string>)
    ensures TabStyle(r, isSelected)
    ensures r - {SelectedClass, NotSelectedClass} == classes - {SelectedClass, NotSelectedClass}
  {
    if isSelected then classes - {NotSelectedClass} + {SelectedClass}
    else classes - {SelectedClass} + {NotSelectedClass}
  }

  /**
   * The cell classes after SetSelected moves the selection from tab prev to
   * tab idx: prev's cell is swapped to not selected, then idx's to selected
   * (a negative index touches no cell). Every other cell keeps its classes.
   */
  function Reselect(cm: map<ID, set<string>>, tabs: seq<Comp>, prev: int, idx: int): (r: map<ID, set<string>>)
    ensures r.Keys == cm.Keys
    ensures forall x :: x in cm && (0 <= prev < |tabs| ==> x != tabs[prev].id) && (0 <= idx < |tabs| ==> x != tabs[idx].id) ==> r[x] == cm[x]
    ensures 0 <= idx < |tabs| && tabs[idx].id in cm ==> r[tabs[idx].id] == Swapped(cm[tabs[idx].id], true)
    ensures 0 <= prev < |tabs| && tabs[prev].id in cm && !(0 <= idx < |tabs| && tabs[idx].id == tabs[prev].id) ==>
      r[tabs[prev].id] == Swapped(cm[tabs[prev].id], false)
  {
    var cm1 := if 0 <= prev < |tabs| && tabs[prev].id in cm then cm[tabs[prev].id := Swapped(cm[tabs[prev].id], false)] else cm;
    if 0 <= idx < |tabs| && tabs[idx].id in cm1 then
      assert Swapped(Swapped(cm[tabs[idx].id], false), true) == Swapped(cm[tabs[idx].id], true);
      cm1[tabs[idx].id := Swapped(cm1[tabs[idx].id], true)]
    else cm1
  }

  /**
   * The tab cell classes after the pair at index i is removed while tab sel
   * is selected: tab i's cell goes, and when it was the selected one the tab
   * that moves into its place is restyled by SetSelected(i) (deselected,
   * then selected). Every other cell keeps its classes.
   */
  function ClassesAfterRemove(cm: map<ID, set<string>>, tabs: seq<Comp>, i: nat, sel: int): (r: map<ID, set<string>>)
    requires i < |tabs|
    ensures r.Keys == cm.Keys - {tabs[i].id}
    ensures forall x :: x in r && (i == sel && i + 1 < |tabs| ==> x != tabs[i + 1].id) ==> r[x] == cm[x]
    ensures i == sel && i + 1 < |tabs| && tabs[i + 1].id in r ==> r[tabs[i + 1].id] == Swapped(cm[tabs[i + 1].id], true)
  {
    var rest := Seqs.RemoveAt(tabs, i);
    if i == sel then
      assert i + 1 < |tabs| ==> rest[i] == tabs[i + 1];
      Reselect(cm - {tabs[i].id}, rest, i, i)
    else cm - {tabs[i].id}
  }

  /** The two class writes of StyleTab on one cell formatter. */
  method Restyle(style: CellFmt, isSelected: bool)
    modifies style
    ensures style.classes == Swapped(old(style.classes), isSelected)
  {
    if isSelected {
      style.RemoveClass(NotSelectedClass);
      style.AddClass(SelectedClass);
    } else {
      style.RemoveClass(SelectedClass);
      style.AddClass(NotSelectedClass);
    }
  }

  /** prevSelected after the pair at index i is removed. */
  function AdjustPrev(prev: int, i: nat): (r: int)
    ensures prev >= 0 && i < prev ==> r == prev - 1
    ensures prev >= 0 && i == prev ==> r == -1
    ensures prev < 0 || i > prev ==> r == prev
  {
    if prev >= 0 then
      if i < prev then prev - 1 else if i == prev then -1 else prev
    else prev
  }

  /**
   * selected after the pair at index i is removed from n+1 pairs: shifted
   * down when below, and the next tab when the selected one goes. The cases
   * where no next tab exists panic in the code and are excluded.
   */
  function AdjustSelected(sel: int, i: nat, n: nat): (r: int)
    requires !(i == sel && i >= n)
    ensures i < sel ==> r == sel - 1
    ensures i == sel ==> r == i && r < n
    ensures i > sel ==> r == sel
  {
    if i < sel then sel - 1 else if i == sel then i else sel
  }

  /** Taking a pair out keeps the same tab selected when it was not the one removed. */
  lemma SelectionFollowsTab(tabs: seq<Comp>, sel: int, i: nat)
    requires i < |tabs| && 0 <= sel < |tabs| && i != sel
    ensures var r := Seqs.RemoveAt(tabs, i);
      0 <= AdjustSelected(sel, i, |tabs| - 1) < |r| && r[AdjustSelected(sel, i, |tabs| - 1)] == tabs[sel]
  {
  }

  /**
   * p.Add(c), then p.CellFmt(c).Style().AddClass(cls), for a component that
   * is not yet a child: it goes last and gets a new formatter holding cls.
   */
  method AppendStyled(p: Panel, c: Comp, cls: string) returns (fmt: CellFmt)
    requires p.Valid() && IndexOf(p.comps, c.id) < 0
    modifies p
    ensures p.Valid() && p.comps == old(p.comps) + [c]
    ensures p.cellFmts == old(p.cellFmts)[c.id := fmt] && fresh(fmt) && fmt.classes == {cls}
    ensures ClassesOf(p.cellFmts) == old(ClassesOf(p.cellFmts))[c.id := {cls}]
  {
    ghost var cm := ClassesOf(p.cellFmts);
    fmt := AppendFmt(p, c);
    ghost var fmts := p.cellFmts;
    ghost var mid := ClassesOf(fmts);
    fmt.AddClass(cls);
    assert forall x :: x in fmts && x != c.id ==> fmts[x] != fmt;
    ClassesRestyled(fmts, mid, c.id);
    UpdatedTwice(cm, c.id, {}, {cls});
  }

  /** p.Add(c), then p.CellFmt(c): the new last child gets a new, empty formatter. */
  method AppendFmt(p: Panel, c: Comp) returns (fmt: CellFmt)
    requires p.Valid() && IndexOf(p.comps, c.id) < 0
    modifies p
    ensures p.Valid() && p.comps == old(p.comps) + [c]
    ensures p.cellFmts == old(p.cellFmts)[c.id := fmt] && fresh(fmt) && fmt.classes == {}
    ensures ClassesOf(p.cellFmts) == old(ClassesOf(p.cellFmts))[c.id := {}]
  {
    ghost var comps := p.comps;
    ghost var fmts := p.cellFmts;
    ghost var cm := ClassesOf(fmts);
    p.NoFmtForNonChild(c.id);
    p.Add(c);
    assert p.comps == comps + [c] && p.cellFmts == fmts;
    assert IndexOf(p.comps, c.id) >= 0 by {
      assert p.comps[|comps|] == c;
    }
    var cf := p.CellFmt(c);
    fmt := cf;
    ClassesRestyled(p.cellFmts, cm[c.id := {}], c.id);
  }

  /** A second update of the same key overrides the first. */
  lemma UpdatedTwice(m: map<ID, set<string>>, k: ID, a: set<string>, b: set<string>)
    ensures m[k := a][k := b] == m[k := b]
  {
  }

  /** Taking a pair out keeps the same previous tab, or forgets it when it was the one removed. */
  lemma PrevFollowsTab(tabs: seq<Comp>, prev: int, i: nat)
    requires i < |tabs| && 0 <= prev < |tabs|
    ensures var r := Seqs.RemoveAt(tabs, i);
      && (i != prev ==> 0 <= AdjustPrev(prev, i) < |r| && r[AdjustPrev(prev, i)] == tabs[prev])
      && (i == prev ==> AdjustPrev(prev, i) == -1)
  {
  }

  class TabPanel {
    /** The embedded panelImpl holding the content components; it has the tab panel's id. */
    const contents: Panel
    /** The tab bar's panel. */
    const tabBar: Panel
    var selected: int
    var prevSelected: int

    ghost predicate Valid()
      reads this, contents, tabBar, tabBar.cellFmts.Values
    {
      && contents != tabBar && contents.Valid() && tabBar.Valid()
      && |contents.comps| == |tabBar.comps|
      && selected < |tabBar.comps| && prevSelected < |tabBar.comps|
      && Styled(tabBar.comps, ClassesOf(tabBar.cellFmts), selected, -1)
    }

    /** NewTabPanel: no tabs, nothing selected now or before. */
    constructor(id: ID, barID: ID)
      ensures contents.id == id && tabBar.id == barID
      ensures contents.comps == [] && tabBar.comps == []
      ensures selected == -1 && prevSelected == -1
      ensures Valid() && fresh(contents) && fresh(tabBar)
    {
      contents := new Panel(id);
      tabBar := new Panel(barID);
      selected := -1;
      prevSelected := -1;
    }

    /** CompsCount. */
    function CompsCount(): nat
      reads this, contents
    {
      |contents.comps|
    }

    /**
     * SetSelected: no-op when idx >= CompsCount(); otherwise the previous
     * selection is remembered and idx is selected (a negative idx selects
     * nothing), and the tab cells' styles follow. Deselecting looks up the
     * tab at the old selection, which must exist, or CellFmt panics.
     */
    method SetSelected(idx: int)
      requires contents != tabBar && contents.Valid() && tabBar.Valid()
      requires |contents.comps| == |tabBar.comps| && selected < |tabBar.comps|
      requires Styled(tabBar.comps, ClassesOf(tabBar.cellFmts), selected, selected)
      modifies this, tabBar, tabBar.cellFmts.Values
      ensures contents.comps == old(contents.comps) && tabBar.comps == old(tabBar.comps)
      ensures tabBar.cellFmts == old(tabBar.cellFmts) && tabBar.Valid()
      ensures idx >= |tabBar.comps| ==> selected == old(selected) && prevSelected == old(prevSelected)
      ensures idx >= |tabBar.comps| ==> Styled(tabBar.comps, ClassesOf(tabBar.cellFmts), selected, selected)
      ensures idx < |tabBar.comps| ==> selected == idx && prevSelected == old(selected)
      ensures idx < |tabBar.comps| ==> Styled(tabBar.comps, ClassesOf(tabBar.cellFmts), selected, -1)
      ensures idx >= |tabBar.comps| ==> ClassesOf(tabBar.cellFmts) == old(ClassesOf(tabBar.cellFmts))
      ensures idx < |tabBar.comps| ==>
        ClassesOf(tabBar.cellFmts) == Reselect(old(ClassesOf(tabBar.cellFmts)), tabBar.comps, old(selected), idx)
      ensures ClassesOf(contents.cellFmts) == old(ClassesOf(contents.cellFmts))
    {
      if idx >= |contents.comps| {
        return;
      }
      RestyleTabs(selected, idx);
      ghost var tc := ClassesOf(tabBar.cellFmts);
      ghost var cc := ClassesOf(contents.cellFmts);
      prevSelected := selected;
      selected := idx;
      ClassesKept(tabBar.cellFmts, tc);
      ClassesKept(contents.cellFmts, cc);
    }

    /**
     * The two style updates of SetSelected: tab prev's cell is deselected,
     * then tab idx's selected (a negative index touches no cell).
     */
    method RestyleTabs(prev: int, idx: int)
      requires contents != tabBar && contents.Valid() && tabBar.Valid()
      requires prev < |tabBar.comps| && idx < |tabBar.comps|
      requires Styled(tabBar.comps, ClassesOf(tabBar.cellFmts), prev, prev)
      modifies tabBar, tabBar.cellFmts.Values
      ensures tabBar.comps == old(tabBar.comps) && tabBar.cellFmts == old(tabBar.cellFmts) && tabBar.Valid()
      ensures Styled(tabBar.comps, ClassesOf(tabBar.cellFmts), idx, -1)
      ensures ClassesOf(tabBar.cellFmts) == Reselect(old(ClassesOf(tabBar.cellFmts)), tabBar.comps, prev, idx)
      ensures ClassesOf(contents.cellFmts) == old(ClassesOf(contents.cellFmts))
    {
      ghost var cm := ClassesOf(tabBar.cellFmts);
      if prev >= 0 {
        // Deselect current selected
        StyleTab(prev, false);
      }
      ghost var cm1 := ClassesOf(tabBar.cellFmts);
      assert cm1 == if 0 <= prev < |tabBar.comps| && tabBar.comps[prev].id in cm
        then cm[tabBar.comps[prev].id := Swapped(cm[tabBar.comps[prev].id], false)] else cm;
      if idx >= 0 {
        // Select new selected
        StyleTab(idx, true);
      }
    }

    /**
     * The style update of one tab cell in SetSelected: swap the
     * not-selected class for the selected one, or back.
     */
    method StyleTab(k: nat, isSelected: bool)
      requires tabBar.Valid() && k < |tabBar.comps|
      requires Styled(tabBar.comps, ClassesOf(tabBar.cellFmts), -1, k)
      requires contents != tabBar && contents.Valid()
      modifies tabBar, tabBar.cellFmts.Values
      ensures tabBar.comps == old(tabBar.comps) && tabBar.cellFmts == old(tabBar.cellFmts) && tabBar.Valid()
      ensures Styled(tabBar.comps, ClassesOf(tabBar.cellFmts), if isSelected then k else -1, -1)
      ensures ClassesOf(tabBar.cellFmts)
        == old(ClassesOf(tabBar.cellFmts))[tabBar.comps[k].id := Swapped(old(tabBar.cellFmts[tabBar.comps[k].id].classes), isSelected)]
      ensures ClassesOf(contents.cellFmts) == old(ClassesOf(contents.cellFmts))
    {
      ghost var cfmts := contents.cellFmts;
      ghost var cBefore := ClassesOf(cfmts);
      ghost var before := ClassesOf(tabBar.cellFmts);
      var style := tabBar.CellFmt(tabBar.CompAt(k).value);
      ghost var fmts := tabBar.cellFmts;
      ghost var tabs := tabBar.comps;
      ClassesKept(fmts, before);
      assert style == fmts[tabs[k].id];
      Restyle(style, isSelected);
      assert forall x :: x in fmts && x != tabs[k].id ==> fmts[x] != style;
      ClassesRestyled(fmts, before, tabs[k].id);
      SwapKeepsStyled(tabs, before, k, isSelected);
      assert forall x :: x in cfmts ==> cfmts[x] != style;
      ClassesKept(cfmts, cBefore);
    }

    /**
     * Add: the tab goes last on the bar, styled not selected, and the content
     * goes last among the contents, styled as tab content; the first pair
     * added is selected. Both must be new to the tab panel: a component
     * taken from another container is first orphaned there, which this
     * model does not follow across panels.
     */
    method Add(tab: Comp, content: Comp)
      requires Valid()
      requires tab.id != content.id
      requires IndexOf(tabBar.comps, tab.id) < 0 && IndexOf(contents.comps, tab.id) < 0
      requires IndexOf(tabBar.comps, content.id) < 0 && IndexOf(contents.comps, content.id) < 0
      modifies this, contents, tabBar, tabBar.cellFmts.Values
      ensures Valid()
      ensures tabBar.comps == old(tabBar.comps) + [tab] && contents.comps == old(contents.comps) + [content]
      ensures old(|contents.comps|) == 0 ==> selected == 0 && prevSelected == old(selected)
      ensures old(|contents.comps|) > 0 ==> selected == old(selected) && prevSelected == old(prevSelected)
      ensures content.id in contents.cellFmts && contents.cellFmts[content.id].classes == {ContentClass}
      ensures tab.id in tabBar.cellFmts && tabBar.cellFmts == old(tabBar.cellFmts)[tab.id := tabBar.cellFmts[tab.id]]
      ensures contents.cellFmts == old(contents.cellFmts)[content.id := contents.cellFmts[content.id]]
      ensures old(|contents.comps|) == 0 ==> ClassesOf(tabBar.cellFmts) == map[tab.id := {SelectedClass}]
      ensures old(|contents.comps|) > 0 ==> ClassesOf(tabBar.cellFmts) == old(ClassesOf(tabBar.cellFmts))[tab.id := {NotSelectedClass}]
      ensures ClassesOf(contents.cellFmts) == old(ClassesOf(contents.cellFmts))[content.id := {ContentClass}]
    {
      ghost var tc0 := ClassesOf(tabBar.cellFmts);
      ghost var first := |tabBar.comps| == 0;
      assert first ==> tc0 == map[] by {
        assert first ==> tabBar.cellFmts.Keys <= IdSet([]);
      }
      AddPair(tab, content);
      assert contents.cellFmts[content.id].classes == ClassesOf(contents.cellFmts)[content.id];
      if |contents.comps| == 1 {
        ghost var cc1 := ClassesOf(contents.cellFmts);
        assert ClassesOf(tabBar.cellFmts) == map[tab.id := {NotSelectedClass}];
        SetSelected(0);
        assert tabBar.comps[0] == tab;
        assert Swapped({NotSelectedClass}, true) == {SelectedClass};
      }
    }

    /** Add before the selection: the tab and the content go last, both styled. */
    method AddPair(tab: Comp, content: Comp)
      requires Valid()
      requires IndexOf(tabBar.comps, tab.id) < 0 && IndexOf(contents.comps, content.id) < 0
      modifies contents, tabBar
      ensures Valid() && selected == old(selected) && prevSelected == old(prevSelected)
      ensures tabBar.comps == old(tabBar.comps) + [tab] && contents.comps == old(contents.comps) + [content]
      ensures tab.id in tabBar.cellFmts && tabBar.cellFmts == old(tabBar.cellFmts)[tab.id := tabBar.cellFmts[tab.id]] && fresh(tabBar.cellFmts[tab.id])
      ensures content.id in contents.cellFmts && contents.cellFmts == old(contents.cellFmts)[content.id := contents.cellFmts[content.id]]
      ensures ClassesOf(tabBar.cellFmts) == old(ClassesOf(tabBar.cellFmts))[tab.id := {NotSelectedClass}]
      ensures ClassesOf(contents.cellFmts) == old(ClassesOf(contents.cellFmts))[content.id := {ContentClass}]
    {
      ghost var n := |tabBar.comps|;
      ghost var cc := ClassesOf(contents.cellFmts);
      AddTab(tab);
      ClassesKept(contents.cellFmts, cc);
      ghost var tc := ClassesOf(tabBar.cellFmts);
      AddContent(content);
      ClassesKept(tabBar.cellFmts, tc);
      assert tabBar.comps[n] == tab;
    }

    /** The tab half of Add: the tab goes last on the bar, with a new formatter styled not selected. */
    method AddTab(tab: Comp)
      requires tabBar.Valid() && IndexOf(tabBar.comps, tab.id) < 0
      requires selected < |tabBar.comps| && Styled(tabBar.comps, ClassesOf(tabBar.cellFmts), selected, -1)
      modifies tabBar
      ensures tabBar.Valid() && tabBar.comps == old(tabBar.comps) + [tab]
      ensures Styled(tabBar.comps, ClassesOf(tabBar.cellFmts), selected, -1)
      ensures tab.id in tabBar.cellFmts && tabBar.cellFmts[tab.id].classes == {NotSelectedClass}
      ensures tabBar.cellFmts == old(tabBar.cellFmts)[tab.id := tabBar.cellFmts[tab.id]] && fresh(tabBar.cellFmts[tab.id])
      ensures ClassesOf(tabBar.cellFmts) == old(ClassesOf(tabBar.cellFmts))[tab.id := {NotSelectedClass}]
    {
      ghost var tabs := tabBar.comps;
      ghost var cm := ClassesOf(tabBar.cellFmts);
      var _ := AppendStyled(tabBar, tab, NotSelectedClass);
      AppendKeepsStyled(tabs, cm, selected, tab, {NotSelectedClass});
    }

    /** The content half of Add: the content goes last, with a new formatter styled as tab content. */
    method AddContent(content: Comp)
      requires contents != tabBar && contents.Valid() && IndexOf(contents.comps, content.id) < 0
      modifies contents
      ensures contents.Valid() && contents.comps == old(contents.comps) + [content]
      ensures content.id in contents.cellFmts
      ensures contents.cellFmts == old(contents.cellFmts)[content.id := contents.cellFmts[content.id]]
      ensures contents.cellFmts[content.id].classes == {ContentClass} && fresh(contents.cellFmts[content.id])
      ensures ClassesOf(contents.cellFmts) == old(ClassesOf(contents.cellFmts))[content.id := {ContentClass}]
    {
      var _ := AppendStyled(contents, content, ContentClass);
    }

    /** The click handler Add installs on a tab: select the tab of its content's current index. */
    method ClickTab(content: Comp)
      requires Valid()
      modifies this, tabBar, tabBar.cellFmts.Values
      ensures Valid()
      ensures contents.comps == old(contents.comps) && tabBar.comps == old(tabBar.comps)
      ensures selected == IndexOf(contents.comps, content.id) && prevSelected == old(selected)
      ensures tabBar.cellFmts == old(tabBar.cellFmts) && contents.cellFmts == old(contents.cellFmts)
      ensures ClassesOf(tabBar.cellFmts) == Reselect(old(ClassesOf(tabBar.cellFmts)), tabBar.comps, old(selected), selected)
      ensures ClassesOf(contents.cellFmts) == old(ClassesOf(contents.cellFmts))
    {
      var i := contents.CompIdx(content);
      SetSelected(i);
    }

    /** The index of the pair c2 belongs to: among the contents first, then among the tabs; -1 for neither. */
    function PairIndex(c2: Comp): (i: int)
      reads this, contents, tabBar
      ensures i >= 0 ==>
        (i < |contents.comps| && Equals(contents.comps[i], c2)) || (i < |tabBar.comps| && Equals(tabBar.comps[i], c2))
      ensures i < 0 <==> IndexOf(contents.comps, c2.id) < 0 && IndexOf(tabBar.comps, c2.id) < 0
      ensures |contents.comps| == |tabBar.comps| ==> i < |contents.comps|
    {
      var i := IndexOf(contents.comps, c2.id);
      if i >= 0 then i else IndexOf(tabBar.comps, c2.id)
    }

    /**
     * Remove: a content component or a tab takes its whole pair out; the
     * selection indices follow the tabs that stay (AdjustPrev,
     * AdjustSelected). When the removed pair was the selected one and was
     * the last, SetSelected deselects a tab that no longer exists, a panic,
     * so that case is excluded.
     */
    method Remove(c2: Comp) returns (removed: bool)
      requires Valid()
      requires !(PairIndex(c2) >= 0 && PairIndex(c2) == selected && selected == |contents.comps| - 1)
      modifies this, contents, tabBar, tabBar.cellFmts.Values
      ensures Valid()
      ensures removed <==> old(PairIndex(c2)) >= 0
      ensures removed ==> old(PairIndex(c2)) < old(|contents.comps|) == old(|tabBar.comps|)
      ensures !removed ==> contents.comps == old(contents.comps) && tabBar.comps == old(tabBar.comps)
      ensures !removed ==> selected == old(selected) && prevSelected == old(prevSelected)
      ensures removed ==> contents.comps == Seqs.RemoveAt(old(contents.comps), old(PairIndex(c2)))
      ensures removed ==> tabBar.comps == Seqs.RemoveAt(old(tabBar.comps), old(PairIndex(c2)))
      ensures removed ==> prevSelected == AdjustPrev(old(prevSelected), old(PairIndex(c2)))
      ensures removed ==> selected == AdjustSelected(old(selected), old(PairIndex(c2)), |contents.comps|)
      ensures !removed ==> contents.cellFmts == old(contents.cellFmts) && tabBar.cellFmts == old(tabBar.cellFmts)
      ensures removed ==> contents.cellFmts == old(contents.cellFmts) - {old(contents.comps[PairIndex(c2)].id)}
      ensures removed ==> tabBar.cellFmts == old(tabBar.cellFmts) - {old(tabBar.comps[PairIndex(c2)].id)}
      ensures !removed ==> ClassesOf(tabBar.cellFmts) == old(ClassesOf(tabBar.cellFmts))
      ensures !removed ==> ClassesOf(contents.cellFmts) == old(ClassesOf(contents.cellFmts))
      ensures removed ==>
        ClassesOf(tabBar.cellFmts) == ClassesAfterRemove(old(ClassesOf(tabBar.cellFmts)), old(tabBar.comps), old(PairIndex(c2)), old(selected))
      ensures removed ==> ClassesOf(contents.cellFmts) == old(ClassesOf(contents.cellFmts)) - {old(contents.comps[PairIndex(c2)].id)}
      decreases if IndexOf(contents.comps, c2.id) >= 0 then 0 else 1
    {
      ghost var k := PairIndex(c2);
      ghost var tc := ClassesOf(tabBar.cellFmts);
      ghost var cc := ClassesOf(contents.cellFmts);
      var i := contents.CompIdx(c2);
      if i < 0 {
        // Try the tab bar:
        i := tabBar.CompIdx(c2);
        ClassesKept(tabBar.cellFmts, tc);
        ClassesKept(contents.cellFmts, cc);
        if i < 0 {
          return false;
        }
        // It's a tab component
        var content := contents.CompAt(i).value;
        IndexOfDistinct(contents.comps, i);
        assert IndexOf(contents.comps, content.id) == i == k;
        assert content.id == contents.comps[i].id;
        removed := Remove(content);
        return;
      }
      // It's a content component
      assert i == k;
      ClassesKept(tabBar.cellFmts, tc);
      ClassesKept(contents.cellFmts, cc);
      RemoveContentAt(i);
      return true;
    }

    /** The content branch of Remove: the pair at index i goes and the selection indices follow. */
    method RemoveContentAt(i: nat)
      requires Valid() && i < |contents.comps|
      requires !(i == selected && selected == |contents.comps| - 1)
      modifies this, contents, tabBar, tabBar.cellFmts.Values
      ensures Valid()
      ensures contents.comps == Seqs.RemoveAt(old(contents.comps), i)
      ensures tabBar.comps == Seqs.RemoveAt(old(tabBar.comps), i)
      ensures prevSelected == AdjustPrev(old(prevSelected), i)
      ensures selected == AdjustSelected(old(selected), i, |contents.comps|)
      ensures contents.cellFmts == old(contents.cellFmts) - {old(contents.comps[i].id)}
      ensures tabBar.cellFmts == old(tabBar.cellFmts) - {old(tabBar.comps[i].id)}
      ensures ClassesOf(tabBar.cellFmts) == ClassesAfterRemove(old(ClassesOf(tabBar.cellFmts)), old(tabBar.comps), i, old(selected))
      ensures ClassesOf(contents.cellFmts) == old(ClassesOf(contents.cellFmts)) - {old(contents.comps[i].id)}
    {
      RemovePair(i);
      ghost var tc := ClassesOf(tabBar.cellFmts);
      ghost var cc := ClassesOf(contents.cellFmts);
      // Update the current selected
      if i < selected {
        selected := selected - 1;
        ClassesKept(tabBar.cellFmts, tc);
        ClassesKept(contents.cellFmts, cc);
      } else if i == selected {
        if i < |contents.comps| {
          SelectNext(i);
        } else {
          // Both remaining branches deselect the removed last tab.
          assert false;
        }
      }
    }

    /**
     * The branch of RemoveContentAt for a removed selected tab: the tab that
     * moved into its place is selected, and prevSelected is restored after
     * SetSelected overwrote it.
     */
    method SelectNext(i: nat)
      requires contents != tabBar && contents.Valid() && tabBar.Valid()
      requires |contents.comps| == |tabBar.comps| && i == selected && i < |tabBar.comps| && prevSelected < |tabBar.comps|
      requires Styled(tabBar.comps, ClassesOf(tabBar.cellFmts), -1, -1)
      modifies this, tabBar, tabBar.cellFmts.Values
      ensures Valid()
      ensures contents.comps == old(contents.comps) && tabBar.comps == old(tabBar.comps)
      ensures contents.cellFmts == old(contents.cellFmts) && tabBar.cellFmts == old(tabBar.cellFmts)
      ensures selected == i && prevSelected == old(prevSelected)
      ensures ClassesOf(tabBar.cellFmts) == Reselect(old(ClassesOf(tabBar.cellFmts)), tabBar.comps, i, i)
      ensures ClassesOf(contents.cellFmts) == old(ClassesOf(contents.cellFmts))
    {
      // Store previous selected as it will be implicitly changed here
      var prev := prevSelected;
      SetSelected(i);
      ghost var tc := ClassesOf(tabBar.cellFmts);
      ghost var cc := ClassesOf(contents.cellFmts);
      // Restore previous selected
      prevSelected := prev;
      ClassesKept(tabBar.cellFmts, tc);
      ClassesKept(contents.cellFmts, cc);
    }

    /**
     * The part of Remove shared by every removed pair: the tab and the
     * content at index i go, and prevSelected follows. A selected tab
     * removed leaves no tab styled as selected.
     */
    method RemovePair(i: nat)
      requires Valid() && i < |contents.comps|
      modifies this, contents, tabBar
      ensures contents != tabBar && contents.Valid() && tabBar.Valid()
      ensures contents.comps == Seqs.RemoveAt(old(contents.comps), i)
      ensures tabBar.comps == Seqs.RemoveAt(old(tabBar.comps), i)
      ensures selected == old(selected) && prevSelected == AdjustPrev(old(prevSelected), i)
      ensures tabBar.cellFmts == old(tabBar.cellFmts) - {old(tabBar.comps[i].id)}
      ensures contents.cellFmts == old(contents.cellFmts) - {old(contents.comps[i].id)}
      ensures Styled(tabBar.comps, ClassesOf(tabBar.cellFmts), if i < selected then selected - 1 else if i == selected then -1 else selected, -1)
      ensures ClassesOf(tabBar.cellFmts) == old(ClassesOf(tabBar.cellFmts)) - {old(tabBar.comps[i].id)}
      ensures ClassesOf(contents.cellFmts) == old(ClassesOf(contents.cellFmts)) - {old(contents.comps[i].id)}
    {
      ghost var cc := ClassesOf(contents.cellFmts);
      RemoveTab(i);
      ghost var tc := ClassesOf(tabBar.cellFmts);
      var content := contents.CompAt(i).value;
      IndexOfDistinct(contents.comps, i);
      ghost var cfmts := contents.cellFmts;
      var _ := contents.Remove(content);
      ClassesKept(contents.cellFmts, cc - {content.id});
      ClassesKept(tabBar.cellFmts, tc);
      ghost var cc1 := ClassesOf(contents.cellFmts);
      ShiftPrev(i);
      ClassesKept(tabBar.cellFmts, tc);
      ClassesKept(contents.cellFmts, cc1);
    }

    /** The last step of RemovePair: prevSelected follows the tabs that stay. */
    method ShiftPrev(i: nat)
      modifies this
      ensures selected == old(selected) && prevSelected == AdjustPrev(old(prevSelected), i)
    {
      // Update the previous selected
      if prevSelected >= 0 {
        if i < prevSelected {
          prevSelected := prevSelected - 1;
        } else if i == prevSelected {
          prevSelected := -1;
        }
      }
    }

    /** The tab half of RemovePair: tab i and its formatter go, the other tabs keep their styles. */
    method RemoveTab(i: nat)
      requires tabBar.Valid() && i < |tabBar.comps| && Styled(tabBar.comps, ClassesOf(tabBar.cellFmts), selected, -1)
      modifies tabBar
      ensures tabBar.Valid() && tabBar.comps == Seqs.RemoveAt(old(tabBar.comps), i)
      ensures tabBar.cellFmts == old(tabBar.cellFmts) - {old(tabBar.comps[i].id)}
      ensures Styled(tabBar.comps, ClassesOf(tabBar.cellFmts), if i < selected then selected - 1 else if i == selected then -1 else selected, -1)
      ensures ClassesOf(tabBar.cellFmts) == old(ClassesOf(tabBar.cellFmts)) - {old(tabBar.comps[i].id)}
    {
      ghost var tabs := tabBar.comps;
      ghost var fmts := tabBar.cellFmts;
      ghost var cm := ClassesOf(fmts);
      RemoveKeepsStyled(tabs, cm, selected, i);
      var tab := tabBar.CompAt(i).value;
      assert IndexOf(tabs, tab.id) == i;
      var _ := tabBar.Remove(tab);
      assert tabBar.comps == Seqs.RemoveAt(tabs, i) && tabBar.cellFmts == fmts - {tab.id};
      ClassesKept(tabBar.cellFmts, cm - {tab.id});
    }

    /**
     * tabBarImpl.Remove: a tab of the bar takes its pair out through the tab
     * panel, the bar's parent from NewTabPanel on; anything else is not
     * removed.
     */
    method TabBarRemove(c2: Comp) returns (removed: bool)
      requires Valid()
      requires !(IndexOf(tabBar.comps, c2.id) >= 0 && IndexOf(tabBar.comps, c2.id) == selected && selected == |tabBar.comps| - 1)
      modifies this, contents, tabBar, tabBar.cellFmts.Values
      ensures Valid()
      ensures removed <==> old(IndexOf(tabBar.comps, c2.id)) >= 0
      ensures !removed ==> contents.comps == old(contents.comps) && tabBar.comps == old(tabBar.comps)
      ensures !removed ==> selected == old(selected) && prevSelected == old(prevSelected)
      ensures removed ==> contents.comps == Seqs.RemoveAt(old(contents.comps), old(IndexOf(tabBar.comps, c2.id)))
      ensures removed ==> tabBar.comps == Seqs.RemoveAt(old(tabBar.comps), old(IndexOf(tabBar.comps, c2.id)))
      ensures removed ==> prevSelected == AdjustPrev(old(prevSelected), old(IndexOf(tabBar.comps, c2.id)))
      ensures removed ==> selected == AdjustSelected(old(selected), old(IndexOf(tabBar.comps, c2.id)), |contents.comps|)
      ensures !removed ==> contents.cellFmts == old(contents.cellFmts) && tabBar.cellFmts == old(tabBar.cellFmts)
      ensures removed ==> contents.cellFmts == old(contents.cellFmts) - {old(contents.comps[IndexOf(tabBar.comps, c2.id)].id)}
      ensures removed ==> tabBar.cellFmts == old(tabBar.cellFmts) - {old(tabBar.comps[IndexOf(tabBar.comps, c2.id)].id)}
      ensures !removed ==> ClassesOf(tabBar.cellFmts) == old(ClassesOf(tabBar.cellFmts))
      ensures !removed ==> ClassesOf(contents.cellFmts) == old(ClassesOf(contents.cellFmts))
      ensures removed ==>
        ClassesOf(tabBar.cellFmts) == ClassesAfterRemove(old(ClassesOf(tabBar.cellFmts)), old(tabBar.comps), old(IndexOf(tabBar.comps, c2.id)), old(selected))
      ensures removed ==>
        ClassesOf(contents.cellFmts) == old(ClassesOf(contents.cellFmts)) - {old(contents.comps[IndexOf(tabBar.comps, c2.id)].id)}
    {
      ghost var tc := ClassesOf(tabBar.cellFmts);
      ghost var cc := ClassesOf(contents.cellFmts);
      var i := tabBar.CompIdx(c2);
      ClassesKept(tabBar.cellFmts, tc);
      ClassesKept(contents.cellFmts, cc);
      if i < 0 {
        return false;
      }
      var content := contents.CompAt(i).value;
      IndexOfDistinct(contents.comps, i);
      removed := Remove(content);
    }

    /**
     * Clear: no tabs and no contents, then SetSelected(-1). With a tab
     * selected, that call deselects a tab that no longer exists, a panic,
     * so Clear is only modelled when nothing is selected.
     */
    method Clear()
      requires Valid() && selected < 0
      modifies this, contents, tabBar
      ensures Valid() && contents.comps == [] && tabBar.comps == []
      ensures selected == -1 && prevSelected == old(selected)
      ensures contents.cellFmts == map[] && tabBar.cellFmts == map[]
    {
      tabBar.Clear();
      contents.Clear();
      SetSelected(-1);
    }

    /** ByID: the tab panel itself and its contents first, then the tab bar and its tabs. */
    function ByID(id: ID): (r: Option<Comp>)
      reads this, contents, tabBar
      ensures r.Some? ==> r.value.id == id
      ensures id == contents.id ==> r == Some(contents.AsComp())
      ensures id != contents.id && id == tabBar.id && FindIn(contents.comps, id).None? ==> r == Some(tabBar.AsComp())
    {
      var c2 := contents.ByID(id);
      if c2.Some? then c2 else tabBar.ByID(id)
    }

    /** Nothing is found only when neither panel, nor any tab or content, has the id. */
    lemma ByIDMissing(id: ID, i: nat)
      requires ByID(id).None? && i < |contents.comps| && i < |tabBar.comps|
      ensures id != contents.id && id != tabBar.id
      ensures contents.comps[i].id != id && tabBar.comps[i].id != id
    {
      contents.ByIDNone(id, i);
      tabBar.ByIDNone(id, i);
    }
  }

  /** Taking tab i out keeps every other tab's style; a removed selected tab leaves none selected. */
  lemma RemoveKeepsStyled(tabs: seq<Comp>, cm: map<ID, set<string>>, sel: int, i: nat)
    requires i < |tabs| && DistinctIds(tabs) && Styled(tabs, cm, sel, -1)
    ensures Styled(Seqs.RemoveAt(tabs, i), cm - {tabs[i].id}, if i < sel then sel - 1 else if i == sel then -1 else sel, -1)
  {
    var r := Seqs.RemoveAt(tabs, i);
    forall k | 0 <= k < |r|
      ensures r[k].id in cm - {tabs[i].id}
    {
      if k < i { assert r[k] == tabs[k]; DistinctAt(tabs, k, i); } else { assert r[k] == tabs[k + 1]; DistinctAt(tabs, k + 1, i); }
    }
  }

  /** A new last tab styled not selected keeps the tab bar styled. */
  lemma AppendKeepsStyled(tabs: seq<Comp>, cm: map<ID, set<string>>, sel: int, tab: Comp, classes: set<string>)
    requires sel < |tabs| && Styled(tabs, cm, sel, -1) && TabStyle(classes, false)
    requires IndexOf(tabs, tab.id) < 0
    ensures Styled(tabs + [tab], cm[tab.id := classes], sel, -1)
  {
    var r := tabs + [tab];
    forall k | 0 <= k < |r|
      ensures r[k].id in cm[tab.id := classes] && TabStyle(cm[tab.id := classes][r[k].id], k == sel)
    {
      if k < |tabs| {
        assert r[k] == tabs[k];
      }
    }
  }

  /** Swapping tab k's cell styles it for isSelected and leaves every other tab styled as before. */
  lemma SwapKeepsStyled(tabs: seq<Comp>, cm: map<ID, set<string>>, k: nat, isSelected: bool)
    requires k < |tabs| && DistinctIds(tabs) && Styled(tabs, cm, -1, k)
    ensures Styled(tabs, cm[tabs[k].id := Swapped(cm[tabs[k].id], isSelected)], if isSelected then k else -1, -1)
  {
    var cm' := cm[tabs[k].id := Swapped(cm[tabs[k].id], isSelected)];
    forall j | 0 <= j < |tabs|
      ensures tabs[j].id in cm' && TabStyle(cm'[tabs[j].id], j == (if isSelected then k else -1))
    {
      if j != k {
        DistinctAt(tabs, j, k);
      }
    }
  }
}
