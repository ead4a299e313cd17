/**
 * The Expander of the GUI server (gui/server/expander.go): a header and a
 * content component, the content shown only while expanded. The header's
 * cell formatter carries one of two pairs of style classes, the expanded
 * pair or the collapsed pair, and toggling swaps them.
 */
module Expanders {
  import opened Wrappers
  import opened Ids
  import opened Comps

  const ExpanderClass := "gui-Expander"
  const ContentClass := "gui-Expander-Content"
  const HeaderClass := "gui-Expander-Header"
  const CollapsedImgClass := "guiimg-collapsed"
  const HeaderExpandedClass := "gui-Expander-Header-Expanded"
  const ExpandedImgClass := "guiimg-expanded"

  /** The header classes of a collapsed expander. */
  function CollapsedPair(): set<string> {
    {HeaderClass, CollapsedImgClass}
  }

  /** The header classes of an expanded expander. */
  function ExpandedPair(): set<string> {
    {HeaderExpandedClass, ExpandedImgClass}
  }

  /** The header classes show the state: its pair is there and the other pair is not. */
  predicate HeaderStyled(classes: set<string>, expanded: bool) {
    if expanded then ExpandedPair() <= classes && ExpandedPair() !! CollapsedPair() && CollapsedPair() !! classes
    else CollapsedPair() <= classes && CollapsedPair() !! ExpandedPair() && ExpandedPair() !! classes
  }

  /** The two pairs never sit on the header together. */
  lemma StyledPairsExclusive(classes: set<string>, expanded: bool)
    requires HeaderStyled(classes, expanded)
    ensures !(ExpandedPair() <= classes && CollapsedPair() <= classes)
    ensures expanded <==> ExpandedPair() <= classes
  {
    assert HeaderClass in CollapsedPair() && HeaderExpandedClass in ExpandedPair();
  }

  /**
   * Swapping the pairs styles the header for the new state, whatever
   * classes it had before.
   */
  lemma SwapStyles(classes: set<string>, expanded: bool)
    ensures HeaderStyled(classes - CollapsedPair() + ExpandedPair(), true)
    ensures HeaderStyled(classes - ExpandedPair() + CollapsedPair(), false)
  {
    assert HeaderClass != HeaderExpandedClass && HeaderClass != ExpandedImgClass;
    assert CollapsedImgClass != HeaderExpandedClass && CollapsedImgClass != ExpandedImgClass;
  }

  class Expander {
    const id: ID
    var header: Option<Comp>
    var content: Option<Comp>
    var expanded: bool
    /** The expander's own style classes. */
    var classes: set<string>
    const headerFmt: CellFmt
    const contentFmt: CellFmt

    /** The header formatter shows the state, and the two formatters are apart. */
    ghost predicate Valid()
      reads this, headerFmt
    {
      headerFmt != contentFmt && HeaderStyled(headerFmt.classes, expanded)
    }

    /**
     * NewExpander: it starts expanded and is collapsed at once, which puts
     * the collapsed pair on the header.
     */
    constructor(id: ID)
      ensures this.id == id && Valid() && !expanded
      ensures header == None && content == None
      ensures headerFmt.classes == CollapsedPair() && contentFmt.classes == {}
      ensures classes == {ExpanderClass}
      ensures fresh(headerFmt) && fresh(contentFmt)
    {
      this.id := id;
      header := None;
      content := None;
      expanded := true;
      classes := {};
      headerFmt := new CellFmt();
      contentFmt := new CellFmt();
      new;
      classes := classes + {ExpanderClass};
      SetExpanded(false);
      assert headerFmt.classes == {} - ExpandedPair() + CollapsedPair();
    }

    /** SetExpanded: nothing for the current state; otherwise the header's pairs are swapped. */
    method SetExpanded(v: bool)
      modifies this, headerFmt
      ensures expanded == v
      ensures v == old(expanded) ==> headerFmt.classes == old(headerFmt.classes)
      ensures v && !old(expanded) ==> headerFmt.classes == old(headerFmt.classes) - CollapsedPair() + ExpandedPair()
      ensures !v && old(expanded) ==> headerFmt.classes == old(headerFmt.classes) - ExpandedPair() + CollapsedPair()
      ensures v != old(expanded) ==> HeaderStyled(headerFmt.classes, v)
      ensures old(Valid()) ==> Valid()
      ensures header == old(header) && content == old(content) && classes == old(classes)
    {
      if expanded == v {
        return;
      }
      var style := headerFmt;
      if expanded {
        style.RemoveClass(HeaderExpandedClass);
        style.RemoveClass(ExpandedImgClass);
        style.AddClass(HeaderClass);
        style.AddClass(CollapsedImgClass);
        assert style.classes == old(style.classes) - ExpandedPair() + CollapsedPair();
      } else {
        style.RemoveClass(HeaderClass);
        style.RemoveClass(CollapsedImgClass);
        style.AddClass(HeaderExpandedClass);
        style.AddClass(ExpandedImgClass);
        assert style.classes == old(style.classes) - CollapsedPair() + ExpandedPair();
      }
      SwapStyles(old(style.classes), v);
      expanded := v;
    }

    /**
     * The click handler SetHeader registers: the state flips, the expander
     * is marked dirty and, when a state-change handler is registered, a
     * state-change event is dispatched.
     */
    method ClickHeader(hasStateChangeHandler: bool) returns (dirty: ID, stateChange: bool)
      modifies this, headerFmt
      ensures expanded == !old(expanded) && HeaderStyled(headerFmt.classes, expanded)
      ensures dirty == id && stateChange == hasStateChangeHandler
      ensures old(Valid()) ==> Valid()
      ensures header == old(header) && content == old(content) && classes == old(classes)
    {
      SetExpanded(!expanded);
      dirty := id;
      stateChange := hasStateChangeHandler;
    }

    /** c2 is the header or the content of this expander. */
    predicate IsChild(c2: Comp)
      reads this
    {
      (header.Some? && Equals(header.value, c2)) || (content.Some? && Equals(content.value, c2))
    }

    /**
     * SetHeader: makeOrphan first takes h out of this expander when it is a
     * child (through Remove, which compares the content first, so the
     * content must be set), then h becomes the header.
     */
    method SetHeader(h: Comp)
      requires IsChild(h) ==> content.Some?
      modifies this
      ensures header == Some(h) && expanded == old(expanded) && classes == old(classes)
      ensures content == (if old(content).Some? && Equals(old(content).value, h) then None else old(content))
    {
      if IsChild(h) {
        var removed := Remove(h);
      }
      header := Some(h);
    }

    /**
     * SetContent: makeOrphan first takes c out of this expander when it is a
     * child, then c becomes the content and its cell gets the content class.
     */
    method SetContent(c: Comp)
      requires IsChild(c) ==> content.Some?
      modifies this, contentFmt
      ensures content == Some(c) && expanded == old(expanded) && classes == old(classes)
      ensures header == (if old(header).Some? && Equals(old(header).value, c)
                            && !(old(content).Some? && Equals(old(content).value, c)) then None else old(header))
      ensures contentFmt.classes == old(contentFmt.classes) + {ContentClass}
      ensures old(Valid()) ==> Valid()
    {
      if IsChild(c) {
        var removed := Remove(c);
      }
      content := Some(c);
      contentFmt.AddClass(ContentClass);
    }

    /**
     * Remove: the content, if that is c2, else the header, if that is c2.
     * The content is compared first, so it must be set, and the header
     * must be set when the content is not c2.
     */
    method Remove(c2: Comp) returns (removed: bool)
      requires content.Some? && (content.value.id != c2.id ==> header.Some?)
      modifies this
      ensures Equals(old(content).value, c2) ==> removed && content == None && header == old(header)
      ensures !Equals(old(content).value, c2) && Equals(old(header).value, c2) ==> removed && header == None && content == old(content)
      ensures !Equals(old(content).value, c2) && !Equals(old(header).value, c2) ==> !removed && header == old(header) && content == old(content)
      ensures expanded == old(expanded) && classes == old(classes)
    {
      if Equals(content.value, c2) {
        content := None;
        return true;
      }
      if Equals(header.value, c2) {
        header := None;
        return true;
      }
      return false;
    }

    /** Clear: no header and no content. */
    method Clear()
      modifies this
      ensures header == None && content == None && expanded == old(expanded) && classes == old(classes)
    {
      header := None;
      content := None;
    }

    /** The children, header first. */
    function Children(): (cs: seq<Comp>)
      reads this
      ensures |cs| == (if header.Some? then 1 else 0) + (if content.Some? then 1 else 0)
    {
      (if header.Some? then [header.value] else []) + (if content.Some? then [content.value] else [])
    }

    /** The expander as a component. */
    function AsComp(): Comp
      reads this
    {
      Comp(id, true, Children())
    }

    /**
     * ByID: the expander itself, then the header and inside it, then the
     * content and inside it.
     */
    function ByID(id: ID): (r: Option<Comp>)
      reads this
      ensures r.Some? ==> r.value.id == id
    {
      if this.id == id then Some(AsComp())
      else if header.Some? && header.value.id == id then header
      else if header.Some? && header.value.container && ByIDOf(header.value, id).Some? then ByIDOf(header.value, id)
      else if content.Some? && content.value.id == id then content
      else if content.Some? && content.value.container && ByIDOf(content.value, id).Some? then ByIDOf(content.value, id)
      else None
    }

    /** ByID searches like any container whose children are the header and the content. */
    lemma ByIDAsContainer(id: ID)
      ensures ByID(id) == ByIDOf(AsComp(), id)
    {
      var rest := if content.Some? then [content.value] else [];
      if content.Some? {
        assert rest[1..] == [];
        assert FindIn(rest, id) == (
          if content.value.id == id then content
          else if content.value.container && FindIn(content.value.children, id).Some? then FindIn(content.value.children, id)
          else FindIn([], id));
      }
      if header.Some? {
        var cs := Children();
        var h := header.value;
        assert cs[0] == h && cs[1..] == rest;
        assert FindIn(cs, id) == (
          if h.id == id then header
          else if h.container && FindIn(h.children, id).Some? then FindIn(h.children, id)
          else FindIn(rest, id));
      } else {
        assert Children() == rest;
      }
    }

    /** The components Render puts in the table: the header if set, the content only while expanded. */
    function RenderedCells(): (r: seq<Comp>)
      reads this
      ensures header.Some? ==> |r| >= 1 && r[0] == header.value
      ensures |r| == (if header.Some? then 1 else 0) + (if expanded && content.Some? then 1 else 0)
      ensures expanded && content.Some? ==> r[|r| - 1] == content.value
    {
      (if header.Some? then [header.value] else []) + (if expanded && content.Some? then [content.value] else [])
    }
  }
}
