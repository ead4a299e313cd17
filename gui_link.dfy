/**
 * The Link of the GUI server (gui/server/link.go): a container of at most
 * one child component, with a text, a URL and a target attribute that
 * opens a new window unless changed.
 */
module Links {
  import opened Wrappers
  import opened Ids
  import opened Comps

  const LinkClass := "gui-Link"
  const TargetAttr := "target"
  const BlankTarget := "_blank"

  class Link {
    const id: ID
    var text: string
    var url: string
    /** The optional child. */
    var comp: Option<Comp>
    /** The HTML attributes of the component. */
    var attrs: map<string, string>
    /** The style classes of the component. */
    var classes: set<string>

    /**
     * NewLink: no child and the "_blank" target. The component's other
     * initial attributes and classes are given.
     */
    constructor(id: ID, text: string, url: string, attrs0: map<string, string>, classes0: set<string>)
      ensures this.id == id && this.text == text && this.url == url
      ensures comp == None && Target() == BlankTarget
      ensures attrs == attrs0[TargetAttr := BlankTarget]
      ensures classes == classes0 + {LinkClass}
    {
      this.id := id;
      this.text := text;
      this.url := url;
      comp := None;
      attrs := attrs0;
      classes := classes0;
      new;
      SetTarget(BlankTarget);
      classes := classes + {LinkClass};
    }

    /** Target: the target attribute, "" when there is none. */
    function Target(): (t: string)
      reads this
      ensures TargetAttr in attrs ==> t == attrs[TargetAttr]
      ensures TargetAttr !in attrs ==> t == ""
    {
      if TargetAttr in attrs then attrs[TargetAttr] else ""
    }

    /** SetTarget: the empty target deletes the attribute; any other is stored. */
    method SetTarget(target: string)
      modifies this
      ensures Target() == target
      ensures target == "" ==> attrs == old(attrs) - {TargetAttr}
      ensures target != "" ==> attrs == old(attrs)[TargetAttr := target]
      ensures forall a :: a in attrs && a != TargetAttr ==> a in old(attrs) && attrs[a] == old(attrs)[a]
      ensures forall a :: a in old(attrs) && a != TargetAttr ==> a in attrs
      ensures comp == old(comp) && classes == old(classes) && text == old(text) && url == old(url)
    {
      if |target| == 0 {
        attrs := attrs - {TargetAttr};
      } else {
        attrs := attrs[TargetAttr := target];
      }
    }

    /** SetComp: the child is replaced; None (a nil component) leaves the link without one. */
    method SetComp(c2: Option<Comp>)
      modifies this
      ensures comp == c2 && attrs == old(attrs) && classes == old(classes)
      ensures Children() == (if c2.Some? then [c2.value] else [])
      ensures text == old(text) && url == old(url)
    {
      comp := c2;
    }

    /** Remove: only the child goes, and the answer says whether it was c2. */
    method Remove(c2: Comp) returns (removed: bool)
      modifies this
      ensures removed <==> old(comp).Some? && Equals(old(comp).value, c2)
      ensures removed ==> comp == None
      ensures !removed ==> comp == old(comp)
      ensures attrs == old(attrs) && classes == old(classes) && text == old(text) && url == old(url)
    {
      if comp.None? || !Equals(comp.value, c2) {
        return false;
      }
      comp := None;
      return true;
    }

    /** Clear: no child. */
    method Clear()
      modifies this
      ensures comp == None && attrs == old(attrs) && classes == old(classes)
      ensures text == old(text) && url == old(url)
    {
      comp := None;
    }

    /** The children: the child, if set. */
    function Children(): (cs: seq<Comp>)
      reads this
      ensures |cs| <= 1 && (cs == [] <==> comp.None?)
    {
      if comp.Some? then [comp.value] else []
    }

    /** The link as a component. */
    function AsComp(): Comp
      reads this
    {
      Comp(id, true, Children())
    }

    /** ByID: the link itself, then the child, then inside a child container. */
    function ByID(id: ID): (r: Option<Comp>)
      reads this
      ensures r.Some? ==> r.value.id == id
      ensures this.id != id && comp.None? ==> r == None
    {
      if this.id == id then Some(AsComp())
      else if comp.Some? && comp.value.id == id then comp
      else if comp.Some? && comp.value.container && ByIDOf(comp.value, id).Some? then ByIDOf(comp.value, id)
      else None
    }

    /** ByID searches like any container whose only child is the link's child. */
    lemma ByIDAsContainer(id: ID)
      ensures ByID(id) == ByIDOf(AsComp(), id)
    {
      if comp.Some? {
        var c := comp.value;
        var cs := Children();
        assert cs[0] == c && cs[1..] == [];
        assert FindIn(cs, id) == (
          if c.id == id then comp
          else if c.container && FindIn(c.children, id).Some? then FindIn(c.children, id)
          else FindIn([], id));
      }
    }
  }
}
