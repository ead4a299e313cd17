/**
 * The component values the containers of the GUI server hold. The
 * component base implementation (compImpl, Container, Style, the
 * cell formatter) is not part of this model: a component is its id, whether
 * it is a container, and the children a container holds; two components are
 * Equal when their ids are.
 */
module Comps {
  import opened Wrappers
  import opened Ids
  import Seqs

  datatype Comp = Comp(id: ID, container: bool, children: seq<Comp>)

  /** Comp.Equals: the same component, which is the same id. */
  predicate Equals(a: Comp, b: Comp) {
    a.id == b.id
  }

  /**
   * The search loop of a container's ByID over its children: a child with
   * the id is returned, otherwise a container child is searched
   * depth-first, before the later children are looked at.
   */
  function FindIn(comps: seq<Comp>, id: ID): (r: Option<Comp>)
    ensures r.Some? ==> r.value.id == id
    ensures |comps| > 0 && comps[0].id == id ==> r == Some(comps[0])
    decreases comps
  {
    if comps == [] then None
    else if comps[0].id == id then Some(comps[0])
    else if comps[0].container && FindIn(comps[0].children, id).Some? then FindIn(comps[0].children, id)
    else FindIn(comps[1..], id)
  }

  /** A container's own ByID: itself first, then its children. */
  function ByIDOf(c: Comp, id: ID): (r: Option<Comp>)
    ensures r.Some? ==> r.value.id == id
    ensures c.id == id ==> r == Some(c)
  {
    if c.id == id then Some(c) else FindIn(c.children, id)
  }

  /** Nothing is found only when no child, nor any container child's subtree, has the id. */
  lemma {:induction false} FindInNone(comps: seq<Comp>, id: ID, i: nat)
    requires FindIn(comps, id).None? && i < |comps|
    ensures comps[i].id != id
    ensures comps[i].container ==> FindIn(comps[i].children, id).None?
    decreases comps
  {
    if i > 0 {
      FindInNone(comps[1..], id, i - 1);
      assert comps[1..][i - 1] == comps[i];
    }
  }

  /** The ids of a run of components, in order. */
  function IdsOf(comps: seq<Comp>): (r: seq<ID>)
    ensures |r| == |comps|
    ensures forall i :: 0 <= i < |comps| ==> r[i] == comps[i].id
  {
    seq(|comps|, i requires 0 <= i < |comps| => comps[i].id)
  }

  /** The id of the component at index i. */
  function IdAt(comps: seq<Comp>, i: nat): ID
    requires i < |comps|
  {
    comps[i].id
  }

  /** No two components of the run share an id. */
  predicate DistinctIds(comps: seq<Comp>) {
    forall i, j :: 0 <= i < j < |comps| ==> IdAt(comps, i) != IdAt(comps, j)
  }

  /** Distinct ids, for one pair of indices in either order. */
  lemma DistinctAt(comps: seq<Comp>, i: nat, j: nat)
    requires DistinctIds(comps) && i < |comps| && j < |comps| && i != j
    ensures comps[i].id != comps[j].id
  {
    if i < j { assert IdAt(comps, i) != IdAt(comps, j); } else { assert IdAt(comps, j) != IdAt(comps, i); }
  }

  /** The index of the first component Equal to c (by id), or -1. */
  function IndexOf(comps: seq<Comp>, id: ID): (r: int)
    ensures -1 <= r < |comps|
    ensures r == -1 <==> forall i :: 0 <= i < |comps| ==> comps[i].id != id
    ensures r >= 0 ==> comps[r].id == id && forall i :: 0 <= i < r ==> comps[i].id != id
  {
    Seqs.FirstIndex(IdsOf(comps), id)
  }

  /** With distinct ids, every component is the first one with its id. */
  lemma IndexOfDistinct(comps: seq<Comp>, i: nat)
    requires DistinctIds(comps) && i < |comps|
    ensures IndexOf(comps, comps[i].id) == i
  {
    var r := IndexOf(comps, comps[i].id);
    assert 0 <= r <= i && IdAt(comps, r) == IdAt(comps, i);
  }

  /** The style classes of one cell of a table-like container. */
  class CellFmt {
    var classes: set<string>
    /** Bookkeeping of the model: the container that created the formatter, and for which child id. */
    ghost const owner: object?
    ghost const key: ID

    /** A formatter no container keeps by child id. */
    constructor()
      ensures classes == {} && owner == null
    {
      classes := {};
      owner := null;
      key := 0;
    }

    /** A formatter created by owner for its child key. */
    constructor For(ghost owner: object, ghost key: ID)
      ensures classes == {} && this.owner == owner && this.key == key
    {
      classes := {};
      this.owner := owner;
      this.key := key;
    }

    /** Style().AddClass. */
    method AddClass(name: string)
      modifies this
      ensures classes == old(classes) + {name}
    {
      classes := classes + {name};
    }

    /** Style().RemoveClass. */
    method RemoveClass(name: string)
      modifies this
      ensures classes == old(classes) - {name}
    {
      classes := classes - {name};
    }
  }
}
