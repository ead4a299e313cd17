/**
 * The Panel container of the GUI server (gui/server/panel.go): an ordered
 * list of child components and, created lazily, one cell formatter per
 * child id.
 */
module Panels {
  import opened Wrappers
  import opened Ids
  import opened Comps
  import Seqs

  /** The ids of the children, as a set. */
  function IdSet(comps: seq<Comp>): set<ID> {
    set c | c in comps :: c.id
  }

  /** Every formatter was created by owner for the child id it is stored under. */
  ghost predicate FmtsOwned(fmts: map<ID, CellFmt>, owner: object) {
    forall a :: a in fmts ==> fmts[a].owner == owner && fmts[a].key == a
  }

  /** Different children never share one formatter object. */
  lemma OwnedDistinct(fmts: map<ID, CellFmt>, owner: object, a: ID, b: ID)
    requires FmtsOwned(fmts, owner) && a in fmts && b in fmts && a != b
    ensures fmts[a] != fmts[b]
  {
    assert fmts[a].key == a && fmts[b].key == b;
  }

  class Panel {
    const id: ID
    var comps: seq<Comp>
    var cellFmts: map<ID, CellFmt>

    /**
     * Children have distinct ids (a component added again is first removed,
     * by makeOrphan) and formatters exist only for children.
     */
    ghost predicate Valid()
      reads this
    {
      DistinctIds(comps) && cellFmts.Keys <= IdSet(comps) && FmtsOwned(cellFmts, this)
    }

    /** newPanelImpl: no children, no formatters. */
    constructor(id: ID)
      ensures this.id == id && comps == [] && cellFmts == map[]
      ensures Valid()
    {
      this.id := id;
      comps := [];
      cellFmts := map[];
    }

    /** The panel as a component value, for searches from a parent. */
    function AsComp(): Comp
      reads this
    {
      Comp(id, true, comps)
    }

    /** CompsCount. */
    function CompsCount(): nat
      reads this
    {
      |comps|
    }

    /** CompAt: nothing outside [0, CompsCount()). */
    function CompAt(idx: int): (r: Option<Comp>)
      reads this
      ensures r.None? <==> idx < 0 || idx >= |comps|
      ensures r.Some? ==> r.value == comps[idx]
    {
      if idx < 0 || idx >= |comps| then None else Some(comps[idx])
    }

    /** CompIdx: the first index whose child Equals c2, or -1. */
    method CompIdx(c2: Comp) returns (i: int)
      ensures i == IndexOf(comps, c2.id)
    {
      i := 0;
      while i < |comps|
        invariant 0 <= i <= |comps|
        invariant forall j :: 0 <= j < i ==> comps[j].id != c2.id
      {
        if Equals(c2, comps[i]) {
          return i;
        }
        i := i + 1;
      }
      return -1;
    }

    /**
     * CellFmt: null for a non-child; otherwise the formatter stored for the
     * child's id, created on the first request.
     */
    method CellFmt(c2: Comp) returns (cf: CellFmt?)
      requires Valid()
      modifies this
      ensures Valid() && comps == old(comps)
      ensures cf == null <==> IndexOf(comps, c2.id) < 0
      ensures cf == null ==> cellFmts == old(cellFmts)
      ensures cf != null ==> c2.id in cellFmts && cellFmts[c2.id] == cf
      ensures cf != null && c2.id in old(cellFmts) ==> cf == old(cellFmts[c2.id]) && cellFmts == old(cellFmts)
      ensures cf != null && c2.id !in old(cellFmts) ==> fresh(cf) && cf.classes == {} && cellFmts == old(cellFmts)[c2.id := cf]
      ensures cf != null ==> cf.owner == this && cf.key == c2.id
    {
      var i := CompIdx(c2);
      if i < 0 {
        return null;
      }
      if c2.id in cellFmts {
        cf := cellFmts[c2.id];
      } else {
        cf := new CellFmt.For(this, c2.id);
        cellFmts := cellFmts[c2.id := cf];
      }
    }

    /**
     * Remove: false and no change for a non-child; otherwise that child is
     * cut out, the others keep their order, and its formatter is dropped.
     */
    method Remove(c2: Comp) returns (removed: bool)
      requires Valid()
      modifies this
      ensures Valid()
      ensures removed <==> IndexOf(old(comps), c2.id) >= 0
      ensures !removed ==> comps == old(comps) && cellFmts == old(cellFmts)
      ensures removed ==> comps == Seqs.RemoveAt(old(comps), IndexOf(old(comps), c2.id))
      ensures removed ==> cellFmts == old(cellFmts) - {c2.id}
    {
      var i := CompIdx(c2);
      if i < 0 {
        return false;
      }
      cellFmts := cellFmts - {c2.id};
      ghost var before := comps;
      comps := comps[..i] + comps[i + 1..];
      RemovePreservesValid(before, i, cellFmts.Keys);
      return true;
    }

    /** makeOrphan, for a component whose parent is this panel: take it out first. */
    method MakeOrphan(c2: Comp)
      requires Valid()
      modifies this
      ensures Valid()
      ensures IndexOf(comps, c2.id) < 0 && c2.id !in cellFmts
      ensures IndexOf(old(comps), c2.id) < 0 ==> comps == old(comps) && cellFmts == old(cellFmts)
      ensures IndexOf(old(comps), c2.id) >= 0 ==>
        comps == Seqs.RemoveAt(old(comps), IndexOf(old(comps), c2.id)) && cellFmts == old(cellFmts) - {c2.id}
    {
      var removed := Remove(c2);
      if removed {
        RemovedIdGone(old(comps), IndexOf(old(comps), c2.id));
      }
    }

    /** Add: c2 becomes the last child. */
    method Add(c2: Comp)
      requires Valid()
      modifies this
      ensures Valid()
      ensures IndexOf(old(comps), c2.id) < 0 ==> comps == old(comps) + [c2] && cellFmts == old(cellFmts)
      ensures IndexOf(old(comps), c2.id) >= 0 ==>
        comps == Seqs.RemoveAt(old(comps), IndexOf(old(comps), c2.id)) + [c2] && cellFmts == old(cellFmts) - {c2.id}
      ensures |comps| == |old(comps)| + (if IndexOf(old(comps), c2.id) < 0 then 1 else 0)
    {
      MakeOrphan(c2);
      AppendPreservesValid(comps, c2, cellFmts.Keys);
      comps := comps + [c2];
    }

    /**
     * Insert: false and no change when idx < 0 or idx > CompsCount();
     * otherwise c2 ends up at idx, the children before it unchanged and the
     * ones from idx on shifted right by one. Re-inserting a child at the
     * old CompsCount() slices past the end of the shortened list, a panic.
     */
    method Insert(c2: Comp, idx: int) returns (ok: bool)
      requires Valid()
      requires !(IndexOf(comps, c2.id) >= 0 && idx == |comps|)
      modifies this
      ensures Valid()
      ensures ok <==> 0 <= idx <= |old(comps)|
      ensures !ok ==> comps == old(comps) && cellFmts == old(cellFmts)
      ensures ok && IndexOf(old(comps), c2.id) < 0 ==> comps == Seqs.InsertAt(old(comps), idx, c2) && cellFmts == old(cellFmts)
      ensures ok && IndexOf(old(comps), c2.id) >= 0 ==>
        comps == Seqs.InsertAt(Seqs.RemoveAt(old(comps), IndexOf(old(comps), c2.id)), idx, c2)
        && cellFmts == old(cellFmts) - {c2.id}
    {
      if idx < 0 || idx > |comps| {
        return false;
      }
      MakeOrphan(c2);
      InsertPreservesValid(comps, idx, c2, cellFmts.Keys);
      comps := comps[..idx] + [c2] + comps[idx..];
      return true;
    }

    /** Clear: no children and no formatters. */
    method Clear()
      modifies this
      ensures comps == [] && cellFmts == map[] && Valid()
    {
      cellFmts := map[];
      comps := [];
    }

    /** Only children have formatters. */
    lemma NoFmtForNonChild(id: ID)
      requires Valid() && IndexOf(comps, id) < 0
      ensures id !in cellFmts
    {
    }

    /** ByID: the panel itself for its own id, else the depth-first search of its children. */
    function ByID(id: ID): (r: Option<Comp>)
      reads this
      ensures r.Some? ==> r.value.id == id
      ensures id == this.id ==> r == Some(AsComp())
      ensures id != this.id && |comps| > 0 && comps[0].id == id ==> r == Some(comps[0])
    {
      if this.id == id then Some(AsComp()) else FindIn(comps, id)
    }

    /** ByID finds nothing only when no child, nor any container child's subtree, has the id. */
    lemma ByIDNone(id: ID, i: nat)
      requires ByID(id).None? && i < |comps|
      ensures id != this.id && comps[i].id != id
      ensures comps[i].container ==> FindIn(comps[i].children, id).None?
    {
      FindInNone(comps, id, i);
    }
  }

  // ---------------------------------------------------------------- helper lemmas

  lemma RemovedIdGone(comps: seq<Comp>, i: nat)
    requires i < |comps| && DistinctIds(comps)
    ensures IndexOf(Seqs.RemoveAt(comps, i), comps[i].id) < 0
  {
    var r := Seqs.RemoveAt(comps, i);
    forall k | 0 <= k < |r| ensures r[k].id != comps[i].id {
      if k < i { assert r[k] == comps[k]; DistinctAt(comps, k, i); } else { assert r[k] == comps[k + 1]; DistinctAt(comps, k + 1, i); }
    }
  }

  lemma RemovePreservesValid(comps: seq<Comp>, i: nat, keys: set<ID>)
    requires i < |comps| && DistinctIds(comps)
    requires keys <= IdSet(comps) && comps[i].id !in keys
    ensures DistinctIds(comps[..i] + comps[i + 1..])
    ensures keys <= IdSet(comps[..i] + comps[i + 1..])
    ensures comps[..i] + comps[i + 1..] == Seqs.RemoveAt(comps, i)
  {
    var r := comps[..i] + comps[i + 1..];
    assert forall k :: 0 <= k < |r| ==> r[k] == (if k < i then comps[k] else comps[k + 1]);
    forall a, b | 0 <= a < b < |r| ensures IdAt(r, a) != IdAt(r, b) {
      DistinctAt(comps, if a < i then a else a + 1, if b < i then b else b + 1);
    }
    forall x | x in keys ensures x in IdSet(r) {
      var c :| c in comps && c.id == x;
      var k :| 0 <= k < |comps| && comps[k] == c;
      assert k != i;
      if k < i { assert r[k] == c; } else { assert r[k - 1] == c; }
    }
  }

  lemma AppendPreservesValid(comps: seq<Comp>, c: Comp, keys: set<ID>)
    requires DistinctIds(comps) && keys <= IdSet(comps) && IndexOf(comps, c.id) < 0
    ensures DistinctIds(comps + [c]) && keys <= IdSet(comps + [c])
  {
    var r := comps + [c];
    forall a, b | 0 <= a < b < |r| ensures IdAt(r, a) != IdAt(r, b) {
      if b < |comps| { DistinctAt(comps, a, b); }
    }
    forall x | x in keys ensures x in IdSet(r) {
      var d :| d in comps && d.id == x;
      assert d in r;
    }
  }

  lemma InsertPreservesValid(comps: seq<Comp>, idx: nat, c: Comp, keys: set<ID>)
    requires idx <= |comps| && DistinctIds(comps) && keys <= IdSet(comps) && IndexOf(comps, c.id) < 0
    ensures DistinctIds(comps[..idx] + [c] + comps[idx..]) && keys <= IdSet(comps[..idx] + [c] + comps[idx..])
    ensures comps[..idx] + [c] + comps[idx..] == Seqs.InsertAt(comps, idx, c)
  {
    var r := Seqs.InsertAt(comps, idx, c);
    forall i, j | 0 <= i < j < |r| ensures IdAt(r, i) != IdAt(r, j) {
      var si := if i < idx then i else i - 1;
      var sj := if j < idx then j else j - 1;
      if i != idx && j != idx {
        assert r[i] == comps[si] && r[j] == comps[sj];
        DistinctAt(comps, si, sj);
      }
    }
    forall x | x in keys ensures x in IdSet(r) {
      var d :| d in comps && d.id == x;
      var k :| 0 <= k < |comps| && comps[k] == d;
      if k < idx { assert r[k] == d; } else { assert r[k + 1] == d; }
    }
  }
}
