/**
 * Component ids of the GUI server (gui/server/id.go): base-10 text on the
 * wire, and a process-wide counter handing out fresh ids.
 */
module Ids {
  import opened Wrappers
  import opened Decimal

  /** Go's ID, an int. */
  type ID = Int64

  /** ID.String: the base-10 text of the id. */
  function IdString(id: ID): (s: string)
    ensures Atoi(s) == Some(id)
  {
    AtoiItoa(id);
    Itoa(id)
  }

  /** AtoID: the parsed id and whether parsing succeeded; a failure gives ID(0). */
  function AtoID(s: string): (r: (ID, bool))
    ensures r.1 <==> Atoi(s).Some?
    ensures r.1 ==> r.0 == Atoi(s).value
    ensures !r.1 ==> r.0 == 0
  {
    match Atoi(s)
    case Some(id) => (id, true)
    case None => (0, false)
  }

  /** Parsing the text of an id gives the id back, without error. */
  lemma AtoIDString(id: ID)
    ensures AtoID(IdString(id)) == (id, true)
  {
  }

  /** Different ids have different texts. */
  lemma IdStringInjective(a: ID, b: ID)
    requires IdString(a) == IdString(b)
    ensures a == b
  {
    ItoaInjective(a, b);
  }

  /** atomic.AddInt64 on lastID: two's-complement wrap-around past MaxInt64. */
  function AddWrap(x: Int64, d: Int64): (r: Int64)
    ensures MinInt64 <= x + d <= MaxInt64 ==> r == x + d
  {
    var s := x as int + d as int;
    if s > MaxInt64 then s - 0x1_0000_0000_0000_0000
    else if s < MinInt64 then s + 0x1_0000_0000_0000_0000
    else s
  }

  /** The last used id and, as ghost state, every id handed out so far. */
  class IdGen {
    var lastID: Int64
    ghost var issued: set<ID>
    ghost var wrapped: bool

    /** Until the counter wraps, the ids handed out are exactly 1..lastID. */
    ghost predicate Valid()
      reads this
    {
      !wrapped ==> 0 <= lastID && forall x :: x in issued ==> 1 <= x <= lastID
    }

    constructor()
      ensures lastID == 0 && issued == {} && !wrapped && Valid()
    {
      lastID := 0;
      issued := {};
      wrapped := false;
    }

    /**
     * nextCompID: one more than the previous id, so the first is 1; until
     * the 64-bit counter wraps, never an id given out before.
     */
    method NextCompID() returns (id: ID)
      requires Valid()
      modifies this
      ensures Valid()
      ensures id == lastID == AddWrap(old(lastID), 1)
      ensures old(lastID) < MaxInt64 ==> id == old(lastID) + 1
      ensures !old(wrapped) && old(lastID) < MaxInt64 ==> id !in old(issued) && !wrapped
      ensures issued == old(issued) + {id}
    {
      wrapped := wrapped || lastID == MaxInt64;
      lastID := AddWrap(lastID, 1);
      id := lastID;
      issued := issued + {id};
    }
  }

  /** A fresh generator hands out 1, then 2. */
  method FirstIds() returns (a: ID, b: ID)
    ensures a == 1 && b == 2
  {
    var g := new IdGen();
    a := g.NextCompID();
    b := g.NextCompID();
  }
}
