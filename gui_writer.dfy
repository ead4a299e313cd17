/**
 * The Writer of the GUI server (gui/server/writer.go): helpers that render
 * strings, ints, byte slices, Stringers and bools into an io.Writer and add
 * up the bytes written, stopping at the first error.
 *
 * The wrapped io.Writer is a Sink with a finite room: it accepts as many
 * bytes as still fit and, as io.Writer requires of a short write, reports
 * an error when it takes fewer than it was given. Strings are seq<char>,
 * one char per byte. WriteString and Write behave alike on a Sink.
 */
module Writers {
  import opened Wrappers
  import opened Decimal
  import Text

  /** The number of ints whose text is computed once, at start-up. */
  const CachedInts := 64

  datatype WriteError = ShortWrite | NotSupported(typeName: string)

  /** A value handed to Writev: the types it supports, and any other. */
  datatype Value =
    | VString(s: string)
    | VInt(i: Int64)
    | VBytes(b: string)
    | VStringer(text: string)
    | VBool(flag: bool)
    | VOther(typeName: string)

  /** What one write of a sequence asks for: bytes, or a value of an unsupported type. */
  datatype Piece = Bytes(b: string) | Unsupported(typeName: string)

  /**
   * The effect of a run of writes on a sink: the byte slices handed to it,
   * the bytes it took, and the error that stopped the run, if any.
   */
  datatype Outcome = Outcome(requests: seq<string>, written: string, err: Option<WriteError>)

  /** One write: an unsupported value is refused without a write; a byte slice that does not fit is written in part and fails. */
  function WriteOne(room: nat, p: Piece): (o: Outcome)
    ensures |o.written| <= room
  {
    match p
    case Unsupported(t) => Outcome([], "", Some(NotSupported(t)))
    case Bytes(b) =>
      var w := if |b| <= room then |b| else room;
      Outcome([b], b[..w], if w < |b| then Some(ShortWrite) else None)
  }

  /** The run o followed by the run o2. */
  function Then(o: Outcome, o2: Outcome): Outcome {
    Outcome(o.requests + o2.requests, o.written + o2.written, o2.err)
  }

  /**
   * Writing the pieces in order into a sink with the given room, stopping
   * after the first error.
   */
  function WritePieces(room: nat, ps: seq<Piece>): (o: Outcome)
    ensures |o.written| <= room && |o.requests| <= |ps|
    decreases |ps|
  {
    if ps == [] then Outcome([], "", None)
    else
      var o := WritePieces(room, ps[..|ps| - 1]);
      if o.err.Some? then o else Then(o, WriteOne(room - |o.written|, ps[|ps| - 1]))
  }

  /** Every piece is a byte slice. */
  predicate AllBytes(ps: seq<Piece>) {
    forall k :: 0 <= k < |ps| ==> ps[k].Bytes?
  }

  /** The bytes of a run of byte slices, end to end. */
  function Flatten(ps: seq<Piece>): (r: string)
    requires AllBytes(ps)
  {
    if ps == [] then "" else Flatten(ps[..|ps| - 1]) + ps[|ps| - 1].b
  }

  /** One piece per string. */
  function Strings(ss: seq<string>): (ps: seq<Piece>)
    ensures |ps| == |ss| && AllBytes(ps)
    ensures forall k :: 0 <= k < |ss| ==> ps[k] == Bytes(ss[k])
  {
    seq(|ss|, k requires 0 <= k < |ss| => Bytes(ss[k]))
  }

  /** The byte slices among the requests of a run, as strings. */
  function Requested(ps: seq<Piece>): (r: seq<string>)
    requires AllBytes(ps)
    ensures |r| == |ps| && forall k :: 0 <= k < |ps| ==> r[k] == ps[k].b
  {
    seq(|ps|, k requires 0 <= k < |ps| => ps[k].b)
  }

  /**
   * For byte slices only, the run writes the longest prefix of their
   * concatenation that fits, and fails exactly when not all of it fits.
   */
  lemma {:induction false} WritePiecesBytes(room: nat, ps: seq<Piece>)
    requires AllBytes(ps)
    ensures var o := WritePieces(room, ps);
      && o.written == Flatten(ps)[..if |Flatten(ps)| <= room then |Flatten(ps)| else room]
      && (o.err.Some? <==> |Flatten(ps)| > room)
      && (o.err.Some? ==> o.err == Some(ShortWrite))
    decreases |ps|
  {
    if ps != [] {
      var init := ps[..|ps| - 1];
      assert AllBytes(init) by {
        forall k | 0 <= k < |init| ensures init[k].Bytes? { assert init[k] == ps[k]; }
      }
      WritePiecesBytes(room, init);
      var f := Flatten(init);
      var b := ps[|ps| - 1].b;
      assert Flatten(ps) == f + b;
      if |f| > room {
        assert (f + b)[..room] == f[..room];
      } else {
        var w := if |b| <= room - |f| then |b| else room - |f|;
        assert f + b[..w] == (f + b)[..|f| + w];
      }
    }
  }

  /**
   * A run of byte slices hands the sink the slices in order up to and
   * including the first that does not fit, and no further.
   */
  lemma {:induction false} WritePiecesStops(room: nat, ps: seq<Piece>)
    requires AllBytes(ps)
    ensures var o := WritePieces(room, ps);
      var k := |o.requests|;
      && o.requests == Requested(ps)[..k]
      && (o.err.None? ==> k == |ps|)
      && (o.err.Some? ==> 0 < k && |Flatten(ps[..k - 1])| <= room < |Flatten(ps[..k])|)
    decreases |ps|
  {
    if ps != [] {
      var init := ps[..|ps| - 1];
      assert AllBytes(init) by {
        forall k | 0 <= k < |init| ensures init[k].Bytes? { assert init[k] == ps[k]; }
      }
      WritePiecesStops(room, init);
      if WritePieces(room, init).err.Some? {
        StoppedBefore(room, ps, init);
      } else {
        StopsAtLast(room, ps, init);
      }
    }
  }

  /** The inductive step of WritePiecesStops when the run failed before the last piece. */
  lemma StoppedBefore(room: nat, ps: seq<Piece>, init: seq<Piece>)
    requires AllBytes(ps) && AllBytes(init) && ps != [] && init == ps[..|ps| - 1]
    requires var o := WritePieces(room, init);
      var k := |o.requests|;
      && o.err.Some? && o.requests == Requested(init)[..k]
      && 0 < k && |Flatten(init[..k - 1])| <= room < |Flatten(init[..k])|
    ensures var o := WritePieces(room, ps);
      var k := |o.requests|;
      && o.err.Some? && o.requests == Requested(ps)[..k]
      && 0 < k && |Flatten(ps[..k - 1])| <= room < |Flatten(ps[..k])|
  {
    var o := WritePieces(room, init);
    var k := |o.requests|;
    assert WritePieces(room, ps) == o;
    assert Requested(init) == Requested(ps)[..|init|];
    assert ps[..k] == init[..k] && ps[..k - 1] == init[..k - 1];
  }

  /** The inductive step of WritePiecesStops when the run got to the last piece. */
  lemma StopsAtLast(room: nat, ps: seq<Piece>, init: seq<Piece>)
    requires AllBytes(ps) && AllBytes(init) && ps != [] && init == ps[..|ps| - 1]
    requires var o := WritePieces(room, init);
      o.err.None? && o.requests == Requested(init)[..|o.requests|] && |o.requests| == |init|
    ensures var o := WritePieces(room, ps);
      var k := |o.requests|;
      && o.requests == Requested(ps)[..k] && k == |ps|
      && (o.err.Some? ==> |Flatten(ps[..k - 1])| <= room < |Flatten(ps[..k])|)
  {
    var o := WritePieces(room, init);
    assert o.requests == Requested(init);
    assert Requested(ps) == Requested(init) + [ps[|ps| - 1].b];
    assert WritePieces(room, ps).requests == Requested(ps);
    WritePiecesBytes(room, init);
    WritePiecesBytes(room, ps);
    assert ps[..|ps|] == ps;
  }

  /** The texts of the cached ints, as the start-up loop fills them. */
  predicate IntsCached(ints: seq<string>) {
    |ints| == CachedInts && forall i :: 0 <= i < CachedInts ==> ints[i] == Itoa(i)
  }

  /** init: the texts of 0 .. CachedInts-1, by strconv.Itoa. */
  method InitInts() returns (ints: seq<string>)
    ensures IntsCached(ints)
  {
    ints := [];
    var i := 0;
    while i < CachedInts
      invariant 0 <= i <= CachedInts && |ints| == i
      invariant forall j :: 0 <= j < i ==> ints[j] == Itoa(j)
    {
      ints := ints + [Itoa(i)];
      i := i + 1;
    }
  }

  /** The bytes Writev writes for a value, or nothing for an unsupported type. */
  function Render(v: Value): (p: Piece)
    ensures v.VOther? <==> p.Unsupported?
    ensures v.VInt? ==> p == Bytes(Itoa(v.i))
    ensures v.VBool? ==> p == Bytes(if v.flag then "true" else "false")
  {
    match v
    case VString(s) => Bytes(s)
    case VInt(i) => Bytes(Itoa(i))
    case VBytes(b) => Bytes(b)
    case VStringer(text) => Bytes(text)
    case VBool(b) => Bytes(if b then "true" else "false")
    case VOther(t) => Unsupported(t)
  }

  /** One piece per value. */
  function Renders(vs: seq<Value>): (ps: seq<Piece>)
    ensures |ps| == |vs| && forall k :: 0 <= k < |vs| ==> ps[k] == Render(vs[k])
  {
    seq(|vs|, k requires 0 <= k < |vs| => Render(vs[k]))
  }

  /** The wrapped io.Writer. */
  class Sink {
    var out: string
    var room: nat
    var requests: seq<string>

    constructor(room: nat)
      ensures out == "" && this.room == room && requests == []
    {
      out := "";
      this.room := room;
      requests := [];
    }

    /** The sink went through the run o of writes. */
    twostate predicate Did(o: Outcome)
      reads this
    {
      && out == old(out) + o.written
      && room == old(room) - |o.written|
      && requests == old(requests) + o.requests
    }

    /** Write: the bytes that fit are taken; a short write is an error. */
    method Write(b: string) returns (n: nat, err: Option<WriteError>)
      modifies this
      ensures var o := WriteOne(old(room), Bytes(b)); Did(o) && n == |o.written| && err == o.err
    {
      n := if |b| <= room then |b| else room;
      out := out + b[..n];
      room := room - n;
      requests := requests + [b];
      err := if n < |b| then Some(ShortWrite) else None;
    }
  }

  class Writer {
    const sink: Sink
    /** strInts: the cached int texts. */
    const ints: seq<string>

    /** NewWriter, wrapping sink, with the int texts init computed. */
    constructor(sink: Sink, ints: seq<string>)
      requires IntsCached(ints)
      ensures this.sink == sink && this.ints == ints
    {
      this.sink := sink;
      this.ints := ints;
    }

    /**
     * Writev: the value's bytes, with the cached text for an int in
     * 0 .. CachedInts-1; an unsupported type writes nothing and is an error.
     */
    method Writev(v: Value) returns (n: nat, err: Option<WriteError>)
      requires IntsCached(ints)
      modifies sink
      ensures var o := WriteOne(old(sink.room), Render(v)); sink.Did(o) && n == |o.written| && err == o.err
    {
      match v
      case VString(s) =>
        n, err := Writes(s);
      case VInt(i) =>
        if i < CachedInts && i >= 0 {
          n, err := sink.Write(ints[i]);
        } else {
          n, err := Writes(Itoa(i));
        }
      case VBytes(b) =>
        n, err := sink.Write(b);
      case VStringer(text) =>
        n, err := Writes(text);
      case VBool(b) =>
        n, err := sink.Write(if b then "true" else "false");
      case VOther(t) =>
        n, err := 0, Some(NotSupported(t));
    }

    /**
     * Writevs: the values in order, adding up the bytes written, until the
     * first error, which is returned.
     */
    method Writevs(vs: seq<Value>) returns (n: nat, err: Option<WriteError>)
      requires IntsCached(ints)
      modifies sink
      ensures var o := WritePieces(old(sink.room), Renders(vs)); sink.Did(o) && n == |o.written| && err == o.err
    {
      ghost var room0 := sink.room;
      ghost var ps := Renders(vs);
      ghost var o := Outcome([], "", None);
      n, err := 0, None;
      var i := 0;
      assert ps[..0] == [];
      while i < |vs|
        invariant 0 <= i <= |vs|
        invariant o == WritePieces(room0, ps[..i]) && o.err.None? && err.None?
        invariant sink.Did(o) && n == |o.written|
      {
        var m;
        ghost var p := Render(vs[i]);
        assert ps[i] == p;
        ghost var out1, requests1, room1 := sink.out, sink.requests, sink.room;
        m, err := Writev(vs[i]);
        n := n + m;
        Advance(room0, ps, i, o, old(sink.out), out1, sink.out, old(sink.requests), requests1, sink.requests, room1, sink.room);
        o := Then(o, WriteOne(room0 - |o.written|, ps[i]));
        if err.Some? {
          return;
        }
        i := i + 1;
      }
      assert ps[..i] == ps;
    }

    /** Writes: the string's bytes. */
    method Writes(s: string) returns (n: nat, err: Option<WriteError>)
      modifies sink
      ensures var o := WriteOne(old(sink.room), Bytes(s)); sink.Did(o) && n == |o.written| && err == o.err
    {
      n, err := sink.Write(s);
    }

    /**
     * Writess: the strings in order, adding up the bytes written, until the
     * first error, which is returned.
     */
    method Writess(ss: seq<string>) returns (n: nat, err: Option<WriteError>)
      modifies sink
      ensures var o := WritePieces(old(sink.room), Strings(ss)); sink.Did(o) && n == |o.written| && err == o.err
    {
      ghost var room0 := sink.room;
      ghost var ps := Strings(ss);
      ghost var o := Outcome([], "", None);
      n, err := 0, None;
      var i := 0;
      assert ps[..0] == [];
      while i < |ss|
        invariant 0 <= i <= |ss|
        invariant o == WritePieces(room0, ps[..i]) && o.err.None? && err.None?
        invariant sink.Did(o) && n == |o.written|
      {
        var m;
        assert ps[i] == Bytes(ss[i]);
        ghost var out1, requests1, room1 := sink.out, sink.requests, sink.room;
        m, err := Writes(ss[i]);
        n := n + m;
        Advance(room0, ps, i, o, old(sink.out), out1, sink.out, old(sink.requests), requests1, sink.requests, room1, sink.room);
        o := Then(o, WriteOne(room0 - |o.written|, ps[i]));
        if err.Some? {
          return;
        }
        i := i + 1;
      }
      assert ps[..i] == ps;
    }

    /** Writees: the HTML-escaped form of the string. */
    method Writees(s: string) returns (n: nat, err: Option<WriteError>)
      modifies sink
      ensures var o := WriteOne(old(sink.room), Bytes(Text.EscapeString(s))); sink.Did(o) && n == |o.written| && err == o.err
    {
      n, err := Writes(Text.EscapeString(s));
    }

    /**
     * One write of a run of byte slices that has not failed yet, with what
     * the run comes to after it.
     */
    method WriteNext(ghost room0: nat, ghost ps: seq<Piece>, ghost k: nat, ghost o: Outcome,
                     ghost out0: string, ghost requests0: seq<string>, b: string)
      returns (m: nat, err: Option<WriteError>, ghost o2: Outcome)
      requires k < |ps| && ps[k] == Bytes(b) && o == WritePieces(room0, ps[..k]) && o.err.None?
      requires sink.out == out0 + o.written && sink.requests == requests0 + o.requests && sink.room == room0 - |o.written|
      modifies sink
      ensures o2 == WritePieces(room0, ps[..k + 1]) && err == o2.err && |o2.written| == |o.written| + m
      ensures err.Some? ==> o2 == WritePieces(room0, ps)
      ensures sink.out == out0 + o2.written && sink.requests == requests0 + o2.requests && sink.room == room0 - |o2.written|
    {
      ghost var out1, requests1, room1 := sink.out, sink.requests, sink.room;
      m, err := sink.Write(b);
      Advance(room0, ps, k, o, out0, out1, sink.out, requests0, requests1, sink.requests, room1, sink.room);
      o2 := Then(o, WriteOne(room0 - |o.written|, ps[k]));
    }

    /**
     * WriteAttr: ` name="value"`, unescaped, as five writes that stop at
     * the first error; n is the total written.
     */
    method WriteAttr(name: string, value: string) returns (n: nat, err: Option<WriteError>)
      modifies sink
      ensures var o := WritePieces(old(sink.room), AttrPieces(name, value)); sink.Did(o) && n == |o.written| && err == o.err
    {
      ghost var ps := AttrPieces(name, value);
      ghost var room0, out0, requests0 := sink.room, sink.out, sink.requests;
      ghost var o := Outcome([], "", None);
      var m;
      assert ps[..0] == [];
      n, err, o := WriteNext(room0, ps, 0, o, out0, requests0, " ");
      if err.Some? {
        return;
      }
      m, err, o := WriteNext(room0, ps, 1, o, out0, requests0, name);
      n := n + m;
      if err.Some? {
        return;
      }
      m, err, o := WriteNext(room0, ps, 2, o, out0, requests0, "=\"");
      n := n + m;
      if err.Some? {
        return;
      }
      m, err, o := WriteNext(room0, ps, 3, o, out0, requests0, value);
      n := n + m;
      if err.Some? {
        return;
      }
      m, err, o := WriteNext(room0, ps, 4, o, out0, requests0, "\"");
      n := n + m;
      assert ps[..5] == ps;
    }
  }

  /**
   * One more write of a run that has not failed: a sink that went through o
   * and then through the next piece's write went through the longer run,
   * which is the whole run when that write failed.
   */
  lemma Advance(room: nat, ps: seq<Piece>, k: nat, o: Outcome, out0: string, out1: string, out2: string,
                requests0: seq<string>, requests1: seq<string>, requests2: seq<string>, room1: int, room2: int)
    requires k < |ps| && o == WritePieces(room, ps[..k]) && o.err.None?
    requires out1 == out0 + o.written && requests1 == requests0 + o.requests && room1 == room - |o.written|
    requires var o1 := WriteOne(room1, ps[k]);
      out2 == out1 + o1.written && requests2 == requests1 + o1.requests && room2 == room1 - |o1.written|
    ensures var o2 := Then(o, WriteOne(room - |o.written|, ps[k]));
      && o2 == WritePieces(room, ps[..k + 1])
      && (o2.err.Some? ==> o2 == WritePieces(room, ps))
      && out2 == out0 + o2.written && requests2 == requests0 + o2.requests && room2 == room - |o2.written|
  {
    WritePiecesStep(room, ps, k);
    SinkStep(o, WriteOne(room - |o.written|, ps[k]), out0, out1, out2, requests0, requests1, requests2);
  }

  /** A sink that went through o and then o1 went through the run o followed by o1. */
  lemma SinkStep(o: Outcome, o1: Outcome, out0: string, out1: string, out2: string,
                 requests0: seq<string>, requests1: seq<string>, requests2: seq<string>)
    requires out1 == out0 + o.written && out2 == out1 + o1.written
    requires requests1 == requests0 + o.requests && requests2 == requests1 + o1.requests
    ensures out2 == out0 + Then(o, o1).written && requests2 == requests0 + Then(o, o1).requests
  {
    assert (out0 + o.written) + o1.written == out0 + (o.written + o1.written);
    assert (requests0 + o.requests) + o1.requests == requests0 + (o.requests + o1.requests);
  }

  /** Once a run has failed, the pieces after it change nothing. */
  lemma {:induction false} WritePiecesFailed(room: nat, ps: seq<Piece>, k: nat)
    requires k <= |ps| && WritePieces(room, ps[..k]).err.Some?
    ensures WritePieces(room, ps) == WritePieces(room, ps[..k])
    decreases |ps| - k
  {
    if k < |ps| {
      assert ps[..k + 1][..k] == ps[..k];
      WritePiecesFailed(room, ps, k + 1);
    } else {
      assert ps[..k] == ps;
    }
  }

  /** The five writes of WriteAttr. */
  function AttrPieces(name: string, value: string): (ps: seq<Piece>)
    ensures AllBytes(ps) && |ps| == 5
    ensures ps[0] == Bytes(" ") && ps[1] == Bytes(name) && ps[2] == Bytes("=\"")
    ensures ps[3] == Bytes(value) && ps[4] == Bytes("\"")
  {
    [Bytes(" "), Bytes(name), Bytes("=\""), Bytes(value), Bytes("\"")]
  }

  /**
   * A run that has not failed goes on with the next piece; when that one
   * fails, the run ends there.
   */
  lemma WritePiecesStep(room: nat, ps: seq<Piece>, k: nat)
    requires k < |ps| && WritePieces(room, ps[..k]).err.None?
    ensures var o := WritePieces(room, ps[..k]);
      var o1 := Then(o, WriteOne(room - |o.written|, ps[k]));
      WritePieces(room, ps[..k + 1]) == o1 && (o1.err.Some? ==> WritePieces(room, ps) == o1)
  {
    WritePiecesSnoc(room, ps, k);
    var o := WritePieces(room, ps[..k]);
    var o1 := Then(o, WriteOne(room - |o.written|, ps[k]));
    if o1.err.Some? {
      WritePiecesFailed(room, ps, k + 1);
    }
  }

  /** A run that has not failed goes on with the next piece. */
  lemma WritePiecesSnoc(room: nat, ps: seq<Piece>, k: nat)
    requires k < |ps| && WritePieces(room, ps[..k]).err.None?
    ensures var o := WritePieces(room, ps[..k]);
      WritePieces(room, ps[..k + 1]) == Then(o, WriteOne(room - |o.written|, ps[k]))
  {
    assert ps[..k + 1][..k] == ps[..k];
  }

  /**
   * With room for all of it, WriteAttr writes ` name="value"` and no error;
   * with less, it writes what fits of that text and fails.
   */
  lemma AttrText(room: nat, name: string, value: string)
    ensures var o := WritePieces(room, AttrPieces(name, value));
      var text := " " + name + "=\"" + value + "\"";
      && o.written == text[..if |text| <= room then |text| else room]
      && (o.err.None? <==> |text| <= room)
  {
    var ps := AttrPieces(name, value);
    WritePiecesBytes(room, ps);
    assert Flatten(ps[..1]) == " " by {
      assert ps[..1][..0] == [];
    }
    assert Flatten(ps[..2]) == " " + name by {
      assert ps[..2][..1] == ps[..1];
    }
    assert Flatten(ps[..3]) == " " + name + "=\"" by {
      assert ps[..3][..2] == ps[..2];
    }
    assert Flatten(ps[..4]) == " " + name + "=\"" + value by {
      assert ps[..4][..3] == ps[..3];
    }
    assert ps[..5] == ps;
  }

  /** s cut to what fits in room bytes. */
  function Capped(room: nat, s: string): (r: string)
    ensures |r| <= room && |r| <= |s| && r == s[..|r|]
    ensures |s| <= room ==> r == s
  {
    s[..if |s| <= room then |s| else room]
  }

  /** A sink that took what fit of a and then what fit of b took what fit of a + b. */
  lemma CappedConcat(room: nat, a: string, b: string)
    ensures Capped(room, a + b) == Capped(room, a) + Capped(room - |Capped(room, a)|, b)
  {
    if |a| > room {
      assert (a + b)[..room] == a[..room];
    } else {
      var w := if |b| <= room - |a| then |b| else room - |a|;
      assert a + b[..w] == (a + b)[..|a| + w];
    }
  }

  /**
   * The sink went from out0/room0 through what fits of text to out1/room1,
   * then took what fits of b: it went through what fits of text + b.
   */
  lemma Extend(out0: string, room0: nat, text: string, out1: string, room1: int, b: string, out2: string, room2: int)
    requires out1 == out0 + Capped(room0, text) && room1 == room0 - |Capped(room0, text)|
    requires out2 == out1 + Capped(room1, b) && room2 == room1 - |Capped(room1, b)|
    ensures out2 == out0 + Capped(room0, text + b) && room2 == room0 - |Capped(room0, text + b)|
  {
    CappedConcat(room0, text, b);
    assert (out0 + Capped(room0, text)) + Capped(room1, b) == out0 + (Capped(room0, text) + Capped(room1, b));
  }

  /** A Writevs of byte slices only takes what fits of their concatenation. */
  lemma WritevsCapped(room: nat, vs: seq<Value>, text: string)
    requires forall k :: 0 <= k < |vs| ==> !vs[k].VOther?
    requires AllBytes(Renders(vs)) && Flatten(Renders(vs)) == text
    ensures WritePieces(room, Renders(vs)).written == Capped(room, text)
  {
    WritePiecesBytes(room, Renders(vs));
  }

  /** The concatenation of a three-piece write. */
  lemma Flatten3(ps: seq<Piece>, a: string, b: string, c: string)
    requires ps == [Bytes(a), Bytes(b), Bytes(c)]
    ensures AllBytes(ps) && Flatten(ps) == a + b + c
  {
    assert ps[..2] == [Bytes(a), Bytes(b)] && ps[..2][..1] == [Bytes(a)] && ps[..2][..1][..0] == [];
    assert Flatten([Bytes(a)]) == a;
    assert Flatten(ps[..2]) == a + b;
  }
}
