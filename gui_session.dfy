/**
 * The GUI session (gui/server/session.go): its id, drawn from a 64-letter
 * alphabet, the new flag, the windows by name and the attributes by name.
 * The clock and the secure random source become parameters; the session's
 * mutex is not modelled.
 */
module Sessions {
  import opened Wrappers
  import opened Ids

  /** The letters of a session id; their count must be a power of two. */
  const IdChars := "0123456789abcdefghijklmnopqrstuvwxyzABCDEFGHIJKLMNOPQRSTUVWXYZ-_"
  /** The length of a session id. */
  const IdLength := 22
  /** time.Minute, in nanoseconds. */
  const Minute := 60 * 1_000_000_000
  /** The timeout a new session starts with. */
  const DefaultTimeout := 30 * Minute

  const EmptyNameError := "Window name cannot be empty string"
  const DuplicateNameError := "A window with the same name has already been added: "

  /** The mask genID applies to a random byte: len(idChars)-1. */
  function IdMask(): bv8 {
    (|IdChars| - 1) as bv8
  }

  /** The init check: len(idChars), as a byte i, has i & (i-1) == 0. */
  lemma IdCharsPowerOfTwo()
    ensures |IdChars| == 64
    ensures (|IdChars| as bv8) & ((|IdChars| - 1) as bv8) == 0
  {
  }

  /** The letter genID puts in place of the random byte b. */
  function IdChar(b: bv8): (ch: char)
    ensures ch == IdChars[(b as int) % 64]
  {
    IdCharsPowerOfTwo();
    MaskIsMod(b);
    IdChars[(b & IdMask()) as int]
  }

  /** Masking with the alphabet size minus one picks the byte's remainder: every letter can occur. */
  lemma MaskIsMod(b: bv8)
    ensures (b & 63) as int == (b as int) % 64
  {
  }

  /**
   * genID, for the bytes the random source delivered: each of the 22 bytes
   * is replaced, in place, by the letter it selects.
   */
  method GenID(random: seq<bv8>) returns (id: string)
    requires |random| == IdLength
    ensures |id| == IdLength
    ensures forall i :: 0 <= i < IdLength ==> id[i] == IdChar(random[i])
    ensures forall i :: 0 <= i < IdLength ==> id[i] in IdChars
  {
    var buf := new char[IdLength](i requires 0 <= i < IdLength => random[i] as char);
    for i := 0 to buf.Length
      invariant forall j :: 0 <= j < i ==> buf[j] == IdChar(random[j])
      invariant forall j :: i <= j < buf.Length ==> buf[j] == random[j] as char
    {
      assert buf[i] == random[i] as char;
      var v := buf[i] as bv8;
      assert v == random[i];
      buf[i] := IdChar(v);
    }
    id := buf[..];
  }

  /** A window, as the session sees it: its name and its component id. */
  datatype Win = Win(name: string, id: ID)

  class Session<V> {
    var id: string
    var isNew: bool
    var created: int
    var accessed: int
    var windows: map<string, Win>
    var attrs: map<string, V>
    var timeout: int

    /**
     * newSessionImpl: a private session gets a generated id and starts new;
     * the public session has the empty id and is not new.
     */
    constructor(private: bool, random: seq<bv8>, now: int)
      requires |random| == IdLength
      ensures private ==> |id| == IdLength && forall i :: 0 <= i < |id| ==> id[i] in IdChars
      ensures !private ==> id == ""
      ensures Private() == private && New() == private
      ensures created == now && accessed == now
      ensures windows == map[] && attrs == map[] && timeout == DefaultTimeout
    {
      var sid := "";
      if private {
        sid := GenID(random);
      }
      id := sid;
      isNew := private;
      created := now;
      accessed := now;
      windows := map[];
      attrs := map[];
      timeout := DefaultTimeout;
    }

    /** New: the client does not know about the session yet. */
    function New(): bool
      reads this
    {
      isNew
    }

    /** Private: every session but the public one, which has the empty id. */
    function Private(): (r: bool)
      reads this
      ensures r <==> id != ""
    {
      |id| > 0
    }

    /**
     * AddWin: an error, and no change, for an empty name or a name already
     * taken; otherwise the window is stored under its name.
     */
    method AddWin(w: Win) returns (err: Option<string>)
      modifies this
      ensures w.name == "" ==> err == Some(EmptyNameError) && windows == old(windows)
      ensures w.name != "" && w.name in old(windows) ==> err == Some(DuplicateNameError + w.name) && windows == old(windows)
      ensures w.name != "" && w.name !in old(windows) ==> err == None && windows == old(windows)[w.name := w]
      ensures id == old(id) && isNew == old(isNew) && attrs == old(attrs)
      ensures created == old(created) && accessed == old(accessed) && timeout == old(timeout)
    {
      if |w.name| == 0 {
        return Some(EmptyNameError);
      }
      if w.name in windows {
        return Some(DuplicateNameError + w.name);
      }
      windows := windows[w.name := w];
      return None;
    }

    /**
     * RemoveWin: the window stored under w's name goes only when it has
     * w's id; the answer says whether it went.
     */
    method RemoveWin(w: Win) returns (removed: bool)
      modifies this
      ensures removed <==> w.name in old(windows) && old(windows)[w.name].id == w.id
      ensures removed ==> windows == old(windows) - {w.name}
      ensures !removed ==> windows == old(windows)
      ensures id == old(id) && isNew == old(isNew) && attrs == old(attrs)
      ensures created == old(created) && accessed == old(accessed) && timeout == old(timeout)
    {
      var win := WinByName(w.name);
      if win.Some? && win.value.id == w.id {
        windows := windows - {w.name};
        return true;
      }
      return false;
    }

    /** WinByName: nothing for an unknown name. */
    function WinByName(name: string): (r: Option<Win>)
      reads this
      ensures r.Some? <==> name in windows
      ensures r.Some? ==> r.value == windows[name]
    {
      if name in windows then Some(windows[name]) else None
    }

    /** Attr: nil (None) for an attribute never set or deleted. */
    function Attr(name: string): (r: Option<V>)
      reads this
      ensures r.Some? <==> name in attrs
      ensures r.Some? ==> r.value == attrs[name]
    {
      if name in attrs then Some(attrs[name]) else None
    }

    /** SetAttr: nil (None) deletes the attribute, any other value is stored. */
    method SetAttr(name: string, value: Option<V>)
      modifies this
      ensures Attr(name) == value
      ensures forall other :: other != name ==> Attr(other) == old(Attr(other))
      ensures value.None? ==> attrs == old(attrs) - {name}
      ensures value.Some? ==> attrs == old(attrs)[name := value.value]
      ensures id == old(id) && isNew == old(isNew) && windows == old(windows)
      ensures created == old(created) && accessed == old(accessed) && timeout == old(timeout)
    {
      if value.None? {
        attrs := attrs - {name};
      } else {
        attrs := attrs[name := value.value];
      }
    }

    /** clearNew: after it, New() is false. */
    method ClearNew()
      modifies this
      ensures !New()
      ensures id == old(id) && windows == old(windows) && attrs == old(attrs)
      ensures created == old(created) && accessed == old(accessed) && timeout == old(timeout)
    {
      isNew := false;
    }
  }
}
