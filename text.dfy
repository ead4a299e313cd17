/**
 * The pieces of Go's strings and html packages the core uses, over
 * seq<char> with one char per byte: ASCII lower-casing, substring
 * search, prefix and suffix tests, splitting on a separator, and
 * html.EscapeString.
 */
module Text {

  function LowerChar(ch: char): (r: char)
    ensures 'A' <= ch <= 'Z' ==> r as int == ch as int + 32
    ensures !('A' <= ch <= 'Z') ==> r == ch
  {
    if 'A' <= ch <= 'Z' then (ch as int + 32) as char else ch
  }

  /** strings.ToLower restricted to ASCII letters. */
  function ToLower(s: string): (r: string)
    ensures |r| == |s|
    ensures forall i :: 0 <= i < |s| ==> r[i] == LowerChar(s[i])
  {
    seq(|s|, i requires 0 <= i < |s| => LowerChar(s[i]))
  }

  predicate HasPrefix(s: string, prefix: string) {
    |prefix| <= |s| && s[..|prefix|] == prefix
  }

  predicate HasSuffix(s: string, suffix: string) {
    |suffix| <= |s| && s[|s| - |suffix|..] == suffix
  }

  /** sub occurs in s starting at index i. */
  predicate OccursAt(s: string, sub: string, i: nat) {
    i + |sub| <= |s| && s[i..i + |sub|] == sub
  }

  /** strings.Contains: true iff sub occurs somewhere in s. */
  function Contains(s: string, sub: string): (r: bool)
    ensures r <==> exists i: nat :: OccursAt(s, sub, i)
    decreases |s|
  {
    if |sub| > |s| then false
    else if s[..|sub|] == sub then
      assert OccursAt(s, sub, 0);
      true
    else
      var rest := Contains(s[1..], sub);
      ContainsShift(s, sub);
      rest
  }

  lemma ContainsShift(s: string, sub: string)
    requires |sub| <= |s| && s[..|sub|] != sub
    ensures (exists i: nat :: OccursAt(s, sub, i)) <==> (exists i: nat :: OccursAt(s[1..], sub, i))
  {
    if exists i: nat :: OccursAt(s, sub, i) {
      var i: nat :| OccursAt(s, sub, i);
      if i > 0 {
        OccursShiftDown(s, sub, i);
      }
    }
    if exists i: nat :: OccursAt(s[1..], sub, i) {
      var i: nat :| OccursAt(s[1..], sub, i);
      OccursShiftUp(s, sub, i);
    }
  }

  lemma OccursShiftDown(s: string, sub: string, i: nat)
    requires 0 < i && OccursAt(s, sub, i)
    ensures OccursAt(s[1..], sub, i - 1)
  {
    assert s[1..][i - 1..i - 1 + |sub|] == s[i..i + |sub|];
  }

  lemma OccursShiftUp(s: string, sub: string, i: nat)
    requires |s| > 0 && OccursAt(s[1..], sub, i)
    ensures OccursAt(s, sub, i + 1)
  {
    assert s[i + 1..i + 1 + |sub|] == s[1..][i..i + |sub|];
  }

  /** Inverse of Split: the parts glued back with the separator between them. */
  function Join(parts: seq<string>, sep: char): string
    requires |parts| >= 1
  {
    if |parts| == 1 then parts[0] else parts[0] + [sep] + Join(parts[1..], sep)
  }

  /** strings.Split with a one-character separator. */
  function Split(s: string, sep: char): (parts: seq<string>)
    ensures |parts| >= 1
    ensures forall i :: 0 <= i < |parts| ==> sep !in parts[i]
    ensures Join(parts, sep) == s
    ensures |parts| == 1 <==> sep !in s
    decreases |s|
  {
    var i := FirstChar(s, sep);
    if i < 0 then [s]
    else
      var rest := Split(s[i + 1..], sep);
      assert s == s[..i] + [sep] + s[i + 1..];
      [s[..i]] + rest
  }

  /** Index of the first sep in s, or -1. */
  function FirstChar(s: string, sep: char): (r: int)
    ensures -1 <= r < |s|
    ensures r == -1 <==> sep !in s
    ensures 0 <= r ==> s[r] == sep && sep !in s[..r]
  {
    if s == [] then -1
    else if s[0] == sep then 0
    else
      var k := FirstChar(s[1..], sep);
      if k < 0 then -1
      else
        assert s[..k + 1] == [s[0]] + s[1..][..k];
        k + 1
  }

  /** A part without a separator, then a separator: the part comes off first. */
  lemma SplitCons(a: string, t: string, sep: char)
    requires sep !in a
    ensures Split(a + [sep] + t, sep) == [a] + Split(t, sep)
  {
    var s := a + [sep] + t;
    assert s[|a|] == sep && s[..|a|] == a;
    assert FirstChar(s, sep) == |a|;
    assert s[|a| + 1..] == t;
  }

  /** Splitting the join of parts that hold no separator gives the parts back. */
  lemma {:induction false} SplitJoin(parts: seq<string>, sep: char)
    requires |parts| >= 1 && forall i :: 0 <= i < |parts| ==> sep !in parts[i]
    ensures Split(Join(parts, sep), sep) == parts
    decreases |parts|
  {
    if |parts| > 1 {
      SplitCons(parts[0], Join(parts[1..], sep), sep);
      SplitJoin(parts[1..], sep);
      assert parts == [parts[0]] + parts[1..];
    }
  }

  /** A path starting with the separator splits into an empty first part. */
  lemma SplitLeadingSeparator(s: string, sep: char)
    requires |s| >= 1 && s[0] == sep
    ensures |Split(s, sep)| >= 2 && Split(s, sep)[0] == ""
  {
  }

  /** The replacement html.EscapeString makes for one byte. */
  function EscapeChar(ch: char): string {
    match ch
    case '<' => "&lt;"
    case '>' => "&gt;"
    case '&' => "&amp;"
    case '\'' => "&#39;"
    case '"' => "&#34;"
    case _ => [ch]
  }

  /** html.EscapeString. */
  function EscapeString(s: string): (r: string)
    ensures '<' !in r && '>' !in r && '\'' !in r && '"' !in r
    ensures |r| >= |s|
  {
    if s == [] then "" else EscapeChar(s[0]) + EscapeString(s[1..])
  }

  /** html.UnescapeString for the five entities EscapeString produces. */
  function UnescapeString(s: string): string
    decreases |s|
  {
    if s == [] then ""
    else if s[0] != '&' then [s[0]] + UnescapeString(s[1..])
    else if HasPrefix(s, "&lt;") then "<" + UnescapeString(s[4..])
    else if HasPrefix(s, "&gt;") then ">" + UnescapeString(s[4..])
    else if HasPrefix(s, "&amp;") then "&" + UnescapeString(s[5..])
    else if HasPrefix(s, "&#39;") then "'" + UnescapeString(s[5..])
    else if HasPrefix(s, "&#34;") then "\"" + UnescapeString(s[5..])
    else "&" + UnescapeString(s[1..])
  }

  lemma UnescapeChar(ch: char, t: string)
    ensures UnescapeString(EscapeChar(ch) + t) == [ch] + UnescapeString(t)
  {
    if ch in "<>&'\"" {
      UnescapeEntity(ch, t);
    } else {
      var e := EscapeChar(ch) + t;
      assert EscapeChar(ch) == [ch];
      assert e[0] == ch && e[1..] == t;
    }
  }

  lemma UnescapeEntity(ch: char, t: string)
    requires ch in "<>&'\""
    ensures UnescapeString(EscapeChar(ch) + t) == [ch] + UnescapeString(t)
  {
    var e := EscapeChar(ch) + t;
    match ch
    case '<' =>
      assert e[..4] == "&lt;" && e[4..] == t;
    case '>' =>
      assert e[..4] == "&gt;" && e[4..] == t;
      assert e[1] == 'g';
    case '&' =>
      assert e[..5] == "&amp;" && e[5..] == t;
      assert e[1] == 'a';
    case '\'' =>
      assert e[..5] == "&#39;" && e[5..] == t;
      assert e[1] == '#' && e[2] == '3';
    case '"' =>
      assert e[..5] == "&#34;" && e[5..] == t;
      assert e[1] == '#' && e[2] == '3' && e[3] == '4';
  }

  /** As Go promises: UnescapeString(EscapeString(s)) == s. */
  lemma {:induction false} EscapeRoundTrip(s: string)
    ensures UnescapeString(EscapeString(s)) == s
  {
    if s != [] {
      UnescapeChar(s[0], EscapeString(s[1..]));
      EscapeRoundTrip(s[1..]);
    }
  }
}
