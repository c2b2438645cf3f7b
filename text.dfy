/** The .NET string helpers the core relies on: whitespace tests, Trim and Split. */
module Text {

  /** The characters `char.IsWhiteSpace` accepts among ASCII and Latin-1. */
  predicate IsWhiteSpace(c: char)
  {
    c == ' ' || c == '\t' || c == '\n' || c == '\U{000B}' || c == '\U{000C}' || c == '\r'
    || c == '\U{0085}' || c == '\U{00A0}'
  }

  /** `string.IsNullOrWhiteSpace`: empty or made of whitespace only. */
  predicate IsBlank(s: string)
  {
    forall i :: 0 <= i < |s| ==> IsWhiteSpace(s[i])
  }

  /** `string.Trim()`: `s` without the whitespace on both ends. */
  function Trim(s: string): (r: string)
    ensures r != [] ==> !IsWhiteSpace(r[0]) && !IsWhiteSpace(r[|r| - 1])
    ensures IsBlank(s) <==> r == []
    decreases |s|
  {
    if s != [] && IsWhiteSpace(s[0]) then Trim(s[1..])
    else if s != [] && IsWhiteSpace(s[|s| - 1]) then Trim(s[..|s| - 1])
    else s
  }

  /** Trim keeps a contiguous middle of its input and drops only whitespace on either side of it. */
  lemma {:induction false} TrimMiddle(s: string) returns (i: nat)
    ensures i + |Trim(s)| <= |s| && Trim(s) == s[i..i + |Trim(s)|]
    ensures IsBlank(s[..i]) && IsBlank(s[i + |Trim(s)|..])
    decreases |s|, 1
  {
    if s != [] && IsWhiteSpace(s[0]) {
      i := TrimMiddleFront(s);
    } else if s != [] && IsWhiteSpace(s[|s| - 1]) {
      i := TrimMiddleBack(s);
    } else {
      i := 0;
    }
  }

  /** TrimMiddle when Trim drops the first character. */
  lemma {:induction false} TrimMiddleFront(s: string) returns (i: nat)
    requires s != [] && IsWhiteSpace(s[0])
    ensures i + |Trim(s)| <= |s| && Trim(s) == s[i..i + |Trim(s)|]
    ensures IsBlank(s[..i]) && IsBlank(s[i + |Trim(s)|..])
    decreases |s|, 0
  {
    var t := s[1..];
    var j := TrimMiddle(t);
    i := j + 1;
    assert t[j..j + |Trim(t)|] == s[i..i + |Trim(t)|];
    assert s[..i] == [s[0]] + t[..j];
    assert s[i + |Trim(s)|..] == t[j + |Trim(t)|..];
  }

  /** TrimMiddle when Trim drops the last character. */
  lemma {:induction false} TrimMiddleBack(s: string) returns (i: nat)
    requires s != [] && !IsWhiteSpace(s[0]) && IsWhiteSpace(s[|s| - 1])
    ensures i + |Trim(s)| <= |s| && Trim(s) == s[i..i + |Trim(s)|]
    ensures IsBlank(s[..i]) && IsBlank(s[i + |Trim(s)|..])
    decreases |s|, 0
  {
    var t := s[..|s| - 1];
    i := TrimMiddle(t);
    assert t[i..i + |Trim(t)|] == s[i..i + |Trim(t)|];
    assert s[..i] == t[..i];
    assert s[i + |Trim(s)|..] == t[i + |Trim(t)|..] + [s[|s| - 1]];
  }

  /** `s.Split(c)`: the pieces of `s` between occurrences of `c`, an empty piece between two adjacent ones. */
  function Split(s: string, c: char): (r: seq<string>)
    ensures |r| >= 1
    ensures forall k :: 0 <= k < |r| ==> c !in r[k]
    decreases |s|
  {
    if c !in s then [s]
    else
      var i := IndexOf(s, c);
      [s[..i]] + Split(s[i + 1..], c)
  }

  /** The position of the first occurrence of `c` in `s`. */
  function IndexOf(s: string, c: char): (i: nat)
    requires c in s
    ensures i < |s| && s[i] == c && c !in s[..i]
  {
    if s[0] == c then 0 else
      var j := IndexOf(s[1..], c);
      assert s[..j + 1] == [s[0]] + s[1..][..j];
      j + 1
  }

  /** `string.Join(c, pieces)`: the inverse of Split. */
  function Join(pieces: seq<string>, c: char): string
  {
    if pieces == [] then "" else if |pieces| == 1 then pieces[0] else pieces[0] + [c] + Join(pieces[1..], c)
  }

  /** Joining the pieces of a split gives the string back. */
  lemma {:induction false} JoinSplit(s: string, c: char)
    ensures Join(Split(s, c), c) == s
    decreases |s|
  {
    if c in s {
      var i := IndexOf(s, c);
      var rest := Split(s[i + 1..], c);
      var pieces := [s[..i]] + rest;
      assert Split(s, c) == pieces;
      assert pieces[1..] == rest;
      assert Join(pieces, c) == s[..i] + [c] + Join(rest, c);
      JoinSplit(s[i + 1..], c);
      assert s == s[..i] + [c] + s[i + 1..];
    }
  }

  /** Splitting a joined sequence of separator-free pieces gives the pieces back. */
  lemma {:induction false} SplitJoin(pieces: seq<string>, c: char)
    requires |pieces| >= 1
    requires forall k :: 0 <= k < |pieces| ==> c !in pieces[k]
    ensures Split(Join(pieces, c), c) == pieces
    decreases |pieces|
  {
    if |pieces| == 1 {
    } else {
      var s := Join(pieces, c);
      var p := pieces[0];
      assert s == p + [c] + Join(pieces[1..], c);
      assert s[|p|] == c;
      assert s[..|p|] == p;
      assert c in s;
      var i := IndexOf(s, c);
      assert s[i + 1..] == Join(pieces[1..], c);
      SplitJoin(pieces[1..], c);
    }
  }
}
