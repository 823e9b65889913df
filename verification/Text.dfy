/** JavaScript's notion of white space, and trimming. */
module Text {

  /** WhiteSpace and LineTerminator of ECMA-262: what trim() removes and \s matches. */
  predicate IsSpace(c: char) {
    '\t' <= c <= '\r' || c == ' ' || c == '\U{A0}' || c == '\U{1680}' || '\U{2000}' <= c <= '\U{200A}'
    || c == '\U{2028}' || c == '\U{2029}' || c == '\U{202F}' || c == '\U{205F}' || c == '\U{3000}' || c == '\U{FEFF}'
  }

  /** The same by code point. */
  lemma SpaceCodes(c: char)
    ensures IsSpace(c) <==>
      c as int in {9, 10, 11, 12, 13, 32, 160, 5760, 8232, 8233, 8239, 8287, 12288, 65279} || 8192 <= c as int <= 8202
  {}

  predicate StartsWith(s: string, prefix: string) {
    |s| >= |prefix| && forall i :: 0 <= i < |prefix| ==> s[i] == prefix[i]
  }

  predicate AllSpace(s: string) {
    forall i :: 0 <= i < |s| ==> IsSpace(s[i])
  }

  /** The same, character by character. */
  predicate Blank(s: string) {
    s != "" ==> IsSpace(s[0]) && Blank(s[1..])
  }

  lemma {:induction false} BlankIsAllSpace(s: string)
    ensures Blank(s) <==> AllSpace(s)
  {
    if s != "" {
      BlankIsAllSpace(s[1..]);
      assert AllSpace(s) ==> AllSpace(s[1..]);
      assert Blank(s) ==> forall i :: 0 < i < |s| ==> s[i] == s[1..][i - 1];
    }
  }

  function TrimLeft(s: string): string {
    if s != "" && IsSpace(s[0]) then TrimLeft(s[1..]) else s
  }

  function TrimRight(s: string): string {
    if s != "" && IsSpace(s[|s| - 1]) then TrimRight(s[..|s| - 1]) else s
  }

  function Trim(s: string): string { TrimRight(TrimLeft(s)) }

  /** Nothing left to trim. */
  predicate Trimmed(s: string) {
    s != "" ==> !IsSpace(s[0]) && !IsSpace(s[|s| - 1])
  }

  lemma {:induction false} TrimLeftSplits(s: string) returns (w: string)
    ensures AllSpace(w) && s == w + TrimLeft(s)
    ensures TrimLeft(s) != "" ==> !IsSpace(TrimLeft(s)[0])
  {
    hide IsSpace;
    if s != "" && IsSpace(s[0]) {
      var w' := TrimLeftSplits(s[1..]);
      w := [s[0]] + w';
      assert s == [s[0]] + s[1..];
    } else { w := ""; }
  }

  lemma {:induction false} TrimRightSplits(s: string) returns (w: string)
    ensures AllSpace(w) && s == TrimRight(s) + w
    ensures TrimRight(s) != "" ==> !IsSpace(TrimRight(s)[|TrimRight(s)| - 1])
  {
    hide IsSpace;
    if s != "" && IsSpace(s[|s| - 1]) {
      var w' := TrimRightSplits(s[..|s| - 1]);
      w := w' + [s[|s| - 1]];
      assert s == s[..|s| - 1] + [s[|s| - 1]];
    } else { w := ""; }
  }

  /** A text is its trimmed middle between two runs of white space. */
  lemma TrimSplits(s: string) returns (l: string, r: string)
    ensures AllSpace(l) && AllSpace(r) && s == l + Trim(s) + r && Trimmed(Trim(s))
  {
    l := TrimLeftSplits(s);
    r := TrimRightSplits(TrimLeft(s));
    if Trim(s) != "" { assert TrimLeft(s)[0] == Trim(s)[0]; }
  }

  lemma TrimIdle(s: string)
    requires Trimmed(s)
    ensures Trim(s) == s
  {}

  lemma {:induction false} BlankTrims(w: string)
    requires Blank(w)
    ensures TrimLeft(w) == "" && Trim(w) == ""
  {
    if w != "" { BlankTrims(w[1..]); }
  }

  /** White space around a trimmed text goes away. */
  lemma {:induction false} TrimPadded(l: string, s: string, r: string)
    requires AllSpace(l) && AllSpace(r) && Trimmed(s) && s != ""
    ensures Trim(l + s + r) == s
    decreases |l| + |r|
  {
    var t := l + s + r;
    if l != "" {
      assert t[1..] == l[1..] + s + r;
      TrimPadded(l[1..], s, r);
    } else if r != "" {
      TrimPadded("", s, r[..|r| - 1]);
      assert t[0] == s[0] && t[..|t| - 1] == "" + s + r[..|r| - 1];
      assert (t[..|t| - 1])[0] == s[0];
    } else {
      assert t == s;
    }
  }
}
