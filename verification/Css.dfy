/**
 The declaration rewriter of the console runtime: comment stripping, splitting at
 top-level semicolons and adding !important (design/console-v2/support.js).
 */
module Css {
  import opened Sequences
  import opened Text

  predicate IsQuote(c: char) { c == '"' || c == '\'' }

  predicate IsIdent(c: char) {
    'a' <= c <= 'z' || 'A' <= c <= 'Z' || '0' <= c <= '9' || c == '_' || c == '-'
  }

  // -------------------------------------------------------------- unquoted url( )

  predicate StartsUrl(s: string) {
    && |s| >= 4
    && (s[0] == 'u' || s[0] == 'U') && (s[1] == 'r' || s[1] == 'R') && (s[2] == 'l' || s[2] == 'L') && s[3] == '('
  }

  function SkipSpace(s: string, j: nat): (k: nat)
    requires j <= |s|
    ensures j <= k <= |s|
    decreases |s| - j
  {
    if j < |s| && IsSpace(s[j]) then SkipSpace(s, j + 1) else j
  }

  /** One past the closing parenthesis, or the end of the text; a backslash hides a character. */
  function UrlEnd(s: string, j: nat): (k: nat)
    ensures k <= |s| && (j <= |s| ==> j <= k)
    decreases |s| - j
  {
    if j >= |s| then |s|
    else if s[j] == ')' then j + 1
    else UrlEnd(s, if s[j] == '\\' then j + 2 else j + 1)
  }

  /** Length of the unquoted url( ) token s begins with, 0 when it begins with none. */
  function UrlLen(prevIdent: bool, s: string): (n: nat)
    ensures n <= |s| && (n > 0 ==> n >= 4)
  {
    if prevIdent || !StartsUrl(s) then 0
    else
      var j := SkipSpace(s, 4);
      if j < |s| && IsQuote(s[j]) then 0 else UrlEnd(s, j)
  }

  // -------------------------------------------------------------- the scanner both passes share

  datatype Mode = Out | In(quote: char)

  datatype Step = Step(len: nat, mode: Mode, comment: bool)

  /** One past the end of the comment s begins with. */
  function CommentEnd(s: string, j: nat): (k: nat)
    ensures k <= |s| && (j <= |s| ==> j <= k)
    decreases |s| - j
  {
    if j + 1 >= |s| then |s|
    else if s[j] == '*' && s[j + 1] == '/' then j + 2
    else CommentEnd(s, j + 1)
  }

  predicate CommentAt(s: string) { |s| >= 2 && s[0] == '/' && s[1] == '*' }

  /** What the scanner consumes at the head of s: an escaped pair, a comment, a url( ) or
      one character. `prevIdent` says whether the character before s can be part of a name. */
  function Next(m: Mode, prevIdent: bool, s: string): (st: Step)
    requires s != ""
    ensures 1 <= st.len <= |s|
  {
    match m
    case In(q) =>
      if s[0] == '\\' then Step(if |s| == 1 then 1 else 2, m, false)
      else Step(1, if s[0] == q then Out else m, false)
    case Out =>
      if IsQuote(s[0]) then Step(1, In(s[0]), false)
      else if CommentAt(s) then Step(CommentEnd(s, 2), Out, true)
      else
        var n := UrlLen(prevIdent, s);
        Step(if n == 0 then 1 else n, Out, false)
  }

  /** The parenthesis depth after consuming something that begins with c. */
  function Depth(m: Mode, d: nat, c: char): nat {
    if m != Out then d
    else if c == '(' then d + 1
    else if c == ')' && d > 0 then d - 1
    else d
  }

  /** stripComments from a point on: every comment becomes one space. */
  function Strip(m: Mode, prev: bool, s: string): string
    decreases |s|
  {
    if s == "" then ""
    else
      var st := Next(m, prev, s);
      (if st.comment then " " else s[..st.len]) + Strip(st.mode, IsIdent(s[st.len - 1]), s[st.len..])
  }

  predicate SemicolonAt(m: Mode, d: nat, s: string) {
    s != "" && m == Out && d == 0 && s[0] == ';'
  }

  /** The splitting scanner has no comments: there it reads on character by character. */
  function NextPlain(m: Mode, prevIdent: bool, s: string): (st: Step)
    requires s != ""
    ensures 1 <= st.len <= |s|
  {
    if m == Out && CommentAt(s) then Step(1, Out, false) else Next(m, prevIdent, s)
  }

  /** The declarations from a point on, the first of them begun with `cur`: cut at every
      semicolon outside quotes, url( ) and parentheses. */
  function Split(cur: string, m: Mode, d: nat, prev: bool, s: string): (ps: seq<string>)
    ensures ps != []
    decreases |s|
  {
    if s == "" then [cur]
    else if SemicolonAt(m, d, s) then [cur] + Split("", Out, 0, false, s[1..])
    else
      var st := NextPlain(m, prev, s);
      Split(cur + s[..st.len], st.mode, Depth(m, d, s[0]), IsIdent(s[st.len - 1]), s[st.len..])
  }

  function Lower(c: char): char {
    if 'A' <= c <= 'Z' then (c - 'A') + 'a' else c
  }

  predicate SameLetters(s: string, word: string) {
    |s| == |word| && forall i :: 0 <= i < |s| ==> Lower(s[i]) == word[i]
  }

  /** The declaration already ends in "!", white space, "important". */
  predicate Important(d: string) {
    |d| >= 9 && SameLetters(d[|d| - 9..], "important") &&
    var head := TrimRight(d[..|d| - 9]);
    head != "" && head[|head| - 1] == '!'
  }

  const TAIL := " !important"

  function Finished(d: string): string {
    if Important(d) then d else d + TAIL
  }

  function Finish(ps: seq<string>): seq<string> {
    if ps == [] then []
    else
      var d := Trim(ps[0]);
      (if d == "" then [] else [Finished(d)]) + Finish(ps[1..])
  }

  function Join(qs: seq<string>): string {
    if qs == [] then "" else if |qs| == 1 then qs[0] else qs[0] + ";" + Join(qs[1..])
  }

  function ImportantForm(css: string): string {
    Join(Finish(Split("", Out, 0, false, Strip(Out, false, css))))
  }

  // -------------------------------------------------------------- stripping twice

  /** The scanner meets no comment in s. */
  predicate NoComments(m: Mode, prev: bool, s: string)
    decreases |s|
  {
    s != "" ==>
      var st := Next(m, prev, s);
      !st.comment && NoComments(st.mode, IsIdent(s[st.len - 1]), s[st.len..])
  }

  lemma {:induction false} UrlEndLocal(s: string, t: string, j: nat)
    requires UrlEnd(s, j) < |s| && UrlEnd(s, j) <= |t| && s[..UrlEnd(s, j)] == t[..UrlEnd(s, j)] && j <= |s|
    ensures UrlEnd(t, j) == UrlEnd(s, j)
    decreases |s| - j
  {
    var k := UrlEnd(s, j);
    if j < |s| {
      assert s[..k][j] == t[..k][j];
      if s[j] != ')' { UrlEndLocal(s, t, if s[j] == '\\' then j + 2 else j + 1); }
    }
  }

  lemma {:induction false} SkipSpaceLocal(s: string, t: string, j: nat, n: nat)
    requires j <= n <= |s| && n <= |t| && s[..n] == t[..n] && SkipSpace(s, j) < n
    ensures SkipSpace(t, j) == SkipSpace(s, j)
    decreases n - j
  {
    assert s[..n][j] == t[..n][j];
    if IsSpace(s[j]) { SkipSpaceLocal(s, t, j + 1, n); }
  }

  /** A url( ) token that is closed is the same token in any text that goes on differently. */
  lemma UrlLocal(prev: bool, s: string, t: string, n: nat)
    requires 0 < UrlLen(prev, s) == n < |s| && n <= |t| && s[..n] == t[..n]
    ensures UrlLen(prev, t) == n
  {
    assert forall i :: 0 <= i < n ==> s[..n][i] == s[i] && t[..n][i] == t[i];
    UrlEndLocal(s, t, SkipSpace(s, 4));
    SkipSpaceLocal(s, t, 4, n);
  }

  /** Stripping keeps the head of the text, or puts the space of a comment there. */
  lemma StripHead(m: Mode, prev: bool, s: string)
    ensures Strip(m, prev, s) == "" <==> s == ""
    ensures s != "" ==> Strip(m, prev, s)[0] == s[0] || (m == Out && CommentAt(s) && Strip(m, prev, s)[0] == ' ')
  {}

  /** One plain character, other than the u of a url( ), is copied. */
  lemma StripPlain(prev: bool, s: string)
    requires s != "" && !IsQuote(s[0]) && s[0] != '/' && s[0] != 'u' && s[0] != 'U'
    ensures Strip(Out, prev, s) == [s[0]] + Strip(Out, IsIdent(s[0]), s[1..])
  {}

  lemma {:induction false} SkipSpaceFacts(s: string, j: nat)
    requires j <= |s|
    ensures forall i :: j <= i < SkipSpace(s, j) ==> IsSpace(s[i])
    ensures SkipSpace(s, j) < |s| ==> !IsSpace(s[SkipSpace(s, j)])
    decreases |s| - j
  {
    if j < |s| && IsSpace(s[j]) { SkipSpaceFacts(s, j + 1); }
  }

  lemma {:induction false} SkipSpaceIs(s: string, j: nat, k: nat)
    requires j <= k <= |s| && (forall i :: j <= i < k ==> IsSpace(s[i])) && (k < |s| ==> !IsSpace(s[k]))
    ensures SkipSpace(s, j) == k
    decreases k - j
  {
    if j < k { SkipSpaceIs(s, j + 1, k); }
  }

  lemma SpaceIsPlain(prev: bool, s: string)
    requires s != "" && IsSpace(s[0])
    ensures Strip(Out, prev, s) == [s[0]] + Strip(Out, IsIdent(s[0]), s[1..])
  {
    StripPlain(prev, s);
  }

  /** Leading white space survives stripping, and so does the character it leads to. */
  lemma {:induction false} StripSpaces(prev: bool, s: string, k: nat)
    requires k < |s| && (forall i :: 0 <= i < k ==> IsSpace(s[i])) && s[k] != '/'
    ensures |Strip(Out, prev, s)| > k && Strip(Out, prev, s)[..k + 1] == s[..k + 1]
    decreases k
  {
    hide Next, IsSpace, Strip, IsIdent;
    if k == 0 {
      StripHead(Out, prev, s);
    } else {
      SpaceIsPlain(prev, s);
      StripSpaces(IsIdent(s[0]), s[1..], k - 1);
      PrefixCons(s, Strip(Out, IsIdent(s[0]), s[1..]), k);
    }
  }

  lemma PrefixCons(s: string, rest: string, k: nat)
    requires k < |s| && k <= |rest| && rest[..k] == s[1..][..k]
    ensures ([s[0]] + rest)[..k + 1] == s[..k + 1]
  {
    assert ([s[0]] + rest)[..k + 1] == [s[0]] + rest[..k];
    assert s[..k + 1] == [s[0]] + s[1..][..k];
  }

  /** Stripping creates no url( ): where the text had none, the stripped text has none. */
  lemma StripMakesNoUrl(prev: bool, s: string)
    requires s != "" && UrlLen(prev, s) == 0 && !CommentAt(s) && !IsQuote(s[0])
    ensures UrlLen(prev, [s[0]] + Strip(Out, IsIdent(s[0]), s[1..])) == 0
  {
    hide Strip, StartsUrl, IsIdent, IsSpace;
    var t := [s[0]] + Strip(Out, IsIdent(s[0]), s[1..]);
    if !prev && StartsUrl(t) {
      StripKeepsUrlHead(s);
      QuoteKept(s, t);
    }
  }

  /** The quote that keeps "url(" from being a token is still found after the white space. */
  lemma QuoteKept(s: string, t: string)
    requires StartsUrl(s) && t == s[..4] + Strip(Out, IsIdent(s[3]), s[4..])
    requires SkipSpace(s, 4) < |s| && IsQuote(s[SkipSpace(s, 4)])
    ensures SkipSpace(t, 4) == SkipSpace(s, 4) < |t| && t[SkipSpace(t, 4)] == s[SkipSpace(s, 4)]
  {
    hide Strip, StartsUrl, IsIdent, IsSpace;
    var t4 := Strip(Out, IsIdent(s[3]), s[4..]);
    var k := SkipSpace(s, 4);
    SkipSpaceFacts(s, 4);
    StripSpaces(IsIdent(s[3]), s[4..], k - 4);
    assert t4[..k - 3] == s[4..][..k - 3];
    forall i | 4 <= i <= k
      ensures t[i] == s[i]
    {
      assert t[i] == t4[i - 4] == t4[..k - 3][i - 4];
      assert s[i] == s[4..][..k - 3][i - 4];
    }
    SkipSpaceIs(t, 4, k);
  }

  /** A stripped text that begins with an ordinary character began with it before. */
  lemma PlainHead(prev: bool, s: string)
    requires var t := Strip(Out, prev, s);
      t != "" && !IsQuote(t[0]) && t[0] != ' ' && t[0] != '/' && t[0] != 'u' && t[0] != 'U'
    ensures s != "" && Strip(Out, prev, s) == [s[0]] + Strip(Out, IsIdent(s[0]), s[1..])
  {
    StripHead(Out, prev, s);
    StripPlain(prev, s);
  }

  /** A text whose stripped form begins with "url(" begins with it itself. */
  lemma StripKeepsUrlHead(s: string)
    requires s != "" && StartsUrl([s[0]] + Strip(Out, IsIdent(s[0]), s[1..]))
    ensures StartsUrl(s)
    ensures [s[0]] + Strip(Out, IsIdent(s[0]), s[1..]) == s[..4] + Strip(Out, IsIdent(s[3]), s[4..])
  {
    hide Strip, UrlLen;
    var t := [s[0]] + Strip(Out, IsIdent(s[0]), s[1..]);
    var s1 := s[1..];
    PlainHead(IsIdent(s[0]), s1);
    assert t[1] == s1[0] == s[1];
    var s2 := s1[1..];
    PlainHead(IsIdent(s[1]), s2);
    assert t[2] == s2[0] == s[2];
    var s3 := s2[1..];
    PlainHead(IsIdent(s[2]), s3);
    assert t[3] == s3[0] == s[3];
    assert s3[1..] == s[4..];
    UrlHeadJoined(s[0], s[1], s[2], s[3], Strip(Out, IsIdent(s[3]), s[4..]));
    assert s[..4] == [s[0], s[1], s[2], s[3]];
  }

  lemma UrlHeadJoined(a: char, b: char, c: char, d: char, t: string)
    ensures [a] + ([b] + ([c] + ([d] + t))) == [a, b, c, d] + t
  {}

  /** Copying a step's text and going on differently keeps the step, when what follows
      neither opens a comment nor completes a url( ). */
  lemma NextCopied(m: Mode, prev: bool, s: string, rest: string)
    requires s != "" && !Next(m, prev, s).comment
    requires Next(m, prev, s).len == |s| ==> rest == ""
    requires m == Out && s[0] == '/' && rest != "" ==> rest[0] != '*'
    requires m == Out && UrlLen(prev, s) == 0 && !IsQuote(s[0]) ==> UrlLen(prev, [s[0]] + rest) == 0
    ensures Next(m, prev, s[..Next(m, prev, s).len] + rest) == Next(m, prev, s)
  {
    var st := Next(m, prev, s);
    var t := s[..st.len] + rest;
    if st.len == |s| {
      assert t == s;
    } else if m == Out && !IsQuote(s[0]) {
      if UrlLen(prev, s) == 0 {
        assert t == [s[0]] + rest;
      } else {
        assert t[..st.len] == s[..st.len];
        UrlLocal(prev, s, t, st.len);
      }
    }
  }

  /** What stripping goes on with after a step satisfies those conditions. */
  lemma NextAfterStrip(m: Mode, prev: bool, s: string, rest: string)
    requires s != "" && !Next(m, prev, s).comment
    requires var st := Next(m, prev, s); rest == Strip(st.mode, IsIdent(s[st.len - 1]), s[st.len..])
    ensures Next(m, prev, s[..Next(m, prev, s).len] + rest) == Next(m, prev, s)
  {
    var st := Next(m, prev, s);
    StripHead(st.mode, IsIdent(s[st.len - 1]), s[st.len..]);
    if m == Out && !IsQuote(s[0]) && UrlLen(prev, s) == 0 {
      StripMakesNoUrl(prev, s);
    }
    NextCopied(m, prev, s, rest);
  }

  lemma CommentEnds(s: string, j: nat)
    requires CommentEnd(s, j) < |s| && j <= |s|
    ensures 0 < CommentEnd(s, j) && s[CommentEnd(s, j) - 1] == '/'
    decreases |s| - j
  {
    if j + 1 < |s| && !(s[j] == '*' && s[j + 1] == '/') { CommentEnds(s, j + 1); }
  }

  lemma CommentStep(m: Mode, prev: bool, s: string)
    requires s != "" && Next(m, prev, s).comment
    ensures var st := Next(m, prev, s); m == Out && st.mode == Out && (st.len < |s| ==> s[st.len - 1] == '/')
  {
    if CommentEnd(s, 2) < |s| { CommentEnds(s, 2); }
  }

  lemma SpaceStep(prev: bool, rest: string)
    ensures Next(Out, prev, " " + rest) == Step(1, Out, false)
  {}

  lemma CopyNoComments(m: Mode, prev: bool, s: string, st: Step, rest: string)
    requires s != "" && st == Next(m, prev, s) && !st.comment && Next(m, prev, s[..st.len] + rest) == st
    requires NoComments(st.mode, IsIdent(s[st.len - 1]), rest)
    ensures NoComments(m, prev, s[..st.len] + rest)
  {
    hide Next;
    var t := s[..st.len] + rest;
    assert t[st.len..] == rest && t[st.len - 1] == s[st.len - 1];
  }

  lemma SpaceNoComments(prev: bool, rest: string)
    requires NoComments(Out, false, rest)
    ensures NoComments(Out, prev, " " + rest)
  {
    SpaceStep(prev, rest);
    hide Next;
    assert (" " + rest)[1..] == rest;
  }

  /** The stripped text has no comment left for the scanner to find. */
  lemma {:induction false} StripLeavesNone(m: Mode, prev: bool, s: string)
    ensures NoComments(m, prev, Strip(m, prev, s))
    decreases |s|
  {
    hide Next, NoComments;
    if s == "" {
      EmptyNoComments(m, prev);
    } else {
      var st := Next(m, prev, s);
      var prev' := IsIdent(s[st.len - 1]);
      var rest := Strip(st.mode, prev', s[st.len..]);
      StripLeavesNone(st.mode, prev', s[st.len..]);
      if st.comment {
        CommentStep(m, prev, s);
        if st.len == |s| { EmptyNoComments(Out, false); }
        SpaceNoComments(prev, rest);
      } else {
        NextAfterStrip(m, prev, s, rest);
        CopyNoComments(m, prev, s, st, rest);
      }
    }
  }

  lemma EmptyNoComments(m: Mode, prev: bool)
    ensures NoComments(m, prev, "")
  {}

  lemma {:induction false} StripIdle(m: Mode, prev: bool, s: string)
    requires NoComments(m, prev, s)
    ensures Strip(m, prev, s) == s
    decreases |s|
  {
    hide Next;
    if s != "" {
      var st := Next(m, prev, s);
      StripIdle(st.mode, IsIdent(s[st.len - 1]), s[st.len..]);
      assert Strip(m, prev, s) == s[..st.len] + s[st.len..];
      hide Strip, NoComments;
      assert s == s[..st.len] + s[st.len..];
    }
  }

  /** Stripping twice is stripping once, for every text: unclosed quotes, comments and
      url( ) included. */
  lemma StripIdempotent(css: string)
    ensures Strip(Out, false, Strip(Out, false, css)) == Strip(Out, false, css)
  {
    StripLeavesNone(Out, false, css);
    StripIdle(Out, false, Strip(Out, false, css));
  }

  // -------------------------------------------------------------- declarations in context

  /** p, followed by c, is scanned exactly to its end: no comment, no top-level semicolon
      inside, and the scanner back outside quotes and parentheses at the end. */
  predicate Runs(m: Mode, d: nat, prev: bool, p: string, c: string)
    decreases |p|
  {
    if p == "" then m == Out && d == 0
    else
      var st := Next(m, prev, p + c);
      !st.comment && st.len <= |p| && !SemicolonAt(m, d, p)
      && Runs(st.mode, Depth(m, d, p[0]), IsIdent(p[st.len - 1]), p[st.len..], c)
  }

  /** p is the last declaration: no comment and no top-level semicolon up to its end,
      whatever is left open there. */
  predicate Hangs(m: Mode, d: nat, prev: bool, p: string)
    decreases |p|
  {
    p != "" ==>
      var st := Next(m, prev, p);
      !st.comment && !SemicolonAt(m, d, p)
      && Hangs(st.mode, Depth(m, d, p[0]), IsIdent(p[st.len - 1]), p[st.len..])
  }

  /** What may follow a declaration: nothing, a semicolon, or white space that does not
      lead to a quote. */
  predicate Follows(c: string) {
    c != "" ==>
      && (c[0] == ';' || IsSpace(c[0]))
      && (SkipSpace(c, 0) < |c| ==> !IsQuote(c[SkipSpace(c, 0)]))
  }

  lemma {:induction false} SkipSpaceShift(p: string, c: string, j: nat)
    requires j <= |p| && SkipSpace(p, j) == |p|
    ensures SkipSpace(p + c, j) == |p| + SkipSpace(c, 0)
    decreases |p| - j
  {
    if j < |p| { SkipSpaceShift(p, c, j + 1); } else { SkipSpaceFrom(p, c, 0); }
  }

  lemma {:induction false} SkipSpaceFrom(p: string, c: string, j: nat)
    requires j <= |c|
    ensures SkipSpace(p + c, |p| + j) == |p| + SkipSpace(c, j)
    decreases |c| - j
  {
    if j < |c| && IsSpace(c[j]) { SkipSpaceFrom(p, c, j + 1); }
  }

  /** Whether a url( ) begins does not depend on which admissible text follows. */
  lemma UrlStable(prev: bool, p: string, c: string, c': string)
    requires p != "" && Follows(c) && Follows(c')
    requires UrlLen(prev, p + c) <= |p| && UrlLen(prev, p + c) < |p + c|
    ensures UrlLen(prev, p + c') == UrlLen(prev, p + c)
  {
    var s, t := p + c, p + c';
    if |p| >= 4 {
      hide IsSpace;
      assert StartsUrl(s) == StartsUrl(t) == StartsUrl(p);
      hide StartsUrl;
      if UrlLen(prev, s) > 0 {
        var n := UrlLen(prev, s);
        assert s[..n] == p[..n] == t[..n];
        UrlLocal(prev, s, t, n);
      } else if !prev && StartsUrl(p) {
        var j := SkipSpace(s, 4);
        if SkipSpace(p, 4) == |p| {
          SkipSpaceShift(p, c, 4);
          UrlEndPositive(s, j);
        } else {
          SkipSpaceFacts(p, 4);
          SkipSpaceIs(s, 4, SkipSpace(p, 4));
          SkipSpaceIs(t, 4, SkipSpace(p, 4));
          UrlEndPositive(s, j);
        }
      }
    } else {
      assert !StartsUrl(s) && !StartsUrl(t) by {
        assert c != "" ==> s[|p|] == c[0];
        assert c' != "" ==> t[|p|] == c'[0];
      }
    }
  }

  lemma {:induction false} UrlEndPositive(s: string, j: nat)
    ensures |s| > 0 ==> UrlEnd(s, j) > 0
    decreases |s| - j
  {
    if j < |s| && s[j] != ')' { UrlEndPositive(s, if s[j] == '\\' then j + 2 else j + 1); }
  }

  /** A step that ends inside p and before the end of the text is the same step whatever
      admissible text follows p. */
  lemma NextStable(m: Mode, prev: bool, p: string, c: string, c': string)
    requires p != "" && Follows(c) && Follows(c')
    requires var st := Next(m, prev, p + c); st.len <= |p| && st.len < |p + c| && !st.comment
    ensures Next(m, prev, p + c') == Next(m, prev, p + c)
  {
    var s, t := p + c, p + c';
    assert s[0] == p[0] == t[0];
    if m == Out && !IsQuote(p[0]) {
      assert CommentAt(s) == CommentAt(t) by {
        assert |p| == 1 && c != "" ==> s[1] == c[0];
        assert |p| == 1 && c' != "" ==> t[1] == c'[0];
        assert |p| > 1 ==> s[1] == p[1] == t[1];
      }
      UrlStable(prev, p, c, c');
    }
  }

  lemma {:induction false} RunsElsewhere(m: Mode, d: nat, prev: bool, p: string, c: string, c': string)
    requires Runs(m, d, prev, p, c) && c != "" && Follows(c) && Follows(c')
    ensures Runs(m, d, prev, p, c')
    decreases |p|
  {
    hide Next;
    if p != "" {
      var st := Next(m, prev, p + c);
      NextStable(m, prev, p, c, c');
      RunsElsewhere(st.mode, Depth(m, d, p[0]), IsIdent(p[st.len - 1]), p[st.len..], c, c');
    }
  }

  /** Characters the scanner passes over one by one without changing its state. */
  predicate InertChar(c: char) {
    !IsQuote(c) && c !in {'/', '\\', 'u', 'U', '(', ')', ';'}
  }

  predicate Inert(v: string) { forall i :: 0 <= i < |v| ==> InertChar(v[i]) }

  lemma InertStep(prev: bool, s: string)
    requires s != "" && InertChar(s[0])
    ensures Next(Out, prev, s) == Step(1, Out, false)
  {}

  lemma {:induction false} InertHangs(m: Mode, d: nat, prev: bool, v: string)
    requires Inert(v)
    ensures Hangs(m, d, prev, v)
    decreases |v|
  {
    if v != "" {
      var st := Next(m, prev, v);
      InertHangs(st.mode, Depth(m, d, v[0]), IsIdent(v[st.len - 1]), v[st.len..]);
    }
  }

  /** Leading white space may go. */
  lemma {:induction false} RunsTrimLeft(w: string, p: string, c: string)
    requires AllSpace(w) && Runs(Out, 0, false, w + p, c)
    ensures Runs(Out, 0, false, p, c)
  {
    if w != "" {
      assert (w + p) + c == w + (p + c);
      InertStep(false, (w + p) + c);
      assert (w + p)[1..] == w[1..] + p;
      RunsTrimLeft(w[1..], p, c);
    } else {
      assert w + p == p;
    }
  }

  lemma {:induction false} HangsTrimLeft(w: string, p: string)
    requires AllSpace(w) && Hangs(Out, 0, false, w + p)
    ensures Hangs(Out, 0, false, p)
  {
    if w != "" {
      InertStep(false, w + p);
      assert (w + p)[1..] == w[1..] + p;
      HangsTrimLeft(w[1..], p);
    } else {
      assert w + p == p;
    }
  }

  predicate ModeOk(m: Mode) { m.In? ==> IsQuote(m.quote) }

  /** White space closes nothing: if it runs to the end, everything was closed before it. */
  lemma {:induction false} SpacesClose(m: Mode, d: nat, prev: bool, w: string, c: string)
    requires AllSpace(w) && ModeOk(m) && Runs(m, d, prev, w, c)
    ensures m == Out && d == 0
    decreases |w|
  {
    if w != "" {
      var st := Next(m, prev, w + c);
      if m == Out { InertStep(prev, w + c); }
      SpacesClose(st.mode, Depth(m, d, w[0]), IsIdent(w[st.len - 1]), w[st.len..], c);
    }
  }

  lemma {:induction false} UrlEndCloses(s: string, j: nat)
    requires j <= UrlEnd(s, j) < |s|
    ensures j < UrlEnd(s, j) && s[UrlEnd(s, j) - 1] == ')'
    decreases |s| - j
  {
    if j < |s| && s[j] != ')' {
      var j' := if s[j] == '\\' then j + 2 else j + 1;
      if j' <= |s| { UrlEndMonotone(s, j'); UrlEndCloses(s, j'); }
    }
  }

  lemma {:induction false} UrlEndMonotone(s: string, j: nat)
    requires j <= |s|
    ensures j <= UrlEnd(s, j)
  {}

  /** A step from inside p does not end inside the white space after it. */
  lemma StepEndsBefore(m: Mode, prev: bool, p: string, w: string, c: string)
    requires p != "" && AllSpace(w) && c != "" && ModeOk(m)
    requires var st := Next(m, prev, (p + w) + c); st.len <= |p + w| && !st.comment
    ensures var st := Next(m, prev, (p + w) + c);
      ModeOk(st.mode) && (st.len <= |p| || (st.len == |p| + 1 && st.mode != Out))
  {
    var s := (p + w) + c;
    var st := Next(m, prev, s);
    assert s[0] == p[0];
    if st.len > |p| && m == Out {
      assert s[st.len - 1] == w[st.len - 1 - |p|];
      UrlEndMonotone(s, SkipSpace(s, 4));
      UrlEndCloses(s, SkipSpace(s, 4));
    }
  }

  /** One step of a declaration that runs, seen in the whole text. */
  lemma RunsStep(m: Mode, d: nat, prev: bool, p: string, c: string) returns (st: Step, s: string)
    requires p != "" && Runs(m, d, prev, p, c)
    ensures s == p + c && st == Next(m, prev, s) && st.len <= |p| && !st.comment && !SemicolonAt(m, d, s)
    ensures s[0] == p[0] && s[..st.len] == p[..st.len] && s[st.len - 1] == p[st.len - 1]
    ensures s[st.len..] == p[st.len..] + c
    ensures Runs(st.mode, Depth(m, d, p[0]), IsIdent(p[st.len - 1]), p[st.len..], c)
  {
    s := p + c;
    st := Next(m, prev, s);
  }

  /** Trailing white space may be counted as part of what follows instead. */
  lemma {:induction false} RunsTrimRight(m: Mode, d: nat, prev: bool, p: string, w: string, c: string)
    requires AllSpace(w) && ModeOk(m) && c != "" && Runs(m, d, prev, p + w, c)
    ensures Runs(m, d, prev, p, w + c)
    decreases |p|
  {
    hide Next, IsSpace;
    if p == "" {
      assert p + w == w;
      SpacesClose(m, d, prev, w, c);
    } else {
      hide Runs, AllSpace;
      var st, s := RunsStep(m, d, prev, p + w, c);
      StepEndsBefore(m, prev, p, w, c);
      var d', prev' := Depth(m, d, p[0]), IsIdent((p + w)[st.len - 1]);
      if st.len <= |p| {
        TrimmedTail(p, w, c, st.len);
        RunsTrimRight(st.mode, d', prev', p[st.len..], w, c);
        RunsCons(m, d, prev, s, st, p[st.len..], w + c);
      } else {
        SpaceTail(p, w, st.len);
        SpacesClose(st.mode, d', prev', (p + w)[st.len..], c);
      }
    }
  }

  lemma TrimmedTail(p: string, w: string, c: string, n: nat)
    requires 0 < n <= |p|
    ensures (p + w)[n..] == p[n..] + w && ((p + w) + c)[n..] == p[n..] + (w + c)
    ensures p == ((p + w) + c)[..n] + p[n..]
  {}

  lemma SpaceTail(p: string, w: string, n: nat)
    requires AllSpace(w) && |p| <= n <= |p + w|
    ensures AllSpace((p + w)[n..])
  {
    hide IsSpace;
    assert (p + w)[n..] == w[n - |p|..];
  }

  lemma {:induction false} InertRuns(prev: bool, v: string, c: string)
    requires Inert(v)
    ensures Runs(Out, 0, prev, v, c)
    decreases |v|
  {
    if v != "" {
      InertStep(prev, v + c);
      InertRuns(IsIdent(v[0]), v[1..], c);
    }
  }

  /** An inert tail may be counted as part of the declaration. */
  lemma {:induction false} RunsAppend(m: Mode, d: nat, prev: bool, p: string, v: string, c: string)
    requires Inert(v) && Runs(m, d, prev, p, v + c)
    ensures Runs(m, d, prev, p + v, c)
    decreases |p|
  {
    hide Next;
    if p == "" {
      assert p + v == v;
      InertRuns(prev, v, c);
    } else {
      hide Runs, Inert;
      var st, s := RunsStep(m, d, prev, p, v + c);
      RunsAppend(st.mode, Depth(m, d, p[0]), IsIdent(p[st.len - 1]), p[st.len..], v, c);
      AppendedTail(p, v, c, st.len);
      RunsCons(m, d, prev, s, st, p[st.len..] + v, c);
    }
  }

  lemma AppendedTail(p: string, v: string, c: string, n: nat)
    requires 0 < n <= |p|
    ensures (p + (v + c))[n..] == (p[n..] + v) + c && (p + (v + c))[..n] + (p[n..] + v) == p + v
  {}

  lemma {:induction false} RunsHangs(m: Mode, d: nat, prev: bool, p: string)
    requires Runs(m, d, prev, p, "")
    ensures Hangs(m, d, prev, p)
    decreases |p|
  {
    hide Next;
    if p != "" {
      assert p + "" == p;
      var st := Next(m, prev, p);
      RunsHangs(st.mode, Depth(m, d, p[0]), IsIdent(p[st.len - 1]), p[st.len..]);
    }
  }

  /** The tails a last declaration can lose or gain: white space, the added marker. */
  predicate Tail(v: string) {
    Inert(v) && Follows(v)
  }

  lemma TailNoComment(m: Mode, prev: bool, p: string, w: string, v: string)
    requires p != "" && Tail(w) && Tail(v) && !Next(m, prev, p + w).comment
    ensures !Next(m, prev, p + v).comment
  {
    hide UrlLen;
    var s, t := p + w, p + v;
    assert |p| == 1 && w != "" ==> s[1] == w[0];
    assert |p| == 1 && v != "" ==> t[1] == v[0];
    assert |p| > 1 ==> s[1] == p[1] == t[1];
  }

  lemma HangsStep(m: Mode, d: nat, prev: bool, p: string) returns (st: Step)
    requires p != "" && Hangs(m, d, prev, p)
    ensures st == Next(m, prev, p) && !st.comment && !SemicolonAt(m, d, p)
    ensures Hangs(st.mode, Depth(m, d, p[0]), IsIdent(p[st.len - 1]), p[st.len..])
  {
    hide Next;
    st := Next(m, prev, p);
  }

  lemma HangsCons(m: Mode, d: nat, prev: bool, s: string, st: Step)
    requires s != "" && st == Next(m, prev, s) && !st.comment && !SemicolonAt(m, d, s)
    requires Hangs(st.mode, Depth(m, d, s[0]), IsIdent(s[st.len - 1]), s[st.len..])
    ensures Hangs(m, d, prev, s)
  {
    hide Next;
  }

  /** An open last declaration stays open and whole when its tail is replaced. */
  lemma {:induction false} HangsTail(m: Mode, d: nat, prev: bool, p: string, w: string, v: string)
    requires Tail(w) && Tail(v) && Hangs(m, d, prev, p + w)
    ensures Hangs(m, d, prev, p + v)
    decreases |p|
  {
    hide Next, Hangs, Follows;
    if p == "" {
      assert p + v == v;
      InertHangs(m, d, prev, v);
    } else {
      var s, t := p + w, p + v;
      assert s[0] == p[0] == t[0];
      var was := HangsStep(m, d, prev, s);
      var st := Next(m, prev, t);
      TailNoComment(m, prev, p, w, v);
      if st.len >= |p| {
        assert t[st.len..] == v[st.len - |p|..];
        InertHangs(st.mode, Depth(m, d, p[0]), IsIdent(t[st.len - 1]), t[st.len..]);
      } else {
        NextStable(m, prev, p, v, w);
        assert s[st.len..] == p[st.len..] + w && t[st.len..] == p[st.len..] + v;
        assert s[st.len - 1] == p[st.len - 1] == t[st.len - 1];
        HangsTail(st.mode, Depth(m, d, p[0]), IsIdent(p[st.len - 1]), p[st.len..], w, v);
      }
      HangsCons(m, d, prev, t, st);
    }
  }

  // -------------------------------------------------------------- splitting and joining

  /** One unfolding of the splitter, away from a cut. */
  lemma SplitStep(cur: string, m: Mode, d: nat, prev: bool, s: string, st: Step)
    requires s != "" && !SemicolonAt(m, d, s) && st == Next(m, prev, s) && !st.comment
    ensures Split(cur, m, d, prev, s) ==
      Split(cur + s[..st.len], st.mode, Depth(m, d, s[0]), IsIdent(s[st.len - 1]), s[st.len..])
  {
    hide Next, NextPlain;
    PlainStep(m, prev, s);
  }

  lemma PlainStep(m: Mode, prev: bool, s: string)
    requires s != "" && !Next(m, prev, s).comment
    ensures NextPlain(m, prev, s) == Next(m, prev, s)
  {
    hide UrlLen;
  }

  lemma SplitEnd(cur: string, m: Mode, d: nat, prev: bool)
    ensures Split(cur, m, d, prev, "") == [cur]
  {}

  lemma CutHere(cur: string, prev: bool, c: string)
    requires c != "" && c[0] == ';'
    ensures Split(cur, Out, 0, prev, c) == [cur] + Split("", Out, 0, false, c[1..])
  {}

  lemma {:induction false} RunsSplit(cur: string, m: Mode, d: nat, prev: bool, p: string, c: string)
    requires Runs(m, d, prev, p, c) && c != "" && c[0] == ';'
    ensures Split(cur, m, d, prev, p + c) == [cur + p] + Split("", Out, 0, false, c[1..])
    decreases |p|
  {
    hide Next, Split;
    if p == "" {
      assert p + c == c && cur + p == cur;
      CutHere(cur, prev, c);
    } else {
      hide Runs;
      var st, s := RunsStep(m, d, prev, p, c);
      SplitStep(cur, m, d, prev, s, st);
      RunsSplit(cur + p[..st.len], st.mode, Depth(m, d, p[0]), IsIdent(p[st.len - 1]), p[st.len..], c);
      assert (cur + p[..st.len]) + p[st.len..] == cur + p;
    }
  }

  lemma NoCommentsCons(m: Mode, prev: bool, s: string, st: Step)
    requires s != "" && st == Next(m, prev, s) && !st.comment
    requires NoComments(st.mode, IsIdent(s[st.len - 1]), s[st.len..])
    ensures NoComments(m, prev, s)
  {
    hide Next;
  }

  lemma SemicolonNoComments(prev: bool, c: string)
    requires c != "" && c[0] == ';' && NoComments(Out, false, c[1..])
    ensures NoComments(Out, prev, c)
  {
    hide Next;
    InertOrSemicolon(prev, c);
  }

  lemma {:induction false} RunsNoComments(m: Mode, d: nat, prev: bool, p: string, c: string)
    requires Runs(m, d, prev, p, c) && c != "" && c[0] == ';' && NoComments(Out, false, c[1..])
    ensures NoComments(m, prev, p + c)
    decreases |p|
  {
    if p == "" {
      hide Next, NoComments;
      assert p + c == c;
      SemicolonNoComments(prev, c);
    } else {
      hide Next, NoComments, Runs;
      var st, s := RunsStep(m, d, prev, p, c);
      RunsNoComments(st.mode, Depth(m, d, p[0]), IsIdent(p[st.len - 1]), p[st.len..], c);
      NoCommentsCons(m, prev, s, st);
    }
  }

  lemma InertOrSemicolon(prev: bool, s: string)
    requires s != "" && s[0] == ';'
    ensures Next(Out, prev, s) == Step(1, Out, false)
  {}

  lemma {:induction false} HangsSplit(cur: string, m: Mode, d: nat, prev: bool, p: string)
    requires Hangs(m, d, prev, p)
    ensures Split(cur, m, d, prev, p) == [cur + p]
    decreases |p|
  {
    hide Next, Split, Hangs;
    if p == "" {
      assert cur + p == cur;
      SplitEnd(cur, m, d, prev);
    } else {
      var st := HangsStep(m, d, prev, p);
      SplitStep(cur, m, d, prev, p, st);
      HangsSplit(cur + p[..st.len], st.mode, Depth(m, d, p[0]), IsIdent(p[st.len - 1]), p[st.len..]);
      assert (cur + p[..st.len]) + p[st.len..] == cur + p;
    }
  }

  lemma {:induction false} HangsNoComments(m: Mode, d: nat, prev: bool, p: string)
    requires Hangs(m, d, prev, p)
    ensures NoComments(m, prev, p)
    decreases |p|
  {
    hide Next, Hangs;
    if p != "" {
      hide NoComments;
      var st := HangsStep(m, d, prev, p);
      HangsNoComments(st.mode, Depth(m, d, p[0]), IsIdent(p[st.len - 1]), p[st.len..]);
      NoCommentsCons(m, prev, p, st);
    }
  }

  /** Declarations that, joined by semicolons, split again into themselves. */
  predicate Stands(qs: seq<string>) {
    qs != [] ==>
      if |qs| == 1 then Hangs(Out, 0, false, qs[0])
      else Runs(Out, 0, false, qs[0], ";") && Stands(qs[1..])
  }

  lemma SemicolonFollows(tail: string)
    ensures Follows(";" + tail)
  {
    assert SkipSpace(";" + tail, 0) == 0;
  }

  lemma {:induction false} JoinSplits(qs: seq<string>)
    requires Stands(qs) && qs != []
    ensures Split("", Out, 0, false, Join(qs)) == qs && NoComments(Out, false, Join(qs))
  {
    if |qs| == 1 {
      HangsSplit("", Out, 0, false, qs[0]);
      HangsNoComments(Out, 0, false, qs[0]);
      assert "" + qs[0] == qs[0];
    } else {
      JoinSplits(qs[1..]);
      JoinStep(qs[0], Join(qs[1..]), qs[1..]);
      assert Join(qs) == qs[0] + ";" + Join(qs[1..]);
      assert qs == [qs[0]] + qs[1..];
    }
  }

  lemma JoinStep(q: string, tail: string, ts: seq<string>)
    requires Runs(Out, 0, false, q, ";") && NoComments(Out, false, tail) && Split("", Out, 0, false, tail) == ts
    ensures Split("", Out, 0, false, q + ";" + tail) == [q] + ts && NoComments(Out, false, q + ";" + tail)
  {
    hide Split, NoComments, Runs, Next;
    var c := ";" + tail;
    assert q + ";" + tail == q + c && c[1..] == tail;
    SemicolonFollows(tail);
    SemicolonFollows("");
    assert ";" + "" == ";";
    RunsElsewhere(Out, 0, false, q, ";", c);
    RunsSplit("", Out, 0, false, q, c);
    assert "" + q == q;
    RunsNoComments(Out, 0, false, q, c);
  }

  lemma RunsCons(m: Mode, d: nat, prev: bool, s: string, st: Step, p: string, c: string)
    requires s != "" && st == Next(m, prev, s) && !st.comment && !SemicolonAt(m, d, s) && s[st.len..] == p + c
    requires Runs(st.mode, Depth(m, d, s[0]), IsIdent(s[st.len - 1]), p, c)
    ensures Runs(m, d, prev, s[..st.len] + p, c)
  {
    hide Next;
    var q := s[..st.len] + p;
    assert q + c == s && q[st.len..] == p && q[0] == s[0] && q[st.len - 1] == s[st.len - 1];
  }

  lemma StepCons(m: Mode, d: nat, prev: bool, s: string, st: Step, p: string, c: string)
    requires s != "" && st == Next(m, prev, s) && !st.comment && !SemicolonAt(m, d, s) && s[st.len..] == p + c
    requires c == "" ==> Hangs(st.mode, Depth(m, d, s[0]), IsIdent(s[st.len - 1]), p)
    requires c != "" ==> Runs(st.mode, Depth(m, d, s[0]), IsIdent(s[st.len - 1]), p, c)
    ensures s == (s[..st.len] + p) + c
    ensures c == "" ==> Hangs(m, d, prev, s[..st.len] + p)
    ensures c != "" ==> Runs(m, d, prev, s[..st.len] + p, c)
  {
    hide Next;
    assert s == s[..st.len] + s[st.len..];
    if c == "" {
      assert s[..st.len] + p == s && p == s[st.len..];
      HangsCons(m, d, prev, s, st);
    } else {
      RunsCons(m, d, prev, s, st, p, c);
    }
  }

  /** The first declaration of a comment-free text: it runs up to a semicolon, or hangs. */
  lemma {:induction false} FirstDeclaration(m: Mode, d: nat, prev: bool, s: string) returns (p: string, c: string)
    requires NoComments(m, prev, s)
    ensures s == p + c
    ensures c == "" ==> Hangs(m, d, prev, p)
    ensures c != "" ==> c[0] == ';' && Runs(m, d, prev, p, c) && NoComments(Out, false, c[1..])
    decreases |s|
  {
    hide Next;
    if s == "" {
      p, c := "", "";
    } else if SemicolonAt(m, d, s) {
      p, c := "", s;
      assert p + c == s;
      InertOrSemicolon(prev, s);
    } else {
      var st := Next(m, prev, s);
      var p';
      p', c := FirstDeclaration(st.mode, Depth(m, d, s[0]), IsIdent(s[st.len - 1]), s[st.len..]);
      p := s[..st.len] + p';
      StepCons(m, d, prev, s, st, p', c);
    }
  }

  lemma TailFacts()
    ensures Tail(TAIL) && Tail("") && Follows(TAIL + ";") && Follows(";")
  {
    assert SkipSpace(TAIL, 0) == 1 by { SkipSpaceIs(TAIL, 0, 1); }
    assert SkipSpace(TAIL + ";", 0) == 1 by { SkipSpaceIs(TAIL + ";", 0, 1); }
    assert SkipSpace(";", 0) == 0;
  }

  lemma SpacesTail(w: string)
    requires AllSpace(w)
    ensures Tail(w) && Follows(w + ";")
  {
    SkipSpaceIs(w, 0, |w|);
    SkipSpaceIs(w + ";", 0, |w|);
    assert w != "" ==> (w + ";")[0] == w[0];
  }

  lemma SpacesFollow(w: string, c: string)
    requires AllSpace(w) && c != "" && c[0] == ';'
    ensures Follows(w + c)
  {
    SkipSpaceIs(w + c, 0, |w|);
    assert w != "" ==> (w + c)[0] == w[0];
  }

  /** A declaration that ran still runs once trimmed and marked. */
  lemma FinishedRuns(p: string, c: string)
    requires Runs(Out, 0, false, p, c) && c != "" && c[0] == ';'
    ensures Runs(Out, 0, false, Finished(Trim(p)), ";")
  {
    hide Next, Runs, IsSpace, Important, Follows;
    var l, r := TrimSplits(p);
    var d := Trim(p);
    assert p == l + (d + r);
    RunsTrimLeft(l, d + r, c);
    RunsTrimRight(Out, 0, false, d, r, c);
    SpacesFollow(r, c);
    TailFacts();
    if Important(d) {
      RunsElsewhere(Out, 0, false, d, r + c, ";");
    } else {
      RunsElsewhere(Out, 0, false, d, r + c, TAIL + ";");
      RunsAppend(Out, 0, false, d, TAIL, ";");
    }
  }

  lemma FinishedHangs(p: string)
    requires Hangs(Out, 0, false, p)
    ensures Hangs(Out, 0, false, Finished(Trim(p)))
  {
    hide Next, Hangs, IsSpace, Important;
    var l, r := TrimSplits(p);
    var d := Trim(p);
    assert p == l + (d + r);
    HangsTrimLeft(l, d + r);
    SpacesTail(r);
    TailFacts();
    HangsTail(Out, 0, false, d, r, if Important(d) then "" else TAIL);
    assert d + "" == d;
  }

  lemma FinishCons(p: string, ps: seq<string>)
    ensures Finish([p] + ps) == if Trim(p) == "" then Finish(ps) else [Finished(Trim(p))] + Finish(ps)
  {
    assert ([p] + ps)[1..] == ps;
  }

  lemma {:induction false} FinishStands(s: string)
    requires NoComments(Out, false, s)
    ensures Stands(Finish(Split("", Out, 0, false, s)))
    decreases |s|
  {
    var p, c := FirstDeclaration(Out, 0, false, s);
    assert "" + p == p;
    if c == "" {
      assert s == p;
      HangsSplit("", Out, 0, false, p);
      FinishedHangs(p);
      FinishCons(p, []);
      assert [p] + [] == [p];
    } else {
      var ps := Split("", Out, 0, false, c[1..]);
      RunsSplit("", Out, 0, false, p, c);
      FinishStands(c[1..]);
      FinishCons(p, ps);
      FinishedRuns(p, c);
      StandsCons(Finished(Trim(p)), Finish(ps));
    }
  }

  lemma StandsCons(q: string, qs: seq<string>)
    requires Runs(Out, 0, false, q, ";") && Stands(qs)
    ensures Stands([q] + qs)
  {
    TailFacts();
    RunsElsewhere(Out, 0, false, q, ";", "");
    RunsHangs(Out, 0, false, q);
    assert ([q] + qs)[1..] == qs;
  }

  /** A finished declaration is trimmed and marked: finishing it again changes nothing. */
  lemma FinishedTwice(d: string)
    requires Trimmed(d) && d != ""
    ensures var q := Finished(d); q != "" && Trim(q) == q && Important(q)
  {
    var q := Finished(d);
    if !Important(d) {
      assert q[|q| - 9..] == "important";
      assert q[..|q| - 9] == d + " !";
      assert TrimRight(d + " !") == d + " !";
      assert q[0] == d[0];
    }
  }

  lemma {:induction false} FinishTwice(ps: seq<string>)
    ensures Finish(Finish(ps)) == Finish(ps)
  {
    if ps != [] {
      FinishTwice(ps[1..]);
      assert [ps[0]] + ps[1..] == ps;
      FinishCons(ps[0], ps[1..]);
      var l, r := TrimSplits(ps[0]);
      if Trim(ps[0]) != "" {
        FinishedTwice(Trim(ps[0]));
        FinishCons(Finished(Trim(ps[0])), Finish(ps[1..]));
      }
    }
  }

  /** Marking declarations important twice is marking them once, for every text whatever:
      unclosed quotes, parentheses, comments and url( ) included. */
  lemma ImportantIdempotent(css: string)
    ensures ImportantForm(ImportantForm(css)) == ImportantForm(css)
  {
    var z := Strip(Out, false, css);
    StripLeavesNone(Out, false, css);
    var qs := Finish(Split("", Out, 0, false, z));
    FinishStands(z);
    FinishTwice(Split("", Out, 0, false, z));
    if qs != [] {
      JoinSplits(qs);
      StripIdle(Out, false, Join(qs));
    }
  }

  lemma JoinCons(q: string, qs: seq<string>)
    requires qs != []
    ensures Join([q] + qs) == q + ";" + Join(qs)
  {
    assert ([q] + qs)[1..] == qs;
  }

  /** Splitting loses nothing: the pieces joined by semicolons are the text. */
  lemma {:induction false} SplitLossless(cur: string, m: Mode, d: nat, prev: bool, s: string)
    ensures Join(Split(cur, m, d, prev, s)) == cur + s
    decreases |s|
  {
    hide Next, NextPlain;
    if s == "" {
    } else if SemicolonAt(m, d, s) {
      SplitLossless("", Out, 0, false, s[1..]);
      var rest := Split("", Out, 0, false, s[1..]);
      assert Split(cur, m, d, prev, s) == [cur] + rest;
      assert s[0] == ';';
      hide Split, SemicolonAt;
      JoinCons(cur, rest);
      assert cur + ";" + ("" + s[1..]) == cur + s;
    } else {
      var st := NextPlain(m, prev, s);
      SplitLossless(cur + s[..st.len], st.mode, Depth(m, d, s[0]), IsIdent(s[st.len - 1]), s[st.len..]);
      assert Split(cur, m, d, prev, s) ==
        Split(cur + s[..st.len], st.mode, Depth(m, d, s[0]), IsIdent(s[st.len - 1]), s[st.len..]);
      hide Split, Join, SemicolonAt, Depth, IsIdent;
      assert (cur + s[..st.len]) + s[st.len..] == cur + s;
    }
  }

  lemma {:induction false} FinishMarks(ps: seq<string>)
    ensures forall q :: q in Finish(ps) ==> q != "" && Important(q) && exists p :: p in ps && q == Finished(Trim(p))
    ensures forall p :: p in ps && Trim(p) != "" ==> Finished(Trim(p)) in Finish(ps)
  {
    hide Trim, Important;
    if ps != [] {
      hide Finish;
      assert ps == [ps[0]] + ps[1..];
      FinishMarks(ps[1..]);
      FinishCons(ps[0], ps[1..]);
      var l, r := TrimSplits(ps[0]);
      if Trim(ps[0]) != "" { FinishedTwice(Trim(ps[0])); }
    }
  }

  /** The result read back is, declaration by declaration, the non-blank declarations of the
      comment-free text, each marked important and none of them cut or merged. */
  lemma ImportantDeclarations(css: string)
    ensures var ps := Split("", Out, 0, false, Strip(Out, false, css));
      && Join(ps) == Strip(Out, false, css)
      && (Finish(ps) != [] ==> Split("", Out, 0, false, ImportantForm(css)) == Finish(ps))
      && (forall q :: q in Finish(ps) ==> Important(q) && exists p :: p in ps && q == Finished(Trim(p)))
      && (forall p :: p in ps && Trim(p) != "" ==> Finished(Trim(p)) in Finish(ps))
  {
    var z := Strip(Out, false, css);
    var ps := Split("", Out, 0, false, z);
    SplitLossless("", Out, 0, false, z);
    assert "" + z == z;
    FinishMarks(ps);
    StripLeavesNone(Out, false, css);
    FinishStands(z);
    if Finish(ps) != [] { JoinSplits(Finish(ps)); }
  }

  // -------------------------------------------------------------- the loops

  predicate PrevAt(css: string, i: nat)
    requires i <= |css|
  {
    i > 0 && IsIdent(css[i - 1])
  }

  /** scanUnquotedUrl: one past the url( ) token at i, or -1 when none begins there. */
  method ScanUnquotedUrl(css: string, i: nat) returns (end: int)
    requires i < |css|
    ensures var n := UrlLen(PrevAt(css, i), css[i..]); end == if n == 0 then -1 else i + n
  {
    ghost var s := css[i..];
    if PrevAt(css, i) || !StartsUrl(css[i..]) { return -1; }
    var j := i + 4;
    while j < |css| && IsSpace(css[j])
      invariant i + 4 <= j <= |css|
      invariant SkipSpace(s, 4) == SkipSpace(s, j - i)
    {
      assert s[j - i] == css[j];
      j := j + 1;
    }
    assert j < |css| ==> s[j - i] == css[j];
    if j < |css| && IsQuote(css[j]) { return -1; }
    ghost var from := j - i;
    UrlEndMonotone(s, from);
    while j < |css| && css[j] != ')'
      invariant i + 4 <= j <= |css| + 1
      invariant UrlEnd(s, from) == UrlEnd(s, j - i)
      decreases |css| - j
    {
      assert s[j - i] == css[j];
      if css[j] == '\\' { j := j + 1; }
      j := j + 1;
    }
    assert j < |css| ==> s[j - i] == css[j];
    end := if j < |css| then j + 1 else |css|;
  }

  /** One past the comment that opens at i. */
  method CommentClose(css: string, i: nat) returns (end: nat)
    requires i + 2 <= |css|
    ensures end == i + CommentEnd(css[i..], 2)
  {
    ghost var s := css[i..];
    var j := i + 2;
    while j + 1 < |css| && !(css[j] == '*' && css[j + 1] == '/')
      invariant i + 2 <= j <= |css|
      invariant CommentEnd(s, 2) == CommentEnd(s, j - i)
    {
      assert s[j - i] == css[j] && s[j - i + 1] == css[j + 1];
      j := j + 1;
    }
    if j + 1 < |css| {
      assert s[j - i] == css[j] && s[j - i + 1] == css[j + 1];
      return j + 2;
    }
    return |css|;
  }

  /** One turn of a scanning loop: advance i by the step the scanner takes there. */
  method Advance(m: Mode, css: string, i: nat, comments: bool) returns (st: Step)
    requires i < |css|
    ensures st == if comments then Next(m, PrevAt(css, i), css[i..]) else NextPlain(m, PrevAt(css, i), css[i..])
  {
    var c := css[i];
    assert css[i..][0] == c && (i + 1 < |css| ==> css[i..][1] == css[i + 1]);
    if m.In? {
      if c == '\\' { return Step(if i + 1 == |css| then 1 else 2, m, false); }
      return Step(1, if c == m.quote then Out else m, false);
    }
    if IsQuote(c) { return Step(1, In(c), false); }
    if c == '/' && i + 1 < |css| && css[i + 1] == '*' {
      if !comments { return Step(1, Out, false); }
      var end := CommentClose(css, i);
      return Step(end - i, Out, true);
    }
    var end := ScanUnquotedUrl(css, i);
    return Step(if end == -1 then 1 else end - i, Out, false);
  }

  /** stripComments. */
  method StripComments(css: string) returns (out: string)
    ensures out == Strip(Out, false, css)
  {
    hide Next;
    out := "";
    var i, mode := 0, Out;
    while i < |css|
      invariant 0 <= i <= |css|
      invariant out + Strip(mode, PrevAt(css, i), css[i..]) == Strip(Out, false, css)
    {
      var st := Advance(mode, css, i, true);
      StripOn(css, i, mode, st, out);
      out := out + if st.comment then " " else css[i..i + st.len];
      mode, i := st.mode, i + st.len;
    }
    assert css[i..] == "";
  }

  lemma StripOn(css: string, i: nat, m: Mode, st: Step, out: string)
    requires i < |css| && st == Next(m, PrevAt(css, i), css[i..])
    ensures out + Strip(m, PrevAt(css, i), css[i..]) ==
      (out + if st.comment then " " else css[i..i + st.len])
      + Strip(st.mode, PrevAt(css, i + st.len), css[i + st.len..])
  {
    hide Next, Strip;
    var s := css[i..];
    assert s[..st.len] == css[i..i + st.len] && s[st.len..] == css[i + st.len..];
    assert s[st.len - 1] == css[i + st.len - 1];
    StripOnce(m, PrevAt(css, i), s);
    ConcatAssociative(out, if st.comment then " " else s[..st.len],
                      Strip(st.mode, IsIdent(s[st.len - 1]), s[st.len..]));
  }

  lemma StripOnce(m: Mode, prev: bool, s: string)
    requires s != ""
    ensures var st := Next(m, prev, s);
      Strip(m, prev, s) ==
        (if st.comment then " " else s[..st.len]) + Strip(st.mode, IsIdent(s[st.len - 1]), s[st.len..])
  {}

  /** The splitting loop of importantify. */
  method SplitDeclarations(css: string) returns (decls: seq<string>)
    ensures decls == Split("", Out, 0, false, css)
  {
    hide Next, NextPlain, Split;
    decls := [];
    var start, depth, i, mode := 0, 0, 0, Out;
    assert css[0..0] == "" && css[0..] == css;
    while i < |css|
      invariant 0 <= start <= i <= |css|
      invariant decls + Split(css[start..i], mode, depth, PrevAt(css, i), css[i..]) == Split("", Out, 0, false, css)
    {
      if mode == Out && depth == 0 && css[i] == ';' {
        CutAt(css, start, i, decls);
        decls := decls + [css[start..i]];
        start, i := i + 1, i + 1;
      } else {
        var st := Advance(mode, css, i, false);
        SplitOn(css, start, i, mode, depth, st);
        depth := Depth(mode, depth, css[i]);
        mode, i := st.mode, i + st.len;
      }
    }
    assert css[i..] == "" && css[start..i] == css[start..];
    SplitEnd(css[start..], mode, depth, PrevAt(css, i));
    decls := decls + [css[start..]];
  }

  lemma CutAt(css: string, start: nat, i: nat, decls: seq<string>)
    requires start <= i < |css| && css[i] == ';'
    ensures decls + Split(css[start..i], Out, 0, PrevAt(css, i), css[i..]) ==
      (decls + [css[start..i]]) + Split(css[i + 1..i + 1], Out, 0, PrevAt(css, i + 1), css[i + 1..])
  {
    var s := css[i..];
    assert s[0] == ';' && s[1..] == css[i + 1..] && css[i + 1..i + 1] == "" && !PrevAt(css, i + 1);
    var rest := Split("", Out, 0, false, s[1..]);
    assert Split(css[start..i], Out, 0, PrevAt(css, i), s) == [css[start..i]] + rest;
    ConcatAssociative(decls, [css[start..i]], rest);
  }

  lemma SplitOn(css: string, start: nat, i: nat, m: Mode, d: nat, st: Step)
    requires start <= i < |css| && !(m == Out && d == 0 && css[i] == ';')
    requires st == NextPlain(m, PrevAt(css, i), css[i..])
    ensures Split(css[start..i], m, d, PrevAt(css, i), css[i..]) ==
      Split(css[start..i + st.len], st.mode, Depth(m, d, css[i]), PrevAt(css, i + st.len), css[i + st.len..])
  {
    hide Next;
    var s := css[i..];
    assert s[0] == css[i] && s[st.len..] == css[i + st.len..] && s[st.len - 1] == css[i + st.len - 1];
    assert css[start..i] + s[..st.len] == css[start..i + st.len];
  }

  /** importantify. */
  method Importantify(css: string) returns (out: string)
    ensures out == ImportantForm(css)
  {
    var stripped := StripComments(css);
    var decls := SplitDeclarations(stripped);
    return Join(Finish(decls));
  }
}
