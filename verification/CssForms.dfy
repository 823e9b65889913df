/**
 What the comment stripper and the `!important` rewriter (design/console-v2/support.js) make
 of each form a style text is put together from. A text that goes on after the form is left
 open, so the forms compose.
 */
module CssForms {
  import opened Css
  import opened Sequences
  import opened Text

  predicate QuoteMark(c: char) { c == '"' || c == '\'' }

  // -------------------------------------------------------------- comments

  /** No comment ends inside. */
  predicate NoClose(s: string) { forall i :: 0 <= i && i + 1 < |s| ==> !(s[i] == '*' && s[i + 1] == '/') }

  lemma {:induction false} CloseFound(s: string, j: nat, k: nat)
    requires j <= k && k + 1 < |s| && s[k] == '*' && s[k + 1] == '/'
    requires forall i :: j <= i < k ==> !(s[i] == '*' && s[i + 1] == '/')
    ensures CommentEnd(s, j) == k + 2
    decreases k - j
  {
    if j < k { CloseFound(s, j + 1, k); }
  }

  lemma {:induction false} CloseMissing(s: string, j: nat)
    requires forall i :: j <= i && i + 1 < |s| ==> !(s[i] == '*' && s[i + 1] == '/')
    ensures CommentEnd(s, j) == |s|
    decreases |s| - j
  {
    if j + 1 < |s| { CloseMissing(s, j + 1); }
  }

  /** A comment becomes one space, and ends at the first star and slash after its opening. */
  lemma CommentGoes(prev: bool, body: string, rest: string)
    requires NoClose(body)
    ensures Strip(Out, prev, "/*" + body + "*/" + rest) == " " + Strip(Out, false, rest)
  {
    var s := "/*" + body + "*/" + rest;
    var k := 2 + |body|;
    assert s[k] == '*' && s[k + 1] == '/' && s[k + 2..] == rest;
    forall i | 2 <= i < k ensures !(s[i] == '*' && s[i + 1] == '/') {
      assert s[i] == body[i - 2];
      if i + 1 < k { assert s[i + 1] == body[i - 1]; }
    }
    CloseFound(s, 2, k);
  }

  /** One that is never closed takes the rest of the text with it. */
  lemma OpenCommentGoes(prev: bool, body: string)
    requires NoClose(body)
    ensures Strip(Out, prev, "/*" + body) == " "
  {
    var s := "/*" + body;
    forall i | 2 <= i && i + 1 < |s| ensures !(s[i] == '*' && s[i + 1] == '/') {
      assert s[i] == body[i - 2] && s[i + 1] == body[i - 1];
    }
    CloseMissing(s, 2);
    assert s[|s|..] == "" && " " + "" == " ";
  }

  // -------------------------------------------------------------- one step

  lemma StripOne(m: Mode, prev: bool, s: string, n: nat, after: Mode)
    requires s != "" && Next(m, prev, s) == Step(n, after, false)
    ensures Strip(m, prev, s) == s[..n] + Strip(after, IsIdent(s[n - 1]), s[n..])
  {
    hide Next;
  }

  lemma SplitOne(cur: string, m: Mode, d: nat, prev: bool, s: string, n: nat, after: Mode)
    requires s != "" && !SemicolonAt(m, d, s) && Next(m, prev, s) == Step(n, after, false)
    ensures Split(cur, m, d, prev, s) ==
      Split(cur + s[..n], after, Depth(m, d, s[0]), IsIdent(s[n - 1]), s[n..])
  {
    SplitStep(cur, m, d, prev, s, Next(m, prev, s));
  }

  // -------------------------------------------------------------- quoted strings

  /** The inside of a string: no quote of its own but after a backslash. */
  predicate Inside(q: char, body: string) {
    body != "" ==>
      if body[0] == '\\' then |body| >= 2 && Inside(q, body[2..]) else body[0] != q && Inside(q, body[1..])
  }

  function Quote(q: char, body: string): string { [q] + body + [q] }

  lemma {:induction false} InsideKept(q: char, prev: bool, body: string, rest: string)
    requires QuoteMark(q) && Inside(q, body)
    ensures Strip(In(q), prev, body + ([q] + rest)) == body + ([q] + Strip(Out, false, rest))
    decreases |body|
  {
    hide Strip;
    var s := body + ([q] + rest);
    if body == "" {
      StripOne(In(q), prev, s, 1, Out);
      assert s[1..] == rest && s[..1] == [q];
    } else {
      var n := if body[0] == '\\' then 2 else 1;
      StripOne(In(q), prev, s, n, In(q));
      assert s[..n] == body[..n] && s[n..] == body[n..] + ([q] + rest);
      InsideKept(q, IsIdent(s[n - 1]), body[n..], rest);
      assert body == body[..n] + body[n..];
    }
  }

  /** A string is copied, comments and urls in it included. */
  lemma QuotedKept(prev: bool, q: char, body: string, rest: string)
    requires QuoteMark(q) && Inside(q, body)
    ensures Strip(Out, prev, Quote(q, body) + rest) == Quote(q, body) + Strip(Out, false, rest)
  {
    hide Strip, Inside;
    var s := Quote(q, body) + rest;
    assert s[0] == q && s[..1] == [q] && s[1..] == body + ([q] + rest);
    StripOne(Out, prev, s, 1, In(q));
    InsideKept(q, false, body, rest);
    assert [q] + (body + ([q] + Strip(Out, false, rest))) == Quote(q, body) + Strip(Out, false, rest);
  }

  /** So is one that is never closed. */
  lemma {:induction false} OpenInsideKept(q: char, prev: bool, body: string)
    requires Inside(q, body)
    ensures Strip(In(q), prev, body) == body
    decreases |body|
  {
    if body != "" {
      var n := if body[0] == '\\' then 2 else 1;
      OpenInsideKept(q, IsIdent(body[n - 1]), body[n..]);
      assert body == body[..n] + body[n..];
    }
  }

  lemma OpenQuotedKept(prev: bool, q: char, body: string)
    requires QuoteMark(q) && Inside(q, body)
    ensures Strip(Out, prev, [q] + body) == [q] + body
  {
    OpenInsideKept(q, false, body);
    assert ([q] + body)[1..] == body;
  }

  // -------------------------------------------------------------- urls

  /** The inside of a url( ): no closing parenthesis but after a backslash. */
  predicate UrlBody(body: string) {
    body != "" ==>
      if body[0] == '\\' then |body| >= 2 && UrlBody(body[2..]) else body[0] != ')' && UrlBody(body[1..])
  }

  /** "url", however it is capitalised. */
  predicate UrlWord(head: string) {
    head in {"url", "urL", "uRl", "uRL", "Url", "UrL", "URl", "URL"}
  }

  predicate UrlParts(head: string, w: string, body: string) {
    && UrlWord(head) && AllSpace(w) && UrlBody(body)
    && (body != "" ==> !IsSpace(body[0]) && !QuoteMark(body[0]))
  }

  function Url(head: string, w: string, body: string): string { head + "(" + w + body + ")" }

  lemma {:induction false} UrlBodyEnds(s: string, j: nat, body: string, rest: string)
    requires j <= |s| && s[j..] == body + (")" + rest) && UrlBody(body)
    ensures UrlEnd(s, j) == j + |body| + 1
    decreases |body|
  {
    assert s[j] == s[j..][0];
    if body != "" {
      var n := if body[0] == '\\' then 2 else 1;
      assert s[j + n..] == s[j..][n..] == body[n..] + (")" + rest);
      UrlBodyEnds(s, j + n, body[n..], rest);
    }
  }

  /** A url( ) token runs to its closing parenthesis. */
  lemma UrlRuns(head: string, w: string, body: string, rest: string)
    requires UrlParts(head, w, body)
    ensures UrlLen(false, Url(head, w, body) + rest) == |Url(head, w, body)|
  {
    var s := Url(head, w, body) + rest;
    var j := 4 + |w|;
    assert s[..3] == head && s[3] == '(' && s[j..] == body + (")" + rest);
    assert s[0] == head[0] && s[1] == head[1] && s[2] == head[2];
    forall i | 4 <= i < j ensures IsSpace(s[i]) { assert s[i] == w[i - 4]; }
    assert s[j] == s[j..][0];
    SkipSpaceIs(s, 4, j);
    UrlBodyEnds(s, j, body, rest);
  }

  lemma UrlNext(head: string, w: string, body: string, rest: string)
    requires UrlParts(head, w, body)
    ensures var s := Url(head, w, body) + rest;
      && Next(Out, false, s) == Step(|Url(head, w, body)|, Out, false) && !CommentAt(s)
      && s[0] in {'u', 'U'} && s[..|Url(head, w, body)|] == Url(head, w, body)
      && s[|Url(head, w, body)|..] == rest && s[|Url(head, w, body)| - 1] == ')'
  {
    UrlRuns(head, w, body, rest);
    var s := Url(head, w, body) + rest;
    assert s[0] == head[0];
  }

  /** A url( ) is copied, comments and quotes in it included, unless a name runs into it. */
  lemma UrlKept(head: string, w: string, body: string, rest: string)
    requires UrlParts(head, w, body)
    ensures Strip(Out, false, Url(head, w, body) + rest) == Url(head, w, body) + Strip(Out, false, rest)
  {
    hide Next, Url, UrlParts, CommentAt;
    UrlNext(head, w, body, rest);
  }

  // -------------------------------------------------------------- other characters

  /** A character of a name: in front of "url(" it keeps it from being a url. */
  predicate NameChar(c: char) {
    'a' <= c <= 'z' || 'A' <= c <= 'Z' || '0' <= c <= '9' || c in {'_', '-'}
  }

  predicate RestOfUrl(rest: string) {
    |rest| >= 3 && rest[0] in {'r', 'R'} && rest[1] in {'l', 'L'} && rest[2] == '('
  }

  /** Anything else is copied, and what matters about it is whether it is part of a name. */
  lemma PlainKept(prev: bool, c: char, rest: string)
    requires !QuoteMark(c) && (c == '/' && rest != "" ==> rest[0] != '*')
    requires c in {'u', 'U'} ==> prev || !RestOfUrl(rest)
    ensures Strip(Out, prev, [c] + rest) == [c] + Strip(Out, NameChar(c), rest)
  {
    assert ([c] + rest)[1..] == rest;
  }

  /** A string in parentheses after "url" is a string, and not a url. */
  lemma QuotedUrlKept(q: char, body: string, rest: string)
    requires QuoteMark(q) && Inside(q, body)
    ensures Strip(Out, false, "url(" + Quote(q, body) + rest) == "url(" + Quote(q, body) + Strip(Out, false, rest)
  {
    hide Strip, Inside, Quote;
    var t := Quote(q, body) + rest;
    var s := "url(" + t;
    assert s == "url(" + Quote(q, body) + rest && s[4..] == t;
    QuoteOpens(q, body);
    SkipSpaceIs(s, 4, 4);
    StripOne(Out, false, s, 1, Out);
    FourPlain(s);
    QuotedKept(false, q, body, rest);
    assert s[..1] == "u";
  }

  lemma QuoteOpens(q: char, body: string)
    ensures Quote(q, body) != "" && Quote(q, body)[0] == q
  {}

  lemma FourPlain(s: string)
    requires |s| > 3 && s[0] == 'u' && s[1] == 'r' && s[2] == 'l' && s[3] == '('
    ensures "u" + Strip(Out, true, s[1..]) == "url(" + Strip(Out, false, s[4..])
  {
    var a, b, c := s[1..], s[2..], s[3..];
    assert a[1..] == b && b[1..] == c && c[1..] == s[4..];
    StripPlain(true, a); StripPlain(true, b); StripPlain(true, c);
    hide *;
    FourChars(Strip(Out, false, s[4..]));
  }

  lemma FourChars(t: string)
    ensures "u" + (['r'] + (['l'] + (['('] + t))) == "url(" + t
  {}

  // -------------------------------------------------------------- splitting

  lemma {:induction false} InsideRuns(cur: string, d: nat, q: char, prev: bool, body: string, rest: string)
    requires QuoteMark(q) && Inside(q, body)
    ensures Split(cur, In(q), d, prev, body + ([q] + rest)) == Split(cur + (body + [q]), Out, d, false, rest)
    decreases |body|
  {
    hide Split;
    var s := body + ([q] + rest);
    if body == "" {
      SplitOne(cur, In(q), d, prev, s, 1, Out);
      assert s[1..] == rest && s[..1] == [q] && "" + [q] == [q];
    } else {
      var n := if body[0] == '\\' then 2 else 1;
      SplitOne(cur, In(q), d, prev, s, n, In(q));
      assert s[..n] == body[..n] && s[n..] == body[n..] + ([q] + rest);
      InsideRuns(cur + body[..n], d, q, IsIdent(s[n - 1]), body[n..], rest);
      assert body == body[..n] + body[n..];
      assert cur + body[..n] + (body[n..] + [q]) == cur + (body + [q]);
    }
  }

  /** Nothing in a string ends a declaration or counts as a parenthesis. */
  lemma QuotedHolds(cur: string, d: nat, prev: bool, q: char, body: string, rest: string)
    requires QuoteMark(q) && Inside(q, body)
    ensures Split(cur, Out, d, prev, Quote(q, body) + rest) == Split(cur + Quote(q, body), Out, d, false, rest)
  {
    hide Split, Inside;
    var s := Quote(q, body) + rest;
    assert s[0] == q && s[..1] == [q] && s[1..] == body + ([q] + rest);
    SplitOne(cur, Out, d, prev, s, 1, In(q));
    InsideRuns(cur + [q], d, q, false, body, rest);
    assert cur + [q] + (body + [q]) == cur + Quote(q, body);
  }

  /** Nor does anything in a url( ). */
  lemma UrlHolds(cur: string, d: nat, head: string, w: string, body: string, rest: string)
    requires UrlParts(head, w, body)
    ensures Split(cur, Out, d, false, Url(head, w, body) + rest) == Split(cur + Url(head, w, body), Out, d, false, rest)
  {
    hide Next, Url, UrlParts, CommentAt;
    UrlNext(head, w, body, rest);
  }

  /** A semicolon parts declarations outside parentheses, and only there. */
  lemma SemicolonParts(cur: string, d: nat, prev: bool, rest: string)
    ensures Split(cur, Out, d, prev, ";" + rest) ==
      if d == 0 then [cur] + Split("", Out, 0, false, rest) else Split(cur + ";", Out, d, false, rest)
  {
    var s := ";" + rest;
    assert s[1..] == rest && s[..1] == ";";
    if d == 0 { CutHere(cur, prev, s); } else { SplitOne(cur, Out, d, prev, s, 1, Out); }
  }

  /** Parentheses nest; a closing one too many does not count. */
  lemma ParenthesesNest(cur: string, d: nat, prev: bool, rest: string)
    ensures Split(cur, Out, d, prev, "(" + rest) == Split(cur + "(", Out, d + 1, false, rest)
    ensures Split(cur, Out, d, prev, ")" + rest) == Split(cur + ")", Out, if d == 0 then 0 else d - 1, false, rest)
  {
    var open, close := "(" + rest, ")" + rest;
    assert open[1..] == rest && close[1..] == rest && open[..1] == "(" && close[..1] == ")";
    SplitOne(cur, Out, d, prev, open, 1, Out);
    SplitOne(cur, Out, d, prev, close, 1, Out);
    hide Split;
  }

  /** Any other character belongs to its declaration. */
  lemma PlainHolds(cur: string, d: nat, prev: bool, c: char, rest: string)
    requires !QuoteMark(c) && c !in {';', '(', ')'}
    requires c in {'u', 'U'} ==> prev || !RestOfUrl(rest)
    ensures Split(cur, Out, d, prev, [c] + rest) == Split(cur + [c], Out, d, NameChar(c), rest)
  {
    assert ([c] + rest)[1..] == rest && ([c] + rest)[..1] == [c];
  }

  // -------------------------------------------------------------- marking

  /** The word, in any capitals. */
  predicate ImportantWord(w: string) {
    |w| == 9 && forall i :: 0 <= i < 9 ==> w[i] == "important"[i] || w[i] == "IMPORTANT"[i]
  }

  predicate Ends(d: string, head: string, w: string, word: string) {
    d == head + "!" + w + word && AllSpace(w) && ImportantWord(word)
  }

  /** A declaration is left alone exactly when it ends in an exclamation mark and the word, and
      else the mark is added. */
  lemma MarkedExactly(d: string)
    ensures Finished(d) == (if exists head, w, word :: Ends(d, head, w, word) then d else d + " !important")
  {
    if Important(d) { var head, w, word := MarkEnds(d); }
    if head, w, word :| Ends(d, head, w, word) {
      EndsMark(d, head, w, word);
      assert |d + " !important"| == |d| + 11;
    }
  }

  lemma MarkEnds(d: string) returns (head: string, w: string, word: string)
    requires Important(d)
    ensures Ends(d, head, w, word)
  {
    var rest := d[..|d| - 9];
    word := d[|d| - 9..];
    forall i | 0 <= i < 9 ensures word[i] == "important"[i] || word[i] == "IMPORTANT"[i] { OneLetter(word, i); }
    w := TrimRightSplits(rest);
    head := TrimRight(rest)[..|TrimRight(rest)| - 1];
    assert TrimRight(rest) == head + "!";
    assert d == rest + word;
  }

  lemma EndsMark(d: string, head: string, w: string, word: string)
    requires Ends(d, head, w, word)
    ensures Important(d)
  {
    assert d[|d| - 9..] == word && d[..|d| - 9] == head + "!" + w;
    forall i | 0 <= i < 9 ensures Lower(word[i]) == "important"[i] { OneLetter(word, i); }
    TrimsTo(head + "!", w);
  }

  lemma OneLetter(w: string, i: nat)
    requires |w| == 9 && i < 9
    ensures Lower(w[i]) == "important"[i] <==> w[i] == "important"[i] || w[i] == "IMPORTANT"[i]
  {}

  lemma {:induction false} TrimsTo(s: string, w: string)
    requires AllSpace(w) && s != "" && !IsSpace(s[|s| - 1])
    ensures TrimRight(s + w) == s
    decreases |w|
  {
    if w == "" {
      assert s + w == s;
    } else {
      assert (s + w)[..|s + w| - 1] == s + w[..|w| - 1];
      TrimsTo(s, w[..|w| - 1]);
    }
  }

  /** Declarations are trimmed, dropped when nothing is left, and marked, in order. */
  lemma {:induction false} FinishedInOrder(a: seq<string>, b: seq<string>)
    ensures Finish(a + b) == Finish(a) + Finish(b)
  {
    if a == [] {
      assert a + b == b;
    } else {
      FinishedInOrder(a[1..], b);
      assert (a + b)[1..] == a[1..] + b && (a + b)[0] == a[0];
      var first := if Trim(a[0]) == "" then [] else [Finished(Trim(a[0]))];
      assert Finish(a + b) == first + Finish(a[1..] + b) && Finish(a) == first + Finish(a[1..]);
      hide *;
      ConcatAssociative(first, Finish(a[1..]), Finish(b));
    }
  }

  lemma FinishedAlone(l: string, d: string, r: string)
    requires AllSpace(l) && AllSpace(r) && Trimmed(d)
    ensures Finish([l + d + r]) == if d == "" then [] else [Finished(d)]
  {
    assert [l + d + r][1..] == [];
    if d == "" {
      BlankIsAllSpace(l + d + r);
      BlankTrims(l + d + r);
    } else {
      TrimPadded(l, d, r);
    }
  }

  predicate TrimmedAll(ds: seq<string>) { forall i :: 0 <= i < |ds| ==> ds[i] != "" && Trimmed(ds[i]) }

  function Marked(ds: seq<string>): seq<string> {
    seq(|ds|, i requires 0 <= i < |ds| => Finished(ds[i]))
  }

  lemma {:induction false} FinishMarksEach(ds: seq<string>)
    requires TrimmedAll(ds)
    ensures Finish(ds) == Marked(ds)
  {
    if ds != [] {
      FinishMarksEach(ds[1..]);
      TrimIdle(ds[0]);
      assert Marked(ds) == [Finished(ds[0])] + Marked(ds[1..]);
    }
  }

  /** The whole rewriter, on declarations that stand on their own: each is marked, in its place. */
  lemma EachMarked(ds: seq<string>)
    requires ds != [] && Stands(ds) && TrimmedAll(ds)
    ensures ImportantForm(Join(ds)) == Join(Marked(ds))
  {
    JoinSplits(ds);
    StripIdle(Out, false, Join(ds));
    FinishMarksEach(ds);
  }
}
