/**
 The template expression evaluator of the console runtime, which works on the text of
 the expression itself (design/console-v2/support.js).
 */
module ExprEval {
  import opened Decimal
  import opened Options
  import opened Text

  /** The JavaScript values and primitives the evaluator is written over. */
  datatype Host<!V> = Host(
    undef: V, nul: V, boolean: bool -> V, number: string -> V, str: string -> V,
    index: (V, V) -> V, nullish: V -> bool, truthy: V -> bool,
    strictEq: (V, V) -> bool, looseEq: (V, V) -> bool)

  // -------------------------------------------------------------- characters and nesting

  predicate IsLetter(c: char) { 'a' <= c <= 'z' || 'A' <= c <= 'Z' || c == '_' || c == '$' }

  function IdentTail(s: string): (n: nat)
    ensures n <= |s|
  {
    if s != "" && (IsLetter(s[0]) || IsDigit(s[0])) then 1 + IdentTail(s[1..]) else 0
  }

  /** Length of the identifier s begins with, 0 when it begins with none. */
  function IdentLen(s: string): (n: nat)
    ensures n <= |s|
  {
    if s != "" && IsLetter(s[0]) then 1 + IdentTail(s[1..]) else 0
  }

  /** A member name: an identifier, or an index in decimal. */
  function NameLen(s: string): (n: nat)
    ensures n <= |s|
  {
    if IdentLen(s) > 0 then IdentLen(s) else DigitsLen(s)
  }

  /** Digits, optionally signed, optionally followed by a point and more digits. */
  predicate IsNumber(s: string) {
    var t := if s != "" && s[0] == '-' then s[1..] else s;
    var n := DigitsLen(t);
    n > 0 && (n == |t| || (t[n] == '.' && DigitsLen(t[n + 1..]) > 0 && n + 1 + DigitsLen(t[n + 1..]) == |t|))
  }

  datatype Kind = Round | Square | Both

  function Delta(k: Kind, c: char): int {
    if (c == '(' && k != Square) || (c == '[' && k != Round) then 1
    else if (c == ')' && k != Square) || (c == ']' && k != Round) then -1
    else 0
  }

  /** Openings minus closings. It goes negative on a stray closing, as the source's counter does. */
  function Net(k: Kind, s: string): int {
    if s == "" then 0 else Net(k, s[..|s| - 1]) + Delta(k, s[|s| - 1])
  }

  // -------------------------------------------------------------- the source's helpers, as values

  /** The outer parentheses belong together: none closes back to depth 0 before the last character. */
  predicate WrapWhole(expr: string) {
    forall i :: 0 <= i < |expr| - 1 ==> !(expr[i] == ')' && Net(Round, expr[..i + 1]) == 0)
  }

  /** An equality operator is found at i. */
  predicate EqualityAt(expr: string, i: nat) {
    && i + 1 < |expr| && (expr[i] == '=' || expr[i] == '!') && expr[i + 1] == '='
    && Net(Both, expr[..i]) == 0
    && (i > 0 ==> expr[i - 1] != '=' && expr[i - 1] != '!')
    && Trim(expr[..i]) != ""
  }

  /** The first place from i on where an equality operator is found. */
  function FindEquality(expr: string, i: nat): (r: Option<nat>)
    ensures r.Some? ==> i <= r.value && EqualityAt(expr, r.value)
    decreases |expr| - i
  {
    if i >= |expr| then None
    else if EqualityAt(expr, i) then Some(i)
    else FindEquality(expr, i + 1)
  }

  datatype EqOp = StrictEq | StrictNe | LooseEq | LooseNe

  function OpAt(expr: string, i: nat): EqOp
    requires EqualityAt(expr, i)
  {
    var three := i + 2 < |expr| && expr[i + 2] == '=';
    if expr[i] == '=' then (if three then StrictEq else LooseEq) else (if three then StrictNe else LooseNe)
  }

  function OpText(op: EqOp): string {
    match op
    case StrictEq => "==="
    case StrictNe => "!=="
    case LooseEq => "=="
    case LooseNe => "!="
  }

  function Compare<V>(h: Host<V>, op: EqOp, l: V, r: V): V {
    match op
    case StrictEq => h.boolean(h.strictEq(l, r))
    case StrictNe => h.boolean(!h.strictEq(l, r))
    case LooseEq => h.boolean(h.looseEq(l, r))
    case LooseNe => h.boolean(!h.looseEq(l, r))
  }

  /** The bracket that closes one opened before j, `depth` deep. */
  function CloseBracket(expr: string, j: nat, depth: nat): (r: Option<nat>)
    ensures r.Some? ==> j <= r.value < |expr|
    decreases |expr| - j
  {
    if j >= |expr| || depth == 0 then None
    else if expr[j] == '[' then CloseBracket(expr, j + 1, depth + 1)
    else if expr[j] == ']' then (if depth == 1 then Some(j) else CloseBracket(expr, j + 1, depth - 1))
    else CloseBracket(expr, j + 1, depth)
  }

  function Member<V>(h: Host<V>, cur: V, key: V): V {
    if h.nullish(cur) then h.undef else h.index(cur, key)
  }

  predicate IsString(expr: string) {
    |expr| >= 2 && (expr[0] == '"' || expr[0] == '\'') && expr[|expr| - 1] == expr[0]
  }

  // -------------------------------------------------------------- the evaluator

  lemma {:induction false} TrimShorter(s: string)
    ensures |Trim(s)| <= |s|
  {
    var l, r := TrimSplits(s);
    assert |s| == |l| + |Trim(s)| + |r|;
  }

  /** resolve, on any string whatever; its recursion is on strictly shorter text. */
  function Resolve<V>(h: Host<V>, vals: V, src: string): V
    decreases |src|, 2, 0
  {
    TrimShorter(src);
    var expr := Trim(src);
    if expr == "" then h.undef else Evaluate(h, vals, expr)
  }

  function Evaluate<V>(h: Host<V>, vals: V, expr: string): V
    requires expr != ""
    decreases |expr|, 1, 0
  {
    if expr[0] == '(' && expr[|expr| - 1] == ')' && WrapWhole(expr) then
      Resolve(h, vals, expr[1..|expr| - 1])
    else
      var eq := FindEquality(expr, 0);
      if eq.Some? then
        var i, op := eq.value, OpAt(expr, eq.value);
        Compare(h, op, Resolve(h, vals, expr[..i]), Resolve(h, vals, expr[i + |OpText(op)|..]))
      else if expr[0] == '!' then h.boolean(!h.truthy(Resolve(h, vals, expr[1..])))
      else if expr == "true" then h.boolean(true)
      else if expr == "false" then h.boolean(false)
      else if expr == "null" then h.nul
      else if expr == "undefined" then h.undef
      else if IsNumber(expr) then h.number(expr)
      else if IsString(expr) then h.str(expr[1..|expr| - 1])
      else ResolvePath(h, vals, expr)
  }

  function ResolvePath<V>(h: Host<V>, vals: V, expr: string): V
    decreases |expr|, 0, |expr| + 1
  {
    var n := IdentLen(expr);
    if n == 0 then h.undef
    else Follow(h, vals, Member(h, vals, h.str(expr[..n])), expr, n)
  }

  /** The rest of a path, from position i and the value reached so far. */
  function Follow<V>(h: Host<V>, vals: V, cur: V, expr: string, i: nat): V
    requires i <= |expr|
    decreases |expr|, 0, |expr| - i
  {
    if i == |expr| then cur
    else if expr[i] == '.' then
      var rest := expr[i + 1..];
      var n := NameLen(rest);
      if n == 0 then h.undef
      else Follow(h, vals, Member(h, cur, h.str(rest[..n])), expr, i + 1 + n)
    else if expr[i] == '[' then
      var j := CloseBracket(expr, i + 1, 1);
      if j.None? then h.undef
      else Follow(h, vals, Member(h, cur, Resolve(h, vals, expr[i + 1..j.value])), expr, j.value + 1)
    else h.undef
  }

  // -------------------------------------------------------------- expression trees

  datatype Literal = True | False | Null | Undefined | Number(text: string) | String(quote: char, body: string)

  datatype Accesses =
    | End
    | Dot(name: string, rest: Accesses)
    | At(before: string, key: Tree, after: string, rest: Accesses)

  datatype Tree =
    | Lit(literal: Literal)
    | Path(head: string, accesses: Accesses)
    | Not(gap: string, operand: Tree)
    | Eq(left: Tree, gap1: string, op: EqOp, gap2: string, right: Tree)
    | Paren(before: string, inner: Tree, after: string)

  predicate IsIdentifier(s: string) { s != "" && IdentLen(s) == |s| }

  predicate IsIndex(s: string) { s != "" && DigitsLen(s) == |s| }

  predicate Reserved(s: string) { s == "true" || s == "false" || s == "null" || s == "undefined" }

  /** No prefix has more closings than openings. */
  predicate NonNegative(k: Kind, s: string) {
    s != "" ==> NonNegative(k, s[..|s| - 1]) && Net(k, s) >= 0
  }

  /** Brackets close in order and none is left open. */
  predicate Balanced(k: Kind, s: string) { Net(k, s) == 0 && NonNegative(k, s) }

  predicate Bracketed(s: string) { Balanced(Round, s) && Balanced(Square, s) && Balanced(Both, s) }

  predicate OperatorChar(c: char) { c == '=' || c == '!' }

  /** The last two characters are not an equality operator outside brackets. */
  predicate QuietEnd(s: string) {
    |s| >= 2 && OperatorChar(s[|s| - 2]) && Net(Both, s[..|s| - 2]) == 0 ==> s[|s| - 1] != '='
  }

  /** No equality operator outside brackets. */
  predicate Quiet(s: string) {
    s != "" ==> Quiet(s[..|s| - 1]) && QuietEnd(s)
  }

  predicate ValidLiteral(l: Literal) {
    match l
    case Number(text) => IsNumber(text)
    case String(q, body) =>
      // the splitter looks inside string literals, so a body must not look like an operator to it
      (q == '"' || q == '\'') && Bracketed(body) && Quiet(body)
    case _ => true
  }

  predicate ValidAccesses(a: Accesses) {
    match a
    case End => true
    case Dot(name, rest) => (IsIdentifier(name) || IsIndex(name)) && ValidAccesses(rest)
    case At(before, key, after, rest) => Blank(before) && Blank(after) && Valid(key) && ValidAccesses(rest)
  }

  /** The grammar: comparisons chain to the right, and negation binds tighter. */
  predicate Valid(t: Tree) {
    match t
    case Lit(l) => ValidLiteral(l)
    case Path(head, a) => IsIdentifier(head) && (a == End ==> !Reserved(head)) && ValidAccesses(a)
    case Not(gap, e) => Blank(gap) && Valid(e) && !e.Eq?
    case Eq(l, gap1, _, gap2, r) => Blank(gap1) && Blank(gap2) && Valid(l) && Valid(r) && !l.Eq?
    case Paren(before, e, after) => Blank(before) && Blank(after) && Valid(e)
  }

  function PrintLiteral(l: Literal): string {
    match l
    case True => "true"
    case False => "false"
    case Null => "null"
    case Undefined => "undefined"
    case Number(text) => text
    case String(q, body) => [q] + body + [q]
  }

  function PrintAccesses(a: Accesses): string {
    match a
    case End => ""
    case Dot(name, rest) => "." + name + PrintAccesses(rest)
    case At(before, key, after, rest) => "[" + (before + Print(key) + after) + "]" + PrintAccesses(rest)
  }

  function Print(t: Tree): string {
    match t
    case Lit(l) => PrintLiteral(l)
    case Path(head, a) => head + PrintAccesses(a)
    case Not(gap, e) => "!" + gap + Print(e)
    case Eq(l, gap1, op, gap2, r) => (Print(l) + gap1) + OpText(op) + (gap2 + Print(r))
    case Paren(before, e, after) => "(" + (before + Print(e) + after) + ")"
  }

  function LiteralValue<V>(h: Host<V>, l: Literal): V {
    match l
    case True => h.boolean(true)
    case False => h.boolean(false)
    case Null => h.nul
    case Undefined => h.undef
    case Number(text) => h.number(text)
    case String(_, body) => h.str(body)
  }

  function Reach<V>(h: Host<V>, vals: V, cur: V, a: Accesses): V {
    match a
    case End => cur
    case Dot(name, rest) => Reach(h, vals, Member(h, cur, h.str(name)), rest)
    case At(_, key, _, rest) => Reach(h, vals, Member(h, cur, Meaning(h, vals, key)), rest)
  }

  /** What an expression tree means. */
  function Meaning<V>(h: Host<V>, vals: V, t: Tree): V {
    match t
    case Lit(l) => LiteralValue(h, l)
    case Path(head, a) => Reach(h, vals, Member(h, vals, h.str(head)), a)
    case Not(_, e) => h.boolean(!h.truthy(Meaning(h, vals, e)))
    case Eq(l, _, op, _, r) => Compare(h, op, Meaning(h, vals, l), Meaning(h, vals, r))
    case Paren(_, e, _) => Meaning(h, vals, e)
  }

  // -------------------------------------------------------------- brackets in printed text

  lemma {:induction false} NetConcat(k: Kind, a: string, b: string)
    ensures Net(k, a + b) == Net(k, a) + Net(k, b)
  {
    if b == "" {
      assert a + b == a;
    } else {
      NetConcat(k, a, b[..|b| - 1]);
      assert (a + b)[..|a + b| - 1] == a + b[..|b| - 1];
    }
  }

  /** The nesting of a prefix that reaches into the second part. */
  lemma NetPrefix(k: Kind, a: string, b: string, i: nat)
    requires i <= |a + b|
    ensures i <= |a| ==> Net(k, (a + b)[..i]) == Net(k, a[..i])
    ensures i >= |a| ==> Net(k, (a + b)[..i]) == Net(k, a) + Net(k, b[..i - |a|])
  {
    if i <= |a| { assert (a + b)[..i] == a[..i]; }
    if i >= |a| {
      assert (a + b)[..i] == a + b[..i - |a|];
      NetConcat(k, a, b[..i - |a|]);
    }
  }

  lemma {:induction false} NonNegativeAt(k: Kind, s: string, i: nat)
    requires NonNegative(k, s) && i <= |s|
    ensures Net(k, s[..i]) >= 0
  {
    if i < |s| {
      NonNegativeAt(k, s[..|s| - 1], i);
      assert s[..|s| - 1][..i] == s[..i];
    } else { assert s[..i] == s; }
  }

  lemma {:induction false} NonNegativeFrom(k: Kind, s: string)
    requires forall i :: 0 <= i <= |s| ==> Net(k, s[..i]) >= 0
    ensures NonNegative(k, s)
  {
    if s != "" {
      var t := s[..|s| - 1];
      forall i | 0 <= i <= |t| ensures Net(k, t[..i]) >= 0 { assert t[..i] == s[..i]; }
      NonNegativeFrom(k, t);
      assert s[..|s|] == s;
    }
  }

  lemma {:induction false} QuietAt(s: string, i: nat)
    requires Quiet(s) && i + 1 < |s| && OperatorChar(s[i]) && Net(Both, s[..i]) == 0
    ensures s[i + 1] != '='
  {
    if i + 2 < |s| {
      assert s[..|s| - 1][..i] == s[..i];
      QuietAt(s[..|s| - 1], i);
    }
  }

  lemma {:induction false} QuietFrom(s: string)
    requires forall i :: 0 <= i < |s| - 1 && OperatorChar(s[i]) && Net(Both, s[..i]) == 0 ==> s[i + 1] != '='
    ensures Quiet(s)
  {
    if s != "" {
      var t := s[..|s| - 1];
      forall i | 0 <= i < |t| - 1 && OperatorChar(t[i]) && Net(Both, t[..i]) == 0 ensures t[i + 1] != '=' {
        assert t[..i] == s[..i];
      }
      QuietFrom(t);
    }
  }

  lemma BalancedConcat(k: Kind, a: string, b: string)
    requires Balanced(k, a) && Balanced(k, b)
    ensures Balanced(k, a + b)
  {
    NetConcat(k, a, b);
    forall i | 0 <= i <= |a + b| ensures Net(k, (a + b)[..i]) >= 0 {
      NetPrefix(k, a, b, i);
      if i <= |a| { NonNegativeAt(k, a, i); } else { NonNegativeAt(k, b, i - |a|); }
    }
    NonNegativeFrom(k, a + b);
  }

  /** s between a bracket and its partner. */
  lemma Wrapped(k: Kind, open: char, s: string, close: char, i: nat)
    requires Balanced(k, s) && Delta(k, open) == 1 && Delta(k, close) == -1 && i <= |s| + 2
    ensures Net(k, ([open] + s + [close])[..i]) == if i == 0 || i == |s| + 2 then 0 else 1 + Net(k, s[..i - 1])
  {
    var t := [open] + s + [close];
    if i > 0 {
      var m := if i <= |s| + 1 then i - 1 else |s|;
      assert t[..m + 1] == [open] + s[..m];
      NetConcat(k, [open], s[..m]);
      assert [open][..0] == "";
      if i == |s| + 2 {
        assert t[..i] == t && t[..|t| - 1] == t[..m + 1] && s[..m] == s;
      }
    }
  }

  lemma BalancedWrap(k: Kind, open: char, s: string, close: char)
    requires Balanced(k, s) && Delta(k, open) + Delta(k, close) == 0 && Delta(k, open) >= 0
    ensures Balanced(k, [open] + s + [close])
  {
    var t := [open] + s + [close];
    if Delta(k, open) == 1 {
      forall i | 0 <= i <= |t| ensures Net(k, t[..i]) >= 0 {
        Wrapped(k, open, s, close, i);
        if 0 < i < |t| { NonNegativeAt(k, s, i - 1); }
      }
      NonNegativeFrom(k, t);
      Wrapped(k, open, s, close, |t|);
      assert t[..|t|] == t;
    } else {
      PlainBalanced(k, [open]);
      PlainBalanced(k, [close]);
      BalancedConcat(k, [open], s);
      BalancedConcat(k, [open] + s, [close]);
    }
  }

  /** Text without brackets. */
  predicate Plain(s: string) {
    forall i :: 0 <= i < |s| ==> s[i] !in {'(', ')', '[', ']'}
  }

  lemma {:induction false} PlainNet(k: Kind, s: string)
    requires forall i :: 0 <= i < |s| ==> Delta(k, s[i]) == 0
    ensures Net(k, s) == 0
  {
    if s != "" { PlainNet(k, s[..|s| - 1]); }
  }

  lemma PlainBalanced(k: Kind, s: string)
    requires forall i :: 0 <= i < |s| ==> Delta(k, s[i]) == 0
    ensures Balanced(k, s)
  {
    PlainNet(k, s);
    forall i | 0 <= i <= |s| ensures Net(k, s[..i]) >= 0 { PlainNet(k, s[..i]); }
    NonNegativeFrom(k, s);
  }

  lemma QuietConcat(a: string, b: string)
    requires Balanced(Both, a) && Quiet(a) && Quiet(b)
    requires a != "" && b != "" && b[0] == '=' ==> !OperatorChar(a[|a| - 1])
    ensures Quiet(a + b)
  {
    var t := a + b;
    forall i | 0 <= i < |t| - 1 && OperatorChar(t[i]) && Net(Both, t[..i]) == 0 ensures t[i + 1] != '=' {
      NetPrefix(Both, a, b, i);
      if i + 1 < |a| { QuietAt(a, i); }
      if i >= |a| { QuietAt(b, i - |a|); }
    }
    QuietFrom(t);
  }

  lemma QuietWrap(open: char, s: string, close: char)
    requires Balanced(Both, s) && Delta(Both, open) == 1 && Delta(Both, close) == -1
    ensures Quiet([open] + s + [close])
  {
    var t := [open] + s + [close];
    assert !OperatorChar(t[0]);
    forall i | 0 < i < |t| - 1 ensures Net(Both, t[..i]) > 0 {
      Wrapped(Both, open, s, close, i);
      NonNegativeAt(Both, s, i - 1);
    }
    QuietFrom(t);
  }

  /** What the proofs need of a piece of printed text: brackets close, no operator shows,
      and it neither begins nor ends like part of an operator or with white space. */
  predicate Solid(s: string) {
    Bracketed(s) && Quiet(s)
    && (s != "" ==> s[0] != '=' && !OperatorChar(s[|s| - 1]) && !IsSpace(s[|s| - 1]))
  }

  predicate Safe(c: char) { c !in {'(', ')', '[', ']', '=', '!'} }

  lemma SafeSolid(s: string)
    requires forall i :: 0 <= i < |s| ==> Safe(s[i])
    ensures Bracketed(s) && Quiet(s)
  {
    PlainBalanced(Round, s); PlainBalanced(Square, s); PlainBalanced(Both, s);
    QuietFrom(s);
  }

  lemma BracketedConcat(a: string, b: string)
    requires Bracketed(a) && Bracketed(b)
    ensures Bracketed(a + b)
  {
    BalancedConcat(Round, a, b); BalancedConcat(Square, a, b); BalancedConcat(Both, a, b);
  }

  lemma SolidConcat(a: string, b: string)
    requires Solid(a) && Solid(b)
    ensures Solid(a + b)
  {
    BracketedConcat(a, b);
    QuietConcat(a, b);
  }

  lemma SolidWrap(open: char, s: string, close: char)
    requires Bracketed(s) && ((open == '(' && close == ')') || (open == '[' && close == ']'))
    ensures Solid([open] + s + [close])
  {
    BalancedWrap(Round, open, s, close); BalancedWrap(Square, open, s, close); BalancedWrap(Both, open, s, close);
    QuietWrap(open, s, close);
  }

  lemma {:induction false} IdentChars(s: string)
    ensures forall i :: 0 <= i < IdentTail(s) ==> IsLetter(s[i]) || IsDigit(s[i])
    ensures forall i :: 0 <= i < IdentLen(s) ==> IsLetter(s[i]) || IsDigit(s[i])
  {
    if s != "" { IdentChars(s[1..]); }
  }

  lemma {:induction false} DigitChars(s: string)
    ensures forall i :: 0 <= i < DigitsLen(s) ==> IsDigit(s[i])
  {
    if s != "" { DigitChars(s[1..]); }
  }

  lemma NumberChars(s: string)
    requires IsNumber(s)
    ensures s != "" && (IsDigit(s[0]) || s[0] == '-') && IsDigit(s[|s| - 1])
    ensures forall i :: 0 <= i < |s| ==> IsDigit(s[i]) || s[i] == '-' || s[i] == '.'
  {
    var t := if s[0] == '-' then s[1..] else s;
    var n := DigitsLen(t);
    DigitChars(t);
    if n < |t| { DigitChars(t[n + 1..]); }
  }

  lemma SolidSpaces(w: string)
    requires Blank(w)
    ensures Bracketed(w) && Quiet(w)
    ensures w != "" ==> IsSpace(w[0]) && IsSpace(w[|w| - 1])
  {
    BlankIsAllSpace(w);
    forall i | 0 <= i < |w| ensures Safe(w[i]) { assert IsSpace(w[i]); }
    SafeSolid(w);
  }

  lemma BracketedPadded(l: string, s: string, r: string)
    requires Blank(l) && Blank(r) && Bracketed(s)
    ensures Bracketed(l + s + r)
  {
    SolidSpaces(l); SolidSpaces(r);
    BracketedConcat(l, s); BracketedConcat(l + s, r);
  }

  lemma QuotedShape(q: char, body: string)
    requires (q == '"' || q == '\'') && Bracketed(body) && Quiet(body)
    ensures Solid([q] + body + [q])
  {
    SafeSolid([q]);
    hide Quiet, Balanced;
    BracketedConcat([q], body); BracketedConcat([q] + body, [q]);
    QuietConcat([q], body); QuietConcat([q] + body, [q]);
  }

  lemma LiteralShape(l: Literal)
    requires ValidLiteral(l)
    ensures Solid(PrintLiteral(l)) && Trimmed(PrintLiteral(l)) && PrintLiteral(l) != ""
    ensures PrintLiteral(l)[0] != '(' && PrintLiteral(l)[0] != '!'
  {
    hide Balanced, Quiet, IsNumber;
    match l
    case Number(text) => NumberChars(text); SafeSolid(text);
    case String(q, body) => QuotedShape(q, body);
    case _ => SafeSolid(PrintLiteral(l));
  }

  lemma {:induction false} AccessesShape(a: Accesses)
    requires ValidAccesses(a)
    ensures Solid(PrintAccesses(a))
    ensures PrintAccesses(a) != "" ==> PrintAccesses(a)[0] == '.' || PrintAccesses(a)[0] == '['
  {
    match a
    case End =>
    case Dot(name, rest) =>
      IdentChars(name); DigitChars(name);
      AccessesShape(rest);
      SafeSolid("." + name);
      SolidConcat("." + name, PrintAccesses(rest));
    case At(before, key, after, rest) =>
      Shape(key);
      AccessesShape(rest);
      var inner := before + Print(key) + after;
      BracketedPadded(before, Print(key), after);
      SolidWrap('[', inner, ']');
      SolidConcat("[" + inner + "]", PrintAccesses(rest));
  }

  lemma NegationShape(gap: string, p: string)
    requires Blank(gap) && Solid(p) && p != "" && Trimmed(p) && p[0] != '='
    ensures Solid("!" + gap + p) && Trimmed("!" + gap + p)
  {
    SolidSpaces(gap);
    SafeButBang();
    BracketedConcat("!", gap);
    BracketedConcat("!" + gap, p);
    QuietConcat("!", gap);
    QuietConcat("!" + gap, p);
  }

  lemma ComparisonShape(p: string, gap1: string, op: EqOp, gap2: string, q: string)
    requires Blank(gap1) && Blank(gap2) && Bracketed(p) && Bracketed(q)
    ensures Bracketed((p + gap1) + OpText(op) + (gap2 + q))
  {
    SolidSpaces(gap1); SolidSpaces(gap2);
    BracketedConcat(p, gap1); BracketedConcat(gap2, q);
    OpBracketed(op);
    BracketedConcat(p + gap1, OpText(op)); BracketedConcat((p + gap1) + OpText(op), gap2 + q);
  }

  lemma PathShape(head: string, tail: string)
    requires IsIdentifier(head) && Solid(tail)
    ensures Solid(head + tail) && Trimmed(head + tail) && IsLetter((head + tail)[0])
  {
    IdentChars(head);
    SafeSolid(head);
    SolidConcat(head, tail);
  }

  lemma ParenShape(before: string, p: string, after: string)
    requires Blank(before) && Blank(after) && Bracketed(p)
    ensures Solid("(" + (before + p + after) + ")")
  {
    BracketedPadded(before, p, after);
    SolidWrap('(', before + p + after, ')');
  }

  /** The first and last characters of a printed tree, and its brackets. */
  predicate Printed(p: string) {
    p != "" && Trimmed(p) && Bracketed(p) && p[0] != '=' && !OperatorChar(p[|p| - 1])
  }

  /** The same with no operator showing: any tree but a comparison, printed. */
  predicate Closed(t: Tree, p: string) {
    && Printed(p) && Solid(p)
    && (p[0] == '(' <==> t.Paren?) && (t.Paren? ==> p[|p| - 1] == ')') && (p[0] == '!' <==> t.Not?)
  }

  lemma ShapeLiteral(t: Tree)
    requires t.Lit? && Valid(t)
    ensures Closed(t, Print(t))
  {
    LiteralShape(t.literal);
  }

  lemma ShapePath(t: Tree)
    requires t.Path? && Valid(t) && Solid(PrintAccesses(t.accesses))
    ensures Closed(t, Print(t))
  {
    PathShape(t.head, PrintAccesses(t.accesses));
  }

  lemma ShapeNot(t: Tree)
    requires t.Not? && Valid(t) && Closed(t.operand, Print(t.operand))
    ensures Closed(t, Print(t))
  {
    NegationShape(t.gap, Print(t.operand));
  }

  lemma ShapeParen(t: Tree)
    requires t.Paren? && Valid(t) && Printed(Print(t.inner))
    ensures Closed(t, Print(t))
  {
    ParenShape(t.before, Print(t.inner), t.after);
  }

  lemma ShapeEq(t: Tree)
    requires t.Eq? && Valid(t) && Printed(Print(t.left)) && Printed(Print(t.right))
    ensures Printed(Print(t))
  {
    var p, q := Print(t.left), Print(t.right);
    ComparisonShape(p, t.gap1, t.op, t.gap2, q);
    ComparisonEnds(p, t.gap1 + OpText(t.op) + t.gap2, q);
    Join5(p, t.gap1, OpText(t.op), t.gap2, q);
  }

  lemma {:induction false} Shape(t: Tree)
    requires Valid(t)
    ensures Printed(Print(t)) && (!t.Eq? ==> Closed(t, Print(t)))
  {
    match t
    case Lit(l) => ShapeLiteral(t);
    case Path(head, a) => AccessesShape(a); ShapePath(t);
    case Not(gap, e) => Shape(e); ShapeNot(t);
    case Eq(l, gap1, op, gap2, r) => Shape(l); Shape(r); ShapeEq(t);
    case Paren(before, e, after) => Shape(e); ShapeParen(t);
  }

  lemma ComparisonEnds(p: string, middle: string, q: string)
    requires Printed(p) && Printed(q)
    ensures var s := p + middle + q; Trimmed(s) && s[0] == p[0] && s[|s| - 1] == q[|q| - 1]
  {}

  lemma SafeButBang()
    ensures Bracketed("!") && Quiet("!")
  {
    PlainBalanced(Round, "!"); PlainBalanced(Square, "!"); PlainBalanced(Both, "!");
    QuietFrom("!");
  }

  lemma OpBracketed(op: EqOp)
    ensures Bracketed(OpText(op))
  {
    PlainBalanced(Round, OpText(op)); PlainBalanced(Square, OpText(op)); PlainBalanced(Both, OpText(op));
  }

  // -------------------------------------------------------------- the evaluator on printed text

  lemma Join3(a: string, b: string, c: string)
    ensures a + b + c == a + (b + c)
    ensures (a + b + c)[..|a|] == a && (a + b + c)[|a| + |b|..] == c
  {}

  lemma Join5(a: string, b: string, c: string, d: string, e: string)
    ensures (a + b) + c + (d + e) == a + (b + c + d) + e
    ensures (a + b) + c + (d + e) == a + (b + c + (d + e))
  {}

  lemma JoinKey(pre: string, inner: string, tail: string)
    ensures var expr := pre + ("[" + inner + "]" + tail);
      && |expr| > |pre| && expr[|pre|] == '['
      && expr == (pre + "[") + inner + ("]" + tail)
      && expr[|pre| + 1..|pre| + 1 + |inner|] == inner
      && expr == (pre + "[" + inner + "]") + tail
  {}

  lemma JoinName(pre: string, name: string, tail: string)
    ensures var expr := pre + ("." + name + tail);
      && |expr| > |pre| && expr[|pre|] == '.'
      && expr[|pre| + 1..] == name + tail && (name + tail)[..|name|] == name
      && expr == (pre + "." + name) + tail
  {}

  lemma {:induction false} FindNothing(expr: string, i: nat)
    requires Quiet(expr)
    ensures FindEquality(expr, i) == None
    decreases |expr| - i
  {
    if i < |expr| {
      if EqualityAt(expr, i) { QuietAt(expr, i); }
      FindNothing(expr, i + 1);
    }
  }

  lemma {:induction false} FindFirst(expr: string, i: nat, n: nat)
    requires i <= n && EqualityAt(expr, n) && forall k :: i <= k < n ==> !EqualityAt(expr, k)
    ensures FindEquality(expr, i) == Some(n)
    decreases n - i
  {
    if i < n { FindFirst(expr, i + 1, n); }
  }

  /** The left operand with its gap: quiet, and not ending like an operator. */
  lemma LeftOperand(p: string, gap1: string)
    requires Solid(p) && p != "" && Trimmed(p) && Blank(gap1)
    ensures var a := p + gap1;
      Bracketed(a) && Quiet(a) && Trim(a) != "" && !OperatorChar(a[|a| - 1])
  {
    hide Quiet, Net, NonNegative, IsSpace, Blank, AllSpace;
    SolidSpaces(gap1);
    BracketedConcat(p, gap1);
    QuietConcat(p, gap1);
    BlankIsAllSpace(gap1);
    TrimPadded("", p, gap1);
    assert "" + p + gap1 == p + gap1;
    SpaceIsNoOperator();
  }

  lemma SpaceIsNoOperator()
    ensures forall c :: IsSpace(c) ==> !OperatorChar(c)
  {}

  lemma OperatorThere(a: string, op: EqOp, b: string)
    requires Bracketed(a) && Trim(a) != "" && a != "" && !OperatorChar(a[|a| - 1])
    requires b != "" && b[0] != '='
    ensures EqualityAt(a + OpText(op) + b, |a|) && OpAt(a + OpText(op) + b, |a|) == op
  {
    var expr := a + OpText(op) + b;
    assert expr[..|a|] == a;
  }

  lemma NoneBefore(a: string, rest: string, k: nat)
    requires Bracketed(a) && Quiet(a) && k < |a| && !OperatorChar(a[|a| - 1])
    ensures !EqualityAt(a + rest, k)
  {
    var expr := a + rest;
    NetPrefix(Both, a, rest, k);
    assert expr[k] == a[k] && (k + 1 < |a| ==> expr[k + 1] == a[k + 1]);
    if EqualityAt(expr, k) { QuietAt(a, k); }
  }

  /** The splitter finds exactly the operator a comparison was printed with. */
  lemma ComparisonSplits(a: string, op: EqOp, b: string)
    requires Bracketed(a) && Quiet(a) && Trim(a) != "" && a != "" && !OperatorChar(a[|a| - 1])
    requires b != "" && b[0] != '='
    ensures FindEquality(a + OpText(op) + b, 0) == Some(|a|)
  {
    OperatorThere(a, op, b);
    var rest := OpText(op) + b;
    Join3(a, OpText(op), b);
    forall k | 0 <= k < |a| ensures !EqualityAt(a + rest, k) { NoneBefore(a, rest, k); }
    FindFirst(a + rest, 0, |a|);
  }

  lemma ParensWrap(s: string)
    requires Balanced(Round, s)
    ensures WrapWhole("(" + s + ")")
  {
    var p := "(" + s + ")";
    forall i | 0 <= i < |p| - 1 ensures !(p[i] == ')' && Net(Round, p[..i + 1]) == 0) {
      Wrapped(Round, '(', s, ')', i + 1);
      NonNegativeAt(Round, s, i);
    }
  }

  /** Parentheses that close before the end do not wrap the whole. */
  lemma ParensDoNotWrap(p: string, rest: string)
    requires p != "" && p[|p| - 1] == ')' && Net(Round, p) == 0 && rest != ""
    ensures !WrapWhole(p + rest)
  {
    var expr := p + rest;
    assert expr[|p| - 1] == ')' && expr[..|p| - 1 + 1] == p;
  }

  /** The bracket scan stops at the partner of the bracket it started after. */
  lemma {:induction false} BracketCloses(pre: string, s: string, post: string, k: nat, depth: nat)
    requires Balanced(Square, s) && k <= |s| && depth == 1 + Net(Square, s[..k])
    ensures CloseBracket(pre + s + ("]" + post), |pre| + k, depth) == Some(|pre| + |s|)
    decreases |s| - k
  {
    NonNegativeAt(Square, s, k);
    var expr := pre + s + ("]" + post);
    if k == |s| {
      assert s[..k] == s && expr[|pre| + k] == ']';
    } else {
      assert s[..k + 1][..k] == s[..k];
      assert Net(Square, s[..k + 1]) == Net(Square, s[..k]) + Delta(Square, s[k]);
      NonNegativeAt(Square, s, k + 1);
      BracketCloses(pre, s, post, k + 1, 1 + Net(Square, s[..k + 1]));
      assert expr[|pre| + k] == s[k];
    }
  }

  lemma {:induction false} IdentStops(name: string, rest: string)
    requires rest != "" ==> !IsLetter(rest[0]) && !IsDigit(rest[0])
    ensures IdentTail(name) == |name| ==> IdentTail(name + rest) == |name|
    ensures DigitsLen(name) == |name| ==> DigitsLen(name + rest) == |name|
  {
    if name == "" {
      assert name + rest == rest;
    } else {
      assert (name + rest)[1..] == name[1..] + rest;
      IdentStops(name[1..], rest);
    }
  }

  lemma NameStops(name: string, rest: string)
    requires IsIdentifier(name) || IsIndex(name)
    requires rest != "" ==> rest[0] == '.' || rest[0] == '['
    ensures NameLen(name + rest) == |name|
    ensures IsIdentifier(name) ==> IdentLen(name + rest) == |name|
  {
    var t := name + rest;
    assert t[0] == name[0] && t[1..] == name[1..] + rest;
    IdentStops(name[1..], rest);
    IdentStops(name, rest);
  }

  /** A printed key between its brackets is found whole. */
  lemma KeyFound(pre: string, before: string, key: Tree, after: string, tail: string)
    requires Valid(key) && Blank(before) && Blank(after)
    ensures var inner := before + Print(key) + after;
      var expr := pre + ("[" + inner + "]" + tail);
      && expr[|pre|] == '[' && CloseBracket(expr, |pre| + 1, 1) == Some(|pre| + 1 + |inner|)
      && expr[|pre| + 1..|pre| + 1 + |inner|] == inner
      && expr == (pre + "[" + inner + "]") + tail
  {
    hide Print, Valid, Blank, CloseBracket, Net, NonNegative;
    var inner := before + Print(key) + after;
    var expr := pre + ("[" + inner + "]" + tail);
    JoinKey(pre, inner, tail);
    KeyBracketed(before, key, after);
    BracketMatched(pre + "[", inner, tail);
  }

  lemma KeyBracketed(before: string, key: Tree, after: string)
    requires Valid(key) && Blank(before) && Blank(after)
    ensures Balanced(Square, before + Print(key) + after)
  {
    Shape(key);
    BracketedPadded(before, Print(key), after);
  }

  lemma BracketMatched(pre: string, s: string, post: string)
    requires Balanced(Square, s)
    ensures CloseBracket(pre + s + ("]" + post), |pre|, 1) == Some(|pre| + |s|)
  {
    EmptyNet(s);
    BracketCloses(pre, s, post, 0, 1);
  }

  lemma EmptyNet(s: string)
    ensures Net(Square, s[..0]) == 0
  {}

  /** A printed member name is found whole. */
  lemma NameFound(pre: string, name: string, rest: Accesses)
    requires ValidAccesses(Dot(name, rest))
    ensures var tail := PrintAccesses(rest);
      var expr := pre + ("." + name + tail);
      && expr[|pre|] == '.' && expr[|pre| + 1..] == name + tail && (name + tail)[..|name|] == name
      && NameLen(name + tail) == |name| > 0
      && expr == (pre + "." + name) + tail
  {
    JoinName(pre, name, PrintAccesses(rest));
    AccessesShape(rest);
    NameStops(name, PrintAccesses(rest));
  }

  /** One turn of the path loop over a member name; the text may be bracketed differently. */
  lemma FollowDot<V>(h: Host<V>, vals: V, cur: V, expr: string, i: nat, name: string, tail: string,
                     same: string, j: nat)
    requires i < |expr| && expr[i] == '.' && expr[i + 1..] == name + tail && name != ""
    requires NameLen(name + tail) == |name|
    requires same == expr && j == i + 1 + |name| <= |same|
    ensures Follow(h, vals, cur, expr, i) == Follow(h, vals, Member(h, cur, h.str(name)), same, j)
  {
    hide NameLen, CloseBracket, Resolve;
    assert (name + tail)[..|name|] == name;
  }

  lemma FollowKey<V>(h: Host<V>, vals: V, cur: V, expr: string, i: nat, inner: string, same: string, j: nat)
    requires i < |expr| && expr[i] == '[' && CloseBracket(expr, i + 1, 1) == Some(i + 1 + |inner|)
    requires expr[i + 1..i + 1 + |inner|] == inner
    requires same == expr && j == i + 1 + |inner| + 1 <= |same|
    ensures Follow(h, vals, cur, expr, i) == Follow(h, vals, Member(h, cur, Resolve(h, vals, inner)), same, j)
  {
    hide NameLen, CloseBracket, Resolve;
  }

  /** Following printed accesses reaches what they mean. */
  lemma {:induction false} Follows<V>(h: Host<V>, vals: V, cur: V, pre: string, a: Accesses)
    requires ValidAccesses(a)
    ensures Follow(h, vals, cur, pre + PrintAccesses(a), |pre|) == Reach(h, vals, cur, a)
    decreases a
  {
    match a
    case End =>
    case Dot(name, rest) =>
      var pre' := pre + "." + name;
      NameFound(pre, name, rest);
      FollowDot(h, vals, cur, pre + PrintAccesses(a), |pre|, name, PrintAccesses(rest),
                pre' + PrintAccesses(rest), |pre'|);
      Follows(h, vals, Member(h, cur, h.str(name)), pre', rest);
    case At(before, key, after, rest) =>
      var inner := before + Print(key) + after;
      var pre' := pre + "[" + inner + "]";
      KeyFound(pre, before, key, after, PrintAccesses(rest));
      FollowKey(h, vals, cur, pre + PrintAccesses(a), |pre|, inner, pre' + PrintAccesses(rest), |pre'|);
      Evaluates(h, vals, before, key, after);
      Follows(h, vals, Member(h, cur, Meaning(h, vals, key)), pre', rest);
  }

  lemma NotReserved(head: string, tail: string)
    requires IsIdentifier(head) && (tail == "" ==> !Reserved(head))
    requires tail != "" ==> tail[0] == '.' || tail[0] == '['
    ensures !Reserved(head + tail)
  {
    if tail == "" { assert head + tail == head; } else { assert (head + tail)[|head|] == tail[0]; }
  }

  lemma PathEvaluates<V>(h: Host<V>, vals: V, head: string, a: Accesses)
    requires Valid(Path(head, a))
    requires Follow(h, vals, Member(h, vals, h.str(head)), head + PrintAccesses(a), |head|)
      == Reach(h, vals, Member(h, vals, h.str(head)), a)
    ensures Evaluate(h, vals, Print(Path(head, a))) == Meaning(h, vals, Path(head, a))
  {
    hide Evaluate, Follow, FindEquality, PrintAccesses, Valid, Reserved, IsNumber, IdentLen;
    PathText(head, a);
    BarePath(h, vals, head + PrintAccesses(a));
  }

  /** Printed text of a path, as the evaluator's tests see it. */
  lemma PathText(head: string, a: Accesses)
    requires Valid(Path(head, a))
    ensures var expr := head + PrintAccesses(a);
      && Print(Path(head, a)) == expr && expr != "" && IsLetter(expr[0]) && FindEquality(expr, 0) == None
      && !Reserved(expr) && !IsNumber(expr) && IdentLen(expr) == |head| && expr[..|head|] == head && head != ""
  {
    hide FindEquality;
    var tail := PrintAccesses(a);
    var expr := head + tail;
    PrintedFacts(Path(head, a));
    AccessesShape(a);
    assert tail == "" ==> a == End;
    PathHead(head, tail);
  }

  lemma PathHead(head: string, tail: string)
    requires IsIdentifier(head) && (tail == "" ==> !Reserved(head))
    requires tail != "" ==> tail[0] == '.' || tail[0] == '['
    ensures var expr := head + tail;
      && expr != "" && IsLetter(expr[0]) && !Reserved(expr) && !IsNumber(expr)
      && IdentLen(expr) == |head| && expr[..|head|] == head
  {
    NotReserved(head, tail);
    hide Reserved;
    NameStops(head, tail);
    if IsNumber(head + tail) { NumberChars(head + tail); }
  }

  lemma BarePath<V>(h: Host<V>, vals: V, expr: string)
    requires expr != "" && IsLetter(expr[0]) && FindEquality(expr, 0) == None && !Reserved(expr) && !IsNumber(expr)
    ensures Evaluate(h, vals, expr) == ResolvePath(h, vals, expr)
  {
    hide FindEquality, IsNumber, ResolvePath, Resolve, WrapWhole;
  }

  lemma LiteralEvaluates<V>(h: Host<V>, vals: V, l: Literal)
    requires ValidLiteral(l)
    ensures Evaluate(h, vals, PrintLiteral(l)) == LiteralValue(h, l)
  {
    LiteralShape(l);
    var expr := PrintLiteral(l);
    FindNothing(expr, 0);
    match l
    case Number(text) => NumberChars(text);
    case String(q, body) =>
      assert expr[0] == q && expr[|expr| - 1] == q && expr[1..|expr| - 1] == body;
      if IsNumber(expr) { NumberChars(expr); }
    case _ =>
  }

  /** What evaluation needs to know of a printed tree. */
  lemma PrintedFacts(t: Tree)
    requires Valid(t)
    ensures Print(t) != "" && Trimmed(Print(t)) && Print(t)[0] != '='
    ensures !t.Eq? ==> FindEquality(Print(t), 0) == None && (Print(t)[0] == '(' <==> t.Paren?)
    ensures t.Paren? ==> WrapWhole(Print(t)) && Print(t)[|Print(t)| - 1] == ')'
  {
    Shape(t);
    if !t.Eq? { FindNothing(Print(t), 0); }
    if t.Paren? {
      Shape(t.inner);
      BracketedPadded(t.before, Print(t.inner), t.after);
      ParensWrap(t.before + Print(t.inner) + t.after);
    }
  }

  lemma ResolvePadded<V>(h: Host<V>, vals: V, before: string, t: Tree, after: string)
    requires Valid(t) && Blank(before) && Blank(after)
    ensures Print(t) != "" && Resolve(h, vals, before + Print(t) + after) == Evaluate(h, vals, Print(t))
  {
    PrintedFacts(t);
    BlankIsAllSpace(before); BlankIsAllSpace(after);
    TrimPadded(before, Print(t), after);
  }

  lemma NegatedText<V>(h: Host<V>, vals: V, expr: string)
    requires FindEquality("!" + expr, 0) == None
    ensures Evaluate(h, vals, "!" + expr) == h.boolean(!h.truthy(Resolve(h, vals, expr)))
  {
    hide FindEquality, WrapWhole, Resolve, ResolvePath;
    assert ("!" + expr)[1..] == expr;
  }

  lemma NegationEvaluates<V>(h: Host<V>, vals: V, t: Tree)
    requires t.Not? && Valid(t)
    ensures Print(t) != ""
    ensures Evaluate(h, vals, Print(t)) == h.boolean(!h.truthy(Resolve(h, vals, t.gap + Print(t.operand))))
  {
    hide Evaluate, Resolve, FindEquality, WrapWhole;
    PrintedFacts(t);
    assert Print(t) == "!" + (t.gap + Print(t.operand));
    NegatedText(h, vals, t.gap + Print(t.operand));
  }

  lemma ParenEvaluates<V>(h: Host<V>, vals: V, t: Tree)
    requires t.Paren? && Valid(t)
    ensures Print(t) != ""
    ensures Evaluate(h, vals, Print(t)) == Resolve(h, vals, t.before + Print(t.inner) + t.after)
  {
    PrintedFacts(t);
    assert Print(t)[1..|Print(t)| - 1] == t.before + Print(t.inner) + t.after;
  }

  lemma ComparisonFound(t: Tree)
    requires t.Eq? && Valid(t)
    ensures var a, b := Print(t.left) + t.gap1, t.gap2 + Print(t.right);
      var expr := Print(t);
      && expr == a + OpText(t.op) + b
      && FindEquality(expr, 0) == Some(|a|) && OpAt(expr, |a|) == t.op
      && (expr != "" && expr[0] == '(' ==> !WrapWhole(expr))
  {
    var p, a, b := Print(t.left), Print(t.left) + t.gap1, t.gap2 + Print(t.right);
    Shape(t.left); PrintedFacts(t.right);
    SolidSpaces(t.gap2);
    LeftOperand(p, t.gap1);
    OperatorThere(a, t.op, b);
    ComparisonSplits(a, t.op, b);
    Join5(p, t.gap1, OpText(t.op), t.gap2, Print(t.right));
    if p[0] == '(' { ParensDoNotWrap(p, t.gap1 + OpText(t.op) + b); }
  }

  lemma EvaluateComparison<V>(h: Host<V>, vals: V, expr: string, a: string, op: EqOp, b: string)
    requires expr == a + OpText(op) + b && FindEquality(expr, 0) == Some(|a|) && OpAt(expr, |a|) == op
    requires expr != "" && expr[0] == '(' ==> !WrapWhole(expr)
    ensures Evaluate(h, vals, expr) == Compare(h, op, Resolve(h, vals, a), Resolve(h, vals, b))
  {
    Join3(a, OpText(op), b);
  }

  lemma NoPadding(p: string, gap: string)
    ensures "" + p + gap == p + gap && gap + p + "" == gap + p
  {}

  lemma ComparisonEvaluates<V>(h: Host<V>, vals: V, t: Tree)
    requires t.Eq? && Valid(t)
    ensures Print(t) != ""
    ensures Evaluate(h, vals, Print(t)) ==
      Compare(h, t.op, Resolve(h, vals, Print(t.left) + t.gap1), Resolve(h, vals, t.gap2 + Print(t.right)))
  {
    ComparisonFound(t);
    EvaluateComparison(h, vals, Print(t), Print(t.left) + t.gap1, t.op, t.gap2 + Print(t.right));
  }

  /** Evaluating the printed text of an expression tree, with any white space around it,
      gives what the tree means, for every host and every environment. */
  lemma {:induction false} Evaluates<V>(h: Host<V>, vals: V, before: string, t: Tree, after: string)
    requires Valid(t) && Blank(before) && Blank(after)
    ensures Resolve(h, vals, before + Print(t) + after) == Meaning(h, vals, t)
    decreases t
  {
    ResolvePadded(h, vals, before, t, after);
    match t
    case Lit(l) => LiteralEvaluates(h, vals, l);
    case Path(head, a) =>
      Follows(h, vals, Member(h, vals, h.str(head)), head, a);
      PathEvaluates(h, vals, head, a);
    case Not(gap, e) =>
      NegationEvaluates(h, vals, t);
      Evaluates(h, vals, gap, e, "");
      NoPadding(Print(e), gap);
    case Eq(l, gap1, op, gap2, r) =>
      Evaluates(h, vals, "", l, gap1);
      Evaluates(h, vals, gap2, r, "");
      NoPadding(Print(l), gap1); NoPadding(Print(r), gap2);
      ComparisonEvaluates(h, vals, t);
    case Paren(b, e, a) =>
      ParenEvaluates(h, vals, t);
      Evaluates(h, vals, b, e, a);
  }

  // -------------------------------------------------------------- form by form

  /** Printed on its own, a tree evaluates to what it means. */
  lemma EvaluatesBare<V>(h: Host<V>, vals: V, t: Tree)
    requires Valid(t)
    ensures Resolve(h, vals, Print(t)) == Meaning(h, vals, t)
  {
    Evaluates(h, vals, "", t, "");
    assert "" + Print(t) + "" == Print(t);
  }

  /** The four comparisons of what both sides evaluate to. */
  lemma ComparisonsMean<V>(h: Host<V>, vals: V, l: Tree, gap1: string, gap2: string, r: Tree)
    requires Valid(l) && Valid(r) && !l.Eq? && Blank(gap1) && Blank(gap2)
    ensures var a, b := Print(l) + gap1, gap2 + Print(r);
      var x, y := Resolve(h, vals, Print(l)), Resolve(h, vals, Print(r));
      && Resolve(h, vals, a + "===" + b) == h.boolean(h.strictEq(x, y))
      && Resolve(h, vals, a + "!==" + b) == h.boolean(!h.strictEq(x, y))
      && Resolve(h, vals, a + "==" + b) == h.boolean(h.looseEq(x, y))
      && Resolve(h, vals, a + "!=" + b) == h.boolean(!h.looseEq(x, y))
  {
    hide Resolve, Print, Blank;
    OneComparison(h, vals, l, gap1, StrictEq, gap2, r);
    OneComparison(h, vals, l, gap1, StrictNe, gap2, r);
    OneComparison(h, vals, l, gap1, LooseEq, gap2, r);
    OneComparison(h, vals, l, gap1, LooseNe, gap2, r);
  }

  lemma OneComparison<V>(h: Host<V>, vals: V, l: Tree, gap1: string, op: EqOp, gap2: string, r: Tree)
    requires Valid(l) && Valid(r) && !l.Eq? && Blank(gap1) && Blank(gap2)
    ensures Resolve(h, vals, (Print(l) + gap1) + OpText(op) + (gap2 + Print(r))) ==
      Compare(h, op, Resolve(h, vals, Print(l)), Resolve(h, vals, Print(r)))
  {
    hide Resolve;
    EvaluatesBare(h, vals, l);
    EvaluatesBare(h, vals, r);
    EvaluatesBare(h, vals, Eq(l, gap1, op, gap2, r));
  }

  predicate OperatorText(o: string) { o == "=" || o == "==" || o == "===" || o == "!=" || o == "!==" }

  lemma NoOperatorFirst(o: string, p: string)
    requires OperatorText(o) && Quiet(p) && p != "" && p[0] != '='
    ensures FindEquality(o + p, 0) == None
  {
    var expr := o + p;
    forall k | 0 <= k < |expr| ensures !EqualityAt(expr, k) {
      if k == 0 {
        assert expr[..k] == "" && Trim("") == "";
      } else if k < |o| {
        assert OperatorChar(o[k - 1]);
      } else {
        PlainNet(Both, o);
        NetPrefix(Both, o, p, k);
        if EqualityAt(expr, k) { QuietAt(p, k - |o|); }
      }
    }
    NoneFound(expr, 0);
  }

  lemma {:induction false} NoneFound(expr: string, i: nat)
    requires forall k :: i <= k < |expr| ==> !EqualityAt(expr, k)
    ensures FindEquality(expr, i) == None
    decreases |expr| - i
  {
    if i < |expr| { NoneFound(expr, i + 1); }
  }

  lemma EqualsText<V>(h: Host<V>, vals: V, expr: string)
    requires expr != "" && expr[0] == '=' && FindEquality(expr, 0) == None
    ensures Evaluate(h, vals, expr) == h.undef
  {
    hide FindEquality, Follow, WrapWhole, Resolve;
    assert !IsNumber(expr) && IdentLen(expr) == 0;
    hide IsNumber;
  }

  lemma EqualsFirst<V>(h: Host<V>, vals: V, o: string, p: string)
    requires OperatorText(o) && o[0] == '=' && Quiet(p) && p != "" && p[0] != '=' && !IsSpace(p[|p| - 1])
    ensures Resolve(h, vals, o + p) == h.undef
  {
    NoOperatorFirst(o, p);
    var expr := o + p;
    assert expr[0] == '=' && expr[|expr| - 1] == p[|p| - 1];
    hide FindEquality, Evaluate, Quiet;
    TrimIdle(expr);
    EqualsText(h, vals, expr);
  }

  lemma GapQuiet(gap: string, t: Tree)
    requires Valid(t) && !t.Eq? && Blank(gap)
    ensures var p := gap + Print(t);
      Quiet(p) && p != "" && p[0] != '=' && !IsSpace(p[|p| - 1])
  {
    hide Print, Quiet, Balanced;
    Shape(t);
    SolidSpaces(gap);
    QuietConcat(gap, Print(t));
    SpaceIsNoOperator();
    assert gap + Print(t) == if gap == "" then Print(t) else gap + Print(t);
  }

  /** An operator with nothing on its left compares nothing: the text is undefined, or what negating
      undefined gives. */
  lemma NothingOnTheLeft<V>(h: Host<V>, vals: V, op: EqOp, gap: string, t: Tree)
    requires Valid(t) && !t.Eq? && Blank(gap)
    ensures Resolve(h, vals, OpText(op) + (gap + Print(t))) ==
      if op == StrictNe || op == LooseNe then h.boolean(!h.truthy(h.undef)) else h.undef
  {
    hide Print, Quiet, Resolve, FindEquality, Evaluate;
    var o, p := OpText(op), gap + Print(t);
    GapQuiet(gap, t);
    if o[0] == '=' {
      EqualsFirst(h, vals, o, p);
    } else {
      NegationFirst(h, vals, o, p);
    }
  }

  lemma NegationFirst<V>(h: Host<V>, vals: V, o: string, p: string)
    requires OperatorText(o) && o[0] == '!' && Quiet(p) && p != "" && p[0] != '=' && !IsSpace(p[|p| - 1])
    ensures Resolve(h, vals, o + p) == h.boolean(!h.truthy(h.undef))
  {
    hide Quiet, Resolve, FindEquality, Evaluate;
    var rest := o[1..];
    assert rest == "=" || rest == "==";
    NoOperatorFirst(o, p);
    EqualsFirst(h, vals, rest, p);
    assert o + p == "!" + (rest + p);
    NegatedText(h, vals, rest + p);
    BangTrimmed(h, vals, o + p);
  }

  lemma BangTrimmed<V>(h: Host<V>, vals: V, expr: string)
    requires expr != "" && expr[0] == '!' && !IsSpace(expr[|expr| - 1])
    ensures Resolve(h, vals, expr) == Evaluate(h, vals, expr)
  {
    TrimIdle(expr);
    hide Evaluate;
  }

  lemma NegationAndParens<V>(h: Host<V>, vals: V, before: string, t: Tree, after: string)
    requires Valid(t) && Blank(before) && Blank(after)
    ensures !t.Eq? ==>
      Resolve(h, vals, "!" + before + Print(t)) == h.boolean(!h.truthy(Resolve(h, vals, Print(t))))
    ensures Resolve(h, vals, "(" + (before + Print(t) + after) + ")") == Resolve(h, vals, Print(t))
  {
    hide Resolve;
    EvaluatesBare(h, vals, t);
    if !t.Eq? { EvaluatesBare(h, vals, Not(before, t)); }
    EvaluatesBare(h, vals, Paren(before, t, after));
  }

  lemma LiteralsMean<V>(h: Host<V>, vals: V, number: string, q: char, body: string)
    requires IsNumber(number) && (q == '"' || q == '\'') && Bracketed(body) && Quiet(body)
    ensures Resolve(h, vals, "true") == h.boolean(true) && Resolve(h, vals, "false") == h.boolean(false)
    ensures Resolve(h, vals, "null") == h.nul && Resolve(h, vals, "undefined") == h.undef
    ensures Resolve(h, vals, number) == h.number(number)
    ensures Resolve(h, vals, [q] + body + [q]) == h.str(body)
  {
    hide Resolve, Quiet, Bracketed, IsNumber;
    EvaluatesBare(h, vals, Lit(True)); EvaluatesBare(h, vals, Lit(False));
    EvaluatesBare(h, vals, Lit(Null)); EvaluatesBare(h, vals, Lit(Undefined));
    EvaluatesBare(h, vals, Lit(Number(number)));
    EvaluatesBare(h, vals, Lit(String(q, body)));
  }

  predicate Numeral(s: string, d: string, e: string) {
    && AllDigits(d) && AllDigits(e)
    && (s == d || s == "-" + d || s == d + "." + e || s == "-" + (d + "." + e))
  }

  /** Digits with an optional sign and fraction are numbers, and nothing else is. */
  lemma NumbersExactly(s: string)
    ensures IsNumber(s) <==> exists d, e: string :: Numeral(s, d, e)
  {
    if IsNumber(s) {
      var t := if s[0] == '-' then s[1..] else s;
      var n := DigitsLen(t);
      assert AllDigits(t[..n]);
      assert s[0] == '-' ==> s == "-" + t;
      if n == |t| {
        assert t[..n] == t;
        assert Numeral(s, t, "0");
      } else {
        var e := t[n + 1..];
        assert DigitsLen(e) == |e| && AllDigits(e);
        assert t == t[..n] + "." + e;
        assert Numeral(s, t[..n], e);
      }
    }
    if d, e: string :| Numeral(s, d, e) { FormIsNumber(s, d, e); }
  }

  lemma FormIsNumber(s: string, d: string, e: string)
    requires Numeral(s, d, e)
    ensures IsNumber(s)
  {
    var t := if s[0] == '-' then s[1..] else s;
    assert IsDigit(d[0]);
    assert s[0] == '-' || s[0] == d[0];
    assert t == d || t == d + "." + e;
    if t == d {
      DigitsStop(d, "");
      assert d + "" == d;
    } else {
      FractionReads(t, d, e);
    }
  }

  lemma FractionReads(t: string, d: string, e: string)
    requires AllDigits(d) && AllDigits(e) && t == d + "." + e
    ensures DigitsLen(t) == |d| && t[|d|] == '.' && t[|d| + 1..] == e && DigitsLen(e) == |e|
  {
    DigitsStop(d, "." + e);
    DigitsStop(e, "");
    assert t == d + ("." + e) && t[|d| + 1..] == e && e + "" == e;
  }

  lemma VariableMeans<V>(h: Host<V>, vals: V, name: string)
    requires IsIdentifier(name) && !Reserved(name)
    ensures h.nullish(vals) ==> Resolve(h, vals, name) == h.undef
    ensures !h.nullish(vals) ==> Resolve(h, vals, name) == h.index(vals, h.str(name))
  {
    hide Resolve;
    EvaluatesBare(h, vals, Path(name, End));
    assert name + "" == name;
  }

  function Extend(a: Accesses, last: Accesses): Accesses {
    match a
    case End => last
    case Dot(name, rest) => Dot(name, Extend(rest, last))
    case At(before, key, after, rest) => At(before, key, after, Extend(rest, last))
  }

  lemma {:induction false} Extended<V>(h: Host<V>, vals: V, cur: V, a: Accesses, last: Accesses)
    requires ValidAccesses(a) && ValidAccesses(last)
    ensures ValidAccesses(Extend(a, last)) && PrintAccesses(Extend(a, last)) == PrintAccesses(a) + PrintAccesses(last)
    ensures Reach(h, vals, cur, Extend(a, last)) == Reach(h, vals, Reach(h, vals, cur, a), last)
    ensures Extend(a, last) == End ==> a == End && last == End
  {
    match a
    case End => assert "" + PrintAccesses(last) == PrintAccesses(last);
    case Dot(name, rest) =>
      Extended(h, vals, Member(h, cur, h.str(name)), rest, last);
      Join3("." + name, PrintAccesses(rest), PrintAccesses(last));
    case At(before, key, after, rest) =>
      Extended(h, vals, Member(h, cur, Meaning(h, vals, key)), rest, last);
      Join3("[" + (before + Print(key) + after) + "]", PrintAccesses(rest), PrintAccesses(last));
  }

  /** One more access at the end of a path. */
  lemma ExtendedPath<V>(h: Host<V>, vals: V, path: Tree, last: Accesses)
    requires path.Path? && Valid(path) && ValidAccesses(last) && last != End
    ensures Resolve(h, vals, Print(path) + PrintAccesses(last)) == Reach(h, vals, Resolve(h, vals, Print(path)), last)
  {
    var longer := Path(path.head, Extend(path.accesses, last));
    Extended(h, vals, Member(h, vals, h.str(path.head)), path.accesses, last);
    Join3(path.head, PrintAccesses(path.accesses), PrintAccesses(last));
    EvaluatesBare(h, vals, path);
    EvaluatesBare(h, vals, longer);
    hide Resolve, Reach, PrintAccesses, Extend;
    assert Print(longer) == Print(path) + PrintAccesses(last);
  }

  /** One more access: of nothing it is undefined, and otherwise the host looks the key up in
      what the path reaches. */
  lemma DotMeans<V>(h: Host<V>, vals: V, path: Tree, name: string)
    requires path.Path? && Valid(path) && (IsIdentifier(name) || IsIndex(name))
    ensures var x := Resolve(h, vals, Print(path));
      Resolve(h, vals, Print(path) + ("." + name)) == if h.nullish(x) then h.undef else h.index(x, h.str(name))
  {
    hide Resolve;
    ExtendedPath(h, vals, path, Dot(name, End));
    assert "." + name + "" == "." + name;
  }

  lemma KeyMeans<V>(h: Host<V>, vals: V, path: Tree, before: string, key: Tree, after: string)
    requires path.Path? && Valid(path) && Valid(key) && Blank(before) && Blank(after)
    ensures var x := Resolve(h, vals, Print(path));
      Resolve(h, vals, Print(path) + ("[" + (before + Print(key) + after) + "]")) ==
        if h.nullish(x) then h.undef else h.index(x, Resolve(h, vals, Print(key)))
  {
    hide Resolve;
    ExtendedPath(h, vals, path, At(before, key, after, End));
    EvaluatesBare(h, vals, key);
    var access := "[" + (before + Print(key) + after) + "]";
    assert access + "" == access;
  }

  /** What a path loop does not understand is undefined: another character than an access's, a
      point without a name, a bracket that is never closed, a path without a name to begin with. */
  lemma DeadEnds<V>(h: Host<V>, vals: V, cur: V, expr: string, i: nat)
    requires i < |expr|
    ensures expr[i] != '.' && expr[i] != '[' ==> Follow(h, vals, cur, expr, i) == h.undef
    ensures expr[i] == '.' && (i + 1 == |expr| || !(IsLetter(expr[i + 1]) || IsDigit(expr[i + 1]))) ==>
      Follow(h, vals, cur, expr, i) == h.undef
    ensures expr[i] == '[' && ']' !in expr[i + 1..] ==> Follow(h, vals, cur, expr, i) == h.undef
    ensures !IsLetter(expr[0]) ==> ResolvePath(h, vals, expr) == h.undef
  {
    if expr[i] == '[' && ']' !in expr[i + 1..] { NeverClosed(expr, i + 1, 1); }
  }

  lemma {:induction false} NeverClosed(expr: string, j: nat, depth: nat)
    requires j <= |expr| && ']' !in expr[j..]
    ensures CloseBracket(expr, j, depth) == None
    decreases |expr| - j
  {
    if j < |expr| && depth != 0 {
      assert expr[j] in expr[j..];
      assert forall c :: c in expr[j + 1..] ==> c in expr[j..];
      NeverClosed(expr, j + 1, if expr[j] == '[' then depth + 1 else depth);
    }
  }

  lemma BlankMeansNothing<V>(h: Host<V>, vals: V, w: string)
    requires Blank(w)
    ensures Resolve(h, vals, w) == h.undef
  {
    BlankTrims(w);
  }

  lemma IdentifiersExactly(s: string)
    ensures IsIdentifier(s) <==> s != "" && !('0' <= s[0] <= '9') && forall i :: 0 <= i < |s| ==>
      'a' <= s[i] <= 'z' || 'A' <= s[i] <= 'Z' || '0' <= s[i] <= '9' || s[i] == '_' || s[i] == '$'
  {
    IdentChars(s);
    if s != "" { WholeTail(s[1..]); }
  }

  lemma {:induction false} WholeTail(s: string)
    ensures IdentTail(s) == |s| <==> forall i :: 0 <= i < |s| ==> IsLetter(s[i]) || IsDigit(s[i])
  {
    if s != "" {
      WholeTail(s[1..]);
      if IsLetter(s[0]) || IsDigit(s[0]) {
        assert (forall i :: 0 <= i < |s| ==> IsLetter(s[i]) || IsDigit(s[i])) <==>
          forall i :: 0 <= i < |s[1..]| ==> IsLetter(s[1..][i]) || IsDigit(s[1..][i]) by {
          assert forall i :: 0 < i < |s| ==> s[i] == s[1..][i - 1];
        }
      }
    }
  }

  /** A quoted string evaluates to its own text exactly when the splitter, which does not
      know about quotes, finds no equality operator in it. */
  lemma StringLiteralExact<V>(h: Host<V>, vals: V, q: char, body: string)
    requires q == '"' || q == '\''
    requires forall b: bool, s: string :: h.boolean(b) != h.str(s)
    ensures Resolve(h, vals, [q] + body + [q]) == h.str(body) <==> FindEquality([q] + body + [q], 0) == None
  {
    hide FindEquality, Evaluate;
    var lit := [q] + body + [q];
    TrimIdle(lit);
    assert lit[0] == q && lit[|lit| - 1] == q && lit[1..|lit| - 1] == body;
    if FindEquality(lit, 0) == None {
      QuotedEvaluates(h, vals, lit);
    } else {
      var _ := SplitEvaluates(h, vals, lit);
    }
  }

  lemma QuotedEvaluates<V>(h: Host<V>, vals: V, lit: string)
    requires IsString(lit) && FindEquality(lit, 0) == None
    ensures Evaluate(h, vals, lit) == h.str(lit[1..|lit| - 1])
  {
    hide FindEquality, WrapWhole, Resolve, IsNumber;
    if IsNumber(lit) { NumberChars(lit); }
  }

  /** A quote that the same quote does not close is no text, and nothing else either. */
  lemma UnclosedQuote<V>(h: Host<V>, vals: V, expr: string)
    requires Trimmed(expr) && expr != "" && expr[0] in {'"', '\''} && FindEquality(expr, 0) == None
    requires |expr| == 1 || expr[|expr| - 1] != expr[0]
    ensures Resolve(h, vals, expr) == h.undef
  {
    hide FindEquality, Evaluate;
    TrimIdle(expr);
    QuoteText(h, vals, expr);
  }

  lemma QuoteText<V>(h: Host<V>, vals: V, expr: string)
    requires expr != "" && expr[0] in {'"', '\''} && FindEquality(expr, 0) == None && !IsString(expr)
    ensures Evaluate(h, vals, expr) == h.undef
  {
    hide FindEquality, WrapWhole, Follow, Resolve, IsNumber;
    if IsNumber(expr) { NumberChars(expr); }
    assert IdentLen(expr) == 0;
  }

  /** A quoted text with an operator in it evaluates to a boolean. */
  lemma SplitEvaluates<V>(h: Host<V>, vals: V, lit: string) returns (b: bool)
    requires IsString(lit) && FindEquality(lit, 0) != None
    ensures Evaluate(h, vals, lit) == h.boolean(b)
  {
    hide FindEquality, WrapWhole, Resolve, IsNumber, Net, Trim;
    var i := FindEquality(lit, 0).value;
    var l, r := Resolve(h, vals, lit[..i]), Resolve(h, vals, lit[i + |OpText(OpAt(lit, i))|..]);
    b := match OpAt(lit, i)
      case StrictEq => h.strictEq(l, r)
      case StrictNe => !h.strictEq(l, r)
      case LooseEq => h.looseEq(l, r)
      case LooseNe => !h.looseEq(l, r);
  }

  /** Such a string exists: its quotes do not protect an operator inside it. */
  lemma QuotesDoNotProtect()
    ensures FindEquality("\"a==b\"", 0) == Some(2)
  {
    var lit := "\"a==b\"";
    assert lit[..2] == "\"a";
    PlainNet(Both, "\"a");
    TrimIdle("\"a");
    assert EqualityAt(lit, 2);
    FindFirst(lit, 0, 2);
  }

  // -------------------------------------------------------------- the loops

  lemma NetStep(k: Kind, s: string, i: nat)
    requires i < |s|
    ensures Net(k, s[..i + 1]) == Net(k, s[..i]) + Delta(k, s[i])
  {
    assert s[..i + 1][..i] == s[..i];
  }

  /** parensWrapWhole. */
  method ParensWrapWhole(expr: string) returns (whole: bool)
    ensures whole == WrapWhole(expr)
  {
    var depth, i := 0, 0;
    while i < |expr| - 1
      invariant 0 <= i && (i <= |expr| - 1 || i == 0)
      invariant i <= |expr| && depth == Net(Round, expr[..i])
      invariant forall k :: 0 <= k < i ==> !(expr[k] == ')' && Net(Round, expr[..k + 1]) == 0)
    {
      NetStep(Round, expr, i);
      if expr[i] == '(' {
        depth := depth + 1;
      } else if expr[i] == ')' {
        depth := depth - 1;
        if depth == 0 { return false; }
      }
      i := i + 1;
    }
    return true;
  }

  /** findTopLevelEquality. */
  method FindTopLevelEquality(expr: string) returns (at: Option<nat>)
    ensures at == FindEquality(expr, 0)
  {
    var depth, i := 0, 0;
    while i < |expr|
      invariant 0 <= i <= |expr|
      invariant depth == Net(Both, expr[..i])
      invariant FindEquality(expr, 0) == FindEquality(expr, i)
    {
      NetStep(Both, expr, i);
      var c := expr[i];
      if c == '[' || c == '(' {
        depth := depth + 1;
      } else if c == ']' || c == ')' {
        depth := depth - 1;
      } else if depth == 0 && (c == '=' || c == '!') && i + 1 < |expr| && expr[i + 1] == '=' {
        if !(i > 0 && (expr[i - 1] == '=' || expr[i - 1] == '!')) && Trim(expr[..i]) != "" {
          return Some(i);
        }
      }
      i := i + 1;
    }
    return None;
  }

  /** resolve. */
  method ResolveText<V>(h: Host<V>, vals: V, src: string) returns (v: V)
    ensures v == Resolve(h, vals, src)
    decreases |src|, 2, 0
  {
    hide FindEquality, Net, WrapWhole, IsNumber, ResolvePath, Trim;
    TrimShorter(src);
    var expr := Trim(src);
    if expr == "" { return h.undef; }
    var whole := false;
    if expr[0] == '(' && expr[|expr| - 1] == ')' {
      whole := ParensWrapWhole(expr);
    }
    if whole {
      v := ResolveText(h, vals, expr[1..|expr| - 1]);
      return;
    }
    var eq := FindTopLevelEquality(expr);
    if eq.Some? {
      var op := OpAt(expr, eq.value);
      var l := ResolveText(h, vals, expr[..eq.value]);
      var r := ResolveText(h, vals, expr[eq.value + |OpText(op)|..]);
      return Compare(h, op, l, r);
    }
    if expr[0] == '!' {
      var o := ResolveText(h, vals, expr[1..]);
      return h.boolean(!h.truthy(o));
    }
    if expr == "true" { return h.boolean(true); }
    if expr == "false" { return h.boolean(false); }
    if expr == "null" { return h.nul; }
    if expr == "undefined" { return h.undef; }
    if IsNumber(expr) { return h.number(expr); }
    if IsString(expr) { return h.str(expr[1..|expr| - 1]); }
    v := ResolvePathText(h, vals, expr);
  }

  /** The bracket-matching loop of resolvePath. */
  method MatchBracket(expr: string, i: nat) returns (close: Option<nat>)
    requires i < |expr|
    ensures close == CloseBracket(expr, i + 1, 1)
  {
    var depth, j := 1, i + 1;
    while j < |expr|
      invariant i + 1 <= j <= |expr| && depth > 0
      invariant CloseBracket(expr, i + 1, 1) == CloseBracket(expr, j, depth)
    {
      if expr[j] == '[' {
        depth := depth + 1;
      } else if expr[j] == ']' {
        depth := depth - 1;
        if depth == 0 { return Some(j); }
      }
      j := j + 1;
    }
    return None;
  }

  lemma FollowName<V>(h: Host<V>, vals: V, cur: V, expr: string, i: nat)
    requires i < |expr| && expr[i] == '.'
    ensures var rest := expr[i + 1..];
      var n := NameLen(rest);
      Follow(h, vals, cur, expr, i) ==
        if n == 0 then h.undef else Follow(h, vals, Member(h, cur, h.str(rest[..n])), expr, i + 1 + n)
  {}

  /** One turn of the path loop over a member name; 0 when there is no name. */
  method NameAccess<V>(h: Host<V>, vals: V, cur: V, expr: string, i: nat) returns (next: nat, v: V)
    requires i < |expr| && expr[i] == '.'
    ensures next == 0 ==> Follow(h, vals, cur, expr, i) == h.undef
    ensures next != 0 ==> i < next <= |expr| && Follow(h, vals, cur, expr, i) == Follow(h, vals, v, expr, next)
  {
    var rest := expr[i + 1..];
    var n := NameLen(rest);
    FollowName(h, vals, cur, expr, i);
    if n == 0 { return 0, cur; }
    return i + 1 + n, Member(h, cur, h.str(rest[..n]));
  }

  /** One turn of the path loop over a bracketed key; 0 when the bracket is not closed. */
  method KeyAccess<V>(h: Host<V>, vals: V, cur: V, expr: string, i: nat) returns (next: nat, v: V)
    requires i < |expr| && expr[i] == '['
    ensures next == 0 ==> Follow(h, vals, cur, expr, i) == h.undef
    ensures next != 0 ==> i < next <= |expr| && Follow(h, vals, cur, expr, i) == Follow(h, vals, v, expr, next)
    decreases |expr|, 0, 0
  {
    var j := MatchBracket(expr, i);
    if j.None? { return 0, cur; }
    var inner := expr[i + 1..j.value];
    var key := ResolveText(h, vals, inner);
    FollowKey(h, vals, cur, expr, i, inner, expr, j.value + 1);
    return j.value + 1, Member(h, cur, key);
  }

  /** resolvePath. */
  method ResolvePathText<V>(h: Host<V>, vals: V, expr: string) returns (v: V)
    ensures v == ResolvePath(h, vals, expr)
    decreases |expr|, 0, 1
  {
    var head := IdentLen(expr);
    if head == 0 { return h.undef; }
    v := Member(h, vals, h.str(expr[..head]));
    var i := head;
    while i < |expr|
      invariant head <= i <= |expr|
      invariant Follow(h, vals, v, expr, i) == ResolvePath(h, vals, expr)
      decreases |expr| - i
    {
      var next, cur := 0, v;
      if expr[i] == '.' {
        next, cur := NameAccess(h, vals, v, expr, i);
      } else if expr[i] == '[' {
        next, cur := KeyAccess(h, vals, v, expr, i);
      }
      if next == 0 { return h.undef; }
      i, v := next, cur;
    }
  }
}
