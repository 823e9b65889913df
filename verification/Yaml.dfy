/**
 The block-YAML printer of the rule generator (grafana/build_rules.py), against a reader
 for the subset it prints: block sequences and mappings of YAML 1.2.2 sections 8.2.1 and
 8.2.2, double-quoted scalars of section 7.3.1.
 */
module Yaml {
  import opened Decimal
  import opened Options
  import opened Sequences

  datatype Entry = Entry(key: string, value: Tree)

  datatype Tree =
    | Null
    | Bool(bit: bool)
    | Int(number: int)
    | Float(repr: string)
    | Str(text: string)
    | List(items: seq<Tree>)
    | Dict(entries: seq<Entry>)
  {
    /** A list or dictionary with something in it: printed as a block of its own. */
    predicate Block() {
      (List? && items != []) || (Dict? && entries != [])
    }
  }

  // -------------------------------------------------------------- scalars

  function Replace(s: string, c: char, sub: string): string {
    if s == "" then "" else (if s[0] == c then sub else [s[0]]) + Replace(s[1..], c, sub)
  }

  function PrintInt(n: int): string {
    if n < 0 then "-" + PrintNat(-n) else PrintNat(n)
  }

  /** The three replacements, in the order the printer makes them. */
  function Replace3(s: string): string {
    Replace(Replace(Replace(s, '\\', "\\\\"), '"', "\\\""), '\n', "\\n")
  }

  function Quoted(s: string): string {
    "\"" + Replace3(s) + "\""
  }

  /** _scalar: an empty container that reaches it is printed as a quoted string. */
  function Scalar(t: Tree): string {
    match t
    case Null => "null"
    case Bool(b) => if b then "true" else "false"
    case Int(n) => PrintInt(n)
    case Float(repr) => repr
    case Str(s) => Quoted(s)
    case List(_) => Quoted("[]")
    case Dict(_) => Quoted("{}")
  }

  // -------------------------------------------------------------- printed lines

  /** One physical line: its leading spaces and the rest. */
  datatype Line = Line(column: nat, text: string)

  function Spaces(n: nat): string {
    seq(n, _ => ' ')
  }

  function Show(l: Line): string { Spaces(l.column) + l.text }

  function Emit(t: Tree, indent: nat): (ls: seq<Line>)
    ensures t.Block() ==> ls != [] && ls[0].column == 2 * indent
    decreases t, 1
  {
    match t
    case Dict(es) => EmitEntries(es, indent)
    case List(items) => EmitItems(items, indent)
    case _ => [Line(2 * indent, Scalar(t))]
  }

  function EmitEntries(es: seq<Entry>, indent: nat): (ls: seq<Line>)
    ensures es != [] ==> ls != [] && ls[0].column == 2 * indent
    decreases es, 0
  {
    if es == [] then [] else EmitEntry(es[0], indent) + EmitEntries(es[1..], indent)
  }

  function EmitEntry(e: Entry, indent: nat): (ls: seq<Line>)
    ensures ls != [] && ls[0].column == 2 * indent
    decreases e, 2
  {
    if e.value.Block() then [Line(2 * indent, e.key + ":")] + Emit(e.value, indent + 1)
    else if e.value.Dict? then [Line(2 * indent, e.key + ": {}")]
    else if e.value.List? then [Line(2 * indent, e.key + ": []")]
    else [Line(2 * indent, e.key + ": " + Scalar(e.value))]
  }

  function EmitItems(items: seq<Tree>, indent: nat): (ls: seq<Line>)
    ensures items != [] ==> ls != [] && ls[0].column == 2 * indent
    decreases items, 0
  {
    if items == [] then [] else EmitItem(items[0], indent) + EmitItems(items[1..], indent)
  }

  /** A block item begins on the dash's own line: its first line loses its indentation. */
  function EmitItem(item: Tree, indent: nat): (ls: seq<Line>)
    ensures ls != [] && ls[0].column == 2 * indent
    decreases item, 2
  {
    if item.Block() then
      var block := Emit(item, indent + 1);
      [Line(2 * indent, "- " + block[0].text)] + block[1..]
    else [Line(2 * indent, "- " + Scalar(item))]
  }

  function Join(lines: seq<string>): string {
    if lines == [] then "" else if |lines| == 1 then lines[0] else lines[0] + "\n" + Join(lines[1..])
  }

  function ShowAll(ls: seq<Line>): (lines: seq<string>)
    ensures |lines| == |ls|
  {
    if ls == [] then [] else [Show(ls[0])] + ShowAll(ls[1..])
  }

  /** The text yamlify prints. */
  function Print(t: Tree): string {
    Join(ShowAll(Emit(t, 0)))
  }

  // -------------------------------------------------------------- the reader

  /** YAML's line breaks are the line feed and the carriage return. */
  predicate IsBreak(c: char) { c == '\n' || c == '\r' }

  function SplitLines(s: string): (lines: seq<string>)
    ensures lines != []
  {
    if s == "" then [""]
    else
      var rest := SplitLines(s[1..]);
      if IsBreak(s[0]) then [""] + rest else [[s[0]] + rest[0]] + rest[1..]
  }

  function Indentation(s: string): (n: nat)
    ensures n <= |s|
  {
    if s != "" && s[0] == ' ' then 1 + Indentation(s[1..]) else 0
  }

  function ReadLine(s: string): Line {
    Line(Indentation(s), s[Indentation(s)..])
  }

  function ReadLines(lines: seq<string>): (ls: seq<Line>)
    ensures |ls| == |lines|
  {
    if lines == [] then [] else [ReadLine(lines[0])] + ReadLines(lines[1..])
  }

  predicate KeyChar(c: char) {
    'a' <= c <= 'z' || 'A' <= c <= 'Z' || IsDigit(c) || c == '_' || c == '.' || c == '/' || c == '-'
  }

  function KeyLen(s: string): (n: nat)
    ensures n <= |s|
  {
    if s != "" && KeyChar(s[0]) then 1 + KeyLen(s[1..]) else 0
  }

  /** The text begins with a key and a colon that ends the line or is followed by a space. */
  predicate IsKeyed(s: string) {
    var k := KeyLen(s);
    0 < k < |s| && s[k] == ':' && (k + 1 == |s| || s[k + 1] == ' ')
  }

  predicate IsDashed(s: string) { |s| >= 2 && s[0] == '-' && s[1] == ' ' }

  /** A character a double-quoted scalar may contain as it is (nb-json). */
  predicate Printable(c: char) { c == '\t' || c >= ' ' }

  /** What follows an opening quote, up to a closing quote that ends the text. */
  function Unquote(s: string): Option<string> {
    if s == "" then None
    else if s[0] == '"' then (if |s| == 1 then Some("") else None)
    else if s[0] == '\\' then
      if |s| < 2 || s[1] !in {'\\', '"', 'n'} then None
      else
        var rest := Unquote(s[2..]);
        if rest.None? then None else Some([if s[1] == 'n' then '\n' else s[1]] + rest.value)
    else if !Printable(s[0]) then None
    else
      var rest := Unquote(s[1..]);
      if rest.None? then None else Some([s[0]] + rest.value)
  }

  predicate IsInt(s: string) { AllDigits(s) || (s != "" && s[0] == '-' && AllDigits(s[1..])) }

  /** A finite float's repr: digits with a point or an exponent. */
  predicate IsFloat(s: string) {
    && s != "" && (IsDigit(s[0]) || (|s| > 1 && s[0] == '-' && IsDigit(s[1])))
    && !IsInt(s)
    && forall i :: 0 <= i < |s| ==> IsDigit(s[i]) || s[i] in {'.', 'e', '+', '-'}
  }

  function ReadScalar(s: string): Option<Tree> {
    if s != "" && s[0] == '"' then
      var text := Unquote(s[1..]);
      if text.None? then None else Some(Str(text.value))
    else if s == "null" then Some(Null)
    else if s == "true" then Some(Bool(true))
    else if s == "false" then Some(Bool(false))
    else if AllDigits(s) then Some(Int(NatValue(s)))
    else if IsInt(s) then Some(Int(0 - NatValue(s[1..])))
    else if IsFloat(s) then Some(Float(s))
    else None
  }

  function Size(ls: seq<Line>): nat {
    if ls == [] then 0 else |ls[0].text| + 1 + Size(ls[1..])
  }

  /** One node at the given column, and the lines after it. */
  function ReadNode(ls: seq<Line>, column: nat): (r: Option<(Tree, seq<Line>)>)
    ensures r.Some? ==> Size(r.value.1) < Size(ls)
    decreases Size(ls), 2
  {
    if ls == [] || ls[0].column != column then None
    else if IsDashed(ls[0].text) then
      var r := ReadItems(ls, column);
      if r.None? || r.value.0 == [] then None else Some((List(r.value.0), r.value.1))
    else if IsKeyed(ls[0].text) then
      var r := ReadEntries(ls, column);
      if r.None? || r.value.0 == [] then None else Some((Dict(r.value.0), r.value.1))
    else
      var t := ReadScalar(ls[0].text);
      if t.None? then None else Some((t.value, ls[1..]))
  }

  /** The items of a block sequence: a dash is two columns of indentation for what follows it. */
  function ReadItems(ls: seq<Line>, column: nat): (r: Option<(seq<Tree>, seq<Line>)>)
    ensures r.Some? ==> Size(r.value.1) <= Size(ls) && (r.value.0 != [] ==> Size(r.value.1) < Size(ls))
    decreases Size(ls), 1
  {
    if ls == [] || ls[0].column != column || !IsDashed(ls[0].text) then Some(([], ls))
    else
      var inner := [Line(column + 2, ls[0].text[2..])] + ls[1..];
      assert inner[1..] == ls[1..];
      var item := ReadNode(inner, column + 2);
      if item.None? then None
      else
        var rest := ReadItems(item.value.1, column);
        if rest.None? then None else Some(([item.value.0] + rest.value.0, rest.value.1))
  }

  /** The entries of a block mapping: a bare key's value is a block further right. */
  function ReadEntries(ls: seq<Line>, column: nat): (r: Option<(seq<Entry>, seq<Line>)>)
    ensures r.Some? ==> Size(r.value.1) <= Size(ls) && (r.value.0 != [] ==> Size(r.value.1) < Size(ls))
    decreases Size(ls), 1
  {
    if ls == [] || ls[0].column != column || !IsKeyed(ls[0].text) then Some(([], ls))
    else
      var text := ls[0].text;
      var key, after := text[..KeyLen(text)], text[KeyLen(text) + 1..];
      var value :=
        if after != "" then
          if after == " {}" then Some((Dict([]), ls[1..]))
          else if after == " []" then Some((List([]), ls[1..]))
          else
            var t := ReadScalar(after[1..]);
            if t.None? then None else Some((t.value, ls[1..]))
        else if |ls| == 1 || ls[1].column <= column then None
        else ReadNode(ls[1..], ls[1].column);
      if value.None? then None
      else
        var rest := ReadEntries(value.value.1, column);
        if rest.None? then None else Some(([Entry(key, value.value.0)] + rest.value.0, rest.value.1))
  }

  function Read(text: string): Option<Tree> {
    var r := ReadNode(ReadLines(SplitLines(text)), 0);
    if r.None? || r.value.1 != [] then None else Some(r.value.0)
  }

  // -------------------------------------------------------------- the trees in question

  /** Keys printed and read as they are. */
  predicate PlainKey(k: string) {
    && k != "" && ('a' <= k[0] <= 'z' || 'A' <= k[0] <= 'Z' || k[0] == '_')
    && (forall i :: 0 <= i < |k| ==> KeyChar(k[i]))
  }

  /** What the generator's data satisfies: plain keys, finite floats. */
  predicate Plain(t: Tree)
    decreases t, 1
  {
    match t
    case Float(repr) => IsFloat(repr)
    case List(items) => forall i :: 0 <= i < |items| ==> Plain(items[i])
    case Dict(es) => forall i :: 0 <= i < |es| ==> PlainKey(es[i].key) && Plain(es[i].value)
    case _ => true
  }

  predicate TextOk(s: string) { forall i :: 0 <= i < |s| ==> s[i] == '\n' || Printable(s[i]) }

  /** No string contains a control character other than tab and line feed. */
  predicate StringsOk(t: Tree) {
    match t
    case Str(s) => TextOk(s)
    case List(items) => forall i :: 0 <= i < |items| ==> StringsOk(items[i])
    case Dict(es) => forall i :: 0 <= i < |es| ==> StringsOk(es[i].value)
    case _ => true
  }

  predicate EmptyContainer(t: Tree) { (t.List? || t.Dict?) && !t.Block() }

  /** No list has an empty list or dictionary for an item. */
  predicate NoEmptyItem(t: Tree) {
    match t
    case List(items) => forall i :: 0 <= i < |items| ==> !EmptyContainer(items[i]) && NoEmptyItem(items[i])
    case Dict(es) => forall i :: 0 <= i < |es| ==> NoEmptyItem(es[i].value)
    case _ => true
  }

  function NormItem(t: Tree): Tree
    decreases t, 2
  {
    if EmptyContainer(t) then Str(if t.List? then "[]" else "{}") else Norm(t)
  }

  /** What the text of t says: an empty container in a list has become a string. */
  function Norm(t: Tree): Tree
    decreases t, 1
  {
    match t
    case List(items) => List(NormItems(items))
    case Dict(es) => Dict(NormEntries(es))
    case _ => t
  }

  function NormItems(items: seq<Tree>): seq<Tree>
    decreases items, 0
  {
    if items == [] then [] else [NormItem(items[0])] + NormItems(items[1..])
  }

  function NormEntries(es: seq<Entry>): seq<Entry>
    decreases es, 0
  {
    if es == [] then [] else [Entry(es[0].key, Norm(es[0].value))] + NormEntries(es[1..])
  }

  // -------------------------------------------------------------- scalars read back

  function EscapeChar(c: char): string {
    if c == '\\' then "\\\\" else if c == '"' then "\\\"" else if c == '\n' then "\\n" else [c]
  }

  function Escape(s: string): string {
    if s == "" then "" else EscapeChar(s[0]) + Escape(s[1..])
  }

  lemma {:induction false} ReplaceConcat(a: string, b: string, c: char, sub: string)
    ensures Replace(a + b, c, sub) == Replace(a, c, sub) + Replace(b, c, sub)
  {
    if a == "" {
      assert a + b == b;
    } else {
      assert (a + b)[1..] == a[1..] + b;
      ReplaceConcat(a[1..], b, c, sub);
    }
  }

  lemma Replace3Char(c: char)
    ensures Replace3([c]) == EscapeChar(c)
  {
    assert forall d: char, e: char, sub: string :: Replace([d], e, sub) == (if d == e then sub else [d]) + "";
    if c == '\\' {
      assert Replace([c], '\\', "\\\\") == "\\\\";
      assert "\\\\" == "\\" + "\\";
      ReplaceConcat("\\", "\\", '"', "\\\"");
      ReplaceConcat("\\", "\\", '\n', "\\n");
    } else if c == '"' {
      assert "\\\"" == "\\" + "\"";
      ReplaceConcat("\\", "\"", '\n', "\\n");
    }
  }

  /** The three passes over the whole string escape each character once: no pass touches
      what an earlier one wrote. */
  lemma {:induction false} ReplaceIsEscape(s: string)
    ensures Replace3(s) == Escape(s)
  {
    if s != "" {
      ReplaceIsEscape(s[1..]);
      Replace3Char(s[0]);
      assert s == [s[0]] + s[1..];
      ReplaceConcat([s[0]], s[1..], '\\', "\\\\");
      ReplaceConcat(Replace([s[0]], '\\', "\\\\"), Replace(s[1..], '\\', "\\\\"), '"', "\\\"");
      ReplaceConcat(Replace(Replace([s[0]], '\\', "\\\\"), '"', "\\\""),
                    Replace(Replace(s[1..], '\\', "\\\\"), '"', "\\\""), '\n', "\\n");
    }
  }

  lemma {:induction false} UnquoteEscape(s: string)
    requires TextOk(s)
    ensures Unquote(Escape(s) + "\"") == Some(s)
  {
    if s == "" {
      assert Escape(s) + "\"" == "\"";
    } else {
      var tail := Escape(s[1..]) + "\"";
      UnquoteEscape(s[1..]);
      assert Escape(s) + "\"" == EscapeChar(s[0]) + tail;
      UnquoteChar(s[0], tail);
      assert s == [s[0]] + s[1..];
    }
  }

  lemma UnquoteChar(c: char, tail: string)
    requires c == '\n' || Printable(c)
    requires Unquote(tail).Some?
    ensures Unquote(EscapeChar(c) + tail) == Some([c] + Unquote(tail).value)
  {
    var e := EscapeChar(c);
    assert (e + tail)[|e|..] == tail;
  }

  /** A scalar's text: on one line, not mistaken for an item or an entry, and read back. */
  lemma ScalarReads(t: Tree)
    requires !t.List? && !t.Dict? && Plain(t) && StringsOk(t)
    ensures ReadScalar(Scalar(t)) == Some(t)
    ensures !IsDashed(Scalar(t)) && !IsKeyed(Scalar(t))
  {
    match t
    case Str(s) => QuotedReads(s);
    case Int(n) => IntReads(n);
    case Float(repr) => if KeyLen(repr) < |repr| { KeyStops(repr); }
    case Null => assert KeyLen("null") == 4;
    case Bool(b) => assert KeyLen("true") == 4 && KeyLen("false") == 5;
  }

  lemma {:induction false} KeyStops(s: string)
    ensures KeyLen(s) < |s| ==> !KeyChar(s[KeyLen(s)])
    ensures (forall i :: 0 <= i < |s| ==> KeyChar(s[i])) ==> KeyLen(s) == |s|
  {
    if s != "" { KeyStops(s[1..]); }
  }

  lemma QuotedReads(s: string)
    requires TextOk(s)
    ensures Quoted(s) != "" && Quoted(s)[0] == '"' && ReadScalar(Quoted(s)) == Some(Str(s))
    ensures !IsDashed(Quoted(s)) && !IsKeyed(Quoted(s))
  {
    ReplaceIsEscape(s);
    UnquoteEscape(s);
    assert Quoted(s)[1..] == Escape(s) + "\"";
  }

  lemma IntReads(n: int)
    ensures ReadScalar(PrintInt(n)) == Some(Int(n)) && !IsDashed(PrintInt(n)) && !IsKeyed(PrintInt(n))
  {
    var s := PrintInt(n);
    PrintNatReads(if n < 0 then -n else n);
    if n < 0 { assert s[1..] == PrintNat(-n) && !IsDigit(s[0]); }
    KeyStops(s);
  }

  // -------------------------------------------------------------- the layout

  /** The lines further to the right. */
  function Shift(ls: seq<Line>, more: nat): (r: seq<Line>)
    ensures |r| == |ls|
  {
    if ls == [] then [] else [Line(ls[0].column + more, ls[0].text)] + Shift(ls[1..], more)
  }

  lemma {:induction false} ShiftConcat(a: seq<Line>, b: seq<Line>, more: nat)
    ensures Shift(a + b, more) == Shift(a, more) + Shift(b, more)
  {
    if a == [] {
      assert a + b == b;
    } else {
      ShiftConcat(a[1..], b, more);
      assert (a + b)[0] == a[0] && (a + b)[1..] == a[1..] + b;
      var first := [Line(a[0].column + more, a[0].text)];
      assert Shift(a, more) == first + Shift(a[1..], more);
      assert Shift(a + b, more) == first + Shift(a[1..] + b, more);
      hide *;
      ConcatAssociative(first, Shift(a[1..], more), Shift(b, more));
    }
  }

  lemma {:induction false} EmitShifts(t: Tree, indent: nat)
    ensures Emit(t, indent + 1) == Shift(Emit(t, indent), 2)
    decreases t, 1
  {
    match t
    case Dict(es) => EntriesShift(es, indent);
    case List(items) => ItemsShift(items, indent);
    case _ =>
  }

  lemma {:induction false} EntriesShift(es: seq<Entry>, indent: nat)
    ensures EmitEntries(es, indent + 1) == Shift(EmitEntries(es, indent), 2)
    decreases es, 0
  {
    if es != [] {
      EntryShifts(es[0], indent);
      EntriesShift(es[1..], indent);
      ShiftConcat(EmitEntry(es[0], indent), EmitEntries(es[1..], indent), 2);
    }
  }

  lemma {:induction false} EntryShifts(e: Entry, indent: nat)
    ensures EmitEntry(e, indent + 1) == Shift(EmitEntry(e, indent), 2)
    decreases e, 2
  {
    if e.value.Block() {
      EmitShifts(e.value, indent + 1);
      ShiftConcat([Line(2 * indent, e.key + ":")], Emit(e.value, indent + 1), 2);
    }
  }

  lemma {:induction false} ItemsShift(items: seq<Tree>, indent: nat)
    ensures EmitItems(items, indent + 1) == Shift(EmitItems(items, indent), 2)
    decreases items, 0
  {
    if items != [] {
      ItemShifts(items[0], indent);
      ItemsShift(items[1..], indent);
      ShiftConcat(EmitItem(items[0], indent), EmitItems(items[1..], indent), 2);
    }
  }

  lemma {:induction false} ItemShifts(item: Tree, indent: nat)
    ensures EmitItem(item, indent + 1) == Shift(EmitItem(item, indent), 2)
    decreases item, 2
  {
    if item.Block() {
      EmitShifts(item, indent + 1);
      var block := Emit(item, indent + 1);
      assert Shift(block, 2)[1..] == Shift(block[1..], 2);
      ShiftConcat([Line(2 * indent, "- " + block[0].text)], block[1..], 2);
    }
  }

  /** A block under a key is what it is on its own, two columns to the right and below the key; in a
      list its first line stands behind the dash. */
  lemma NestedExactly(key: string, block: Tree)
    requires block.Block()
    ensures Emit(Dict([Entry(key, block)]), 0) == [Line(0, key + ":")] + Shift(Emit(block, 0), 2)
    ensures Emit(List([block]), 0) ==
      [Line(0, "- " + Emit(block, 0)[0].text)] + Shift(Emit(block, 0)[1..], 2)
  {
    EmitShifts(block, 0);
    var own := Emit(block, 0);
    var e := Entry(key, block);
    assert [e][1..] == [] && [block][1..] == [];
    assert EmitEntries([e], 0) == EmitEntry(e, 0) + [] == EmitEntry(e, 0);
    assert EmitItems([block], 0) == EmitItem(block, 0) + [] == EmitItem(block, 0);
    assert Shift(own, 2)[1..] == Shift(own[1..], 2) && Shift(own, 2)[0].text == own[0].text;
  }

  /** Anything else stands behind its key or dash as it is on its own, an empty container in words of
      its own. */
  lemma ScalarsExactly(key: string, v: Tree)
    requires !v.Block()
    ensures v.List? ==> Emit(Dict([Entry(key, v)]), 0) == [Line(0, key + ": []")]
    ensures v.Dict? ==> Emit(Dict([Entry(key, v)]), 0) == [Line(0, key + ": {}")]
    ensures !v.List? && !v.Dict? ==> Emit(Dict([Entry(key, v)]), 0) == [Line(0, key + ": " + Print(v))]
    ensures Emit(List([v]), 0) ==
      [Line(0, "- " + if v.List? then "\"[]\"" else if v.Dict? then "\"{}\"" else Print(v))]
    ensures v.Null? ==> Print(v) == "null"
    ensures v.Bool? ==> Print(v) == if v.bit then "true" else "false"
    ensures v.Int? && v.number >= 0 ==> Print(v) == PrintNat(v.number)
    ensures v.Int? && v.number < 0 ==> Print(v) == "-" + PrintNat(-v.number)
  {
    var e := Entry(key, v);
    assert [e][1..] == [] && [v][1..] == [];
    assert EmitEntries([e], 0) == EmitEntry(e, 0) + [] == EmitEntry(e, 0);
    assert EmitItems([v], 0) == EmitItem(v, 0) + [] == EmitItem(v, 0);
    if !v.List? && !v.Dict? { PrintedAlone(v); } else { EmptyQuoted(); }
    hide PrintNat, Replace3;
  }

  lemma EmptyQuoted()
    ensures Quoted("[]") == "\"[]\"" && Quoted("{}") == "\"{}\""
  {
    forall s | s == "[]" || s == "{}" ensures Replace3(s) == s {
      ReplaceIsEscape(s);
      assert s[1..][1..] == "" && Escape(s[1..]) == [s[1]] + "" == [s[1]];
    }
  }

  lemma PrintedAlone(v: Tree)
    requires !v.List? && !v.Dict?
    ensures Print(v) == Scalar(v)
  {
    hide Scalar;
    var l := Line(0, Scalar(v));
    assert [l][1..] == [];
    assert Show(l) == Scalar(v);
    assert ShowAll([l]) == [Show(l)] + [] == [Show(l)];
  }

  // -------------------------------------------------------------- blocks read back

  /** The lines after a block: none, or one further left. */
  predicate Stops(rest: seq<Line>, column: nat) {
    rest == [] || rest[0].column < column
  }

  lemma {:induction false} KeyLenPlain(k: string, tail: string)
    requires (forall i :: 0 <= i < |k| ==> KeyChar(k[i])) && tail != "" && !KeyChar(tail[0])
    ensures KeyLen(k + tail) == |k|
  {
    if k == "" { assert k + tail == tail; } else {
      assert (k + tail)[1..] == k[1..] + tail;
      KeyLenPlain(k[1..], tail);
    }
  }

  /** A key's line: `tail` is what follows the colon. */
  lemma KeyedLine(k: string, tail: string)
    requires PlainKey(k) && (tail != "" ==> tail[0] == ' ')
    ensures var x := k + ":" + tail;
      IsKeyed(x) && !IsDashed(x) && x[..KeyLen(x)] == k && x[KeyLen(x) + 1..] == tail
  {
    assert k + ":" + tail == k + (":" + tail);
    KeyLenPlain(k, ":" + tail);
  }

  lemma ReadScalarLine(t: Tree, column: nat, rest: seq<Line>)
    requires !t.List? && !t.Dict? && Plain(t) && StringsOk(t)
    ensures ReadNode([Line(column, Scalar(t))] + rest, column) == Some((t, rest))
  {
    ScalarReads(t);
    assert ([Line(column, Scalar(t))] + rest)[1..] == rest;
  }

  /** The printed block of t, whatever follows further left, is read as what its text says. */
  lemma {:induction false} NodeReads(t: Tree, indent: nat, rest: seq<Line>)
    requires Plain(t) && StringsOk(t) && !EmptyContainer(t) && Stops(rest, 2 * indent)
    ensures ReadNode(Emit(t, indent) + rest, 2 * indent) == Some((Norm(t), rest))
    decreases t, 1
  {
    match t
    case Dict(es) =>
      EntriesRead(es, indent, rest);
      EntryShape(es[0], indent);
      assert (EmitEntries(es, indent) + rest)[0] == EmitEntry(es[0], indent)[0];
    case List(items) =>
      ItemsRead(items, indent, rest);
      ItemShape(items[0], indent);
      assert (EmitItems(items, indent) + rest)[0] == EmitItem(items[0], indent)[0];
    case _ => ReadScalarLine(t, 2 * indent, rest);
  }

  /** An entry's first line, and all of it when it is no block. */
  lemma EntryLines(e: Entry, indent: nat)
    ensures e.value.Block() ==>
      EmitEntry(e, indent) == [Line(2 * indent, e.key + ":" + "")] + Emit(e.value, indent + 1)
    ensures !e.value.Block() ==>
      EmitEntry(e, indent) == [Line(2 * indent, e.key + ":" + Inline(e.value))]
  {
    if e.value.Block() {
      assert e.key + ":" + "" == e.key + ":";
    } else if e.value.Dict? {
      assert e.key + ": {}" == e.key + ":" + " {}";
    } else if e.value.List? {
      assert e.key + ": []" == e.key + ":" + " []";
    } else {
      assert e.key + ": " + Scalar(e.value) == e.key + ":" + (" " + Scalar(e.value));
    }
  }

  lemma EntryShape(e: Entry, indent: nat)
    requires PlainKey(e.key)
    ensures IsKeyed(EmitEntry(e, indent)[0].text) && !IsDashed(EmitEntry(e, indent)[0].text)
  {
    EntryLines(e, indent);
    KeyedLine(e.key, if e.value.Block() then "" else Inline(e.value));
  }

  /** What follows the colon of an entry that is not a block. */
  function Inline(t: Tree): string {
    if t.Dict? then " {}" else if t.List? then " []" else " " + Scalar(t)
  }

  lemma ItemShape(item: Tree, indent: nat)
    ensures IsDashed(EmitItem(item, indent)[0].text)
  {}

  /** The first line of an item, its dash taken as two columns of indentation, begins the item itself. */
  lemma ItemInner(item: Tree, indent: nat, more: seq<Line>)
    ensures var ls := EmitItem(item, indent) + more;
      [Line(2 * indent + 2, ls[0].text[2..])] + ls[1..] ==
        (if item.Block() then Emit(item, indent + 1) else [Line(2 * indent + 2, Scalar(item))]) + more
  {
    var ls := EmitItem(item, indent) + more;
    if item.Block() {
      var b := Emit(item, indent + 1);
      assert ("- " + b[0].text)[2..] == b[0].text;
      assert ls[1..] == b[1..] + more;
      assert b == [b[0]] + b[1..];
    } else {
      assert ("- " + Scalar(item))[2..] == Scalar(item);
      assert ls[1..] == more;
    }
  }

  lemma NormOfScalar(t: Tree)
    requires !t.Block() && Plain(t) && StringsOk(t)
    ensures var n := NormItem(t);
      !n.List? && !n.Dict? && Plain(n) && StringsOk(n) && Scalar(n) == Scalar(t)
    ensures !EmptyContainer(t) ==> Norm(t) == t
  {
    if EmptyContainer(t) {
      assert TextOk("[]") && TextOk("{}");
    } else {
      assert NormItem(t) == t;
    }
  }

  lemma {:induction false} ItemReads(item: Tree, indent: nat, more: seq<Line>)
    requires Plain(item) && StringsOk(item) && Stops(more, 2 * indent + 2)
    ensures var ls := EmitItem(item, indent) + more;
      ReadNode([Line(2 * indent + 2, ls[0].text[2..])] + ls[1..], 2 * indent + 2) == Some((NormItem(item), more))
    decreases item, 2
  {
    ItemInner(item, indent, more);
    if item.Block() {
      NodeReads(item, indent + 1, more);
    } else {
      NormOfScalar(item);
      ReadScalarLine(NormItem(item), 2 * indent + 2, more);
    }
  }

  lemma {:induction false} ItemsRead(items: seq<Tree>, indent: nat, rest: seq<Line>)
    requires (forall i :: 0 <= i < |items| ==> Plain(items[i]) && StringsOk(items[i])) && Stops(rest, 2 * indent)
    ensures ReadItems(EmitItems(items, indent) + rest, 2 * indent) == Some((NormItems(items), rest))
    decreases items, 0
  {
    hide ReadItems, ReadNode, EmitItem, Emit, Plain, StringsOk, NormItem, IsDashed;
    if items == [] {
      assert EmitItems(items, indent) + rest == rest;
      NoEntries(rest, 2 * indent);
    } else {
      var more := EmitItems(items[1..], indent) + rest;
      var ls := EmitItem(items[0], indent) + more;
      assert EmitItems(items, indent) + rest == ls;
      ItemsRead(items[1..], indent, rest);
      ItemShape(items[0], indent);
      ItemReads(items[0], indent, more);
      ReadItemsStep(ls, 2 * indent, NormItem(items[0]), more, NormItems(items[1..]), rest);
    }
  }

  lemma ReadItemsStep(ls: seq<Line>, column: nat, item: Tree, more: seq<Line>, items: seq<Tree>, rest: seq<Line>)
    requires ls != [] && ls[0].column == column && IsDashed(ls[0].text)
    requires ReadNode([Line(column + 2, ls[0].text[2..])] + ls[1..], column + 2) == Some((item, more))
    requires ReadItems(more, column) == Some((items, rest))
    ensures ReadItems(ls, column) == Some(([item] + items, rest))
  {}

  lemma ReadEntriesStep(ls: seq<Line>, column: nat, k: string, tail: string, value: Tree, more: seq<Line>,
                        es: seq<Entry>, rest: seq<Line>)
    requires ls != [] && ls[0] == Line(column, k + ":" + tail) && PlainKey(k) && (tail != "" ==> tail[0] == ' ')
    requires tail == "" ==> |ls| > 1 && ls[1].column > column && ReadNode(ls[1..], ls[1].column) == Some((value, more))
    requires tail != "" ==> more == ls[1..]
    requires tail != "" ==>
      if tail == " {}" then value == Dict([]) else if tail == " []" then value == List([])
      else ReadScalar(tail[1..]) == Some(value)
    requires ReadEntries(more, column) == Some((es, rest))
    ensures ReadEntries(ls, column) == Some(([Entry(k, value)] + es, rest))
  {
    KeyedLine(k, tail);
  }

  lemma ConsLines(first: Line, block: seq<Line>, more: seq<Line>)
    ensures var ls := ([first] + block) + more;
      ls[0] == first && ls[1..] == block + more && (block != [] ==> ls[1] == block[0])
  {}

  lemma BlockEntryReads(e: Entry, indent: nat, more: seq<Line>, es: seq<Entry>, rest: seq<Line>)
    requires PlainKey(e.key) && e.value.Block()
    requires ReadNode(Emit(e.value, indent + 1) + more, 2 * indent + 2) == Some((Norm(e.value), more))
    requires ReadEntries(more, 2 * indent) == Some((es, rest))
    ensures ReadEntries(EmitEntry(e, indent) + more, 2 * indent) == Some(([Entry(e.key, Norm(e.value))] + es, rest))
  {
    EntryLines(e, indent);
    ConsLines(Line(2 * indent, e.key + ":" + ""), Emit(e.value, indent + 1), more);
    ReadEntriesStep(EmitEntry(e, indent) + more, 2 * indent, e.key, "", Norm(e.value), more, es, rest);
  }

  lemma InlineEntryReads(e: Entry, indent: nat, more: seq<Line>, es: seq<Entry>, rest: seq<Line>)
    requires PlainKey(e.key) && Plain(e.value) && StringsOk(e.value) && !e.value.Block()
    requires ReadEntries(more, 2 * indent) == Some((es, rest))
    ensures ReadEntries(EmitEntry(e, indent) + more, 2 * indent) == Some(([Entry(e.key, Norm(e.value))] + es, rest))
  {
    EntryLines(e, indent);
    ConsLines(Line(2 * indent, e.key + ":" + Inline(e.value)), [], more);
    InlineReads(e.value);
    InlineStep(EmitEntry(e, indent) + more, 2 * indent, e.key, Inline(e.value), Norm(e.value), more, es, rest);
  }

  lemma InlineStep(ls: seq<Line>, column: nat, k: string, tail: string, value: Tree, more: seq<Line>,
                   es: seq<Entry>, rest: seq<Line>)
    requires ls != [] && ls[0] == Line(column, k + ":" + tail) && PlainKey(k) && tail != "" && tail[0] == ' '
    requires more == ls[1..] && ReadEntries(more, column) == Some((es, rest))
    requires if tail == " {}" then value == Dict([]) else if tail == " []" then value == List([])
      else ReadScalar(tail[1..]) == Some(value)
    ensures ReadEntries(ls, column) == Some(([Entry(k, value)] + es, rest))
  {
    ReadEntriesStep(ls, column, k, tail, value, more, es, rest);
  }

  lemma NoEntries(rest: seq<Line>, column: nat)
    requires Stops(rest, column)
    ensures ReadEntries(rest, column) == Some(([], rest)) && ReadItems(rest, column) == Some(([], rest))
  {}

  /** What follows the block of an entry is further left than the block. */
  lemma EntriesStop(es: seq<Entry>, indent: nat, rest: seq<Line>)
    requires Stops(rest, 2 * indent)
    ensures Stops(EmitEntries(es, indent) + rest, 2 * indent + 2)
  {
    var ls := EmitEntries(es, indent) + rest;
    if es != [] { assert ls[0] == EmitEntries(es, indent)[0]; } else { assert ls == rest; }
  }

  lemma {:induction false} EntriesRead(es: seq<Entry>, indent: nat, rest: seq<Line>)
    requires forall i :: 0 <= i < |es| ==> PlainKey(es[i].key) && Plain(es[i].value) && StringsOk(es[i].value)
    requires Stops(rest, 2 * indent)
    ensures ReadEntries(EmitEntries(es, indent) + rest, 2 * indent) == Some((NormEntries(es), rest))
    decreases es, 0
  {
    hide ReadEntries, ReadNode, EmitEntry, Emit, PlainKey, Plain, StringsOk, Norm;
    if es == [] {
      assert EmitEntries(es, indent) + rest == rest;
      NoEntries(rest, 2 * indent);
    } else {
      var e, more := es[0], EmitEntries(es[1..], indent) + rest;
      assert EmitEntries(es, indent) + rest == EmitEntry(e, indent) + more;
      EntriesRead(es[1..], indent, rest);
      if e.value.Block() {
        EntriesStop(es[1..], indent, rest);
        NodeReads(e.value, indent + 1, more);
        BlockEntryReads(e, indent, more, NormEntries(es[1..]), rest);
      } else {
        InlineEntryReads(e, indent, more, NormEntries(es[1..]), rest);
      }
    }
  }

  lemma InlineReads(t: Tree)
    requires !t.Block() && Plain(t) && StringsOk(t)
    ensures Inline(t) != "" && Inline(t)[0] == ' '
    ensures if Inline(t) == " {}" then Norm(t) == Dict([]) else if Inline(t) == " []" then Norm(t) == List([])
      else ReadScalar(Inline(t)[1..]) == Some(Norm(t))
  {
    hide ReadScalar, Scalar, Plain, StringsOk;
    if !t.Dict? && !t.List? {
      ScalarReads(t);
      assert Inline(t)[1..] == Scalar(t);
      EmptiesUnread();
      assert " {}"[1..] == "{}" && " []"[1..] == "[]";
    }
  }

  lemma EmptiesUnread()
    ensures ReadScalar("{}") == None && ReadScalar("[]") == None
  {}

  // -------------------------------------------------------------- the text read back

  predicate NoBreak(s: string) { forall i :: 0 <= i < |s| ==> !IsBreak(s[i]) }

  /** A line that shows as one physical line and whose indentation can be told from its text. */
  predicate LineOk(l: Line) {
    NoBreak(l.text) && l.text != "" && l.text[0] != ' '
  }

  predicate LinesOk(ls: seq<Line>) { forall i :: 0 <= i < |ls| ==> LineOk(ls[i]) }

  lemma {:induction false} EscapeNoBreak(s: string)
    requires TextOk(s)
    ensures NoBreak(Escape(s))
  {
    if s != "" { EscapeNoBreak(s[1..]); }
  }

  lemma QuotedLineOk(s: string)
    requires TextOk(s)
    ensures NoBreak(Quoted(s)) && Quoted(s) != "" && Quoted(s)[0] != ' '
  {
    ReplaceIsEscape(s);
    EscapeNoBreak(s);
    hide Escape;
  }

  lemma ScalarLineOk(t: Tree)
    requires Plain(t) && StringsOk(t)
    ensures NoBreak(Scalar(t)) && Scalar(t) != "" && Scalar(t)[0] != ' '
  {
    match t
    case Str(s) => QuotedLineOk(s);
    case Int(n) => PrintNatReads(if n < 0 then -n else n);
    case List(_) => QuotedLineOk("[]");
    case Dict(_) => QuotedLineOk("{}");
    case _ =>
  }

  lemma {:induction false} EmitOk(t: Tree, indent: nat)
    requires Plain(t) && StringsOk(t)
    ensures LinesOk(Emit(t, indent))
    decreases t, 1
  {
    match t
    case Dict(es) => EmitEntriesOk(es, indent);
    case List(items) => EmitItemsOk(items, indent);
    case _ => ScalarLineOk(t);
  }

  lemma {:induction false} EmitEntriesOk(es: seq<Entry>, indent: nat)
    requires forall i :: 0 <= i < |es| ==> PlainKey(es[i].key) && Plain(es[i].value) && StringsOk(es[i].value)
    ensures LinesOk(EmitEntries(es, indent))
    decreases es, 0
  {
    if es != [] {
      var e := es[0];
      EntryLines(e, indent);
      hide Plain, StringsOk, Scalar, Emit, IsBreak, Norm;
      if e.value.Block() {
        EmitOk(e.value, indent + 1);
      } else if !e.value.Dict? && !e.value.List? {
        ScalarLineOk(e.value);
      }
      assert LinesOk(EmitEntry(e, indent));
      EmitEntriesOk(es[1..], indent);
    }
  }

  lemma {:induction false} EmitItemsOk(items: seq<Tree>, indent: nat)
    requires forall i :: 0 <= i < |items| ==> Plain(items[i]) && StringsOk(items[i])
    ensures LinesOk(EmitItems(items, indent))
    decreases items, 0
  {
    if items != [] {
      var item := items[0];
      if item.Block() { EmitOk(item, indent + 1); } else { ScalarLineOk(item); }
      assert LinesOk(EmitItem(item, indent));
      EmitItemsOk(items[1..], indent);
    }
  }

  lemma {:induction false} SplitOneLine(s: string, rest: string)
    requires NoBreak(s)
    ensures SplitLines(s) == [s]
    ensures SplitLines(s + "\n" + rest) == [s] + SplitLines(rest)
  {
    if s == "" {
      assert s + "\n" + rest == "\n" + rest;
    } else {
      assert NoBreak(s[1..]);
      SplitOneLine(s[1..], rest);
      assert (s + "\n" + rest)[1..] == s[1..] + "\n" + rest;
      assert s == [s[0]] + s[1..];
    }
  }

  lemma {:induction false} SplitJoined(lines: seq<string>)
    requires lines != [] && forall i :: 0 <= i < |lines| ==> NoBreak(lines[i])
    ensures SplitLines(Join(lines)) == lines
  {
    if |lines| == 1 {
      SplitOneLine(lines[0], "");
    } else {
      SplitJoined(lines[1..]);
      SplitOneLine(lines[0], Join(lines[1..]));
      assert lines == [lines[0]] + lines[1..];
    }
  }

  lemma {:induction false} IndentationOf(n: nat, text: string)
    requires text == "" || text[0] != ' '
    ensures Indentation(Spaces(n) + text) == n
  {
    if n == 0 {
      assert Spaces(n) + text == text;
    } else {
      assert (Spaces(n) + text)[1..] == Spaces(n - 1) + text;
      IndentationOf(n - 1, text);
    }
  }

  lemma {:induction false} ReadShown(ls: seq<Line>)
    requires LinesOk(ls)
    ensures ReadLines(ShowAll(ls)) == ls
    ensures forall i :: 0 <= i < |ls| ==> NoBreak(ShowAll(ls)[i])
  {
    if ls != [] {
      ReadShown(ls[1..]);
      var l := ls[0];
      IndentationOf(l.column, l.text);
      assert Show(l)[l.column..] == l.text;
      assert NoBreak(Show(l));
    }
  }

  /** Reading what was printed gives back what the text says, for every plain tree. */
  lemma ReadPrinted(t: Tree)
    requires Plain(t) && StringsOk(t) && !EmptyContainer(t)
    ensures Read(Print(t)) == Some(Norm(t))
  {
    var ls := Emit(t, 0);
    EmitOk(t, 0);
    ReadShown(ls);
    SplitJoined(ShowAll(ls));
    NodeReads(t, 0, []);
    assert ls + [] == ls;
  }

  lemma {:induction false} NormIdle(t: Tree)
    ensures Norm(t) == t <==> NoEmptyItem(t)
    decreases t, 1
  {
    match t
    case List(items) => NormItemsIdle(items);
    case Dict(es) => NormEntriesIdle(es);
    case _ =>
  }

  lemma {:induction false} NormItemsIdle(items: seq<Tree>)
    ensures NormItems(items) == items <==>
      forall i :: 0 <= i < |items| ==> !EmptyContainer(items[i]) && NoEmptyItem(items[i])
    decreases items, 0
  {
    if items != [] {
      NormIdle(items[0]);
      NormItemsIdle(items[1..]);
      var n := [NormItem(items[0])] + NormItems(items[1..]);
      assert n == items <==> NormItem(items[0]) == items[0] && NormItems(items[1..]) == items[1..] by {
        assert n[1..] == NormItems(items[1..]);
        assert items == [items[0]] + items[1..];
      }
    }
  }

  lemma {:induction false} NormEntriesIdle(es: seq<Entry>)
    ensures NormEntries(es) == es <==> forall i :: 0 <= i < |es| ==> NoEmptyItem(es[i].value)
    decreases es, 0
  {
    if es != [] {
      NormIdle(es[0].value);
      NormEntriesIdle(es[1..]);
      var n := [Entry(es[0].key, Norm(es[0].value))] + NormEntries(es[1..]);
      assert n == es <==> Norm(es[0].value) == es[0].value && NormEntries(es[1..]) == es[1..] by {
        assert n[1..] == NormEntries(es[1..]);
        assert es == [es[0]] + es[1..];
      }
    }
  }

  // -------------------------------------------------------------- exactly which trees survive

  lemma {:induction false} UnquoteOk(s: string)
    ensures Unquote(s).Some? ==> TextOk(Unquote(s).value)
  {
    if s != "" && s[0] != '"' {
      if s[0] == '\\' && |s| >= 2 { UnquoteOk(s[2..]); } else { UnquoteOk(s[1..]); }
    }
  }

  lemma ReadScalarOk(s: string)
    ensures ReadScalar(s).Some? ==> StringsOk(ReadScalar(s).value)
  {
    if s != "" && s[0] == '"' { UnquoteOk(s[1..]); }
  }

  /** No text makes the reader return a string with a stray control character. */
  lemma {:induction false} ReadNodeOk(ls: seq<Line>, column: nat)
    ensures ReadNode(ls, column).Some? ==> StringsOk(ReadNode(ls, column).value.0)
    decreases Size(ls), 2
  {
    if ls != [] && ls[0].column == column {
      if IsDashed(ls[0].text) { ReadItemsOk(ls, column); }
      else if IsKeyed(ls[0].text) { ReadEntriesOk(ls, column); }
      else { ReadScalarOk(ls[0].text); }
    }
  }

  lemma {:induction false} ReadItemsOk(ls: seq<Line>, column: nat)
    ensures ReadItems(ls, column).Some? ==>
      forall i :: 0 <= i < |ReadItems(ls, column).value.0| ==> StringsOk(ReadItems(ls, column).value.0[i])
    decreases Size(ls), 1
  {
    if ls != [] && ls[0].column == column && IsDashed(ls[0].text) {
      var inner := [Line(column + 2, ls[0].text[2..])] + ls[1..];
      assert inner[1..] == ls[1..];
      ReadNodeOk(inner, column + 2);
      var item := ReadNode(inner, column + 2);
      if item.Some? { ReadItemsOk(item.value.1, column); }
    }
  }

  lemma EmptiesOk()
    ensures StringsOk(List([])) && StringsOk(Dict([]))
  {}

  lemma {:induction false} ReadEntriesOk(ls: seq<Line>, column: nat)
    ensures ReadEntries(ls, column).Some? ==>
      forall i :: 0 <= i < |ReadEntries(ls, column).value.0| ==> StringsOk(ReadEntries(ls, column).value.0[i].value)
    decreases Size(ls), 1
  {
    hide ReadScalar, ReadNode, StringsOk;
    if ls != [] && ls[0].column == column && IsKeyed(ls[0].text) {
      var text := ls[0].text;
      var after := text[KeyLen(text) + 1..];
      EmptiesOk();
      if after != "" {
        ReadScalarOk(after[1..]);
        ReadEntriesOk(ls[1..], column);
      } else if |ls| > 1 {
        ReadNodeOk(ls[1..], ls[1].column);
        var value := ReadNode(ls[1..], ls[1].column);
        if value.Some? { ReadEntriesOk(value.value.1, column); }
      }
    }
  }

  lemma EmptyTopUnread(t: Tree)
    requires EmptyContainer(t)
    ensures Print(t) == "" && Read(Print(t)) == None
  {
    assert SplitLines("") == [""];
    assert ReadLines([""]) == [Line(0, "")];
  }

  /** The round trip holds for exactly these trees: no string holds a control character
      other than tab and line feed, no list holds an empty container, and the tree is not
      itself an empty container. */
  lemma RoundTripExact(t: Tree)
    requires Plain(t)
    ensures Read(Print(t)) == Some(t) <==> StringsOk(t) && NoEmptyItem(t) && !EmptyContainer(t)
  {
    if EmptyContainer(t) {
      EmptyTopUnread(t);
    } else if StringsOk(t) {
      ReadPrinted(t);
      NormIdle(t);
    } else {
      ReadNodeOk(ReadLines(SplitLines(Print(t))), 0);
    }
  }

  /** Two such trees with one text are one tree. */
  lemma PrintInjective(t: Tree, u: Tree)
    requires Plain(t) && StringsOk(t) && NoEmptyItem(t) && !EmptyContainer(t)
    requires Plain(u) && StringsOk(u) && NoEmptyItem(u) && !EmptyContainer(u)
    requires Print(t) == Print(u)
    ensures t == u
  {
    RoundTripExact(t);
    RoundTripExact(u);
  }

  lemma OneItem(t: Tree)
    requires !t.Block()
    ensures Emit(List([t]), 0) == [Line(0, "- " + Scalar(t))]
  {
    assert [t][1..] == [];
    assert EmitItems([t], 0) == EmitItem(t, 0) + EmitItems([], 0);
  }

  /** An empty list in a list prints as the string "[]" does, and does not come back. */
  lemma EmptyItemLost()
    ensures Print(List([List([])])) == Print(List([Str("[]")]))
    ensures Read(Print(List([List([])]))) != Some(List([List([])]))
  {
    OneItem(List([]));
    OneItem(Str("[]"));
    var t := List([List([])]);
    assert EmptyContainer(t.items[0]);
    RoundTripExact(t);
  }

  /** A carriage return is not escaped, and breaks the line it is printed on. */
  lemma CarriageReturnLost()
    ensures Read(Print(Str("\r"))) != Some(Str("\r"))
  {
    assert !TextOk("\r") by { assert "\r"[0] == '\r'; }
    RoundTripExact(Str("\r"));
  }

  // -------------------------------------------------------------- the printer's loops

  /** The two-pass split of yamlify's list branch, on line feeds alone. */
  function SplitFeed(s: string): (lines: seq<string>)
    ensures lines != []
  {
    if s == "" then [""]
    else
      var rest := SplitFeed(s[1..]);
      if s[0] == '\n' then [""] + rest else [[s[0]] + rest[0]] + rest[1..]
  }

  predicate NoFeed(s: string) { forall i :: 0 <= i < |s| ==> s[i] != '\n' }

  lemma {:induction false} SplitOneFeed(s: string, rest: string)
    requires NoFeed(s)
    ensures SplitFeed(s) == [s]
    ensures SplitFeed(s + "\n" + rest) == [s] + SplitFeed(rest)
  {
    if s == "" {
      assert s + "\n" + rest == "\n" + rest;
    } else {
      assert NoFeed(s[1..]);
      SplitOneFeed(s[1..], rest);
      assert (s + "\n" + rest)[1..] == s[1..] + "\n" + rest;
      assert s == [s[0]] + s[1..];
    }
  }

  lemma {:induction false} SplitFeedJoined(lines: seq<string>)
    requires lines != [] && forall i :: 0 <= i < |lines| ==> NoFeed(lines[i])
    ensures SplitFeed(Join(lines)) == lines
  {
    if |lines| == 1 {
      SplitOneFeed(lines[0], "");
    } else {
      SplitFeedJoined(lines[1..]);
      SplitOneFeed(lines[0], Join(lines[1..]));
      assert lines == [lines[0]] + lines[1..];
    }
  }

  /** Whatever the strings hold, no printed line holds a line feed: no string value breaks
      a line at a line feed. */
  lemma {:induction false} EscapeNoFeed(s: string)
    ensures NoFeed(Escape(s))
  {
    if s != "" { EscapeNoFeed(s[1..]); }
  }

  lemma QuotedNoFeed(s: string)
    ensures NoFeed(Quoted(s))
  {
    ReplaceIsEscape(s);
    EscapeNoFeed(s);
    hide Escape;
  }

  lemma ScalarNoFeed(t: Tree)
    requires Plain(t)
    ensures NoFeed(Scalar(t))
  {
    match t
    case Str(s) => QuotedNoFeed(s);
    case Int(n) => PrintNatReads(if n < 0 then -n else n);
    case List(_) => QuotedNoFeed("[]");
    case Dict(_) => QuotedNoFeed("{}");
    case _ =>
  }

  predicate LinesFree(ls: seq<Line>) { forall i :: 0 <= i < |ls| ==> NoFeed(ls[i].text) }

  lemma {:induction false} EmitNoFeed(t: Tree, indent: nat)
    requires Plain(t)
    ensures LinesFree(Emit(t, indent))
    decreases t, 1
  {
    match t
    case Dict(es) => EntriesNoFeed(es, indent);
    case List(items) => ItemsNoFeed(items, indent);
    case _ => ScalarNoFeed(t);
  }

  lemma {:induction false} EntriesNoFeed(es: seq<Entry>, indent: nat)
    requires forall i :: 0 <= i < |es| ==> PlainKey(es[i].key) && Plain(es[i].value)
    ensures LinesFree(EmitEntries(es, indent))
    decreases es, 0
  {
    if es != [] {
      EntryLines(es[0], indent);
      InlineNoFeed(es[0].value);
      hide EmitEntry, Emit, PlainKey, Plain, NoFeed, Inline, Scalar;
      var e := es[0];
      if e.value.Block() {
        EmitNoFeed(e.value, indent + 1);
        KeyNoFeed(e.key, "");
      } else {
        KeyNoFeed(e.key, Inline(e.value));
      }
      EntriesNoFeed(es[1..], indent);
    }
  }

  lemma KeyNoFeed(k: string, tail: string)
    requires PlainKey(k) && NoFeed(tail)
    ensures NoFeed(k + ":" + tail)
  {
    assert forall i :: 0 <= i < |k| ==> KeyChar(k[i]);
  }

  lemma InlineNoFeed(t: Tree)
    requires Plain(t)
    ensures NoFeed("") && (!t.Block() ==> NoFeed(Inline(t)))
  {
    hide Scalar, Plain;
    if !t.Dict? && !t.List? { ScalarNoFeed(t); }
  }

  lemma {:induction false} ItemsNoFeed(items: seq<Tree>, indent: nat)
    requires forall i :: 0 <= i < |items| ==> Plain(items[i])
    ensures LinesFree(EmitItems(items, indent))
    decreases items, 0
  {
    if items != [] {
      if items[0].Block() { EmitNoFeed(items[0], indent + 1); } else { ScalarNoFeed(items[0]); }
      assert LinesFree(EmitItem(items[0], indent));
      ItemsNoFeed(items[1..], indent);
    }
  }

  lemma {:induction false} ShowNoFeed(ls: seq<Line>)
    requires LinesFree(ls)
    ensures forall i :: 0 <= i < |ls| ==> NoFeed(ShowAll(ls)[i])
  {
    if ls != [] { ShowNoFeed(ls[1..]); }
  }

  lemma {:induction false} ShowConcat(a: seq<Line>, b: seq<Line>)
    ensures ShowAll(a + b) == ShowAll(a) + ShowAll(b)
  {
    if a == [] { assert a + b == b; } else {
      assert (a + b)[1..] == a[1..] + b;
      ShowConcat(a[1..], b);
    }
  }

  lemma {:induction false} EntriesConcat(a: seq<Entry>, b: seq<Entry>, indent: nat)
    ensures EmitEntries(a + b, indent) == EmitEntries(a, indent) + EmitEntries(b, indent)
  {
    if a == [] { assert a + b == b; } else {
      assert (a + b)[1..] == a[1..] + b;
      EntriesConcat(a[1..], b, indent);
    }
  }

  lemma {:induction false} ItemsConcat(a: seq<Tree>, b: seq<Tree>, indent: nat)
    ensures EmitItems(a + b, indent) == EmitItems(a, indent) + EmitItems(b, indent)
  {
    if a == [] { assert a + b == b; } else {
      assert (a + b)[1..] == a[1..] + b;
      ItemsConcat(a[1..], b, indent);
    }
  }

  lemma {:induction false} JoinConcat(a: seq<string>, b: seq<string>)
    requires a != [] && b != []
    ensures Join(a + b) == Join(a) + "\n" + Join(b)
  {
    if |a| == 1 {
      assert (a + b)[1..] == b;
    } else {
      assert (a + b)[1..] == a[1..] + b;
      JoinConcat(a[1..], b);
    }
  }

  /** The text of a whole group of lines stands where its lines would. */
  lemma JoinNested(before: seq<string>, block: seq<string>)
    requires block != []
    ensures Join(before + [Join(block)]) == Join(before + block)
  {
    if before == [] {
      assert before + [Join(block)] == [Join(block)] && before + block == block;
    } else {
      JoinConcat(before, [Join(block)]);
      JoinConcat(before, block);
    }
  }

  lemma JoinGrow(lines: seq<string>, whole: seq<string>, more: seq<string>, block: seq<string>)
    requires Join(lines) == Join(whole) && (lines == [] <==> whole == [])
    requires Join(more) == Join(block) && more != [] && block != []
    ensures Join(lines + more) == Join(whole + block)
  {
    if lines == [] {
      assert lines + more == more && whole + block == block;
    } else {
      JoinConcat(lines, more);
      JoinConcat(whole, block);
    }
  }

  lemma ShowOne(l: Line)
    ensures ShowAll([l]) == [Show(l)]
  {}

  /** The lines a dictionary entry adds; a nested block is one element, joined already. */
  method EntryText(e: Entry, indent: nat) returns (lines: seq<string>)
    requires PlainKey(e.key) && Plain(e.value)
    ensures lines != [] && Join(lines) == Join(ShowAll(EmitEntry(e, indent)))
    decreases e, 0
  {
    var pad := Spaces(2 * indent);
    EntryLines(e, indent);
    hide EmitEntry, Emit, Plain, PlainKey;
    if e.value.Block() {
      var block := Yamlify(e.value, indent + 1);
      lines := [pad + e.key + ":", block];
      var head := Line(2 * indent, e.key + ":" + "");
      assert Show(head) == pad + e.key + ":";
      ShowOne(head);
      ghost var shown := ShowAll(Emit(e.value, indent + 1));
      ShowConcat([head], Emit(e.value, indent + 1));
      JoinNested([Show(head)], shown);
      assert lines == [Show(head)] + [Join(shown)];
    } else {
      lines := [pad + e.key + if e.value.Dict? then ": {}" else if e.value.List? then ": []"
                              else ": " + Scalar(e.value)];
      ShowOne(Line(2 * indent, e.key + ":" + Inline(e.value)));
      assert lines[0] == Show(Line(2 * indent, e.key + ":" + Inline(e.value)));
    }
  }

  /** Splitting a block's text on line feeds gives back its lines. */
  lemma BlockLines(t: Tree, indent: nat)
    requires Plain(t) && t.Block()
    ensures var ls := Emit(t, indent);
      SplitFeed(Join(ShowAll(ls))) == ShowAll(ls) == [Show(ls[0])] + ShowAll(ls[1..])
  {
    hide Emit;
    EmitNoFeed(t, indent);
    ShowNoFeed(Emit(t, indent));
    SplitFeedJoined(ShowAll(Emit(t, indent)));
  }

  /** The lines a list item adds: a block loses the indentation of its first line to the dash. */
  method ItemText(item: Tree, indent: nat) returns (lines: seq<string>)
    requires Plain(item)
    ensures lines == ShowAll(EmitItem(item, indent))
    decreases item, 2
  {
    hide Emit, NoFeed, SplitFeed, Join, ShowAll, Scalar;
    var pad := Spaces(2 * indent);
    if item.Block() {
      var text := Yamlify(item, indent + 1);
      ghost var ls := Emit(item, indent + 1);
      BlockLines(item, indent + 1);
      var block := SplitFeed(text);
      var stripped := block[0][(indent + 1) * 2..];
      assert stripped == ls[0].text;
      lines := [pad + "- " + stripped] + block[1..];
      ShowConcat([Line(2 * indent, "- " + ls[0].text)], ls[1..]);
      ShowOne(Line(2 * indent, "- " + ls[0].text));
      assert pad + "- " + stripped == Show(Line(2 * indent, "- " + ls[0].text));
    } else {
      lines := [pad + "- " + Scalar(item)];
      ShowOne(Line(2 * indent, "- " + Scalar(item)));
      assert lines[0] == Show(Line(2 * indent, "- " + Scalar(item)));
    }
  }

  /** yamlify. */
  method Yamlify(t: Tree, indent: nat) returns (text: string)
    requires Plain(t)
    ensures text == Join(ShowAll(Emit(t, indent)))
    decreases t, 1
  {
    match t
    case Dict(es) =>
      var lines: seq<string> := [];
      for i := 0 to |es|
        invariant Join(lines) == Join(ShowAll(EmitEntries(es[..i], indent)))
        invariant lines == [] <==> ShowAll(EmitEntries(es[..i], indent)) == []
      {
        var more := EntryText(es[i], indent);
        EntriesSnoc(es, i, indent);
        JoinGrow(lines, ShowAll(EmitEntries(es[..i], indent)), more, ShowAll(EmitEntry(es[i], indent)));
        lines := lines + more;
      }
      assert es[..|es|] == es;
      return Join(lines);
    case List(items) =>
      var lines: seq<string> := [];
      for i := 0 to |items|
        invariant lines == ShowAll(EmitItems(items[..i], indent))
      {
        var more := ItemText(items[i], indent);
        ItemsSnoc(items, i, indent);
        lines := lines + more;
      }
      assert items[..|items|] == items;
      return Join(lines);
    case _ =>
      ShowOne(Line(2 * indent, Scalar(t)));
      return Spaces(2 * indent) + Scalar(t);
  }

  lemma EntriesSnoc(es: seq<Entry>, i: nat, indent: nat)
    requires i < |es|
    ensures ShowAll(EmitEntries(es[..i + 1], indent)) ==
      ShowAll(EmitEntries(es[..i], indent)) + ShowAll(EmitEntry(es[i], indent))
  {
    assert es[..i + 1] == es[..i] + [es[i]];
    EntriesConcat(es[..i], [es[i]], indent);
    assert [es[i]][1..] == [];
    assert EmitEntries([es[i]], indent) == EmitEntry(es[i], indent) + [] == EmitEntry(es[i], indent);
    ShowConcat(EmitEntries(es[..i], indent), EmitEntry(es[i], indent));
  }

  lemma ItemsSnoc(items: seq<Tree>, i: nat, indent: nat)
    requires i < |items|
    ensures ShowAll(EmitItems(items[..i + 1], indent)) ==
      ShowAll(EmitItems(items[..i], indent)) + ShowAll(EmitItem(items[i], indent))
  {
    assert items[..i + 1] == items[..i] + [items[i]];
    ItemsConcat(items[..i], [items[i]], indent);
    assert [items[i]][1..] == [];
    assert EmitItems([items[i]], indent) == EmitItem(items[i], indent) + [] == EmitItem(items[i], indent);
    ShowConcat(EmitItems(items[..i], indent), EmitItem(items[i], indent));
  }
}
