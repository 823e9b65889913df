/**
 The keyed pass over a deck's children in the console runtime: every child gets a key, and
 no two keys are the same (design/console-v2/support.js).
 */
module Deck {
  import Text
  import opened Decimal
  import opened Options

  /** A child as the pass sees it; `id` is its slide id attribute. */
  datatype Node = Chars(value: string) | Element(tag: string, id: Option<string>) | Other

  predicate Auxiliary(tag: string) {
    tag in {"template", "script", "style", "sc-helmet", "helmet"}
  }

  predicate ControlFlow(tag: string) {
    tag in {"sc-if", "sc-for", "sc-else", "dc-import", "x-import"}
  }

  predicate Blank(n: Node) { n.Chars? && Text.Trim(n.value) == "" }

  predicate Slide(n: Node) { n.Element? && !Auxiliary(n.tag) && !ControlFlow(n.tag) }

  predicate HexDigit(c: char) { IsDigit(c) || 'a' <= c <= 'f' }

  /** Eight lower-case hexadecimal digits. */
  predicate SlideId(s: string) { |s| == 8 && forall i :: 0 <= i < 8 ==> HexDigit(s[i]) }

  // -------------------------------------------------------------- the keys

  /** The slide id of the next element from j on, when that element is a slide. */
  function NextId(nodes: seq<Node>, j: nat): Option<string>
    requires j <= |nodes|
    decreases |nodes| - j
  {
    if j == |nodes| then None
    else if nodes[j].Element? then (if Slide(nodes[j]) then nodes[j].id else None)
    else NextId(nodes, j + 1)
  }

  const AUX := "aux"

  /** What a blank's key is built on: the slide it precedes, or nothing. */
  function Mark(nodes: seq<Node>, j: nat): string
    requires j <= |nodes|
  {
    var id := NextId(nodes, j);
    if id.Some? && id.value != "" then id.value else AUX
  }

  const SLIDE := "omid:"
  const SPACE := "omid-ws:"

  /** How many blanks before n have the mark. */
  function Earlier(nodes: seq<Node>, n: nat, mark: string): nat
    requires n <= |nodes|
  {
    if n == 0 then 0
    else Earlier(nodes, n - 1, mark) + if Blank(nodes[n - 1]) && Mark(nodes, n - 1) == mark then 1 else 0
  }

  function SpaceKey(mark: string, n: nat): string {
    SPACE + mark + if n == 0 then "" else ":" + PrintNat(n)
  }

  function KeyAt(nodes: seq<Node>, j: nat): string
    requires j < |nodes|
  {
    if Blank(nodes[j]) then SpaceKey(Mark(nodes, j), Earlier(nodes, j, Mark(nodes, j)))
    else if Slide(nodes[j]) && nodes[j].id.Some? then SLIDE + nodes[j].id.value
    else PrintNat(j)
  }

  /** A child the pass has a key for, given those before it. */
  predicate Keyed(nodes: seq<Node>, j: nat)
    requires j < |nodes|
  {
    var n := nodes[j];
    && (n.Chars? ==> Blank(n))
    && (n.Element? ==> Auxiliary(n.tag) || !ControlFlow(n.tag))
    && (Slide(n) ==> n.id.Some? && SlideId(n.id.value))
    && (Slide(n) ==> forall k :: 0 <= k < j && Slide(nodes[k]) ==> nodes[k].id != n.id)
  }

  predicate AllKeyed(nodes: seq<Node>) { forall j :: 0 <= j < |nodes| ==> Keyed(nodes, j) }

  // -------------------------------------------------------------- what a key says

  /** A key taken apart. */
  datatype Parsed = Position(j: nat) | SlideKey(id: string) | Space(mark: string, n: nat)

  function ColonAt(s: string): (n: nat)
    ensures n <= |s|
  {
    if s == "" || s[0] == ':' then 0 else 1 + ColonAt(s[1..])
  }

  function Number(s: string): nat { if AllDigits(s) then NatValue(s) else 0 }

  function Parse(key: string): Parsed {
    if Text.StartsWith(key, SPACE) then
      var rest := key[|SPACE|..];
      var c := ColonAt(rest);
      Space(rest[..c], if c < |rest| then Number(rest[c + 1..]) else 0)
    else if Text.StartsWith(key, SLIDE) then SlideKey(key[|SLIDE|..])
    else Position(Number(key))
  }

  function Meaning(nodes: seq<Node>, j: nat): Parsed
    requires j < |nodes|
  {
    if Blank(nodes[j]) then Space(Mark(nodes, j), Earlier(nodes, j, Mark(nodes, j)))
    else if Slide(nodes[j]) && nodes[j].id.Some? then SlideKey(nodes[j].id.value)
    else Position(j)
  }

  predicate NoColon(s: string) { forall i :: 0 <= i < |s| ==> s[i] != ':' }

  lemma {:induction false} ColonFound(mark: string, rest: string)
    requires NoColon(mark) && (rest != "" ==> rest[0] == ':')
    ensures ColonAt(mark + rest) == |mark|
  {
    if mark == "" {
      assert mark + rest == rest;
    } else {
      assert (mark + rest)[1..] == mark[1..] + rest;
      ColonFound(mark[1..], rest);
    }
  }

  lemma SpaceKeyParses(mark: string, n: nat)
    requires NoColon(mark)
    ensures Parse(SpaceKey(mark, n)) == Space(mark, n)
  {
    var tail := if n == 0 then "" else ":" + PrintNat(n);
    assert SpaceKey(mark, n) == SPACE + (mark + tail);
    var key := SPACE + (mark + tail);
    assert key[|SPACE|..] == mark + tail;
    ColonFound(mark, tail);
    assert (mark + tail)[..|mark|] == mark;
    if n > 0 {
      assert (mark + tail)[|mark| + 1..] == PrintNat(n);
      PrintNatReads(n);
    }
  }

  lemma SlideKeyParses(id: string)
    ensures Parse(SLIDE + id) == SlideKey(id)
  {
    var key := SLIDE + id;
    assert key[4] == ':' && SPACE[4] == '-';
    assert key[|SLIDE|..] == id;
  }

  lemma PositionParses(j: nat)
    ensures Parse(PrintNat(j)) == Position(j)
  {
    PrintNatReads(j);
    var key := PrintNat(j);
    assert IsDigit(key[0]) && SPACE[0] == SLIDE[0] == 'o';
  }

  // -------------------------------------------------------------- the keys are distinct

  /** Where a mark is not the bare one, it is the id of a slide further on. */
  lemma {:induction false} NextIdLater(nodes: seq<Node>, j: nat)
    requires j <= |nodes| && NextId(nodes, j).Some?
    ensures exists k :: j <= k < |nodes| && Slide(nodes[k]) && nodes[k].id == NextId(nodes, j)
    decreases |nodes| - j
  {
    if !nodes[j].Element? { NextIdLater(nodes, j + 1); }
  }

  /** The whitespace keys are well formed only because a complete pass has looked at every
      later slide id and found it valid. */
  lemma MarkNoColon(nodes: seq<Node>, j: nat)
    requires AllKeyed(nodes) && j <= |nodes|
    ensures NoColon(Mark(nodes, j))
  {
    var id := NextId(nodes, j);
    if id.Some? && id.value != "" {
      NextIdLater(nodes, j);
      var k :| j <= k < |nodes| && Slide(nodes[k]) && nodes[k].id == id;
      assert Keyed(nodes, k);
    }
  }

  lemma KeyParses(nodes: seq<Node>, j: nat)
    requires AllKeyed(nodes) && j < |nodes|
    ensures Parse(KeyAt(nodes, j)) == Meaning(nodes, j)
  {
    hide Parse, SpaceKey, Mark, Earlier, AllKeyed, Auxiliary, ControlFlow;
    if Blank(nodes[j]) {
      MarkNoColon(nodes, j);
      SpaceKeyParses(Mark(nodes, j), Earlier(nodes, j, Mark(nodes, j)));
    } else if Slide(nodes[j]) && nodes[j].id.Some? {
      SlideKeyParses(nodes[j].id.value);
    } else {
      PositionParses(j);
    }
  }

  lemma {:induction false} EarlierGrows(nodes: seq<Node>, i: nat, j: nat, mark: string)
    requires i <= j <= |nodes|
    ensures Earlier(nodes, i, mark) <= Earlier(nodes, j, mark)
    ensures i < j && Blank(nodes[i]) && Mark(nodes, i) == mark ==> Earlier(nodes, i, mark) < Earlier(nodes, j, mark)
    decreases j - i
  {
    if i < j { EarlierGrows(nodes, i, j - 1, mark); }
  }

  /** Whenever the pass returns keys, no two children have the same one. */
  lemma KeysDistinct(nodes: seq<Node>, i: nat, j: nat)
    requires AllKeyed(nodes) && i < j < |nodes|
    ensures KeyAt(nodes, i) != KeyAt(nodes, j)
  {
    hide KeyAt, Auxiliary, ControlFlow, Mark, Earlier;
    KeyParses(nodes, i);
    KeyParses(nodes, j);
    assert Keyed(nodes, j);
    EarlierGrows(nodes, i, j, Mark(nodes, i));
  }

  /** The pass gives up only for the whole deck, never a repeated key: were an id repeated,
      the keys of the two slides would clash. */
  lemma RepeatedIdClashes(nodes: seq<Node>, i: nat, j: nat)
    requires i < j < |nodes| && Slide(nodes[i]) && Slide(nodes[j])
    requires nodes[i].id.Some? && nodes[i].id == nodes[j].id
    ensures KeyAt(nodes, i) == KeyAt(nodes, j) && !AllKeyed(nodes)
  {
    assert !Keyed(nodes, j);
  }

  /** Marks alone would not do: with unchecked ids two blanks can get one key. */
  lemma UncheckedIdsClash()
    ensures exists nodes: seq<Node>, i: nat, j: nat ::
      i < j < |nodes| && KeyAt(nodes, i) == KeyAt(nodes, j) && Blank(nodes[i]) && Blank(nodes[j])
  {
    var blank := Chars("");
    var a, b := Element("p", Some("a")), Element("p", Some("a:1"));
    var nodes := [blank, blank, a, blank, b];
    assert Text.Trim("") == "";
    assert !Auxiliary("p") && !ControlFlow("p");
    assert NextId(nodes, 4) == Some("a:1") && NextId(nodes, 3) == Some("a:1");
    assert NextId(nodes, 2) == Some("a") && NextId(nodes, 1) == Some("a") && NextId(nodes, 0) == Some("a");
    assert Earlier(nodes, 0, "a") == 0 && Earlier(nodes, 1, "a") == 1;
    assert Earlier(nodes, 1, "a:1") == 0;
    assert Earlier(nodes, 2, "a:1") == 0;
    assert Earlier(nodes, 3, "a:1") == 0;
    assert PrintNat(1) == "1";
    assert KeyAt(nodes, 1) == "omid-ws:" + "a" + (":" + "1");
    assert KeyAt(nodes, 3) == "omid-ws:" + "a:1" + "";
  }

  // -------------------------------------------------------------- key by key

  /** The slide that comes next: the first element from j on, if it is a slide and has an id. */
  lemma {:induction false} NextIdExactly(nodes: seq<Node>, j: nat, id: string)
    requires j <= |nodes|
    ensures NextId(nodes, j) == Some(id) <==>
      exists k :: j <= k < |nodes| && Slide(nodes[k]) && nodes[k].id == Some(id)
                  && forall i :: j <= i < k ==> !nodes[i].Element?
    decreases |nodes| - j
  {
    if j < |nodes| && !nodes[j].Element? { NextIdExactly(nodes, j + 1, id); }
  }

  /** The blanks before n that share a mark, one by one. */
  lemma EarlierCounts(nodes: seq<Node>, n: nat, mark: string)
    requires n < |nodes|
    ensures Earlier(nodes, 0, mark) == 0
    ensures Earlier(nodes, n + 1, mark) - Earlier(nodes, n, mark) ==
      if Blank(nodes[n]) && Mark(nodes, n) == mark then 1 else 0
  {}

  /** How each kind of child is keyed: a slide by its id, white space by the slide that comes next
      and the white space before it, anything else by its place. */
  lemma KeysSpelled(nodes: seq<Node>, j: nat)
    requires AllKeyed(nodes) && j < |nodes|
    ensures match nodes[j]
      case Chars(value) =>
        var mark := match NextId(nodes, j) case Some(id) => (if id == "" then "aux" else id) case None => "aux";
        var n := Earlier(nodes, j, mark);
        KeyAt(nodes, j) == "omid-ws:" + mark + (if n == 0 then "" else ":" + PrintNat(n))
      case Element(tag, id) =>
        if tag in {"template", "script", "style", "sc-helmet", "helmet"} then KeyAt(nodes, j) == PrintNat(j)
        else id.Some? && KeyAt(nodes, j) == "omid:" + id.value
      case Other => KeyAt(nodes, j) == PrintNat(j)
  {
    assert Keyed(nodes, j);
    hide Auxiliary, ControlFlow, Earlier, NextId, SlideId, AllKeyed;
    if nodes[j].Element? { TagsExactly(nodes[j].tag); }
  }

  lemma TagsExactly(tag: string)
    ensures Auxiliary(tag) <==> tag in {"template", "script", "style", "sc-helmet", "helmet"}
    ensures ControlFlow(tag) <==> tag in {"sc-if", "sc-for", "sc-else", "dc-import", "x-import"}
    ensures !(Auxiliary(tag) && ControlFlow(tag))
  {}

  /** Eight lower-case hexadecimal digits. */
  predicate EightHex(s: string) {
    |s| == 8 && forall c :: c in s ==> c in "0123456789abcdef"
  }

  /** What the pass gives up for: text that is not white space, control flow, and a slide without a
      proper id or with the id of an earlier one. */
  predicate Refused(nodes: seq<Node>, j: nat)
    requires j < |nodes|
  {
    match nodes[j]
    case Chars(value) => Text.Trim(value) != ""
    case Element(tag, id) =>
      && tag !in {"template", "script", "style", "sc-helmet", "helmet"}
      && (|| tag in {"sc-if", "sc-for", "sc-else", "dc-import", "x-import"}
          || id.None? || !EightHex(id.value)
          || exists k :: 0 <= k < j && Slide(nodes[k]) && nodes[k].id == id)
    case Other => false
  }

  lemma RefusedExactly(nodes: seq<Node>)
    ensures !AllKeyed(nodes) <==> exists j :: 0 <= j < |nodes| && Refused(nodes, j)
  {
    forall j | 0 <= j < |nodes| ensures !Keyed(nodes, j) <==> Refused(nodes, j) {
      if nodes[j].Element? {
        TagsExactly(nodes[j].tag);
        if nodes[j].id.Some? { HexExactly(nodes[j].id.value); }
      }
      hide Auxiliary, ControlFlow, SlideId, EightHex;
    }
  }

  lemma HexExactly(s: string)
    ensures SlideId(s) <==> EightHex(s)
  {
    assert forall c: char :: HexDigit(c) <==> c in "0123456789abcdef";
    if SlideId(s) {
      forall c | c in s ensures HexDigit(c) { var k :| 0 <= k < |s| && s[k] == c; }
    }
    if EightHex(s) { assert forall i :: 0 <= i < 8 ==> s[i] in s; }
  }

  // -------------------------------------------------------------- the pass

  /** walkDeckChildren, the keys of it. */
  method WalkDeckChildren(nodes: seq<Node>) returns (keys: Option<seq<string>>)
    ensures keys.Some? <==> AllKeyed(nodes)
    ensures keys.Some? ==> |keys.value| == |nodes| && forall j :: 0 <= j < |nodes| ==> keys.value[j] == KeyAt(nodes, j)
    ensures keys.Some? ==> forall i, j :: 0 <= i < j < |nodes| ==> keys.value[i] != keys.value[j]
  {
    hide Auxiliary, ControlFlow, SpaceKey, SlideId, HexDigit, PrintNat, NextId;
    var next := NextIds(nodes);
    var seen: set<string>, wsSeen: map<string, nat>, out: seq<string> := {}, map[], [];
    for j := 0 to |nodes|
      invariant |out| == j && forall k :: 0 <= k < j ==> Keyed(nodes, k) && out[k] == KeyAt(nodes, k)
      invariant forall id :: id in seen <==> exists k :: 0 <= k < j && Slide(nodes[k]) && nodes[k].id == Some(id)
      invariant forall mark :: (if mark in wsSeen then wsSeen[mark] else 0) == Earlier(nodes, j, mark)
    {
      var n := nodes[j];
      if n.Chars? {
        if Text.Trim(n.value) != "" {
          assert !Keyed(nodes, j);
          return None;
        }
        var mark := if next[j].Some? && next[j].value != "" then next[j].value else AUX;
        var count := if mark in wsSeen then wsSeen[mark] else 0;
        wsSeen := wsSeen[mark := count + 1];
        out := out + [SpaceKey(mark, count)];
      } else if !n.Element? {
        out := out + [PrintNat(j)];
      } else if Auxiliary(n.tag) {
        out := out + [PrintNat(j)];
      } else if ControlFlow(n.tag) {
        assert !Keyed(nodes, j);
        return None;
      } else {
        if n.id.None? || !SlideId(n.id.value) || n.id.value in seen {
          assert !Keyed(nodes, j);
          return None;
        }
        seen := seen + {n.id.value};
        out := out + [SLIDE + n.id.value];
      }
    }
    forall i, j | 0 <= i < j < |nodes| ensures out[i] != out[j] { KeysDistinct(nodes, i, j); }
    return Some(out);
  }

  /** The backward pass that tells each child which slide comes next. */
  method NextIds(nodes: seq<Node>) returns (next: seq<Option<string>>)
    ensures |next| == |nodes| && forall j :: 0 <= j < |nodes| ==> next[j] == NextId(nodes, j)
  {
    var ids := new Option<string>[|nodes|](_ => None);
    var upcoming: Option<string> := None;
    for j := |nodes| downto 0
      invariant upcoming == NextId(nodes, j)
      invariant forall k :: j <= k < |nodes| ==> ids[k] == NextId(nodes, k)
    {
      var n := nodes[j];
      if n.Element? {
        upcoming := if !Auxiliary(n.tag) && !ControlFlow(n.tag) then n.id else None;
      }
      ids[j] := upcoming;
    }
    next := ids[..];
  }
}
