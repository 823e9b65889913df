/**
 Placing panels: the shelf packer (grafana/v2.py), and cutting a board's panel stream into
 leaf tabs with an introduction put first (grafana/boards/common.py).
 */
module Layout {
  import Decimal
  import opened Options

  const GRID_COLUMNS := 24

  /** A panel to be placed. */
  datatype Item = Item(w: nat, h: nat, id: nat)

  /** A placed panel: the grid item refers to it by element name. */
  datatype Box = Box(x: nat, y: nat, w: nat, h: nat, name: string)

  const PREFIX := "panel-"

  function ElementName(id: nat): string { PREFIX + Decimal.PrintNat(id) }

  /** int(name.removeprefix("panel-")), on decimal digits. */
  function IdOf(name: string): Option<nat> {
    var digits := if |name| >= |PREFIX| && name[..|PREFIX|] == PREFIX then name[|PREFIX|..] else name;
    if Decimal.AllDigits(digits) then Some(Decimal.NatValue(digits)) else None
  }

  lemma NameHoldsId(id: nat)
    ensures IdOf(ElementName(id)) == Some(id) && ElementName(id) == "panel-" + Decimal.PrintNat(id)
  {
    Decimal.PrintNatReads(id);
    assert ElementName(id)[..|PREFIX|] == PREFIX && ElementName(id)[|PREFIX|..] == Decimal.PrintNat(id);
  }

  // -------------------------------------------------------------- the shelf packer

  /** Packing from a point on: the next free column, the shelf's top and its height so far. */
  function Pack(items: seq<Item>, x: nat, y: nat, shelf: nat): Option<seq<Box>> {
    if items == [] then Some([])
    else
      var i := items[0];
      if i.w > GRID_COLUMNS then None
      else
        var wraps := x + i.w > GRID_COLUMNS;
        var (x', y', s') := if wraps then (0, y + shelf, 0) else (x, y, shelf);
        var rest := Pack(items[1..], x' + i.w, y', if i.h > s' then i.h else s');
        if rest.None? then None else Some([Box(x', y', i.w, i.h, ElementName(i.id))] + rest.value)
  }

  function Grid(items: seq<Item>): Option<seq<Box>> { Pack(items, 0, 0, 0) }

  predicate Fits(items: seq<Item>) { forall i :: i in items ==> i.w <= GRID_COLUMNS }

  /** Packing fails exactly when some panel is wider than the grid. */
  lemma {:induction false} PackFails(items: seq<Item>, x: nat, y: nat, shelf: nat)
    ensures Pack(items, x, y, shelf).Some? <==> Fits(items)
  {
    if items != [] {
      var i := items[0];
      if i.w <= GRID_COLUMNS {
        var wraps := x + i.w > GRID_COLUMNS;
        var s' := if wraps then 0 else shelf;
        PackFails(items[1..], (if wraps then 0 else x) + i.w, if wraps then y + shelf else y,
                  if i.h > s' then i.h else s');
        assert items == [i] + items[1..];
      }
    }
  }

  /** One turn of the packer. */
  lemma PackStep(items: seq<Item>, x: nat, y: nat, shelf: nat)
    returns (b: Box, x': nat, y': nat, s': nat)
    requires items != [] && Pack(items, x, y, shelf).Some? && x <= GRID_COLUMNS
    ensures b == Box(b.x, b.y, items[0].w, items[0].h, ElementName(items[0].id))
    ensures Pack(items[1..], x', y', s').Some?
    ensures Pack(items, x, y, shelf).value == [b] + Pack(items[1..], x', y', s').value
    ensures x' == b.x + b.w <= GRID_COLUMNS && y' == b.y && s' >= b.h
    ensures (b.x == x && b.y == y && s' >= shelf) || (b.x == 0 && b.y == y + shelf)
  {
    var i := items[0];
    var wraps := x + i.w > GRID_COLUMNS;
    b := Box(if wraps then 0 else x, if wraps then y + shelf else y, i.w, i.h, ElementName(i.id));
    x', y' := b.x + i.w, b.y;
    var s := if wraps then 0 else shelf;
    s' := if i.h > s then i.h else s;
  }

  /** Every panel is placed once, in order and at its own size, inside the grid's columns. */
  lemma {:induction false} PackPlaces(items: seq<Item>, x: nat, y: nat, shelf: nat, k: nat)
    requires Pack(items, x, y, shelf).Some? && x <= GRID_COLUMNS && k < |items|
    ensures var boxes := Pack(items, x, y, shelf).value;
      && |boxes| == |items|
      && boxes[k].w == items[k].w && boxes[k].h == items[k].h && boxes[k].name == ElementName(items[k].id)
      && boxes[k].x + boxes[k].w <= GRID_COLUMNS
  {
    var b, x', y', s' := PackStep(items, x, y, shelf);
    if k > 0 {
      PackPlaces(items[1..], x', y', s', k - 1);
    } else if |items| > 1 {
      PackPlaces(items[1..], x', y', s', 0);
    }
  }

  /** Box k + 1 stands beside box k if its width fits there, and otherwise on a new shelf, as high as
      the tallest panel of the old one reaches; y and shelf are where the packing began. */
  predicate NextPlaced(boxes: seq<Box>, k: nat, w: nat, y: nat, shelf: nat)
    requires k + 1 < |boxes|
  {
    var last, next := boxes[k], boxes[k + 1];
    if last.x + last.w + w <= 24 then next.x == last.x + last.w && next.y == last.y
    else
      && next.x == 0
      && (forall j :: 0 <= j <= k && boxes[j].y == last.y ==> next.y >= boxes[j].y + boxes[j].h)
      && (last.y == y ==> next.y >= y + shelf)
      && ((last.y == y && next.y == y + shelf)
          || exists j :: 0 <= j <= k && boxes[j].y == last.y && next.y == boxes[j].y + boxes[j].h)
  }

  /** One more box in front, the shelf's height then being the larger of its own and what it was. */
  lemma NextPlacedCons(b: Box, rest: seq<Box>, k: nat, w: nat, y: nat, shelf: nat, s: nat)
    requires (b.y == y && s == shelf) || (b.y == y + shelf && s == 0)
    requires k + 1 < |rest| && rest[k].y >= b.y && NextPlaced(rest, k, w, b.y, if b.h > s then b.h else s)
    ensures NextPlaced([b] + rest, k + 1, w, y, shelf)
  {
    var boxes := [b] + rest;
    assert forall j :: 0 <= j < |rest| ==> boxes[j + 1] == rest[j];
    var last, next := rest[k], rest[k + 1];
    if last.x + last.w + w > 24 {
      assert last.y == b.y ==> next.y >= b.y + b.h && next.y >= b.y + s;
      assert next.y >= last.y + last.h;
      forall j | 0 <= j <= k + 1 && boxes[j].y == last.y ensures next.y >= boxes[j].y + boxes[j].h {
        if j > 0 { assert boxes[j] == rest[j - 1]; }
      }
      if j :| 0 <= j <= k && rest[j].y == last.y && next.y == rest[j].y + rest[j].h {
        assert boxes[j + 1] == rest[j];
      } else if b.h > s {
        assert boxes[0].y == last.y && next.y == boxes[0].y + boxes[0].h;
      } else if b.y == y && s == shelf {
        assert last.y == y && next.y == y + shelf;
      } else {
        assert next.y == boxes[0].y + boxes[0].h;
      }
    }
  }

  lemma {:induction false} PackFrom(items: seq<Item>, x: nat, y: nat, shelf: nat, k: nat)
    requires Pack(items, x, y, shelf).Some? && x <= GRID_COLUMNS && k + 1 < |items|
    ensures var boxes := Pack(items, x, y, shelf).value;
      |boxes| == |items| && NextPlaced(boxes, k, items[k + 1].w, y, shelf)
  {
    hide NextPlaced, ElementName;
    PackPlaces(items, x, y, shelf, 0);
    var i, boxes := items[0], Pack(items, x, y, shelf).value;
    var wraps := x + i.w > GRID_COLUMNS;
    var x', y', s := if wraps then 0 else x, if wraps then y + shelf else y, if wraps then 0 else shelf;
    var s' := if i.h > s then i.h else s;
    var b, rest := Box(x', y', i.w, i.h, ElementName(i.id)), Pack(items[1..], x' + i.w, y', s').value;
    assert boxes == [b] + rest;
    hide Pack;
    if k == 0 {
      FirstTwo(items[1..], b, y, shelf, s);
    } else {
      PackFrom(items[1..], x' + i.w, y', s', k - 1);
      PackBeyond(items[1..], x' + i.w, y', s');
      assert rest[k - 1] in rest;
      NextPlacedCons(b, rest, k - 1, items[k + 1].w, y, shelf, s);
    }
  }

  lemma FirstTwo(items: seq<Item>, b: Box, y: nat, shelf: nat, s: nat)
    requires b.x + b.w <= GRID_COLUMNS && ((b.y == y && s == shelf) || (b.y == y + shelf && s == 0))
    requires items != [] && Pack(items, b.x + b.w, b.y, if b.h > s then b.h else s).Some?
    requires |Pack(items, b.x + b.w, b.y, if b.h > s then b.h else s).value| == |items|
    ensures NextPlaced([b] + Pack(items, b.x + b.w, b.y, if b.h > s then b.h else s).value, 0, items[0].w, y, shelf)
  {
    var rest := Pack(items, b.x + b.w, b.y, if b.h > s then b.h else s).value;
    var boxes := [b] + rest;
    assert boxes[0] == b && boxes[1] == rest[0];
    hide Pack;
  }

  /** So a grid is packed like this from its corner on. */
  lemma PackExactly(items: seq<Item>, k: nat)
    requires Grid(items).Some? && k < |items|
    ensures var boxes := Grid(items).value;
      && |boxes| == |items| && boxes[0].x == 0 && boxes[0].y == 0
      && (k > 0 ==>
            var last, next := boxes[k - 1], boxes[k];
            if last.x + last.w + items[k].w <= 24 then next.x == last.x + last.w && next.y == last.y
            else
              && next.x == 0
              && (forall j :: 0 <= j < k && boxes[j].y == last.y ==> next.y >= boxes[j].y + boxes[j].h)
              && exists j :: 0 <= j < k && boxes[j].y == last.y && next.y == boxes[j].y + boxes[j].h)
  {
    PackPlaces(items, 0, 0, 0, k);
    assert items[0].w <= GRID_COLUMNS;
    if k > 0 {
      PackFrom(items, 0, 0, 0, k - 1);
      var boxes := Grid(items).value;
      if boxes[k - 1].x + boxes[k - 1].w + items[k].w > 24 && boxes[k - 1].y == 0 && boxes[k].y == 0 {
        assert boxes[k].y == boxes[k - 1].y + boxes[k - 1].h;
      }
      hide Pack;
    }
  }

  predicate Apart(a: Box, b: Box) {
    a.x + a.w <= b.x || b.x + b.w <= a.x || a.y + a.h <= b.y || b.y + b.h <= a.y
  }

  /** b lies right of the current shelf's panels or under the whole shelf. */
  predicate Beyond(b: Box, x: nat, y: nat, shelf: nat) {
    (b.y == y && b.x >= x) || b.y >= y + shelf
  }

  lemma {:induction false} PackBeyond(items: seq<Item>, x: nat, y: nat, shelf: nat)
    requires Pack(items, x, y, shelf).Some? && x <= GRID_COLUMNS
    ensures forall b :: b in Pack(items, x, y, shelf).value ==> Beyond(b, x, y, shelf)
  {
    if items != [] {
      var b, x', y', s' := PackStep(items, x, y, shelf);
      PackBeyond(items[1..], x', y', s');
    }
  }

  predicate AllApart(boxes: seq<Box>) {
    forall i, j :: 0 <= i < j < |boxes| ==> Apart(boxes[i], boxes[j])
  }

  /** No two panels of a row overlap. */
  lemma {:induction false} PackApart(items: seq<Item>, x: nat, y: nat, shelf: nat)
    requires Pack(items, x, y, shelf).Some? && x <= GRID_COLUMNS
    ensures AllApart(Pack(items, x, y, shelf).value)
  {
    if items != [] {
      var b, x', y', s' := PackStep(items, x, y, shelf);
      PackApart(items[1..], x', y', s');
      PackBeyond(items[1..], x', y', s');
      var rest := Pack(items[1..], x', y', s').value;
      forall j | 0 <= j < |rest| ensures Apart(b, rest[j]) { assert rest[j] in rest; }
    }
  }

  /** A grid read back as the panels it places, as _prepend does. */
  function Reread(boxes: seq<Box>): Option<seq<Item>> {
    if boxes == [] then Some([])
    else
      var id, rest := IdOf(boxes[0].name), Reread(boxes[1..]);
      if id.None? || rest.None? then None
      else Some([Item(boxes[0].w, boxes[0].h, id.value)] + rest.value)
  }

  /** Reading a packed grid back gives the panels it was packed from, so packing it again
      changes nothing. */
  lemma {:induction false} RereadPacked(items: seq<Item>, x: nat, y: nat, shelf: nat)
    requires Pack(items, x, y, shelf).Some? && x <= GRID_COLUMNS
    ensures Reread(Pack(items, x, y, shelf).value) == Some(items)
  {
    if items != [] {
      var b, x', y', s' := PackStep(items, x, y, shelf);
      RereadPacked(items[1..], x', y', s');
      NameHoldsId(items[0].id);
      var rest := Pack(items[1..], x', y', s').value;
      assert ([b] + rest)[1..] == rest && ([b] + rest)[0] == b;
      assert items == [items[0]] + items[1..];
    }
  }

  lemma RepackIsIdle(items: seq<Item>)
    requires Grid(items).Some?
    ensures Reread(Grid(items).value).Some? && Grid(Reread(Grid(items).value).value) == Grid(items)
  {
    RereadPacked(items, 0, 0, 0);
  }

  // -------------------------------------------------------------- cutting the stream

  datatype Entry = Marker(title: string) | Panel(item: Item)

  /** A leaf before it is packed. */
  datatype Part = Part(title: string, items: seq<Item>)

  /** What the loop has flushed, and what it is still collecting. */
  datatype Cut = Cut(parts: seq<Part>, current: Option<Part>, strays: seq<nat>)

  function CutOne(c: Cut, e: Entry): Cut {
    match e
    case Marker(title) => Cut(Flush(c), Some(Part(title, [])), c.strays)
    case Panel(i) =>
      if c.current.None? then c.(strays := c.strays + [i.id])
      else c.(current := Some(Part(c.current.value.title, c.current.value.items + [i])))
  }

  function Flush(c: Cut): seq<Part> {
    if c.current.None? then c.parts else c.parts + [c.current.value]
  }

  function CutAll(stream: seq<Entry>): Cut {
    if stream == [] then Cut([], None, [])
    else CutOne(CutAll(stream[..|stream| - 1]), stream[|stream| - 1])
  }

  function Parts(stream: seq<Entry>): seq<Part> { Flush(CutAll(stream)) }

  function Panels(parts: seq<Part>): seq<Item> {
    if parts == [] then [] else Panels(parts[..|parts| - 1]) + parts[|parts| - 1].items
  }

  function Titles(parts: seq<Part>): seq<string> {
    if parts == [] then [] else Titles(parts[..|parts| - 1]) + [parts[|parts| - 1].title]
  }

  function Stream(entries: seq<Entry>): seq<Item> {
    if entries == [] then []
    else
      var last := entries[|entries| - 1];
      Stream(entries[..|entries| - 1]) + if last.Panel? then [last.item] else []
  }

  function Markers(entries: seq<Entry>): seq<string> {
    if entries == [] then []
    else
      var last := entries[|entries| - 1];
      Markers(entries[..|entries| - 1]) + if last.Marker? then [last.title] else []
  }

  /** The stream up to its first marker. */
  function Preamble(entries: seq<Entry>): (n: nat)
    ensures n <= |entries|
    ensures forall i :: 0 <= i < n ==> entries[i].Panel?
    ensures n < |entries| ==> entries[n].Marker?
  {
    if entries == [] || entries[0].Marker? then 0 else 1 + Preamble(entries[1..])
  }

  function Ids(items: seq<Item>): seq<nat> {
    if items == [] then [] else Ids(items[..|items| - 1]) + [items[|items| - 1].id]
  }

  lemma {:induction false} PreambleGrows(entries: seq<Entry>, e: Entry)
    ensures Preamble(entries) < |entries| ==> Preamble(entries + [e]) == Preamble(entries)
    ensures Preamble(entries) == |entries| ==> Preamble(entries + [e]) == |entries| + if e.Panel? then 1 else 0
  {
    if entries == [] {
      assert (entries + [e])[1..] == [];
    } else {
      assert (entries + [e])[1..] == entries[1..] + [e];
      PreambleGrows(entries[1..], e);
    }
  }

  /** What the partition is while it runs. */
  predicate CutFacts(c: Cut, stream: seq<Entry>) {
    var n := Preamble(stream);
    && Panels(Flush(c)) == Stream(stream[n..])
    && Titles(Flush(c)) == Markers(stream)
    && c.strays == Ids(Stream(stream[..n]))
    && (c.current.None? <==> n == |stream|)
    && (c.current.None? ==> c.parts == [])
  }

  lemma FlushLast(parts: seq<Part>, p: Part)
    ensures Panels(parts + [p]) == Panels(parts) + p.items && Titles(parts + [p]) == Titles(parts) + [p.title]
  {
    assert (parts + [p])[..|parts|] == parts;
  }

  lemma StreamSnoc(entries: seq<Entry>, e: Entry)
    ensures Stream(entries + [e]) == Stream(entries) + if e.Panel? then [e.item] else []
    ensures Markers(entries + [e]) == Markers(entries) + if e.Marker? then [e.title] else []
  {
    assert (entries + [e])[..|entries|] == entries;
  }

  lemma IdsSnoc(items: seq<Item>, i: Item)
    ensures Ids(items + [i]) == Ids(items) + [i.id]
  {
    assert (items + [i])[..|items|] == items;
  }

  lemma MarkerStep(c: Cut, stream: seq<Entry>, title: string)
    requires CutFacts(c, stream)
    ensures CutFacts(CutOne(c, Marker(title)), stream + [Marker(title)])
  {
    hide Panels, Titles, Stream, Markers, Ids, Preamble;
    var e, n := Marker(title), Preamble(stream);
    PreambleGrows(stream, e);
    StreamSnoc(stream, e);
    StreamSnoc(stream[n..], e);
    assert (stream + [e])[n..] == stream[n..] + [e] && (stream + [e])[..n] == stream[..n];
    FlushLast(Flush(c), Part(title, []));
    assert Panels(Flush(c)) + [] == Panels(Flush(c));
  }

  lemma PanelStep(c: Cut, stream: seq<Entry>, i: Item)
    requires CutFacts(c, stream)
    ensures CutFacts(CutOne(c, Panel(i)), stream + [Panel(i)])
  {
    hide Panels, Titles, Stream, Markers, Ids, Preamble;
    var e, n := Panel(i), Preamble(stream);
    PreambleGrows(stream, e);
    StreamSnoc(stream, e);
    if c.current.None? {
      assert stream[n..] == [] && stream[..n] == stream;
      assert (stream + [e])[n + 1..] == [] && (stream + [e])[..n + 1] == stream + [e];
      IdsSnoc(Stream(stream), i);
    } else {
      var p := c.current.value;
      assert (stream + [e])[n..] == stream[n..] + [e] && (stream + [e])[..n] == stream[..n];
      StreamSnoc(stream[n..], e);
      FlushLast(c.parts, p);
      FlushLast(c.parts, Part(p.title, p.items + [i]));
      assert Panels(c.parts) + (p.items + [i]) == (Panels(c.parts) + p.items) + [i];
    }
  }

  /** Conservation: the leaves hold, in order, exactly the panels after the first marker, one
      leaf a marker; the panels before it are exactly the ones reported. */
  lemma {:induction false} CutConserves(stream: seq<Entry>)
    ensures CutFacts(CutAll(stream), stream)
  {
    if stream == [] {
      assert Stream([]) == [];
    } else {
      var init, e := stream[..|stream| - 1], stream[|stream| - 1];
      CutConserves(init);
      assert stream == init + [e];
      if e.Marker? { MarkerStep(CutAll(init), init, e.title); } else { PanelStep(CutAll(init), init, e.item); }
    }
  }

  // -------------------------------------------------------------- a domain's leaves

  /** A leaf tab: one row, packed. */
  datatype Packed = Packed(title: string, boxes: seq<Box>)

  /** add, from the panel stream on: pack each part, then put the introduction first. */
  function Domain(stream: seq<Entry>, about: Item): Option<seq<Packed>> {
    var packed := PackParts(Parts(stream));
    if packed.None? || packed.value == [] then None
    else
      var first := Prepended(packed.value[0].boxes, about);
      if first.None? then None else Some(packed.value[0 := Packed(packed.value[0].title, first.value)])
  }

  function PackParts(parts: seq<Part>): Option<seq<Packed>> {
    if parts == [] then Some([])
    else
      var init, last := PackParts(parts[..|parts| - 1]), parts[|parts| - 1];
      if init.None? || Grid(last.items).None? then None
      else Some(init.value + [Packed(last.title, Grid(last.items).value)])
  }

  /** _prepend: read the row's panels back and pack them again behind the new one. */
  function Prepended(boxes: seq<Box>, item: Item): Option<seq<Box>> {
    var items := Reread(boxes);
    if items.None? then None else Grid([item] + items.value)
  }

  lemma {:induction false} PackPartsAt(parts: seq<Part>, k: nat)
    requires PackParts(parts).Some?
    ensures |PackParts(parts).value| == |parts|
    ensures k < |parts| ==>
      Grid(parts[k].items).Some? && PackParts(parts).value[k] == Packed(parts[k].title, Grid(parts[k].items).value)
  {
    if parts != [] {
      if k < |parts| - 1 { PackPartsAt(parts[..|parts| - 1], k); } else { PackPartsAt(parts[..|parts| - 1], 0); }
    }
  }

  lemma {:induction false} PackPartsFails(parts: seq<Part>)
    ensures PackParts(parts).Some? <==> Fits(Panels(parts))
  {
    if parts != [] {
      PackPartsFails(parts[..|parts| - 1]);
      PackFails(parts[|parts| - 1].items, 0, 0, 0);
    }
  }

  /** The parts with the introduction put first. */
  function Introduced(parts: seq<Part>, about: Item): seq<Part>
    requires parts != []
  {
    parts[0 := Part(parts[0].title, [about] + parts[0].items)]
  }

  lemma {:induction false} IntroducedPanels(parts: seq<Part>, about: Item)
    requires parts != []
    ensures Panels(Introduced(parts, about)) == [about] + Panels(parts)
  {
    var all := Introduced(parts, about);
    if |parts| == 1 {
      assert parts[..0] == [] && all[..0] == [];
    } else {
      var init := parts[..|parts| - 1];
      IntroducedPanels(init, about);
      assert all[..|all| - 1] == Introduced(init, about);
      assert all[|all| - 1] == parts[|parts| - 1];
      assert [about] + (Panels(init) + parts[|parts| - 1].items) == ([about] + Panels(init)) + parts[|parts| - 1].items;
    }
  }

  /** Layout conservation. A domain is built exactly when there is a marker and no panel after
      it, nor the introduction, is wider than the grid. Its leaves then place the
      introduction and after it every panel that follows the first marker, once and in
      order; each leaf is the packing of its own panels. */
  lemma DomainPlaces(stream: seq<Entry>, about: Item)
    ensures var after := Stream(stream[Preamble(stream)..]);
      Domain(stream, about).Some? <==> Preamble(stream) < |stream| && Fits([about] + after)
    ensures Domain(stream, about).Some? ==>
      var after := Stream(stream[Preamble(stream)..]);
      var leaves, parts := Domain(stream, about).value, Introduced(Parts(stream), about);
      && Panels(parts) == [about] + after && Titles(Parts(stream)) == Markers(stream)
      && |leaves| == |parts|
      && forall k :: 0 <= k < |leaves| ==>
           leaves[k].title == parts[k].title && Some(leaves[k].boxes) == Grid(parts[k].items)
           && Reread(leaves[k].boxes) == Some(parts[k].items)
  {
    hide Pack, Reread, PackParts, Panels, Stream, Preamble, CutAll, Titles, Markers;
    CutConserves(stream);
    var parts := Parts(stream);
    PackPartsFails(parts);
    if PackParts(parts).Some? { PackPartsAt(parts, 0); }
    if PackParts(parts).Some? && parts != [] {
      RereadPacked(parts[0].items, 0, 0, 0);
      PackFails([about] + parts[0].items, 0, 0, 0);
      PackFails(parts[0].items, 0, 0, 0);
      IntroducedPanels(parts, about);
      FitsCons(about, Panels(parts));
      FitsCons(about, parts[0].items);
      if Domain(stream, about).Some? { LeavesPlaced(stream, about); }
    } else {
      NoParts(stream);
      FitsCons(about, Panels(parts));
    }
  }

  lemma LeavesPlaced(stream: seq<Entry>, about: Item)
    requires Domain(stream, about).Some?
    ensures var leaves, parts := Domain(stream, about).value, Introduced(Parts(stream), about);
      && |leaves| == |parts|
      && forall k :: 0 <= k < |leaves| ==>
           leaves[k].title == parts[k].title && Some(leaves[k].boxes) == Grid(parts[k].items)
           && Reread(leaves[k].boxes) == Some(parts[k].items)
  {
    hide Pack, Reread, PackParts, CutAll;
    var parts := Parts(stream);
    PackPartsAt(parts, 0);
    var all := Introduced(parts, about);
    forall k | 0 <= k < |parts|
      ensures Domain(stream, about).value[k].title == all[k].title
      ensures Some(Domain(stream, about).value[k].boxes) == Grid(all[k].items)
      ensures Reread(Domain(stream, about).value[k].boxes) == Some(all[k].items)
    {
      PackPartsAt(parts, k);
      RereadPacked(parts[0].items, 0, 0, 0);
      RereadPacked(all[k].items, 0, 0, 0);
    }
  }

  lemma FitsCons(i: Item, items: seq<Item>)
    ensures Fits([i] + items) <==> i.w <= GRID_COLUMNS && Fits(items)
  {
    if Fits([i] + items) {
      assert i in [i] + items;
      assert forall j :: j in items ==> j in [i] + items;
    }
  }

  lemma NoParts(stream: seq<Entry>)
    ensures Parts(stream) == [] <==> Preamble(stream) == |stream|
  {
    CutConserves(stream);
  }

  // -------------------------------------------------------------- the programs

  /** The boxes already out, then those still to come. */
  function Resume(out: seq<Box>, rest: Option<seq<Box>>): Option<seq<Box>> {
    if rest.None? then None else Some(out + rest.value)
  }

  lemma ResumeStep(out: seq<Box>, b: Box, rest: Option<seq<Box>>)
    ensures Resume(out, Resume([b], rest)) == Resume(out + [b], rest)
  {
    if rest.Some? { assert out + ([b] + rest.value) == (out + [b]) + rest.value; }
  }

  lemma ResumeEmpty(rest: Option<seq<Box>>)
    ensures Resume([], rest) == rest
  {
    if rest.Some? { assert [] + rest.value == rest.value; }
  }

  /** grid. */
  method PackGrid(items: seq<Item>) returns (boxes: Option<seq<Box>>)
    ensures boxes == Grid(items)
  {
    var out: seq<Box>, x: nat, y: nat, shelf: nat := [], 0, 0, 0;
    assert items[0..] == items;
    ResumeEmpty(Grid(items));
    for k := 0 to |items|
      invariant x <= GRID_COLUMNS
      invariant Grid(items) == Resume(out, Pack(items[k..], x, y, shelf))
    {
      var i := items[k];
      assert items[k..][0] == i && items[k..][1..] == items[k + 1..];
      if i.w > GRID_COLUMNS { return None; }
      if x + i.w > GRID_COLUMNS { x, y, shelf := 0, y + shelf, 0; }
      var b := Box(x, y, i.w, i.h, ElementName(i.id));
      x := x + i.w;
      shelf := if i.h > shelf then i.h else shelf;
      ResumeStep(out, b, Pack(items[k + 1..], x, y, shelf));
      out := out + [b];
    }
    assert items[|items|..] == [] && out + [] == out;
    return Some(out);
  }

  class Leaf {
    const title: string
    var boxes: seq<Box>

    constructor (title: string, boxes: seq<Box>)
      ensures this.title == title && this.boxes == boxes
    {
      this.title, this.boxes := title, boxes;
    }

    /** _prepend: re-pack the row in place. */
    method Prepend(item: Item) returns (ok: bool)
      modifies this`boxes
      ensures ok <==> Prepended(old(boxes), item).Some?
      ensures boxes == if ok then Prepended(old(boxes), item).value else old(boxes)
    {
      var existing := Reread(boxes);
      if existing.None? { return false; }
      var packed := PackGrid([item] + existing.value);
      if packed.None? { return false; }
      boxes := packed.value;
      ok := true;
    }
  }

  class Board {
    var violations: seq<nat>

    constructor ()
      ensures violations == []
    {
      violations := [];
    }

    /** _leaves: flush the collected panels at every marker and once more at the end. */
    method Leaves(stream: seq<Entry>) returns (leaves: seq<Leaf>, ok: bool)
      modifies this`violations
      ensures fresh(set l | l in leaves) && forall i, j :: 0 <= i < j < |leaves| ==> leaves[i] != leaves[j]
      ensures ok <==> PackParts(Parts(stream)).Some?
      ensures ok ==> Shows(leaves, PackParts(Parts(stream)).value)
      ensures ok ==> violations == old(violations) + CutAll(stream).strays
    {
      hide Pack;
      leaves, ok := [], true;
      var current: Option<Part> := None;
      ghost var parts: seq<Part> := [];
      for k := 0 to |stream|
        invariant CutAll(stream[..k]).parts == parts && CutAll(stream[..k]).current == current
        invariant violations == old(violations) + CutAll(stream[..k]).strays
        invariant fresh(set l | l in leaves) && forall i, j :: 0 <= i < j < |leaves| ==> leaves[i] != leaves[j]
        invariant PackParts(parts).Some? && Shows(leaves, PackParts(parts).value)
      {
        assert stream[..k + 1][..k] == stream[..k] && stream[..k + 1][k] == stream[k];
        match stream[k]
        case Marker(title) =>
          if current.Some? {
            var boxes := PackGrid(current.value.items);
            if boxes.None? {
              CutExtends(stream, k + 1, parts + [current.value]);
              return leaves, false;
            }
            var leaf := new Leaf(current.value.title, boxes.value);
            PackPartsSnoc(parts, current.value);
            leaves, parts := leaves + [leaf], parts + [current.value];
          }
          current := Some(Part(title, []));
        case Panel(i) =>
          if current.None? {
            violations := violations + [i.id];
          } else {
            current := Some(Part(current.value.title, current.value.items + [i]));
          }
      }
      assert stream[..|stream|] == stream;
      if current.Some? {
        var boxes := PackGrid(current.value.items);
        PackPartsSnoc(parts, current.value);
        if boxes.None? { return leaves, false; }
        var leaf := new Leaf(current.value.title, boxes.value);
        leaves := leaves + [leaf];
      }
    }

    /** The layout part of add. */
    method Add(stream: seq<Entry>, about: Item) returns (leaves: seq<Leaf>, ok: bool)
      modifies this`violations
      ensures ok <==> Domain(stream, about).Some?
      ensures ok ==> Shows(leaves, Domain(stream, about).value)
      ensures ok ==> violations == old(violations) + Ids(Stream(stream[..Preamble(stream)]))
    {
      CutConserves(stream);
      leaves, ok := Leaves(stream);
      if !ok || leaves == [] { return leaves, false; }
      ok := leaves[0].Prepend(about);
    }
  }

  /** The leaf objects hold these rows. */
  ghost predicate Shows(leaves: seq<Leaf>, packed: seq<Packed>)
    reads set l | l in leaves
  {
    |leaves| == |packed| && forall k :: 0 <= k < |leaves| ==>
      leaves[k].title == packed[k].title && leaves[k].boxes == packed[k].boxes
  }

  lemma PackPartsSnoc(parts: seq<Part>, p: Part)
    requires PackParts(parts).Some?
    ensures PackParts(parts + [p]) ==
      if Grid(p.items).None? then None else Some(PackParts(parts).value + [Packed(p.title, Grid(p.items).value)])
  {
    assert (parts + [p])[..|parts|] == parts;
  }

  /** A part flushed once stays: if it cannot be packed, the partition cannot. */
  lemma {:induction false} CutExtends(stream: seq<Entry>, k: nat, parts: seq<Part>)
    requires k <= |stream| && parts != [] && CutAll(stream[..k]).parts == parts
    requires Grid(parts[|parts| - 1].items).None?
    ensures PackParts(Parts(stream)).None?
    decreases |stream| - k
  {
    var all := Parts(stream);
    CutPrefix(stream, k);
    assert parts[|parts| - 1] == all[|parts| - 1];
    if PackParts(all).Some? { PackPartsAt(all, |parts| - 1); }
  }

  /** The parts flushed so far are the first of the parts flushed in the end. */
  lemma {:induction false} CutPrefix(stream: seq<Entry>, k: nat)
    requires k <= |stream|
    ensures CutAll(stream[..k]).parts <= Parts(stream)
    decreases |stream| - k
  {
    if k == |stream| {
      assert stream[..k] == stream;
    } else {
      assert stream[..k + 1][..k] == stream[..k] && stream[..k + 1][k] == stream[k];
      CutPrefix(stream, k + 1);
    }
  }
}
