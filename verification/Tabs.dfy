/**
 Conditional rendering of the dashboard's tabs and rows, and the structural checker over
 an assembled manifest (grafana/v2.py).
 */
module Tabs {
  import Links
  import opened Options

  // -------------------------------------------------------------- the tab tree

  /** The two operators of the generator, or another one. */
  datatype Operator = Matches | NotMatches | Other(name: string)

  /** One rendering item: how the value of a variable compares with a pattern. */
  datatype Item = Item(variable: string, operator: Operator, pattern: string)

  datatype Visibility = Show | Hide

  datatype Mode = Or | And

  datatype Group = Group(visibility: Visibility, mode: Mode, items: seq<Item>)

  /** One row of a tab, as the element names its grid refers to. */
  datatype Row = Row(title: string, rendering: Option<Group>, names: seq<string>)

  datatype Tab = Tab(title: string, rendering: Option<Group>, content: Content)

  datatype Content = Nested(tabs: seq<Tab>) | Rows(rows: seq<Row>)

  // -------------------------------------------------------------- what is shown

  /** The values of the declared variables. */
  type State = map<string, string>

  function Value(s: State, variable: string): Option<string> {
    if variable in s then Some(s[variable]) else None
  }

  /** What is up to the renderer: which values a pattern matches, every other comparison, with
      a variable that may not be declared, and what becomes of a group without items. */
  datatype Renderer = Renderer(
    matches: (string, string) -> bool,
    compares: (string, string, Option<string>) -> bool,
    empty: (Visibility, Mode) -> bool)

  /** The generator's only pattern. */
  const SOMETHING := ".+"

  /** It matches every value but the empty one. */
  ghost predicate Sound(r: Renderer) { forall v :: r.matches(SOMETHING, v) <==> v != "" }

  /** A condition on a variable that is not declared is true for both operators. */
  predicate Holds(r: Renderer, i: Item, value: Option<string>) {
    match i.operator
    case Matches => value.Some? ==> r.matches(i.pattern, value.value)
    case NotMatches => value.Some? ==> !r.matches(i.pattern, value.value)
    case Other(name) => r.compares(name, i.pattern, value)
  }

  predicate Shown(r: Renderer, g: Group, s: State) {
    if g.items == [] then r.empty(g.visibility, g.mode)
    else
      var holds := match g.mode
        case Or => exists i :: i in g.items && Holds(r, i, Value(s, i.variable))
        case And => forall i :: i in g.items ==> Holds(r, i, Value(s, i.variable));
      holds == (g.visibility == Show)
  }

  /** One place an element stands in, with the conditions of the tabs and row around it. */
  datatype Placement = Placement(name: string, path: seq<Group>)

  function Under(path: seq<Group>, g: Option<Group>): seq<Group> {
    if g.None? then path else path + [g.value]
  }

  function RowPlacements(rows: seq<Row>, path: seq<Group>): set<Placement> {
    if rows == [] then {}
    else
      var last := rows[|rows| - 1];
      RowPlacements(rows[..|rows| - 1], path) + set n | n in last.names :: Placement(n, Under(path, last.rendering))
  }

  function Placements(tabs: seq<Tab>, path: seq<Group>): set<Placement>
    decreases tabs, 0
  {
    if tabs == [] then {}
    else Placements(tabs[..|tabs| - 1], path) + TabPlacements(tabs[|tabs| - 1], path)
  }

  function TabPlacements(tab: Tab, path: seq<Group>): set<Placement>
    decreases tab, 1
  {
    match tab.content
    case Nested(tabs) => Placements(tabs, Under(path, tab.rendering))
    case Rows(rows) => RowPlacements(rows, Under(path, tab.rendering))
  }

  /** The panel can be seen there: no condition around it hides it. */
  predicate Seen(r: Renderer, p: Placement, s: State) { forall g :: g in p.path ==> Shown(r, g, s) }

  // -------------------------------------------------------------- the constructors

  /** A presence claim, and an escape from it. */
  function Claim(variable: string): Item { Item(variable, Matches, SOMETHING) }

  function Escape(variable: string): Item { Item(variable, NotMatches, SOMETHING) }

  function Claims(names: seq<string>): (items: seq<Item>)
    ensures |items| == |names| && forall k :: 0 <= k < |names| ==> items[k] == Claim(names[k])
  {
    seq(|names|, k requires 0 <= k < |names| => Claim(names[k]))
  }

  function Presence(names: seq<string>, census: string): Group {
    Group(Show, Or, Claims(names) + [Escape(census)])
  }

  datatype Result<T> = Ok(value: T) | Refused

  /** condition: a presence claim needs a census to escape to. */
  function Condition(present: seq<string>, census: string): Result<Option<Group>> {
    if present == [] then Ok(None)
    else if census == "" then Refused
    else Ok(Some(Presence(present, census)))
  }

  function RowSpec(title: string, names: seq<string>, present: seq<string>, census: string): Result<Row> {
    match Condition(present, census)
    case Refused => Refused
    case Ok(c) => Ok(Row(title, c, names))
  }

  function Leaf(title: string, rows: seq<Row>, present: seq<string>, census: string): Result<Tab> {
    match Condition(present, census)
    case Refused => Refused
    case Ok(c) => Ok(Tab(title, c, Rows(rows)))
  }

  function Domain(title: string, leaves: seq<Tab>, present: seq<string>, census: string): Result<Tab> {
    match Condition(present, census)
    case Refused => Refused
    case Ok(c) => Ok(Tab(title, c, Nested(leaves)))
  }

  // -------------------------------------------------------------- fail-visible trees

  /** A fail-visible condition: any of its sentinels, or an empty census. */
  predicate FailVisible(g: Group, census: string) {
    && g.visibility == Show && g.mode == Or && Escape(census) in g.items
    && forall i :: i in g.items ==> i == Claim(i.variable) || i == Escape(census)
  }

  predicate RenderingBuilt(r: Option<Group>, census: string) { r.Some? ==> FailVisible(r.value, census) }

  predicate Built(tabs: seq<Tab>, census: string) {
    forall t :: t in tabs ==> TabBuilt(t, census)
  }

  /** Every condition in the tree is fail-visible over the one census. */
  predicate TabBuilt(t: Tab, census: string) {
    && RenderingBuilt(t.rendering, census)
    && match t.content
       case Nested(tabs) => forall u :: u in tabs ==> TabBuilt(u, census)
       case Rows(rows) => forall r :: r in rows ==> RenderingBuilt(r.rendering, census)
  }

  lemma ConditionBuilt(present: seq<string>, census: string)
    ensures Condition(present, census).Ok? ==> RenderingBuilt(Condition(present, census).value, census)
    ensures Condition(present, census).Refused? <==> present != [] && census == ""
  {
    if present != [] {
      var g := Presence(present, census);
      assert g.items[|present|] == Escape(census);
    }
  }

  /** Whatever is built with the constructors, in any nesting, is a fail-visible tree. */
  lemma ConstructorsBuild(title: string, names: seq<string>, rows: seq<Row>, leaves: seq<Tab>,
                          present: seq<string>, census: string)
    ensures RowSpec(title, names, present, census).Ok? ==>
      RenderingBuilt(RowSpec(title, names, present, census).value.rendering, census)
    ensures
      Leaf(title, rows, present, census).Ok? && (forall r :: r in rows ==> RenderingBuilt(r.rendering, census)) ==>
      TabBuilt(Leaf(title, rows, present, census).value, census)
    ensures Domain(title, leaves, present, census).Ok? && Built(leaves, census) ==>
      TabBuilt(Domain(title, leaves, present, census).value, census)
  {
    hide FailVisible;
    ConditionBuilt(present, census);
  }

  /** The constructors keep what they are given, and the condition they attach shows its content
      exactly when some claimed variable is undeclared or has a value, or the census is undeclared
      or empty; without a claim there is none. */
  lemma ConditionMeans(r: Renderer, present: seq<string>, census: string, s: State)
    requires Sound(r) && Condition(present, census).Ok?
    ensures Condition(present, census).value == None <==> present == []
    ensures present != [] ==>
      (Shown(r, Condition(present, census).value.value, s) <==>
         || !(census in s && s[census] != "")
         || exists n :: n in present && !(n in s && s[n] == ""))
  {
    if present != [] {
      var g := Presence(present, census);
      assert g.items[|present|] == Escape(census);
      if !(census in s && s[census] != "") { assert Holds(r, Escape(census), Value(s, census)); }
      if n :| n in present && !(n in s && s[n] == "") {
        var k :| 0 <= k < |present| && present[k] == n;
        assert g.items[k] == Claim(n) && Holds(r, Claim(n), Value(s, n));
      }
      if i :| i in g.items && Holds(r, i, Value(s, i.variable)) {
        var k :| 0 <= k < |g.items| && g.items[k] == i;
        if k < |present| { assert i == Claim(present[k]) && present[k] in present; }
      }
    }
  }

  lemma ConstructorsKeep(title: string, names: seq<string>, rows: seq<Row>, leaves: seq<Tab>,
                         present: seq<string>, census: string)
    ensures var row, leaf, domain := RowSpec(title, names, present, census), Leaf(title, rows, present, census),
        Domain(title, leaves, present, census);
      match Condition(present, census)
      case Refused => row == Refused && leaf == Refused && domain == Refused
      case Ok(c) =>
        && row == Ok(Row(title, c, names)) && leaf == Ok(Tab(title, c, Rows(rows)))
        && domain == Ok(Tab(title, c, Nested(leaves)))
  {}

  lemma {:induction false} RowPathBuilt(rows: seq<Row>, path: seq<Group>, census: string)
    requires forall r :: r in rows ==> RenderingBuilt(r.rendering, census)
    requires forall g :: g in path ==> FailVisible(g, census)
    ensures forall p, g :: p in RowPlacements(rows, path) && g in p.path ==> FailVisible(g, census)
  {
    hide FailVisible;
    if rows != [] { RowPathBuilt(rows[..|rows| - 1], path, census); }
  }

  lemma {:induction false} PathBuilt(tabs: seq<Tab>, path: seq<Group>, census: string)
    requires Built(tabs, census) && forall g :: g in path ==> FailVisible(g, census)
    ensures forall p, g :: p in Placements(tabs, path) && g in p.path ==> FailVisible(g, census)
    decreases tabs, 0
  {
    hide FailVisible;
    if tabs != [] {
      PathBuilt(tabs[..|tabs| - 1], path, census);
      TabPathBuilt(tabs[|tabs| - 1], path, census);
    }
  }

  lemma {:induction false} TabPathBuilt(tab: Tab, path: seq<Group>, census: string)
    requires TabBuilt(tab, census) && forall g :: g in path ==> FailVisible(g, census)
    ensures forall p, g :: p in TabPlacements(tab, path) && g in p.path ==> FailVisible(g, census)
    decreases tab, 1
  {
    hide FailVisible;
    match tab.content
    case Nested(tabs) => PathBuilt(tabs, Under(path, tab.rendering), census);
    case Rows(rows) => RowPathBuilt(rows, Under(path, tab.rendering), census);
  }

  /** All of a condition's presence sentinels are declared and empty. */
  predicate AllEmpty(g: Group, s: State) {
    forall i :: i in g.items && i.operator == Matches ==> i.variable in s && s[i.variable] == ""
  }

  predicate CensusHealthy(census: string, s: State) { census in s && s[census] != "" }

  /** A fail-visible condition hides exactly on positive evidence: a non-empty census, and
      every sentinel empty. */
  lemma HidesExactly(r: Renderer, g: Group, census: string, s: State)
    requires Sound(r) && FailVisible(g, census)
    ensures !Shown(r, g, s) <==> CensusHealthy(census, s) && AllEmpty(g, s)
  {
    var escape := Escape(census);
    assert escape in g.items;
    if CensusHealthy(census, s) && AllEmpty(g, s) {
      forall i | i in g.items ensures !Holds(r, i, Value(s, i.variable)) {}
    } else if CensusHealthy(census, s) {
      var i :| i in g.items && i.operator == Matches && !(i.variable in s && s[i.variable] == "");
      assert Holds(r, i, Value(s, i.variable));
    } else {
      assert Holds(r, escape, Value(s, census));
    }
  }

  /** In a tree built with the constructors a panel is hidden exactly when the census is
      non-empty and some tab or row around it has only empty sentinels; so with an empty or
      undeclared census every placed panel is visible. */
  lemma PanelHiddenExactly(r: Renderer, tabs: seq<Tab>, census: string, s: State, p: Placement)
    requires Sound(r) && Built(tabs, census) && p in Placements(tabs, [])
    ensures !Seen(r, p, s) <==> CensusHealthy(census, s) && exists g :: g in p.path && AllEmpty(g, s)
  {
    hide FailVisible, Shown, AllEmpty, Sound;
    PathBuilt(tabs, [], census);
    forall g | g in p.path ensures !Shown(r, g, s) <==> CensusHealthy(census, s) && AllEmpty(g, s) {
      HidesExactly(r, g, census, s);
    }
  }

  // -------------------------------------------------------------- the checker's walk

  datatype Visit = Visit(tab: Tab, siblings: seq<Tab>)

  /** Every tab, depth first, with the list it is in. */
  function Walk(tabs: seq<Tab>, siblings: seq<Tab>): seq<Visit>
    decreases tabs, 0
  {
    if tabs == [] then [] else Walk(tabs[..|tabs| - 1], siblings) + WalkOne(tabs[|tabs| - 1], siblings)
  }

  function WalkOne(tab: Tab, siblings: seq<Tab>): seq<Visit>
    decreases tab, 1
  {
    [Visit(tab, siblings)] + if tab.content.Nested? then Walk(tab.content.tabs, tab.content.tabs) else []
  }

  function RowsOf(tab: Tab): seq<Row> {
    if tab.content.Rows? then tab.content.rows else []
  }

  function RowNames(rows: seq<Row>): set<string> {
    if rows == [] then {}
    else
      var last := rows[|rows| - 1];
      RowNames(rows[..|rows| - 1]) + set n | n in last.names
  }

  /** placed_element_names, over the walk. */
  function Placed(visits: seq<Visit>): set<string> {
    if visits == [] then {}
    else Placed(visits[..|visits| - 1]) + RowNames(RowsOf(visits[|visits| - 1].tab))
  }

  datatype Owned = Owned(owner: string, group: Group)

  function RowGroups(rows: seq<Row>): seq<Owned> {
    if rows == [] then []
    else
      var last := rows[|rows| - 1];
      RowGroups(rows[..|rows| - 1]) +
        if last.rendering.Some?
        then [Owned(if last.title == "" then "(untitled row)" else last.title, last.rendering.value)]
        else []
  }

  function TabGroups(tab: Tab): seq<Owned> {
    (if tab.rendering.Some? then [Owned(tab.title, tab.rendering.value)] else []) + RowGroups(RowsOf(tab))
  }

  /** _conditional_groups, over the walk. */
  function Groups(visits: seq<Visit>): seq<Owned> {
    if visits == [] then [] else Groups(visits[..|visits| - 1]) + TabGroups(visits[|visits| - 1].tab)
  }

  function ConditionalRows(rows: seq<Row>, hidden: bool): set<string> {
    if rows == [] then {}
    else
      var last := rows[|rows| - 1];
      ConditionalRows(rows[..|rows| - 1], hidden) +
        if hidden || last.rendering.Some? then set n | n in last.names else {}
  }

  /** _conditional_element_names. */
  function Conditional(tabs: seq<Tab>, hidden: bool): set<string>
    decreases tabs, 0
  {
    if tabs == [] then {}
    else Conditional(tabs[..|tabs| - 1], hidden) + ConditionalTab(tabs[|tabs| - 1], hidden)
  }

  function ConditionalTab(tab: Tab, hidden: bool): set<string>
    decreases tab, 1
  {
    var under := hidden || tab.rendering.Some?;
    match tab.content
    case Nested(tabs) => Conditional(tabs, under)
    case Rows(rows) => ConditionalRows(rows, under)
  }

  // -------------------------------------------------------------- the walk against the tree

  function NamesOf(ps: set<Placement>): set<string> { set p | p in ps :: p.name }

  function ConditionedOf(ps: set<Placement>): set<string> { set p | p in ps && p.path != [] :: p.name }

  lemma NamesUnion(a: set<Placement>, b: set<Placement>)
    ensures NamesOf(a + b) == NamesOf(a) + NamesOf(b) && ConditionedOf(a + b) == ConditionedOf(a) + ConditionedOf(b)
  {}

  lemma RowPlaces(names: seq<string>, path: seq<Group>)
    ensures var ps := set n | n in names :: Placement(n, path);
      && NamesOf(ps) == (set n | n in names)
      && ConditionedOf(ps) == if path != [] then set n | n in names else {}
  {
    var ps := set n | n in names :: Placement(n, path);
    forall n | n in names ensures n in NamesOf(ps) && (path != [] ==> n in ConditionedOf(ps)) {
      assert Placement(n, path) in ps;
    }
  }

  lemma {:induction false} RowsMatch(rows: seq<Row>, path: seq<Group>)
    ensures NamesOf(RowPlacements(rows, path)) == RowNames(rows)
    ensures ConditionedOf(RowPlacements(rows, path)) == ConditionalRows(rows, path != [])
  {
    if rows != [] {
      var init, last := rows[..|rows| - 1], rows[|rows| - 1];
      RowsMatch(init, path);
      RowPlaces(last.names, Under(path, last.rendering));
      NamesUnion(RowPlacements(init, path), set n | n in last.names :: Placement(n, Under(path, last.rendering)));
    }
  }

  lemma {:induction false} PlacedConcat(a: seq<Visit>, b: seq<Visit>)
    ensures Placed(a + b) == Placed(a) + Placed(b)
    ensures Groups(a + b) == Groups(a) + Groups(b)
  {
    hide TabGroups, RowNames, RowsOf;
    if b == [] {
      assert a + b == a;
    } else {
      PlacedConcat(a, b[..|b| - 1]);
      assert (a + b)[..|a + b| - 1] == a + b[..|b| - 1];
    }
  }

  lemma PlacedOne(v: Visit)
    ensures Placed([v]) == RowNames(RowsOf(v.tab)) && Groups([v]) == TabGroups(v.tab)
  {
    assert [v][..0] == [];
    assert [] + TabGroups(v.tab) == TabGroups(v.tab);
  }

  /** The two walks of the checker see what the tree shows: the names placed, and the names
      that some placement puts under a condition. */
  lemma {:induction false} WalkMatches(tabs: seq<Tab>, siblings: seq<Tab>, path: seq<Group>)
    ensures NamesOf(Placements(tabs, path)) == Placed(Walk(tabs, siblings))
    ensures ConditionedOf(Placements(tabs, path)) == Conditional(tabs, path != [])
    decreases tabs, 0
  {
    if tabs != [] {
      var init, last := tabs[..|tabs| - 1], tabs[|tabs| - 1];
      WalkMatches(init, siblings, path);
      TabMatches(last, siblings, path);
      NamesUnion(Placements(init, path), TabPlacements(last, path));
      PlacedConcat(Walk(init, siblings), WalkOne(last, siblings));
    }
  }

  lemma {:induction false} TabMatches(tab: Tab, siblings: seq<Tab>, path: seq<Group>)
    ensures NamesOf(TabPlacements(tab, path)) == Placed(WalkOne(tab, siblings))
    ensures ConditionedOf(TabPlacements(tab, path)) == ConditionalTab(tab, path != [])
    decreases tab, 1
  {
    hide Placed, Groups, TabGroups, NamesOf, ConditionedOf, RowPlacements, ConditionalRows;
    hide Placements, Conditional, Walk;
    var v := Visit(tab, siblings);
    PlacedOne(v);
    match tab.content
    case Nested(tabs) =>
      WalkMatches(tabs, tabs, Under(path, tab.rendering));
      PlacedConcat([v], Walk(tabs, tabs));
    case Rows(rows) =>
      RowsMatch(rows, Under(path, tab.rendering));
      assert [v] + [] == [v];
  }

  /** The group is one the checker looks at. */
  ghost predicate Checked(visits: seq<Visit>, g: Group) { exists owner :: Owned(owner, g) in Groups(visits) }

  lemma {:induction false} RowGroupsChecked(rows: seq<Row>, path: seq<Group>, p: Placement, g: Group)
    requires p in RowPlacements(rows, path) && g in p.path
    ensures g in path || exists owner :: Owned(owner, g) in RowGroups(rows)
  {
    var init, last := rows[..|rows| - 1], rows[|rows| - 1];
    if p in RowPlacements(init, path) {
      RowGroupsChecked(init, path, p, g);
      if g !in path {
        var owner :| Owned(owner, g) in RowGroups(init);
        assert Owned(owner, g) in RowGroups(rows);
      }
    } else if g !in path {
      assert Owned(if last.title == "" then "(untitled row)" else last.title, g) in RowGroups(rows);
    }
  }

  /** Every condition around a placement is among the groups the checker looks at. */
  lemma {:induction false} PathChecked(tabs: seq<Tab>, siblings: seq<Tab>, path: seq<Group>, p: Placement, g: Group)
    requires p in Placements(tabs, path) && g in p.path
    ensures g in path || Checked(Walk(tabs, siblings), g)
    decreases tabs, 0
  {
    var init, last := tabs[..|tabs| - 1], tabs[|tabs| - 1];
    PlacedConcat(Walk(init, siblings), WalkOne(last, siblings));
    if p in Placements(init, path) {
      PathChecked(init, siblings, path, p, g);
    } else {
      TabPathChecked(last, siblings, path, p, g);
    }
  }

  lemma {:induction false} TabPathChecked(tab: Tab, siblings: seq<Tab>, path: seq<Group>, p: Placement, g: Group)
    requires p in TabPlacements(tab, path) && g in p.path
    ensures g in path || Checked(WalkOne(tab, siblings), g)
    decreases tab, 1
  {
    var v, under := Visit(tab, siblings), Under(path, tab.rendering);
    PlacedOne(v);
    if tab.rendering.Some? && g == tab.rendering.value { assert Owned(tab.title, g) in TabGroups(tab); }
    match tab.content
    case Nested(tabs) =>
      PlacedConcat([v], Walk(tabs, tabs));
      PathChecked(tabs, tabs, under, p, g);
    case Rows(rows) =>
      assert [v] + [] == [v];
      RowGroupsChecked(rows, under, p, g);
      if g !in under {
        var owner :| Owned(owner, g) in RowGroups(rows);
        assert Owned(owner, g) in TabGroups(tab);
      }
  }

  // -------------------------------------------------------------- the checker

  /** A panel link: its URL tells the panel it views, and whether it carries a dtab. */
  datatype Link = Link(url: string) {
    function Target(): Option<nat> { Links.Target(url) }

    predicate Dtab() { Links.HasDtab(url) }
  }

  datatype Element = Element(name: string, id: nat, links: seq<Link>)

  datatype Manifest = Manifest(tabs: seq<Tab>, elements: seq<Element>, declared: set<string>)

  datatype Violation =
    | Unplaced(name: string)
    | Dangling(name: string)
    | NotOr(owner: string)
    | NoEscape(owner: string)
    | Undeclared(owner: string, variable: string)
    | NoSuchPanel(owner: string, target: nat)
    | HiddenTarget(owner: string, target: nat)
    | RepeatedTitle(title: string)

  function ElementNames(es: seq<Element>): set<string> { set e | e in es :: e.name }

  predicate HasMatches(g: Group) { exists i :: i in g.items && i.operator == Matches }

  predicate HasEscape(g: Group) { exists i :: i in g.items && i.operator == NotMatches }

  /** The checker's two rules: a presence claim is an "or", and has an escape. */
  predicate Safe(g: Group) { HasMatches(g) ==> g.mode == Or && HasEscape(g) }

  predicate Declared(g: Group, declared: set<string>) { forall i :: i in g.items ==> i.variable in declared }

  function GroupFaults(o: Owned, declared: set<string>): set<Violation> {
    (if HasMatches(o.group) && o.group.mode != Or then {NotOr(o.owner)} else {})
    + (if HasMatches(o.group) && !HasEscape(o.group) then {NoEscape(o.owner)} else {})
    + set i | i in o.group.items && i.variable !in declared :: Undeclared(o.owner, i.variable)
  }

  function AllGroupFaults(groups: seq<Owned>, declared: set<string>): set<Violation> {
    if groups == [] then {}
    else AllGroupFaults(groups[..|groups| - 1], declared) + GroupFaults(groups[|groups| - 1], declared)
  }

  /** The dictionary from panel id to element name: the last element of an id wins. */
  function ById(es: seq<Element>, id: nat): (r: Option<Element>)
    ensures r.Some? ==> r.value in es && r.value.id == id
    ensures r.None? ==> forall e :: e in es ==> e.id != id
  {
    if es == [] then None
    else if es[|es| - 1].id == id then Some(es[|es| - 1])
    else ById(es[..|es| - 1], id)
  }

  function LinkFault(owner: string, l: Link, es: seq<Element>, conditional: set<string>): set<Violation> {
    if l.Target().None? then {}
    else
      var e := ById(es, l.Target().value);
      if e.None? then {NoSuchPanel(owner, l.Target().value)}
      else if e.value.name in conditional && !l.Dtab() then {HiddenTarget(owner, l.Target().value)}
      else {}
  }

  function LinkFaults(owner: string, links: seq<Link>, es: seq<Element>, conditional: set<string>): set<Violation> {
    if links == [] then {}
    else
      LinkFaults(owner, links[..|links| - 1], es, conditional) +
      LinkFault(owner, links[|links| - 1], es, conditional)
  }

  function AllLinkFaults(some: seq<Element>, es: seq<Element>, conditional: set<string>): set<Violation> {
    if some == [] then {}
    else
      var last := some[|some| - 1];
      AllLinkFaults(some[..|some| - 1], es, conditional) + LinkFaults(last.name, last.links, es, conditional)
  }

  /** How many of the tabs have the key, made of the title. */
  function Count(key: string -> string, tabs: seq<Tab>, k: string): nat {
    if tabs == [] then 0
    else Count(key, tabs[..|tabs| - 1], k) + if key(tabs[|tabs| - 1].title) == k then 1 else 0
  }

  function Same(title: string): string { title }

  function TitleFaults(tabs: seq<Tab>): set<Violation> {
    set t | t in tabs && Count(Same, tabs, t.title) > 1 :: RepeatedTitle(t.title)
  }

  function AllTitleFaults(visits: seq<Visit>): set<Violation> {
    if visits == [] then {}
    else AllTitleFaults(visits[..|visits| - 1]) + TitleFaults(visits[|visits| - 1].siblings)
  }

  /** manifest_violations. */
  function Violations(m: Manifest): set<Violation> {
    var visits := Walk(m.tabs, m.tabs);
    var names, placed := ElementNames(m.elements), Placed(visits);
    (set n | n in names - placed :: Unplaced(n))
    + (set n | n in placed - names :: Dangling(n))
    + AllGroupFaults(Groups(visits), m.declared)
    + AllLinkFaults(m.elements, m.elements, Conditional(m.tabs, false))
    + AllTitleFaults(visits)
  }

  // -------------------------------------------------------------- what a clean manifest promises

  /** The variables of the group's escape items, and of all the groups around a placement. */
  function Escapes(g: Group): set<string> { set i | i in g.items && i.operator == NotMatches :: i.variable }

  function PathEscapes(p: Placement): set<string> {
    set g, i | g in p.path && i in g.items && i.operator == NotMatches :: i.variable
  }

  /** The declared variables have values, and no escape has one that is not empty. */
  predicate Possible(declared: set<string>, escapes: set<string>, s: State) {
    s.Keys == declared && forall v :: v in escapes && v in s ==> s[v] == ""
  }

  /** What one variable can be in such a state. */
  predicate Allowed(declared: set<string>, escapes: set<string>, variable: string, value: Option<string>) {
    (value.Some? <==> variable in declared) && (value.Some? && variable in escapes ==> value.value == "")
  }

  /** The item is for showing the content. */
  predicate Speaks(r: Renderer, g: Group, i: Item, value: Option<string>) {
    Holds(r, i, value) == (g.visibility == Show)
  }

  /** One such item is enough; otherwise every item has to be one. */
  predicate OneSuffices(g: Group) { (g.visibility == Show) == (g.mode == Or) }

  /** Whatever the variable can be, one of its items is for showing the content. */
  ghost predicate Covered(r: Renderer, declared: set<string>, escapes: set<string>, g: Group, variable: string) {
    forall value :: Allowed(declared, escapes, variable, value) ==>
      exists i :: i in g.items && i.variable == variable && Speaks(r, g, i, value)
  }

  /** Whatever its variable can be, the item is for showing the content. */
  ghost predicate Firm(r: Renderer, declared: set<string>, escapes: set<string>, g: Group, i: Item) {
    forall value :: Allowed(declared, escapes, i.variable, value) ==> Speaks(r, g, i, value)
  }

  /** The group never hides its content while the escapes are empty, judged one variable at a
      time. */
  ghost predicate StaysShown(r: Renderer, declared: set<string>, escapes: set<string>, g: Group) {
    if g.items == [] then r.empty(g.visibility, g.mode)
    else if OneSuffices(g) then exists i :: i in g.items && Covered(r, declared, escapes, g, i.variable)
    else forall i :: i in g.items ==> Firm(r, declared, escapes, g, i)
  }

  lemma ShownBy(r: Renderer, g: Group, s: State)
    requires g.items != []
    ensures Shown(r, g, s) <==>
      if OneSuffices(g) then exists i :: i in g.items && Speaks(r, g, i, Value(s, i.variable))
      else forall i :: i in g.items ==> Speaks(r, g, i, Value(s, i.variable))
  {
    hide Holds;
  }

  function Blank(declared: set<string>): State { map v | v in declared :: "" }

  /** A value that no item of the variable speaks for. */
  ghost function Against(r: Renderer, declared: set<string>, escapes: set<string>, g: Group, variable: string)
    : (value: Option<string>)
    requires !Covered(r, declared, escapes, g, variable)
    ensures Allowed(declared, escapes, variable, value)
    ensures forall i :: i in g.items && i.variable == variable ==> !Speaks(r, g, i, value)
  {
    var value :| Allowed(declared, escapes, variable, value)
      && forall i :: i in g.items && i.variable == variable ==> !Speaks(r, g, i, value);
    value
  }

  /** Variables are independent: a group, whatever its visibility, operators and patterns,
      shows in every state with empty escapes exactly when it does one variable at a time. */
  lemma ShownExactly(r: Renderer, declared: set<string>, escapes: set<string>, g: Group)
    ensures (forall s :: Possible(declared, escapes, s) ==> Shown(r, g, s)) <==> StaysShown(r, declared, escapes, g)
  {
    if g.items == [] {
      assert Possible(declared, escapes, Blank(declared));
    } else if StaysShown(r, declared, escapes, g) {
      forall s | Possible(declared, escapes, s) ensures Shown(r, g, s) { StaysSo(r, declared, escapes, g, s); }
    } else {
      var s := HidingState(r, declared, escapes, g);
    }
  }

  lemma StaysSo(r: Renderer, declared: set<string>, escapes: set<string>, g: Group, s: State)
    requires g.items != [] && StaysShown(r, declared, escapes, g) && Possible(declared, escapes, s)
    ensures Shown(r, g, s)
  {
    hide Shown, Speaks;
    ShownBy(r, g, s);
    assert forall v :: Allowed(declared, escapes, v, Value(s, v));
    if OneSuffices(g) {
      var i :| i in g.items && Covered(r, declared, escapes, g, i.variable);
      var j :| j in g.items && j.variable == i.variable && Speaks(r, g, j, Value(s, i.variable));
    }
  }

  lemma HidingState(r: Renderer, declared: set<string>, escapes: set<string>, g: Group) returns (s: State)
    requires g.items != [] && !StaysShown(r, declared, escapes, g)
    ensures Possible(declared, escapes, s) && !Shown(r, g, s)
  {
    hide Shown, Speaks, Covered;
    if OneSuffices(g) {
      s := map v | v in declared ::
        if Covered(r, declared, escapes, g, v) then "" else Against(r, declared, escapes, g, v).value;
      forall i | i in g.items ensures !Speaks(r, g, i, Value(s, i.variable)) {
        assert Value(s, i.variable) == Against(r, declared, escapes, g, i.variable);
      }
    } else {
      var i :| i in g.items && !Firm(r, declared, escapes, g, i);
      var value :| Allowed(declared, escapes, i.variable, value) && !Speaks(r, g, i, value);
      s := if value.Some? then Blank(declared)[i.variable := value.value] else Blank(declared);
      assert Value(s, i.variable) == value;
    }
    ShownBy(r, g, s);
  }

  /** An escape whose pattern lets the empty value through keeps a shown "or" open. */
  lemma EscapeSuffices(r: Renderer, declared: set<string>, escapes: set<string>, g: Group, i: Item)
    requires g.visibility == Show && g.mode == Or
    requires i in g.items && i.operator == NotMatches && i.variable in escapes && !r.matches(i.pattern, "")
    ensures StaysShown(r, declared, escapes, g)
  {
    forall value | Allowed(declared, escapes, i.variable, value) ensures Speaks(r, g, i, value) {}
    assert Covered(r, declared, escapes, g, i.variable);
  }

  /** The escape holds for an empty value. */
  predicate LetsThrough(r: Renderer, i: Item) { i.operator == NotMatches && !r.matches(i.pattern, "") }

  /** The patterns of escapes are what matters: a condition of plain claims and of escapes with any
      patterns, to be shown and passing the two rules, shows in every state with empty escapes
      exactly when one of its escapes lets the empty value through, or each of them for an "and". */
  lemma PatternRuleExact(r: Renderer, declared: set<string>, escapes: set<string>, g: Group)
    requires Sound(r) && Declared(g, declared) && Escapes(g) <= escapes && g.items != []
    requires g.visibility == Show && Safe(g)
    requires forall i :: i in g.items ==> i == Claim(i.variable) || i.operator == NotMatches
    ensures (forall s :: Possible(declared, escapes, s) ==> Shown(r, g, s)) <==>
      if g.mode == Or then exists i :: i in g.items && LetsThrough(r, i)
      else forall i :: i in g.items ==> LetsThrough(r, i)
  {
    ShownExactly(r, declared, escapes, g);
    if g.mode == Or {
      if i :| i in g.items && LetsThrough(r, i) {
        assert i.variable in Escapes(g);
        EscapeSuffices(r, declared, escapes, g, i);
      }
      if i :| i in g.items && Covered(r, declared, escapes, g, i.variable) {
        assert Allowed(declared, escapes, i.variable, Some(""));
        var j :| j in g.items && j.variable == i.variable && Speaks(r, g, j, Some(""));
        assert LetsThrough(r, j);
      }
    } else {
      forall i | i in g.items ensures Firm(r, declared, escapes, g, i) <==> LetsThrough(r, i) {
        assert i.variable in Escapes(g);
        assert Allowed(declared, escapes, i.variable, Some(""));
      }
    }
  }

  /** The generator's operators and pattern only. */
  predicate Plain(g: Group) { forall i :: i in g.items ==> !i.operator.Other? && i.pattern == SOMETHING }

  /** A claim and an escape on one variable. */
  predicate Contradicts(g: Group) {
    exists i, j :: i in g.items && j in g.items && i.variable == j.variable
                   && i.operator == Matches && j.operator == NotMatches
  }

  /** The checker's two rules are exact for what they are about: a plain condition that is to be
      shown and has items shows in every state with empty escapes exactly when it passes them.
      One that is to be hidden does so only as an "and" that contradicts itself. */
  lemma GroupRuleExact(r: Renderer, declared: set<string>, g: Group)
    requires Sound(r) && Plain(g) && Declared(g, declared)
    ensures (forall s :: Possible(declared, Escapes(g), s) ==> Shown(r, g, s)) <==>
      if g.items == [] then r.empty(g.visibility, g.mode)
      else if g.visibility == Show then Safe(g)
      else g.mode == And && Contradicts(g)
  {
    ShownExactly(r, declared, Escapes(g), g);
    if g.items != [] { PlainStays(r, declared, Escapes(g), g); }
  }

  /** The operator that speaks for showing when the value is empty. */
  function Calm(g: Group): Operator { if g.visibility == Show then NotMatches else Matches }

  lemma PlainSpeaks(r: Renderer, g: Group, i: Item, value: string)
    requires Sound(r) && Plain(g) && i in g.items
    ensures Speaks(r, g, i, Some(value)) <==> ((value == "") == (i.operator == Calm(g)))
  {}

  lemma PlainCovered(r: Renderer, declared: set<string>, escapes: set<string>, g: Group, variable: string)
    requires Sound(r) && Plain(g) && Escapes(g) <= escapes && variable in declared
    ensures Covered(r, declared, escapes, g, variable) <==>
      variable in escapes && exists i :: i in g.items && i.variable == variable && i.operator == Calm(g)
  {
    hide Speaks, Sound, Plain;
    forall i, v: string | i in g.items ensures Speaks(r, g, i, Some(v)) <==> ((v == "") == (i.operator == Calm(g))) {
      PlainSpeaks(r, g, i, v);
    }
    if Covered(r, declared, escapes, g, variable) {
      assert Allowed(declared, escapes, variable, Some(""));
      var i :| i in g.items && i.variable == variable && Speaks(r, g, i, Some(""));
      if variable !in escapes {
        assert Allowed(declared, escapes, variable, Some("x"));
        var j :| j in g.items && j.variable == variable && Speaks(r, g, j, Some("x"));
        OneEscapes(g, i, j);
      }
    }
  }

  lemma OneEscapes(g: Group, i: Item, j: Item)
    requires Plain(g) && i in g.items && j in g.items && i.variable == j.variable
    requires i.operator == Calm(g) && j.operator != Calm(g)
    ensures i.variable in Escapes(g)
  {
    assert (if i.operator == NotMatches then i else j) in g.items;
  }

  lemma PlainFirm(r: Renderer, declared: set<string>, escapes: set<string>, g: Group, i: Item)
    requires Sound(r) && Plain(g) && Escapes(g) <= escapes && i in g.items && i.variable in declared
    ensures Firm(r, declared, escapes, g, i) <==> i.variable in escapes && i.operator == Calm(g)
  {
    hide Speaks, Sound;
    forall v: string ensures Speaks(r, g, i, Some(v)) <==> ((v == "") == (i.operator == Calm(g))) {
      PlainSpeaks(r, g, i, v);
    }
    if Firm(r, declared, escapes, g, i) {
      assert Allowed(declared, escapes, i.variable, Some(""));
      assert i.variable !in escapes ==> Allowed(declared, escapes, i.variable, Some("x"));
    }
  }

  lemma PlainStays(r: Renderer, declared: set<string>, escapes: set<string>, g: Group)
    requires Sound(r) && Plain(g) && Declared(g, declared) && g.items != [] && Escapes(g) <= escapes
    ensures g.visibility == Show ==> (StaysShown(r, declared, escapes, g) <==> Safe(g))
    ensures g.visibility == Hide && Safe(g) ==> !StaysShown(r, declared, escapes, g)
    ensures g.visibility == Hide && escapes == Escapes(g) ==>
      (StaysShown(r, declared, escapes, g) <==> g.mode == And && Contradicts(g))
  {
    hide Sound, Covered, Firm;
    forall i | i in g.items
      ensures Covered(r, declared, escapes, g, i.variable) <==>
        i.variable in escapes && exists j :: j in g.items && j.variable == i.variable && j.operator == Calm(g)
      ensures Firm(r, declared, escapes, g, i) <==> i.variable in escapes && i.operator == Calm(g)
    {
      PlainCovered(r, declared, escapes, g, i.variable);
      PlainFirm(r, declared, escapes, g, i);
    }
    assert g.items[0] in g.items;
    assert forall i :: i in g.items ==> i.operator == Matches || i.operator == NotMatches;
    assert forall i :: i in g.items && i.operator == NotMatches ==> i.variable in Escapes(g);
    hide Plain, Escapes;
  }

  lemma {:induction false} GroupsPass(groups: seq<Owned>, declared: set<string>, o: Owned)
    requires o in groups && AllGroupFaults(groups, declared) == {}
    ensures GroupFaults(o, declared) == {}
  {
    var init, last := groups[..|groups| - 1], groups[|groups| - 1];
    assert groups == init + [last];
    if o != last { GroupsPass(init, declared, o); }
  }

  /** What a condition has to be for a placement under it to stay visible. A plain one has to be
      there to show, the checker having seen to the rest; without items it is up to the renderer,
      and with other operators or patterns up to what they match. */
  ghost predicate KeepsOpen(r: Renderer, declared: set<string>, escapes: set<string>, g: Group) {
    if g.items == [] then r.empty(g.visibility, g.mode)
    else if Plain(g) then g.visibility == Show
    else StaysShown(r, declared, escapes, g)
  }

  /** In a manifest without violations a placed panel is visible in every state in which the
      escapes around it are empty, whatever was edited into the tree by hand, exactly when every
      condition around it keeps open. */
  lemma CleanIsFailVisible(r: Renderer, m: Manifest, p: Placement)
    requires Sound(r) && Violations(m) == {} && p in Placements(m.tabs, [])
    ensures (forall s :: Possible(m.declared, PathEscapes(p), s) ==> Seen(r, p, s)) <==>
      forall g :: g in p.path ==> KeepsOpen(r, m.declared, PathEscapes(p), g)
  {
    hide Shown, Safe, Declared, Placements, Groups, Walk, StaysShown, Sound, Plain, Possible;
    var escapes := PathEscapes(p);
    forall g | g in p.path
      ensures (forall s :: Possible(m.declared, escapes, s) ==> Shown(r, g, s)) <==>
        KeepsOpen(r, m.declared, escapes, g)
    {
      PathChecked(m.tabs, m.tabs, [], p, g);
      var owner :| Owned(owner, g) in Groups(Walk(m.tabs, m.tabs));
      GroupsPass(Groups(Walk(m.tabs, m.tabs)), m.declared, Owned(owner, g));
      FaultFree(Owned(owner, g), m.declared);
      EscapesAround(p, g);
      OpenExactly(r, m.declared, escapes, g);
    }
  }

  lemma EscapesAround(p: Placement, g: Group)
    requires g in p.path
    ensures Escapes(g) <= PathEscapes(p)
  {}

  lemma OpenExactly(r: Renderer, declared: set<string>, escapes: set<string>, g: Group)
    requires Sound(r) && Safe(g) && Declared(g, declared) && Escapes(g) <= escapes
    ensures (forall s :: Possible(declared, escapes, s) ==> Shown(r, g, s)) <==> KeepsOpen(r, declared, escapes, g)
  {
    ShownExactly(r, declared, escapes, g);
    if g.items == [] {
      assert StaysShown(r, declared, escapes, g) <==> r.empty(g.visibility, g.mode);
    } else if Plain(g) {
      PlainStays(r, declared, escapes, g);
    }
  }

  // -------------------------------------------------------------- what the checker lets pass

  const BARE_ROW := Row("", None, ["panel-1"])
  const BARE_PANEL := Element("panel-1", 1, [])

  function Bare(g: Group): Tab { Tab("tab", Some(g), Rows([BARE_ROW])) }

  /** One tab over one panel, under one condition. */
  function Single(g: Group, declared: set<string>): Manifest { Manifest([Bare(g)], [BARE_PANEL], declared) }

  lemma SinglePlacement(g: Group)
    ensures Placement("panel-1", [g]) in Placements([Bare(g)], [])
  {
    var rows, tabs := [BARE_ROW], [Bare(g)];
    assert rows[..0] == [] && rows[|rows| - 1] == BARE_ROW && tabs[..0] == [] && tabs[|tabs| - 1] == Bare(g);
    assert "panel-1" in BARE_ROW.names;
    assert Placement("panel-1", [g]) in RowPlacements(rows, [g]);
    assert Under([], Some(g)) == [g];
  }

  lemma SingleWalk(g: Group)
    ensures var v := Visit(Bare(g), [Bare(g)]);
      && Walk([Bare(g)], [Bare(g)]) == [v] && Placed([v]) == {"panel-1"} && Groups([v]) == [Owned("tab", g)]
  {
    var tabs, rows, v := [Bare(g)], [BARE_ROW], Visit(Bare(g), [Bare(g)]);
    assert tabs[..0] == [] && tabs[|tabs| - 1] == Bare(g) && rows[..0] == [] && rows[|rows| - 1] == BARE_ROW;
    assert Walk(tabs, tabs) == [] + ([v] + []) == [v];
    PlacedOne(v);
    assert RowNames(rows) == {} + {"panel-1"};
    assert RowGroups(rows) == [] + [];
    assert [Owned("tab", g)] + [] == [Owned("tab", g)];
  }

  lemma SingleFaults(g: Group, declared: set<string>)
    requires Safe(g) && Declared(g, declared)
    ensures AllGroupFaults([Owned("tab", g)], declared) == {}
    ensures AllLinkFaults([BARE_PANEL], [BARE_PANEL], Conditional([Bare(g)], false)) == {}
    ensures AllTitleFaults([Visit(Bare(g), [Bare(g)])]) == {}
  {
    hide Conditional;
    NoFaults(Owned("tab", g), declared);
    assert [Owned("tab", g)][..0] == [] && [BARE_PANEL][..0] == [] && [Visit(Bare(g), [Bare(g)])][..0] == [];
    assert [Bare(g)][..0] == [] && Count(Same, [Bare(g)], "tab") == 1;
  }

  /** Whatever passes the two rules makes a manifest without violations. */
  lemma SinglePasses(g: Group, declared: set<string>) returns (p: Placement)
    requires Safe(g) && Declared(g, declared)
    ensures Violations(Single(g, declared)) == {}
    ensures p in Placements(Single(g, declared).tabs, []) && p.path == [g] && PathEscapes(p) == Escapes(g)
    ensures forall r, s :: Seen(r, p, s) <==> Shown(r, g, s)
  {
    hide Walk, Placed, Groups, AllGroupFaults, AllLinkFaults, AllTitleFaults, Conditional, Placements, Shown;
    SingleWalk(g);
    SingleFaults(g, declared);
    SinglePlacement(g);
    p := Placement("panel-1", [g]);
    assert g in [g];
  }

  /** An "or" of nothing passes; what becomes of its only panel is up to the renderer. */
  lemma EmptyOrPasses(r: Renderer, s: State) returns (m: Manifest, p: Placement)
    ensures Violations(m) == {} && p in Placements(m.tabs, [])
    ensures Seen(r, p, s) <==> r.empty(Show, Or)
  {
    var g := Group(Show, Or, []);
    m := Single(g, {});
    hide Violations, Placements, Seen;
    p := SinglePasses(g, {});
  }

  /** The generator's own condition with its visibility turned round passes, and with the escape
      empty no state shows the panel. */
  lemma HidePasses(r: Renderer, s: State) returns (m: Manifest, p: Placement)
    requires Sound(r)
    ensures Violations(m) == {} && p in Placements(m.tabs, []) && PathEscapes(p) == {"census"}
    ensures m.declared == {"present", "census"}
    ensures Possible(m.declared, PathEscapes(p), s) ==> !Seen(r, p, s)
  {
    var g := Group(Hide, Or, [Claim("present"), Escape("census")]);
    m := Single(g, {"present", "census"});
    HidingIsSafe(g);
    hide Violations, Placements, Seen, PathEscapes, Escapes, Safe, Declared, Shown;
    p := SinglePasses(g, {"present", "census"});
    if Possible(m.declared, PathEscapes(p), s) { HidingHides(r, g, s); }
  }

  lemma HidingIsSafe(g: Group)
    requires g == Group(Hide, Or, [Claim("present"), Escape("census")])
    ensures Safe(g) && Declared(g, {"present", "census"}) && Escapes(g) == {"census"} && Escape("census") in g.items
  {
    assert g.items[0] == Claim("present") && g.items[1] == Escape("census");
  }

  lemma HidingHides(r: Renderer, g: Group, s: State)
    requires Sound(r) && g.visibility == Hide && g.mode == Or && Escape("census") in g.items
    requires "census" in s ==> s["census"] == ""
    ensures !Shown(r, g, s)
  {
    assert Holds(r, Escape("census"), Value(s, "census"));
  }

  /** A shown "or" that passes the two rules, none of its items true of an empty value. */
  lemma BlankHides(r: Renderer, g: Group, declared: set<string>) returns (p: Placement)
    requires Safe(g) && Declared(g, declared) && g.visibility == Show && g.mode == Or && g.items != []
    requires forall i :: i in g.items ==> !Holds(r, i, Some(""))
    ensures Violations(Single(g, declared)) == {} && p in Placements(Single(g, declared).tabs, [])
    ensures Possible(declared, PathEscapes(p), Blank(declared)) && !Seen(r, p, Blank(declared))
  {
    hide Violations, Placements, Seen, Holds;
    p := SinglePasses(g, declared);
    assert forall i :: i in g.items ==> Value(Blank(declared), i.variable) == Some("");
  }

  /** So does an escape with a pattern that matches the empty value, where a state without any
      value hides the panel. */
  lemma PatternPasses(r: Renderer) returns (m: Manifest, p: Placement, s: State)
    requires Sound(r) && r.matches(".*", "")
    ensures Violations(m) == {} && p in Placements(m.tabs, [])
    ensures Possible(m.declared, PathEscapes(p), s) && !Seen(r, p, s)
  {
    var claim, escape := Claim("present"), Item("census", NotMatches, ".*");
    var g := Group(Show, Or, [claim, escape]);
    m := Single(g, {"present", "census"});
    s := Blank(m.declared);
    assert g.items[0] == claim && g.items[1] == escape;
    assert !Holds(r, claim, Some("")) && !Holds(r, escape, Some(""));
    assert Safe(g) && Declared(g, m.declared);
    hide Holds, Safe, Declared, Violations, Placements, Seen, Possible, PathEscapes, Sound;
    p := BlankHides(r, g, m.declared);
  }

  /** So does an operator the checker does not know, where it fails on the empty value. */
  lemma OperatorPasses(r: Renderer) returns (m: Manifest, p: Placement, s: State)
    requires !r.compares("equals", "1", Some(""))
    ensures Violations(m) == {} && p in Placements(m.tabs, [])
    ensures Possible(m.declared, PathEscapes(p), s) && !Seen(r, p, s)
  {
    var g := Group(Show, Or, [Item("x", Other("equals"), "1")]);
    m := Single(g, {"x"});
    s := Blank(m.declared);
    p := BlankHides(r, g, m.declared);
  }

  lemma GroupFaultsExact(o: Owned, declared: set<string>)
    ensures var faults := GroupFaults(o, declared);
      && (NotOr(o.owner) in faults <==> HasMatches(o.group) && o.group.mode != Or)
      && (NoEscape(o.owner) in faults <==> HasMatches(o.group) && !HasEscape(o.group))
      && forall i :: i in o.group.items ==> (Undeclared(o.owner, i.variable) in faults <==> i.variable !in declared)
  {
    hide HasMatches, HasEscape;
  }

  lemma FaultFree(o: Owned, declared: set<string>)
    requires GroupFaults(o, declared) == {}
    ensures Safe(o.group) && Declared(o.group, declared)
  {
    hide HasMatches, HasEscape, GroupFaults;
    GroupFaultsExact(o, declared);
  }

  lemma {:induction false} GroupsFail(groups: seq<Owned>, declared: set<string>)
    requires forall o :: o in groups ==> GroupFaults(o, declared) == {}
    ensures AllGroupFaults(groups, declared) == {}
  {
    hide GroupFaults;
    if groups != [] {
      assert groups == groups[..|groups| - 1] + [groups[|groups| - 1]];
      GroupsFail(groups[..|groups| - 1], declared);
    }
  }

  /** The placement and condition checks find nothing exactly when the elements built are the
      elements placed, and every condition on a tab or row is safe and names declared
      variables only. */
  lemma StructureExact(m: Manifest)
    ensures var visits := Walk(m.tabs, m.tabs);
      && ElementNames(m.elements) - Placed(visits) == {} && Placed(visits) - ElementNames(m.elements) == {}
      && AllGroupFaults(Groups(visits), m.declared) == {}
      <==>
      && NamesOf(Placements(m.tabs, [])) == ElementNames(m.elements)
      && forall o :: o in Groups(visits) ==> Safe(o.group) && Declared(o.group, m.declared)
  {
    hide Walk, Placed, Groups, GroupFaults, Safe, Declared;
    var groups := Groups(Walk(m.tabs, m.tabs));
    WalkMatches(m.tabs, m.tabs, []);
    SameSet(ElementNames(m.elements), Placed(Walk(m.tabs, m.tabs)));
    if AllGroupFaults(groups, m.declared) == {} {
      forall o | o in groups ensures Safe(o.group) && Declared(o.group, m.declared) {
        GroupsPass(groups, m.declared, o);
        FaultFree(o, m.declared);
      }
    }
    if forall o :: o in groups ==> Safe(o.group) && Declared(o.group, m.declared) {
      forall o | o in groups ensures GroupFaults(o, m.declared) == {} { NoFaults(o, m.declared); }
      GroupsFail(groups, m.declared);
    }
  }

  lemma SameSet(a: set<string>, b: set<string>)
    ensures a - b == {} && b - a == {} <==> a == b
  {
    if a - b == {} && b - a == {} {
      forall x ensures x in a <==> x in b { assert x !in a - b && x !in b - a; }
    }
  }

  lemma NoFaults(o: Owned, declared: set<string>)
    requires Safe(o.group) && Declared(o.group, declared)
    ensures GroupFaults(o, declared) == {}
  {
    hide HasMatches, HasEscape;
  }

  /** A link is accepted exactly when it views no panel, or the panel exists and the link
      names a tab or no placement of the panel can be conditioned away. */
  lemma LinkRuleExact(m: Manifest, owner: string, l: Link)
    ensures LinkFault(owner, l, m.elements, Conditional(m.tabs, false)) == {} <==>
      l.Target().None? ||
      var e := ById(m.elements, l.Target().value);
      e.Some? &&
      (l.Dtab() || forall p :: p in Placements(m.tabs, []) && p.name == e.value.name ==> p.path == [])
  {
    hide Placements, Conditional, ById, Placed, Walk;
    WalkMatches(m.tabs, m.tabs, []);
    if l.Target().Some? && ById(m.elements, l.Target().value).Some? {
      ConditionedExactly(Placements(m.tabs, []), ById(m.elements, l.Target().value).value.name);
    }
  }

  lemma ConditionedExactly(ps: set<Placement>, name: string)
    ensures name in ConditionedOf(ps) <==> !forall p :: p in ps && p.name == name ==> p.path == []
  {}

  lemma {:induction false} LinksPass(owner: string, links: seq<Link>, es: seq<Element>,
                                     conditional: set<string>, l: Link)
    requires l in links && LinkFaults(owner, links, es, conditional) == {}
    ensures LinkFault(owner, l, es, conditional) == {}
  {
    var init, last := links[..|links| - 1], links[|links| - 1];
    assert links == init + [last];
    if l != last { LinksPass(owner, init, es, conditional, l); }
  }

  lemma {:induction false} ElementLinksPass(some: seq<Element>, es: seq<Element>, conditional: set<string>, e: Element)
    requires e in some && AllLinkFaults(some, es, conditional) == {}
    ensures LinkFaults(e.name, e.links, es, conditional) == {}
  {
    var init, last := some[..|some| - 1], some[|some| - 1];
    assert some == init + [last];
    if e != last { ElementLinksPass(init, es, conditional, e); }
  }

  /** In a manifest without violations every viewPanel link leads to an element of that id
      that is placed; and without a dtab, to one that can be seen wherever it is placed, in
      every state of the variables. */
  lemma LinksReach(m: Manifest, e: Element, l: Link) returns (target: Element)
    requires Violations(m) == {} && e in m.elements && l in e.links && l.Target().Some?
    ensures target in m.elements && target.id == l.Target().value
    ensures exists p :: p in Placements(m.tabs, []) && p.name == target.name
    ensures !l.Dtab() ==>
      forall r, p, s :: p in Placements(m.tabs, []) && p.name == target.name ==> Seen(r, p, s)
  {
    hide Shown, Placements, Placed, Walk, AllLinkFaults, LinkFaults, AllGroupFaults, AllTitleFaults, Conditional;
    var conditional := Conditional(m.tabs, false);
    ElementLinksPass(m.elements, m.elements, conditional, e);
    LinksPass(e.name, e.links, m.elements, conditional, l);
    var found := ById(m.elements, l.Target().value);
    target := found.value;
    WalkMatches(m.tabs, m.tabs, []);
    ElementPlaced(m, target.name);
    if !l.Dtab() {
      forall r, p, s | p in Placements(m.tabs, []) && p.name == target.name ensures Seen(r, p, s) {
        assert p.path != [] ==> p.name in ConditionedOf(Placements(m.tabs, []));
      }
    }
  }

  lemma ElementPlaced(m: Manifest, name: string)
    ensures name in ElementNames(m.elements) && name !in Placed(Walk(m.tabs, m.tabs)) ==>
      Unplaced(name) in Violations(m)
  {
    hide Placed, Walk, AllLinkFaults, AllGroupFaults, AllTitleFaults, Conditional;
  }

  // -------------------------------------------------------------- paths to a tab

  /** How many tabs a path of keys can mean. */
  function Routes(key: string -> string, tabs: seq<Tab>, path: seq<string>): nat
    requires path != []
    decreases tabs, 0
  {
    if tabs == [] then 0 else Routes(key, tabs[..|tabs| - 1], path) + RoutesOf(key, tabs[|tabs| - 1], path)
  }

  function RoutesOf(key: string -> string, tab: Tab, path: seq<string>): nat
    requires path != []
    decreases tab, 1
  {
    if key(tab.title) != path[0] then 0
    else if |path| == 1 then 1
    else if tab.content.Nested? then Routes(key, tab.content.tabs, path[1..])
    else 0
  }

  predicate Differ(key: string -> string, tabs: seq<Tab>) {
    forall i, j :: 0 <= i < j < |tabs| ==> key(tabs[i].title) != key(tabs[j].title)
  }

  /** Nowhere in the tree do two siblings share a key. */
  predicate SiblingsDiffer(key: string -> string, tabs: seq<Tab>) {
    forall v :: v in Walk(tabs, tabs) ==> Differ(key, v.siblings)
  }

  lemma {:induction false} CountOnce(key: string -> string, tabs: seq<Tab>, k: string)
    ensures Count(key, tabs, k) == 0 <==> forall i :: 0 <= i < |tabs| ==> key(tabs[i].title) != k
    ensures Differ(key, tabs) ==> Count(key, tabs, k) <= 1
    ensures Count(key, tabs, k) > 1 <==>
      exists i, j :: 0 <= i < j < |tabs| && key(tabs[i].title) == k && key(tabs[j].title) == k
  {
    if tabs != [] {
      var n := |tabs| - 1;
      CountOnce(key, tabs[..n], k);
      assert forall i :: 0 <= i < n ==> tabs[..n][i] == tabs[i];
    }
  }

  lemma DifferExactly(tabs: seq<Tab>)
    ensures TitleFaults(tabs) == {} <==> Differ(Same, tabs)
  {
    forall t | t in tabs && Count(Same, tabs, t.title) > 1 ensures !Differ(Same, tabs) {
      CountOnce(Same, tabs, t.title);
    }
    if i, j :| 0 <= i < j < |tabs| && Same(tabs[i].title) == Same(tabs[j].title) {
      CountOnce(Same, tabs, tabs[i].title);
      assert RepeatedTitle(tabs[i].title) in TitleFaults(tabs);
    }
  }

  lemma {:induction false} TitlesPass(visits: seq<Visit>)
    ensures AllTitleFaults(visits) == {} <==> forall v :: v in visits ==> Differ(Same, v.siblings)
  {
    hide TitleFaults, Differ;
    if visits != [] {
      TitlesPass(visits[..|visits| - 1]);
      DifferExactly(visits[|visits| - 1].siblings);
      assert visits == visits[..|visits| - 1] + [visits[|visits| - 1]];
    }
  }

  /** What the walk visits: the siblings themselves, and what it visits under each. */
  lemma {:induction false} WalkVisits(tabs: seq<Tab>, siblings: seq<Tab>, v: Visit)
    ensures v in Walk(tabs, siblings) <==> exists t :: t in tabs && v in WalkOne(t, siblings)
  {
    hide WalkOne;
    if tabs != [] {
      var init, last := tabs[..|tabs| - 1], tabs[|tabs| - 1];
      WalkVisits(init, siblings, v);
      assert tabs == init + [last];
      assert Walk(tabs, siblings) == Walk(init, siblings) + WalkOne(last, siblings);
      hide Walk;
      if v in Walk(init, siblings) {
        var t :| t in init && v in WalkOne(t, siblings);
        assert t in tabs;
      } else if v in WalkOne(last, siblings) {
        assert last in tabs;
      }
    }
  }

  lemma VisitsUnder(t: Tab, siblings: seq<Tab>)
    ensures forall v :: v in WalkOne(t, siblings) <==>
      v == Visit(t, siblings) || (t.content.Nested? && v in Walk(t.content.tabs, t.content.tabs))
  {}

  lemma InnerDiffer(key: string -> string, tabs: seq<Tab>, t: Tab)
    requires SiblingsDiffer(key, tabs) && t in tabs
    ensures Differ(key, tabs)
    ensures t.content.Nested? ==> SiblingsDiffer(key, t.content.tabs)
  {
    hide Differ, Walk, WalkOne;
    VisitsUnder(t, tabs);
    forall v | v in WalkOne(t, tabs) ensures v in Walk(tabs, tabs) { WalkVisits(tabs, tabs, v); }
    assert Visit(t, tabs) in Walk(tabs, tabs);
  }

  lemma {:induction false} RoutesCounted(key: string -> string, tabs: seq<Tab>, path: seq<string>)
    requires path != [] && forall t :: t in tabs && t.content.Nested? ==> SiblingsDiffer(key, t.content.tabs)
    ensures Routes(key, tabs, path) <= Count(key, tabs, path[0])
    decreases tabs, 0
  {
    if tabs != [] {
      var last := tabs[|tabs| - 1];
      RoutesCounted(key, tabs[..|tabs| - 1], path);
      if last.content.Nested? && |path| > 1 { RoutesOnce(key, last.content.tabs, path[1..]); }
    }
  }

  lemma {:induction false} RoutesOnce(key: string -> string, tabs: seq<Tab>, path: seq<string>)
    requires path != [] && SiblingsDiffer(key, tabs)
    ensures Routes(key, tabs, path) <= 1
    decreases tabs, 1
  {
    if tabs != [] {
      forall t | t in tabs ensures t.content.Nested? ==> SiblingsDiffer(key, t.content.tabs) {
        InnerDiffer(key, tabs, t);
      }
      InnerDiffer(key, tabs, tabs[0]);
      RoutesCounted(key, tabs, path);
      CountOnce(key, tabs, path[0]);
    }
  }

  lemma {:induction false} RoutesThrough(key: string -> string, tabs: seq<Tab>, path: seq<string>, t: Tab)
    requires path != [] && t in tabs
    ensures Routes(key, tabs, path) >= RoutesOf(key, t, path)
  {
    hide RoutesOf;
    var init, last := tabs[..|tabs| - 1], tabs[|tabs| - 1];
    assert tabs == init + [last];
    if t != last { RoutesThrough(key, init, path, t); }
  }

  lemma {:induction false} RoutesHere(key: string -> string, tabs: seq<Tab>, k: string)
    ensures Routes(key, tabs, [k]) == Count(key, tabs, k)
  {
    if tabs != [] { RoutesHere(key, tabs[..|tabs| - 1], k); }
  }

  /** Two siblings with one key make a path that means both. */
  lemma {:induction false} ClashPath(key: string -> string, tabs: seq<Tab>, v: Visit) returns (path: seq<string>)
    requires v in Walk(tabs, tabs) && !Differ(key, v.siblings)
    ensures path != [] && Routes(key, tabs, path) > 1
    decreases tabs
  {
    hide Walk, WalkOne;
    WalkVisits(tabs, tabs, v);
    var t :| t in tabs && v in WalkOne(t, tabs);
    VisitsUnder(t, tabs);
    if v == Visit(t, tabs) {
      var i, j :| 0 <= i < j < |tabs| && key(tabs[i].title) == key(tabs[j].title);
      path := [key(tabs[i].title)];
      CountOnce(key, tabs, path[0]);
      RoutesHere(key, tabs, path[0]);
    } else {
      var rest := ClashPath(key, t.content.tabs, v);
      path := [key(t.title)] + rest;
      assert path[1..] == rest;
      RoutesThrough(key, tabs, path, t);
    }
  }

  /** Every path means at most one tab exactly when no two siblings share a key. */
  lemma PathsUnique(key: string -> string, tabs: seq<Tab>)
    ensures (forall path :: path != [] ==> Routes(key, tabs, path) <= 1) <==> SiblingsDiffer(key, tabs)
  {
    hide Routes, Walk, Differ;
    if SiblingsDiffer(key, tabs) {
      forall path: seq<string> | path != [] ensures Routes(key, tabs, path) <= 1 { RoutesOnce(key, tabs, path); }
    } else {
      var v :| v in Walk(tabs, tabs) && !Differ(key, v.siblings);
      var path := ClashPath(key, tabs, v);
    }
  }

  /** The title check is exact: it finds nothing exactly when a path of titles means at most one
      tab. */
  lemma TitlePathUnique(tabs: seq<Tab>)
    ensures AllTitleFaults(Walk(tabs, tabs)) == {} <==>
      forall path :: path != [] ==> Routes(Same, tabs, path) <= 1
  {
    hide Routes, Walk, Differ, AllTitleFaults;
    TitlesPass(Walk(tabs, tabs));
    PathsUnique(Same, tabs);
  }

  /** A path of slugs, which is what a link has, means at most one tab exactly when no two
      siblings share a slug; then no two share a title either. */
  lemma SlugPathUnique(tabs: seq<Tab>)
    ensures (forall path :: path != [] ==> Routes(Links.Slug, tabs, path) <= 1) <==> SiblingsDiffer(Links.Slug, tabs)
    ensures SiblingsDiffer(Links.Slug, tabs) ==> AllTitleFaults(Walk(tabs, tabs)) == {}
  {
    hide Routes, Walk, AllTitleFaults;
    PathsUnique(Links.Slug, tabs);
    TitlesPass(Walk(tabs, tabs));
  }

  const ONE := Tab("A B", None, Rows([]))
  const TWO := Tab("A  B", None, Rows([]))
  const CLASH := [ONE, TWO]

  lemma ClashRoutes()
    ensures Routes(Links.Slug, CLASH, ["A-B"]) == 2
  {
    Links.TwoTitlesOneSlug();
    hide Links.Slug;
    assert CLASH[..1] == [ONE] && CLASH[1] == TWO && [ONE][..0] == [];
    assert RoutesOf(Links.Slug, ONE, ["A-B"]) == 1 && RoutesOf(Links.Slug, TWO, ["A-B"]) == 1;
    assert Routes(Links.Slug, [ONE], ["A-B"]) == 0 + RoutesOf(Links.Slug, ONE, ["A-B"]);
  }

  lemma ClashWalk()
    ensures var v, w := Visit(ONE, CLASH), Visit(TWO, CLASH);
      Walk(CLASH, CLASH) == [v, w] && Placed([v, w]) == {} && Groups([v, w]) == []
  {
    var v, w := Visit(ONE, CLASH), Visit(TWO, CLASH);
    assert CLASH[..1] == [ONE] && CLASH[1] == TWO && [ONE][..0] == [];
    assert WalkOne(ONE, CLASH) == [v] + [] == [v] && WalkOne(TWO, CLASH) == [w] + [] == [w];
    assert Walk([ONE], CLASH) == [] + [v] == [v];
    assert [v] + [w] == [v, w];
    PlacedOne(v); PlacedOne(w);
    PlacedConcat([v], [w]);
    assert TabGroups(ONE) == [] + [] && TabGroups(TWO) == [] + [];
  }

  lemma ClashTitles()
    ensures Differ(Same, CLASH)
  {
    assert Same(ONE.title) != Same(TWO.title) by { assert ONE.title[2] != TWO.title[2]; }
  }

  /** The title check does not see two titles with one slug. */
  lemma SlugClashPasses()
    ensures Violations(Manifest(CLASH, [], {})) == {} && Routes(Links.Slug, CLASH, ["A-B"]) == 2
  {
    hide Walk, Placed, Groups, Routes, Conditional, AllTitleFaults, Differ;
    ClashRoutes();
    ClashWalk();
    ClashTitles();
    TitlesPass(Walk(CLASH, CLASH));
  }

  // -------------------------------------------------------------- the programs

  /** _walk_tabs. */
  method WalkTabs(tabs: seq<Tab>, siblings: seq<Tab>) returns (visits: seq<Visit>)
    ensures visits == Walk(tabs, siblings)
    decreases tabs
  {
    visits := [];
    for i := 0 to |tabs|
      invariant visits == Walk(tabs[..i], siblings)
    {
      assert tabs[..i + 1][..i] == tabs[..i];
      ghost var before := visits;
      visits := visits + [Visit(tabs[i], siblings)];
      if tabs[i].content.Nested? {
        var inner := WalkTabs(tabs[i].content.tabs, tabs[i].content.tabs);
        visits := visits + inner;
        assert visits == before + ([Visit(tabs[i], siblings)] + inner);
      } else {
        assert [Visit(tabs[i], siblings)] + [] == [Visit(tabs[i], siblings)];
      }
    }
    assert tabs[..|tabs|] == tabs;
  }

  /** placed_element_names. */
  method PlacedElementNames(visits: seq<Visit>) returns (names: set<string>)
    ensures names == Placed(visits)
  {
    names := {};
    for i := 0 to |visits|
      invariant names == Placed(visits[..i])
    {
      assert visits[..i + 1][..i] == visits[..i];
      var rows := RowsOf(visits[i].tab);
      for k := 0 to |rows|
        invariant names == Placed(visits[..i]) + RowNames(rows[..k])
      {
        assert rows[..k + 1][..k] == rows[..k] && rows[..k + 1][k] == rows[k];
        names := names + set n | n in rows[k].names;
      }
      assert rows[..|rows|] == rows;
    }
    assert visits[..|visits|] == visits;
  }

  lemma GroupsGrow(visits: seq<Visit>, i: nat)
    requires i < |visits|
    ensures Groups(visits[..i + 1]) == Groups(visits[..i]) + TabGroups(visits[i].tab)
  {
    hide TabGroups;
    assert visits[..i + 1][..i] == visits[..i];
  }

  /** _conditional_groups. */
  method ConditionalGroups(visits: seq<Visit>) returns (groups: seq<Owned>)
    ensures groups == Groups(visits)
  {
    groups := [];
    for i := 0 to |visits|
      invariant groups == Groups(visits[..i])
    {
      var tab := visits[i].tab;
      ghost var before := groups;
      var own := if tab.rendering.Some? then [Owned(tab.title, tab.rendering.value)] else [];
      var rows := RowsOf(tab);
      var more := GroupsOfRows(rows);
      groups := groups + own + more;
      assert own + more == TabGroups(tab);
      GroupsGrow(visits, i);
      hide *;
      assert groups == before + (own + more);
    }
    assert visits[..|visits|] == visits;
  }

  method GroupsOfRows(rows: seq<Row>) returns (groups: seq<Owned>)
    ensures groups == RowGroups(rows)
  {
    groups := [];
    for k := 0 to |rows|
      invariant groups == RowGroups(rows[..k])
    {
      assert rows[..k + 1][..k] == rows[..k] && rows[..k + 1][k] == rows[k];
      if rows[k].rendering.Some? {
        var title := if rows[k].title == "" then "(untitled row)" else rows[k].title;
        groups := groups + [Owned(title, rows[k].rendering.value)];
      }
    }
    assert rows[..|rows|] == rows;
  }

  /** _conditional_element_names. */
  method ConditionalElementNames(tabs: seq<Tab>, hidden: bool) returns (names: set<string>)
    ensures names == Conditional(tabs, hidden)
    decreases tabs
  {
    names := {};
    for i := 0 to |tabs|
      invariant names == Conditional(tabs[..i], hidden)
    {
      assert tabs[..i + 1][..i] == tabs[..i];
      var under := hidden || tabs[i].rendering.Some?;
      if tabs[i].content.Nested? {
        var inner := ConditionalElementNames(tabs[i].content.tabs, under);
        names := names + inner;
      } else {
        var rows := tabs[i].content.rows;
        for k := 0 to |rows|
          invariant names == Conditional(tabs[..i], hidden) + ConditionalRows(rows[..k], under)
        {
          assert rows[..k + 1][..k] == rows[..k] && rows[..k + 1][k] == rows[k];
          if under || rows[k].rendering.Some? {
            names := names + set n | n in rows[k].names;
          }
        }
        assert rows[..|rows|] == rows;
      }
    }
    assert tabs[..|tabs|] == tabs;
  }

  /** The checks of one presence condition. */
  method CheckGroup(o: Owned, declared: set<string>) returns (found: set<Violation>)
    ensures found == GroupFaults(o, declared)
  {
    found := {};
    if HasMatches(o.group) {
      if o.group.mode != Or { found := found + {NotOr(o.owner)}; }
      if !HasEscape(o.group) { found := found + {NoEscape(o.owner)}; }
    }
    ghost var head := found;
    var items := o.group.items;
    for i := 0 to |items|
      invariant found == head + set j | j in items[..i] && j.variable !in declared :: Undeclared(o.owner, j.variable)
    {
      assert items[..i + 1] == items[..i] + [items[i]];
      if items[i].variable !in declared { found := found + {Undeclared(o.owner, items[i].variable)}; }
    }
    assert items[..|items|] == items;
  }

  /** The link checks, element by element. */
  method CheckLinks(es: seq<Element>, conditional: set<string>) returns (found: set<Violation>)
    ensures found == AllLinkFaults(es, es, conditional)
  {
    found := {};
    for i := 0 to |es|
      invariant found == AllLinkFaults(es[..i], es, conditional)
    {
      assert es[..i + 1][..i] == es[..i] && es[..i + 1][i] == es[i];
      var links := es[i].links;
      for k := 0 to |links|
        invariant found == AllLinkFaults(es[..i], es, conditional) + LinkFaults(es[i].name, links[..k], es, conditional)
      {
        assert links[..k + 1][..k] == links[..k] && links[..k + 1][k] == links[k];
        var l := links[k];
        if l.Target().Some? {
          var e := ById(es, l.Target().value);
          if e.None? {
            found := found + {NoSuchPanel(es[i].name, l.Target().value)};
          } else if e.value.name in conditional && !l.Dtab() {
            found := found + {HiddenTarget(es[i].name, l.Target().value)};
          }
        }
      }
      assert links[..|links|] == links;
    }
    assert es[..|es|] == es;
  }

  /** manifest_violations: every breach, not the first. */
  method ManifestViolations(m: Manifest) returns (violations: set<Violation>)
    ensures violations == Violations(m)
  {
    hide Placed, Groups, Conditional, GroupFaults, TitleFaults;
    var visits := WalkTabs(m.tabs, m.tabs);
    var placed := PlacedElementNames(visits);
    var names := ElementNames(m.elements);
    violations := (set n | n in names - placed :: Unplaced(n)) + (set n | n in placed - names :: Dangling(n));
    ghost var head := violations;
    var groups := ConditionalGroups(visits);
    for i := 0 to |groups|
      invariant violations == head + AllGroupFaults(groups[..i], m.declared)
    {
      assert groups[..i + 1][..i] == groups[..i] && groups[..i + 1][i] == groups[i];
      var more := CheckGroup(groups[i], m.declared);
      violations := violations + more;
    }
    assert groups[..|groups|] == groups;
    var conditional := ConditionalElementNames(m.tabs, false);
    var broken := CheckLinks(m.elements, conditional);
    violations := violations + broken;
    head := violations;
    for i := 0 to |visits|
      invariant violations == head + AllTitleFaults(visits[..i])
    {
      assert visits[..i + 1][..i] == visits[..i] && visits[..i + 1][i] == visits[i];
      violations := violations + TitleFaults(visits[i].siblings);
    }
    assert visits[..|visits|] == visits;
  }
}
