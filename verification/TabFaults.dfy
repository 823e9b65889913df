/**
 What each violation the manifest checker reports (grafana/v2.py) means of the manifest: exactly
 when it is reported, and of whom.
 */
module TabFaults {
  import opened Options
  import opened Tabs

  // -------------------------------------------------------------- where a panel stands

  /** Tabs one inside the other, the first among those given. */
  predicate Chain(tabs: seq<Tab>, chain: seq<Tab>)
    decreases |chain|
  {
    && chain != [] && chain[0] in tabs
    && (|chain| > 1 ==> chain[0].content.Nested? && Chain(chain[0].content.tabs, chain[1..]))
  }

  function Conditions(g: Option<Group>): seq<Group> { if g.Some? then [g.value] else [] }

  /** The conditions of such tabs, outermost first. */
  function ChainConditions(chain: seq<Tab>): seq<Group> {
    if chain == [] then [] else Conditions(chain[0].rendering) + ChainConditions(chain[1..])
  }

  /** The panel is in this row of the innermost tab, below all their conditions and the row's. */
  predicate StandsIn(tabs: seq<Tab>, path: seq<Group>, chain: seq<Tab>, row: Row, p: Placement) {
    && Chain(tabs, chain) && chain[|chain| - 1].content.Rows? && row in chain[|chain| - 1].content.rows
    && p.name in row.names && p.path == path + ChainConditions(chain) + Conditions(row.rendering)
  }

  lemma {:induction false} RowsPlace(rows: seq<Row>, path: seq<Group>, p: Placement)
    ensures p in RowPlacements(rows, path) <==>
      exists r :: r in rows && p.name in r.names && p.path == path + Conditions(r.rendering)
  {
    if rows != [] {
      var init, last := rows[..|rows| - 1], rows[|rows| - 1];
      RowsPlace(init, path, p);
      assert rows == init + [last];
      UnderIs(path, last.rendering);
      if r :| r in init && p.name in r.names && p.path == path + Conditions(r.rendering) { assert r in rows; }
      if p in RowPlacements(rows, path) && p !in RowPlacements(init, path) { assert last in rows; }
    }
  }

  lemma UnderIs(path: seq<Group>, g: Option<Group>)
    ensures Under(path, g) == path + Conditions(g)
  {}

  lemma {:induction false} TabsPlace(tabs: seq<Tab>, path: seq<Group>, p: Placement)
    ensures p in Placements(tabs, path) <==> exists t :: t in tabs && p in TabPlacements(t, path)
  {
    if tabs != [] {
      var init, last := tabs[..|tabs| - 1], tabs[|tabs| - 1];
      TabsPlace(init, path, p);
      assert tabs == init + [last];
      hide TabPlacements;
      if p in Placements(init, path) {
        var t :| t in init && p in TabPlacements(t, path);
        assert t in tabs;
      }
      if t :| t in tabs && p in TabPlacements(t, path) { assert t in init || t == last; }
      assert last in tabs;
    }
  }

  lemma {:induction false} StandsAt(tabs: seq<Tab>, path: seq<Group>, p: Placement)
    returns (chain: seq<Tab>, row: Row)
    requires p in Placements(tabs, path)
    ensures StandsIn(tabs, path, chain, row, p)
    decreases tabs
  {
    TabsPlace(tabs, path, p);
    var t :| t in tabs && p in TabPlacements(t, path);
    var under := Under(path, t.rendering);
    UnderIs(path, t.rendering);
    match t.content
    case Nested(inner) =>
      var rest;
      rest, row := StandsAt(inner, under, p);
      chain := [t] + rest;
      assert chain[1..] == rest;
      PathJoins(path, Conditions(t.rendering), ChainConditions(rest), Conditions(row.rendering));
    case Rows(rows) =>
      RowsPlace(rows, under, p);
      row :| row in rows && p.name in row.names && p.path == under + Conditions(row.rendering);
      chain := [t];
      PathJoins(path, Conditions(t.rendering), [], Conditions(row.rendering));
      assert ChainConditions(chain[1..]) == [];
  }

  lemma PathJoins(path: seq<Group>, a: seq<Group>, b: seq<Group>, c: seq<Group>)
    ensures (path + a) + b + c == path + (a + b) + c
    ensures b == [] ==> (path + a) + c == path + (a + b) + c
  {}

  lemma {:induction false} ChainPlaces(tabs: seq<Tab>, path: seq<Group>, chain: seq<Tab>, row: Row, p: Placement)
    requires StandsIn(tabs, path, chain, row, p)
    ensures p in Placements(tabs, path)
    decreases |chain|
  {
    var t, rest := chain[0], chain[1..];
    var under := Under(path, t.rendering);
    UnderIs(path, t.rendering);
    PathJoins(path, Conditions(t.rendering), ChainConditions(rest), Conditions(row.rendering));
    if rest == [] {
      RowsPlace(t.content.rows, under, p);
    } else {
      ChainPlaces(t.content.tabs, under, rest, row, p);
    }
    TabsPlace(tabs, path, p);
  }

  /** A placement is a row the panel is in, with the conditions of every tab around it, from the
      outside in, and of the row. */
  lemma PlacedExactly(tabs: seq<Tab>, p: Placement)
    ensures p in Placements(tabs, []) <==> exists chain, row :: StandsIn(tabs, [], chain, row, p)
  {
    if p in Placements(tabs, []) { var chain, row := StandsAt(tabs, [], p); }
    if chain, row :| StandsIn(tabs, [], chain, row, p) { ChainPlaces(tabs, [], chain, row, p); }
  }

  // -------------------------------------------------------------- who owns what

  /** The name a row's condition is reported under. */
  function RowOwner(r: Row): string { if r.title == "" then "(untitled row)" else r.title }

  /** Somewhere in the tree a tab or row of that name has that condition. */
  ghost predicate OwnedIn(tabs: seq<Tab>, o: Owned)
    decreases tabs
  {
    exists t :: t in tabs && OwnedBy(t, o)
  }

  ghost predicate OwnedBy(t: Tab, o: Owned)
    decreases t
  {
    || (t.rendering == Some(o.group) && o.owner == t.title)
    || match t.content
       case Nested(tabs) => OwnedIn(tabs, o)
       case Rows(rows) => exists r :: r in rows && r.rendering == Some(o.group) && o.owner == RowOwner(r)
  }

  /** A list of tabs that are siblings in the tree. */
  ghost predicate Siblings(tabs: seq<Tab>, siblings: seq<Tab>)
    decreases tabs
  {
    siblings == tabs || exists t :: t in tabs && t.content.Nested? && Siblings(t.content.tabs, siblings)
  }

  lemma {:induction false} RowsOwn(rows: seq<Row>, o: Owned)
    ensures o in RowGroups(rows) <==> exists r :: r in rows && r.rendering == Some(o.group) && o.owner == RowOwner(r)
  {
    if rows != [] {
      var init, last := rows[..|rows| - 1], rows[|rows| - 1];
      RowsOwn(init, o);
      assert rows == init + [last];
      if o in RowGroups(init) {
        var r :| r in init && r.rendering == Some(o.group) && o.owner == RowOwner(r);
        assert r in rows;
      }
      if o in RowGroups(rows) && o !in RowGroups(init) { assert last in rows; }
    }
  }

  lemma {:induction false} GroupsOwned(tabs: seq<Tab>, siblings: seq<Tab>, o: Owned)
    ensures o in Groups(Walk(tabs, siblings)) <==> OwnedIn(tabs, o)
    decreases tabs, 0
  {
    hide Walk, WalkOne, Groups, OwnedBy;
    if tabs != [] {
      var init, last := tabs[..|tabs| - 1], tabs[|tabs| - 1];
      GroupsOwned(init, siblings, o);
      TabOwned(last, siblings, o);
      WalkStep(tabs, siblings);
      assert tabs == init + [last];
      OneMoreTab(init, last, o);
    } else {
      NoGroups(siblings);
    }
  }

  lemma NoGroups(siblings: seq<Tab>)
    ensures Groups(Walk([], siblings)) == []
  {}

  lemma WalkStep(tabs: seq<Tab>, siblings: seq<Tab>)
    requires tabs != []
    ensures var init, last := tabs[..|tabs| - 1], tabs[|tabs| - 1];
      Groups(Walk(tabs, siblings)) == Groups(Walk(init, siblings)) + Groups(WalkOne(last, siblings))
  {
    PlacedConcat(Walk(tabs[..|tabs| - 1], siblings), WalkOne(tabs[|tabs| - 1], siblings));
  }

  lemma OneMoreTab(init: seq<Tab>, last: Tab, o: Owned)
    ensures OwnedIn(init + [last], o) <==> OwnedIn(init, o) || OwnedBy(last, o)
  {
    hide OwnedBy;
    if t :| t in init && OwnedBy(t, o) { assert t in init + [last]; }
    assert last in init + [last];
  }

  lemma {:induction false} TabOwned(tab: Tab, siblings: seq<Tab>, o: Owned)
    ensures o in Groups(WalkOne(tab, siblings)) <==> OwnedBy(tab, o)
    decreases tab, 1
  {
    var v := Visit(tab, siblings);
    PlacedOne(v);
    match tab.content
    case Nested(tabs) =>
      GroupsOwned(tabs, tabs, o);
      PlacedConcat([v], Walk(tabs, tabs));
      hide Walk, Groups, OwnedIn;
    case Rows(rows) =>
      assert [v] + [] == [v];
      RowsOwn(rows, o);
      hide Walk, Groups;
  }

  lemma {:induction false} SiblingsWalked(tabs: seq<Tab>, siblings: seq<Tab>)
    requires siblings != []
    ensures (exists v :: v in Walk(tabs, tabs) && v.siblings == siblings) <==> Siblings(tabs, siblings)
    decreases tabs
  {
    hide Walk, WalkOne;
    if v :| v in Walk(tabs, tabs) && v.siblings == siblings {
      WalkVisits(tabs, tabs, v);
      var t :| t in tabs && v in WalkOne(t, tabs);
      VisitsUnder(t, tabs);
      if v != Visit(t, tabs) { SiblingsWalked(t.content.tabs, siblings); }
    }
    if Siblings(tabs, siblings) {
      if siblings == tabs {
        var v := Visit(tabs[0], tabs);
        VisitsUnder(tabs[0], tabs);
        WalkVisits(tabs, tabs, v);
        assert tabs[0] in tabs && v in WalkOne(tabs[0], tabs);
        assert v in Walk(tabs, tabs) && v.siblings == siblings;
      } else {
        var t :| t in tabs && t.content.Nested? && Siblings(t.content.tabs, siblings);
        SiblingsWalked(t.content.tabs, siblings);
        var v :| v in Walk(t.content.tabs, t.content.tabs) && v.siblings == siblings;
        VisitsUnder(t, tabs);
        WalkVisits(tabs, tabs, v);
        assert v in Walk(tabs, tabs);
      }
    }
  }

  // -------------------------------------------------------------- each check's faults

  predicate OfGroup(v: Violation) { v.NotOr? || v.NoEscape? || v.Undeclared? }

  predicate OfLink(v: Violation) { v.NoSuchPanel? || v.HiddenTarget? }

  lemma GroupKinds(o: Owned, declared: set<string>, v: Violation)
    ensures v in GroupFaults(o, declared) ==> OfGroup(v) && v.owner == o.owner
    ensures v in GroupFaults(o, declared) && v.Undeclared? ==>
      exists i :: i in o.group.items && i.variable == v.variable && v.variable !in declared
  {
    hide HasMatches, HasEscape;
  }

  lemma {:induction false} SomeGroupFault(groups: seq<Owned>, declared: set<string>, v: Violation)
    ensures v in AllGroupFaults(groups, declared) <==> exists o :: o in groups && v in GroupFaults(o, declared)
  {
    hide GroupFaults;
    if groups != [] {
      var init, last := groups[..|groups| - 1], groups[|groups| - 1];
      SomeGroupFault(init, declared, v);
      assert groups == init + [last];
      if o :| o in init && v in GroupFaults(o, declared) { assert o in groups; }
      assert last in groups;
    }
  }

  lemma LinkKinds(owner: string, l: Link, es: seq<Element>, conditional: set<string>, v: Violation)
    ensures v in LinkFault(owner, l, es, conditional) <==>
      && l.Target().Some?
      && var e := ById(es, l.Target().value);
         if e.None? then v == NoSuchPanel(owner, l.Target().value)
         else v == HiddenTarget(owner, l.Target().value) && e.value.name in conditional && !l.Dtab()
  {
    hide ById, Link.Target, Link.Dtab;
  }

  lemma {:induction false} SomeLinkFault(owner: string, links: seq<Link>, es: seq<Element>,
                                         conditional: set<string>, v: Violation)
    ensures v in LinkFaults(owner, links, es, conditional) <==>
      exists l :: l in links && v in LinkFault(owner, l, es, conditional)
  {
    hide LinkFault;
    if links != [] {
      var init, last := links[..|links| - 1], links[|links| - 1];
      SomeLinkFault(owner, init, es, conditional, v);
      assert links == init + [last];
      if l :| l in init && v in LinkFault(owner, l, es, conditional) { assert l in links; }
      assert last in links;
    }
  }

  lemma {:induction false} SomeElementFault(some: seq<Element>, es: seq<Element>, conditional: set<string>,
                                            v: Violation)
    ensures v in AllLinkFaults(some, es, conditional) <==>
      exists e, l :: e in some && l in e.links && v in LinkFault(e.name, l, es, conditional)
  {
    hide LinkFault, LinkFaults;
    if some != [] {
      var init, last := some[..|some| - 1], some[|some| - 1];
      SomeElementFault(init, es, conditional, v);
      SomeLinkFault(last.name, last.links, es, conditional, v);
      assert some == init + [last];
      if e, l :| e in init && l in e.links && v in LinkFault(e.name, l, es, conditional) { assert e in some; }
      assert last in some;
    }
  }

  lemma {:induction false} SomeTitleFault(visits: seq<Visit>, v: Violation)
    ensures v in AllTitleFaults(visits) <==> exists w :: w in visits && v in TitleFaults(w.siblings)
  {
    hide TitleFaults;
    if visits != [] {
      var init, last := visits[..|visits| - 1], visits[|visits| - 1];
      SomeTitleFault(init, v);
      assert visits == init + [last];
      if w :| w in init && v in TitleFaults(w.siblings) { assert w in visits; }
      assert last in visits;
    }
  }

  /** Two of the tabs have the title. */
  predicate Twice(tabs: seq<Tab>, title: string) {
    exists i, j :: 0 <= i < j < |tabs| && tabs[i].title == title && tabs[j].title == title
  }

  lemma TitleKinds(siblings: seq<Tab>, v: Violation)
    ensures v in TitleFaults(siblings) <==> v.RepeatedTitle? && Twice(siblings, v.title)
  {
    if v.RepeatedTitle? {
      CountOnce(Same, siblings, v.title);
      hide Count;
      if t :| t in siblings && Count(Same, siblings, t.title) > 1 && t.title == v.title {}
      if i, j :| 0 <= i < j < |siblings| && siblings[i].title == v.title && siblings[j].title == v.title {
        assert siblings[i] in siblings && Same(siblings[i].title) == v.title && Same(siblings[j].title) == v.title;
      }
    }
  }

  /** Which check a violation comes from. */
  lemma ByKind(m: Manifest, v: Violation)
    ensures var visits := Walk(m.tabs, m.tabs);
      v in Violations(m) <==>
        match v
        case Unplaced(n) => n in ElementNames(m.elements) - Placed(visits)
        case Dangling(n) => n in Placed(visits) - ElementNames(m.elements)
        case NotOr(_) => v in AllGroupFaults(Groups(visits), m.declared)
        case NoEscape(_) => v in AllGroupFaults(Groups(visits), m.declared)
        case Undeclared(_, _) => v in AllGroupFaults(Groups(visits), m.declared)
        case NoSuchPanel(_, _) => v in AllLinkFaults(m.elements, m.elements, Conditional(m.tabs, false))
        case HiddenTarget(_, _) => v in AllLinkFaults(m.elements, m.elements, Conditional(m.tabs, false))
        case RepeatedTitle(_) => v in AllTitleFaults(visits)
  {
    var visits := Walk(m.tabs, m.tabs);
    SomeGroupFault(Groups(visits), m.declared, v);
    SomeElementFault(m.elements, m.elements, Conditional(m.tabs, false), v);
    SomeTitleFault(visits, v);
    hide Walk, Placed, Groups, AllGroupFaults, AllLinkFaults, AllTitleFaults, Conditional, GroupFaults, LinkFault;
    hide TitleFaults;
    forall o | v in GroupFaults(o, m.declared) ensures OfGroup(v) { GroupKinds(o, m.declared, v); }
    forall e: Element, l | v in LinkFault(e.name, l, m.elements, Conditional(m.tabs, false)) ensures OfLink(v) {
      LinkKinds(e.name, l, m.elements, Conditional(m.tabs, false), v);
    }
    forall w: Visit | v in TitleFaults(w.siblings) ensures v.RepeatedTitle? { TitleKinds(w.siblings, v); }
  }

  // -------------------------------------------------------------- exactly when each is reported

  ghost predicate PlacedAs(m: Manifest, name: string) {
    exists p :: p in Placements(m.tabs, []) && p.name == name
  }

  predicate BuiltAs(m: Manifest, name: string) { exists e :: e in m.elements && e.name == name }

  /** An element is unplaced, or a name dangling, exactly when it is only on one side. */
  lemma PlacementExactly(m: Manifest, name: string)
    ensures Unplaced(name) in Violations(m) <==> BuiltAs(m, name) && !PlacedAs(m, name)
    ensures Dangling(name) in Violations(m) <==> PlacedAs(m, name) && !BuiltAs(m, name)
  {
    ByKind(m, Unplaced(name));
    ByKind(m, Dangling(name));
    WalkMatches(m.tabs, m.tabs, []);
    hide Violations, Placements, Walk, Placed;
  }

  /** A condition is reported, under its own tab or row, exactly for claiming presence in another
      group than an "or", for claiming it without an escape, or for a variable not declared. */
  lemma ConditionExactly(m: Manifest, owner: string, variable: string)
    ensures NotOr(owner) in Violations(m) <==>
      exists g :: OwnedIn(m.tabs, Owned(owner, g)) && g.mode != Or && exists i :: i in g.items && i.operator == Matches
    ensures NoEscape(owner) in Violations(m) <==>
      exists g :: OwnedIn(m.tabs, Owned(owner, g)) && (exists i :: i in g.items && i.operator == Matches)
                  && forall i :: i in g.items ==> i.operator != NotMatches
    ensures Undeclared(owner, variable) in Violations(m) <==>
      variable !in m.declared
      && exists g :: OwnedIn(m.tabs, Owned(owner, g)) && exists i :: i in g.items && i.variable == variable
  {
    ReportedGroup(m, NotOr(owner), owner);
    ReportedGroup(m, NoEscape(owner), owner);
    ReportedGroup(m, Undeclared(owner, variable), owner);
    hide Violations, OwnedIn, GroupFaults;
    forall g
      ensures NotOr(owner) in GroupFaults(Owned(owner, g), m.declared) <==> HasMatches(g) && g.mode != Or
      ensures NoEscape(owner) in GroupFaults(Owned(owner, g), m.declared) <==> HasMatches(g) && !HasEscape(g)
      ensures Undeclared(owner, variable) in GroupFaults(Owned(owner, g), m.declared) <==>
        variable !in m.declared && exists i :: i in g.items && i.variable == variable
    {
      GroupFaultsExact(Owned(owner, g), m.declared);
      GroupKinds(Owned(owner, g), m.declared, Undeclared(owner, variable));
      if i :| i in g.items && i.variable == variable {
        assert Undeclared(owner, i.variable) in GroupFaults(Owned(owner, g), m.declared) <==> i.variable !in m.declared;
      }
    }
  }

  lemma ReportedGroup(m: Manifest, v: Violation, owner: string)
    requires OfGroup(v) && v.owner == owner
    ensures v in Violations(m) <==>
      exists g :: OwnedIn(m.tabs, Owned(owner, g)) && v in GroupFaults(Owned(owner, g), m.declared)
  {
    var groups := Groups(Walk(m.tabs, m.tabs));
    ByKind(m, v);
    SomeGroupFault(groups, m.declared, v);
    hide Violations, Walk, Groups, GroupFaults, AllGroupFaults, OwnedIn;
    forall o ensures o in groups <==> OwnedIn(m.tabs, o) { GroupsOwned(m.tabs, m.tabs, o); }
    if o :| o in groups && v in GroupFaults(o, m.declared) {
      GroupKinds(o, m.declared, v);
      assert o == Owned(owner, o.group);
    }
  }

  /** An element of that name has a link to the panel. */
  predicate LinksTo(m: Manifest, owner: string, target: nat, dtab: bool) {
    exists e, l :: e in m.elements && e.name == owner && l in e.links && l.Target() == Some(target) && l.Dtab() == dtab
  }

  /** The element the panel's id means, the last of several, has a place under a condition. */
  ghost predicate CanBeHidden(m: Manifest, target: nat) {
    exists k: nat, p :: HiddenAt(m, target, k, p)
  }

  ghost predicate HiddenAt(m: Manifest, target: nat, k: nat, p: Placement) {
    && LastWith(m.elements, target, k)
    && p in Placements(m.tabs, []) && p.name == m.elements[k].name && p.path != []
  }

  /** A link is reported, under its own element, as going nowhere exactly when no element has its
      panel's id, and as going where nothing may show exactly when its panel has one, can be
      hidden, and the link names no tab. */
  lemma LinkExactly(m: Manifest, owner: string, target: nat)
    ensures NoSuchPanel(owner, target) in Violations(m) <==>
      && (LinksTo(m, owner, target, true) || LinksTo(m, owner, target, false))
      && forall e :: e in m.elements ==> e.id != target
    ensures HiddenTarget(owner, target) in Violations(m) <==>
      LinksTo(m, owner, target, false) && CanBeHidden(m, target)
  {
    ReportedLink(m, NoSuchPanel(owner, target));
    ReportedLink(m, HiddenTarget(owner, target));
    hide Violations, Placements, Walk, Placed, Conditional, ById, Link.Target, Link.Dtab, LastWith;
    var found := ById(m.elements, target);
    if found.Some? { HiddenName(m, target, found.value); }
    if e :| e in m.elements && e.id == target { assert found.Some?; }
    if k: nat, p :| HiddenAt(m, target, k, p) {
      LastFound(m.elements, target, k);
    }
  }

  lemma HiddenName(m: Manifest, target: nat, e: Element)
    requires ById(m.elements, target) == Some(e)
    ensures e.name in Conditional(m.tabs, false) <==> CanBeHidden(m, target)
  {
    WalkMatches(m.tabs, m.tabs, []);
    var k := FoundLast(m.elements, target);
    hide Placements, Conditional, ById, Walk, Placed;
    ConditionedExactly(Placements(m.tabs, []), e.name);
    if j: nat, p :| HiddenAt(m, target, j, p) {
      LastFound(m.elements, target, j);
    }
    if p :| p in Placements(m.tabs, []) && p.name == e.name && p.path != [] {
      assert HiddenAt(m, target, k, p);
    }
  }

  /** The last element with the id. */
  predicate LastWith(es: seq<Element>, id: nat, k: nat) {
    k < |es| && es[k].id == id && forall j :: k < j < |es| ==> es[j].id != id
  }

  lemma {:induction false} LastFound(es: seq<Element>, id: nat, k: nat)
    requires LastWith(es, id, k)
    ensures ById(es, id) == Some(es[k])
  {
    if k < |es| - 1 { LastFound(es[..|es| - 1], id, k); }
  }

  lemma {:induction false} FoundLast(es: seq<Element>, id: nat) returns (k: nat)
    requires ById(es, id).Some?
    ensures LastWith(es, id, k) && ById(es, id) == Some(es[k])
  {
    if es[|es| - 1].id == id { k := |es| - 1; } else { k := FoundLast(es[..|es| - 1], id); }
  }

  predicate Reports(m: Manifest, v: Violation, e: Element, l: Link)
    requires OfLink(v)
  {
    && e.name == v.owner && l.Target() == Some(v.target)
    && var found := ById(m.elements, v.target);
       if v.NoSuchPanel? then found.None?
       else found.Some? && !l.Dtab() && found.value.name in Conditional(m.tabs, false)
  }

  lemma ReportedLink(m: Manifest, v: Violation)
    requires OfLink(v)
    ensures v in Violations(m) <==> exists e, l :: e in m.elements && l in e.links && Reports(m, v, e, l)
  {
    var conditional := Conditional(m.tabs, false);
    ByKind(m, v);
    SomeElementFault(m.elements, m.elements, conditional, v);
    hide Violations, LinkFault, AllLinkFaults, Conditional, ById, Link.Target, Link.Dtab;
    forall e: Element, l: Link ensures v in LinkFault(e.name, l, m.elements, conditional) <==> Reports(m, v, e, l) {
      LinkKinds(e.name, l, m.elements, conditional, v);
    }
    hide Reports;
    if e, l :| e in m.elements && l in e.links && Reports(m, v, e, l) {
      assert v in LinkFault(e.name, l, m.elements, conditional);
    }
  }

  /** A title is reported exactly when two siblings have it. */
  lemma TitleExactly(m: Manifest, title: string)
    ensures RepeatedTitle(title) in Violations(m) <==>
      exists siblings :: Siblings(m.tabs, siblings) && Twice(siblings, title)
  {
    var v, visits := RepeatedTitle(title), Walk(m.tabs, m.tabs);
    ByKind(m, v);
    SomeTitleFault(visits, v);
    hide Violations, Walk, AllTitleFaults, TitleFaults;
    if w :| w in visits && v in TitleFaults(w.siblings) {
      TitleKinds(w.siblings, v);
      SiblingsWalked(m.tabs, w.siblings);
    }
    if siblings :| Siblings(m.tabs, siblings) && Twice(siblings, title) {
      TitleKinds(siblings, v);
      SiblingsWalked(m.tabs, siblings);
      var w :| w in visits && w.siblings == siblings;
      assert v in TitleFaults(w.siblings);
    }
  }
}
