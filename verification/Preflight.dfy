/**
 The permission preflight's own selection of collectors (cmd/graph2otel/check.go),
 which builds no transport and consults no census, against what start-up registers.
 */
module Preflight {
  import opened Census
  import opened Options
  import opened TenantSetup

  /** Every polled name the preflight sees. Unlike start-up it does not ask the census
      first; an Exchange Online window collector is absent when the transport is off. */
  predicate Constructed(cfg: Config, c: Candidate) {
    c.family == Window && c.transport == ExchangeOnline ==> cfg.exoEnabled
  }

  function PreflightPolled(env: Env): set<string> {
    set f | f in env.all && Polled(f.expected) && Constructed(env.cfg, f.expected) :: f.expected.name
  }

  predicate Considered(env: Env, c: Candidate) {
    match c.family
    case Snapshot => true
    case Window =>
      Constructed(env.cfg, c) && GraphPollingActive(env.cfg.SourceIsBlob(c.name), env.cfg.BlobConfigured())
    case Blob =>
      env.cfg.BlobConfigured() && BlobTwinSelected(c.name, PreflightPolled(env), env.cfg.SourceIsBlob(c.name))
    case O365 => true
    case MDCA => env.cfg.mdcaConfigured
    case EXO => env.cfg.exoEnabled
    case Hunt => env.cfg.huntingEnabled
  }

  function PreflightNames(env: Env): set<string> {
    set f | f in env.all && Considered(env, f.expected) && GateOpen(env, f.expected) :: f.expected.name
  }

  // -------------------------------------------------------------- what a collector needs

  /** What a Graph token cannot prove, by what it is about. */
  datatype Prerequisite =
    | CategoryDelivery
    | StorageAccess
    | ActivityFeed
    | ActivityFeedDlp
    | PortalToken
    | DirectoryRole
    | HuntingBudget

  datatype Requirement = Requirement(permissions: seq<string>, unverifiable: seq<Prerequisite>)

  /** A collector on the checklist; a manual-only one does not show what it declares. */
  datatype Entry = Plain(collector: Candidate) | ManualOnly(collector: Candidate)

  function Prerequisites(cfg: Config, types: seq<string>, c: Candidate): seq<Prerequisite> {
    match c.family
    case Snapshot =>
      if c.name == "graph2otel.blob_categories" && cfg.BlobConfigured() then [CategoryDelivery] else []
    case Window => if c.transport == ExchangeOnline then [DirectoryRole] else []
    case Blob => [StorageAccess]
    case O365 => if "DLP.All" in types then [ActivityFeed, ActivityFeedDlp] else [ActivityFeed]
    case MDCA => [PortalToken]
    case EXO => [DirectoryRole]
    case Hunt => [HuntingBudget]
  }

  /** A collector needs what it declares and its family's prerequisites; an Office 365 role is
      minted for another audience and is never compared with a Graph token. */
  function Needs(cfg: Config, types: seq<string>, declared: Candidate -> seq<string>, c: Candidate): Requirement {
    Requirement(if c.family == O365 then [] else declared(c), Prerequisites(cfg, types, c))
  }

  function EntryOf(c: Candidate): Entry { if c.family == O365 then ManualOnly(c) else Plain(c) }

  /** The setting in which no two of the collectors considered share a name. */
  predicate Sole(env: Env) { ValidEnv(env) && SwitchesAreWindows(env) }

  predicate Asked(env: Env, f: Factory) { Considered(env, f.expected) && GateOpen(env, f.expected) }

  /** The two maps after the factories fs: the collectors asked for and, where names are sole,
      each with its own entry and its own prerequisites. */
  ghost predicate Itemised(env: Env, types: seq<string>, candidates: map<string, Entry>,
                           manual: map<string, seq<Prerequisite>>, fs: seq<Factory>)
  {
    && candidates.Keys == Required(env, fs) && manual.Keys == Required(env, fs)
    && (Sole(env) ==> forall f :: f in fs && Asked(env, f) ==>
          && candidates[f.expected.name] == EntryOf(f.expected)
          && manual[f.expected.name] == Prerequisites(env.cfg, types, f.expected))
  }

  function Put(candidates: map<string, Entry>, e: Entry): map<string, Entry> {
    candidates[e.collector.name := e]
  }

  function Append(manual: map<string, seq<Prerequisite>>, name: string, more: seq<Prerequisite>)
    : map<string, seq<Prerequisite>>
  {
    manual[name := (if name in manual then manual[name] else []) + more]
  }

  /** What two paths ask of one name adds up. */
  lemma AppendsAddUp(manual: map<string, seq<Prerequisite>>, name: string,
                     a: seq<Prerequisite>, b: seq<Prerequisite>)
    ensures Append(Append(manual, name, a), name, b) == Append(manual, name, a + b)
  {
    var before := if name in manual then manual[name] else [];
    assert before + (a + b) == (before + a) + b;
  }

  lemma ItemisedStep(env: Env, types: seq<string>, candidates: map<string, Entry>,
                     manual: map<string, seq<Prerequisite>>, fs: seq<Factory>, f: Factory)
    requires Itemised(env, types, candidates, manual, fs)
    requires Sole(env) && Asked(env, f) ==> f.expected.name !in Required(env, fs)
    ensures !Asked(env, f) ==> Itemised(env, types, candidates, manual, fs + [f])
    ensures Asked(env, f) ==>
      Itemised(env, types, Put(candidates, EntryOf(f.expected)),
               Append(manual, f.expected.name, Prerequisites(env.cfg, types, f.expected)), fs + [f])
  {
    hide Asked, Sole, Prerequisites, Required;
    RequiredStep(env, fs, f);
    forall g | g in fs && Asked(env, g) ensures g.expected.name in Required(env, fs) { RequiredAt(env, fs, g); }
  }

  lemma RequiredAt(env: Env, fs: seq<Factory>, g: Factory)
    requires g in fs && Asked(env, g)
    ensures g.expected.name in Required(env, fs)
  {}

  lemma RequiredStep(env: Env, fs: seq<Factory>, f: Factory)
    ensures Required(env, fs + [f]) == Required(env, fs) + if Asked(env, f) then {f.expected.name} else {}
  {}

  lemma FactoriesOnce(env: Env)
    requires ValidEnv(env)
    ensures forall i, j :: 0 <= i < j < |env.all| ==> env.all[i] != env.all[j]
  {
    forall i, j | 0 <= i < j < |env.all| ensures env.all[i] != env.all[j] {
      if env.all[i] == env.all[j] { DistinctAt(Inert(env.all), i, j); }
    }
  }

  lemma {:induction false} LaneOnce(all: seq<Factory>, family: Family)
    requires forall i, j :: 0 <= i < j < |all| ==> all[i] != all[j]
    ensures forall i, j :: 0 <= i < j < |Lane(all, family)| ==> Lane(all, family)[i] != Lane(all, family)[j]
  {
    if all != [] {
      LaneOnce(all[..|all| - 1], family);
      LaneElements(all[..|all| - 1], family);
      var init := Lane(all[..|all| - 1], family);
      forall i | 0 <= i < |init| ensures init[i] != all[|all| - 1] { assert init[i] in init; }
    }
  }

  /** A name comes up once over the seven loops: the two sides of a switch are never both
      considered. */
  lemma FirstOfItsName(env: Env, done: seq<Factory>, family: Family, k: nat)
    requires Sole(env) && k < |Lane(env.all, family)| && Asked(env, Lane(env.all, family)[k])
    requires forall f :: f in done ==> f in env.all && f.expected.family != family
    ensures Lane(env.all, family)[k].expected.name !in Required(env, done + Lane(env.all, family)[..k])
  {
    var fs := Lane(env.all, family);
    LaneElements(env.all, family);
    FactoriesOnce(env);
    LaneOnce(env.all, family);
    hide ValidEnv, Lane, Considered, GateOpen, SwitchesAreWindows, Candidates;
    if g :| g in done + fs[..k] && Asked(env, g) && g.expected.name == fs[k].expected.name {
      assert fs[k] in fs;
      ConsideredChosen(env, fs[k]);
      ConsideredChosen(env, g);
      ChosenUnique(env, fs[k], g);
    }
  }

  /** The closures and maps requiredCollectorPermissions works with. */
  class Checklist {
    var candidates: map<string, Entry>
    var manual: map<string, seq<Prerequisite>>
    var polledNames: set<string>

    constructor ()
      ensures candidates == map[] && manual == map[] && polledNames == {}
    {
      candidates, manual, polledNames := map[], map[], {};
    }

    /** add. */
    method Add(env: Env, c: Candidate, prerequisite: seq<Prerequisite>)
      modifies this`candidates, this`manual
      ensures candidates == if GateOpen(env, c) then Put(old(candidates), Plain(c)) else old(candidates)
      ensures manual == if GateOpen(env, c) then Append(old(manual), c.name, prerequisite) else old(manual)
    {
      if !GateOpen(env, c) { return; }
      candidates := candidates[c.name := Plain(c)];
      manual := manual[c.name := (if c.name in manual then manual[c.name] else []) + prerequisite];
    }

    /** addManual. */
    method AddManual(env: Env, c: Candidate, prerequisite: seq<Prerequisite>)
      modifies this`candidates, this`manual
      ensures candidates == if GateOpen(env, c) then Put(old(candidates), ManualOnly(c)) else old(candidates)
      ensures manual == if GateOpen(env, c) then Append(old(manual), c.name, prerequisite) else old(manual)
    {
      if !GateOpen(env, c) { return; }
      candidates := candidates[c.name := ManualOnly(c)];
      manual := manual[c.name := (if c.name in manual then manual[c.name] else []) + prerequisite];
    }

    /** The snapshot loop. */
    method AddSnapshots(env: Env, types: seq<string>)
      requires candidates == map[] && manual == map[] && polledNames == {}
      modifies this
      ensures Itemised(env, types, candidates, manual, Lane(env.all, Snapshot))
      ensures polledNames == Built(env.cfg, Lane(env.all, Snapshot))
    {
      var fs := Lane(env.all, Snapshot);
      LaneElements(env.all, Snapshot);
      for k := 0 to |fs|
        invariant Itemised(env, types, candidates, manual, fs[..k]) && polledNames == Built(env.cfg, fs[..k])
      {
        hide Itemised, Put, Append, GateOpen, Sole, Lane, Required, Built;
        NextFactory(env, [], Snapshot, k);
        BuiltStep(env.cfg, fs, k);
        ItemisedStep(env, types, candidates, manual, fs[..k], fs[k]);
        var c := fs[k].expected;
        polledNames := polledNames + {c.name};
        if c.name == "graph2otel.blob_categories" && env.cfg.BlobConfigured() {
          Add(env, c, [CategoryDelivery]);
        } else {
          Add(env, c, []);
        }
      }
      assert fs[..|fs|] == fs;
    }

    /** The window loop. */
    method AddWindows(env: Env, types: seq<string>, ghost done: seq<Factory>)
      requires Itemised(env, types, candidates, manual, done)
      requires forall f :: f in done ==> f in env.all && f.expected.family != Window
      modifies this
      ensures Itemised(env, types, candidates, manual, done + Lane(env.all, Window))
      ensures polledNames == old(polledNames) + Built(env.cfg, Lane(env.all, Window))
    {
      var fs := Lane(env.all, Window);
      LaneElements(env.all, Window);
      assert fs[..0] == [] && done + [] == done;
      for k := 0 to |fs|
        invariant Itemised(env, types, candidates, manual, done + fs[..k])
        invariant polledNames == old(polledNames) + Built(env.cfg, fs[..k])
      {
        hide Itemised, Asked, Sole, Lane, Required, Built, Constructed;
        NextFactory(env, done, Window, k);
        BuiltStep(env.cfg, fs, k);
        AddWindow(env, types, done + fs[..k], fs[k]);
      }
      assert fs[..|fs|] == fs;
    }

    /** One window factory. */
    method AddWindow(env: Env, types: seq<string>, ghost seen: seq<Factory>, f: Factory)
      requires f.expected.family == Window && Itemised(env, types, candidates, manual, seen)
      requires Sole(env) && Asked(env, f) ==> f.expected.name !in Required(env, seen)
      modifies this
      ensures Itemised(env, types, candidates, manual, seen + [f])
      ensures polledNames ==
        old(polledNames) + if Constructed(env.cfg, f.expected) then {f.expected.name} else {}
    {
      hide Itemised, Put, Append, GateOpen, Sole, Required;
      ItemisedStep(env, types, candidates, manual, seen, f);
      var c := f.expected;
      if Constructed(env.cfg, c) {
        polledNames := polledNames + {c.name};
        if GraphPollingActive(env.cfg.SourceIsBlob(c.name), env.cfg.BlobConfigured()) {
          Add(env, c, if c.transport == ExchangeOnline then [DirectoryRole] else []);
        }
      }
    }

    /** The five loops that do not poll: each behind its own opt-in. */
    method AddLane(env: Env, types: seq<string>, ghost done: seq<Factory>, family: Family)
      requires !(family == Snapshot || family == Window) && polledNames == PreflightPolled(env)
      requires Itemised(env, types, candidates, manual, done)
      requires forall f :: f in done ==> f in env.all && f.expected.family != family
      modifies this`candidates, this`manual
      ensures Itemised(env, types, candidates, manual, done + Lane(env.all, family))
    {
      var fs := Lane(env.all, family);
      LaneElements(env.all, family);
      if !LaneWanted(env.cfg, family) {
        UnwantedLane(env, types, candidates, manual, done, family);
        return;
      }
      var activity := ActivityPrerequisites(types);
      assert done + fs[..0] == done;
      for k := 0 to |fs|
        invariant Itemised(env, types, candidates, manual, done + fs[..k])
      {
        hide Itemised, Put, Append, GateOpen, Sole, Lane, PreflightPolled;
        NextFactory(env, done, family, k);
        ItemisedStep(env, types, candidates, manual, done + fs[..k], fs[k]);
        var c := fs[k].expected;
        match family
        case Blob =>
          if BlobTwinSelected(c.name, polledNames, env.cfg.SourceIsBlob(c.name)) {
            Add(env, c, [StorageAccess]);
          }
        case O365 => AddManual(env, c, activity);
        case MDCA => Add(env, c, [PortalToken]);
        case EXO => Add(env, c, [DirectoryRole]);
        case Hunt => Add(env, c, [HuntingBudget]);
      }
      assert fs[..|fs|] == fs;
    }
  }

  /** o365ManualPrerequisites. */
  method ActivityPrerequisites(types: seq<string>) returns (prerequisites: seq<Prerequisite>)
    ensures prerequisites == if "DLP.All" in types then [ActivityFeed, ActivityFeedDlp] else [ActivityFeed]
  {
    prerequisites := [ActivityFeed];
    for i := 0 to |types|
      invariant "DLP.All" !in types[..i]
    {
      if types[i] == "DLP.All" { return prerequisites + [ActivityFeedDlp]; }
    }
    assert types[..|types|] == types;
  }

  /** The facts one turn of a loop starts from. */
  lemma NextFactory(env: Env, done: seq<Factory>, family: Family, k: nat)
    requires k < |Lane(env.all, family)|
    requires forall f :: f in done ==> f in env.all && f.expected.family != family
    ensures var fs := Lane(env.all, family);
      && fs[..k + 1] == fs[..k] + [fs[k]] && done + fs[..k + 1] == (done + fs[..k]) + [fs[k]]
      && fs[k] in fs
      && (Sole(env) && Asked(env, fs[k]) ==> fs[k].expected.name !in Required(env, done + fs[..k]))
  {
    hide Sole, Asked, Required, Lane;
    if Sole(env) && Asked(env, Lane(env.all, family)[k]) { FirstOfItsName(env, done, family, k); }
  }

  lemma BuiltStep(cfg: Config, fs: seq<Factory>, k: nat)
    requires k < |fs|
    ensures Built(cfg, fs[..k + 1]) ==
      Built(cfg, fs[..k]) + if Constructed(cfg, fs[k].expected) then {fs[k].expected.name} else {}
  {
    assert fs[..k + 1] == fs[..k] + [fs[k]];
  }

  /** A family without its opt-in is not asked for. */
  lemma UnwantedLane(env: Env, types: seq<string>, candidates: map<string, Entry>,
                     manual: map<string, seq<Prerequisite>>, done: seq<Factory>, family: Family)
    requires !LaneWanted(env.cfg, family) && Itemised(env, types, candidates, manual, done)
    ensures Itemised(env, types, candidates, manual, done + Lane(env.all, family))
  {
    LaneElements(env.all, family);
    hide Sole, GateOpen, Lane;
    forall f | f in Lane(env.all, family) ensures !Asked(env, f) {}
  }

  function Required(env: Env, fs: seq<Factory>): set<string> {
    set f | f in fs && Considered(env, f.expected) && GateOpen(env, f.expected) :: f.expected.name
  }

  function Built(cfg: Config, fs: seq<Factory>): set<string> {
    set f | f in fs && Constructed(cfg, f.expected) :: f.expected.name
  }

  function AllLanes(env: Env): seq<Factory> {
    Lane(env.all, Snapshot) + Lane(env.all, Window) + Lane(env.all, Blob) + Lane(env.all, O365)
    + Lane(env.all, MDCA) + Lane(env.all, EXO) + Lane(env.all, Hunt)
  }

  lemma LanesTogether(env: Env)
    ensures PreflightPolled(env) == Built(env.cfg, Lane(env.all, Snapshot)) + Built(env.cfg, Lane(env.all, Window))
    ensures forall f :: f in AllLanes(env) <==> f in env.all
    ensures PreflightNames(env) == Required(env, AllLanes(env))
  {
    hide Lane, GateOpen, Considered;
    LaneElements(env.all, Snapshot); LaneElements(env.all, Window); LaneElements(env.all, Blob);
    LaneElements(env.all, O365); LaneElements(env.all, MDCA); LaneElements(env.all, EXO);
    LaneElements(env.all, Hunt);
  }

  /** The checklist of all seven loops. */
  method FillChecklist(env: Env, types: seq<string>) returns (checklist: Checklist)
    ensures fresh(checklist)
    ensures Itemised(env, types, checklist.candidates, checklist.manual, AllLanes(env))
  {
    checklist := new Checklist();
    LanesTogether(env);
    LaneElements(env.all, Snapshot); LaneElements(env.all, Window); LaneElements(env.all, Blob);
    LaneElements(env.all, O365); LaneElements(env.all, MDCA); LaneElements(env.all, EXO);
    hide Lane, Itemised, Built, PreflightPolled, Required;
    checklist.AddSnapshots(env, types);
    ghost var done := Lane(env.all, Snapshot);
    checklist.AddWindows(env, types, done);
    done := done + Lane(env.all, Window);
    checklist.AddLane(env, types, done, Blob);
    done := done + Lane(env.all, Blob);
    checklist.AddLane(env, types, done, O365);
    done := done + Lane(env.all, O365);
    checklist.AddLane(env, types, done, MDCA);
    done := done + Lane(env.all, MDCA);
    checklist.AddLane(env, types, done, EXO);
    done := done + Lane(env.all, EXO);
    checklist.AddLane(env, types, done, Hunt);
  }

  /** BuildRequirements, and the manual prerequisites filled in afterwards. */
  function Requirements(candidates: map<string, Entry>, manual: map<string, seq<Prerequisite>>,
                        declared: Candidate -> seq<string>): map<string, Requirement>
    requires candidates.Keys == manual.Keys
  {
    map n | n in candidates ::
      Requirement(if candidates[n].Plain? then declared(candidates[n].collector) else [], manual[n])
  }

  /** requiredCollectorPermissions: the requirements by name. An empty inventory is an error. */
  method RequiredCollectors(env: Env, types: seq<string>, declared: Candidate -> seq<string>)
    returns (requirements: map<string, Requirement>, ok: bool)
    ensures requirements.Keys == PreflightNames(env)
    ensures ok <==> requirements != map[]
    ensures Sole(env) ==> forall f :: f in env.all && Asked(env, f) ==>
      requirements[f.expected.name] == Needs(env.cfg, types, declared, f.expected)
  {
    hide Sole, Asked, Prerequisites, PreflightNames, Required, AllLanes, Lane;
    LanesTogether(env);
    var checklist := FillChecklist(env, types);
    requirements := Requirements(checklist.candidates, checklist.manual, declared);
    ok := requirements != map[];
  }

  // -------------------------------------------------------------- preflight against start-up

  /** A live blob collector is one the preflight keeps too, although it knows more polled names. */
  lemma LiveConsidered(env: Env, f: Factory)
    requires ValidEnv(env) && f in env.all && Live(env, f.expected)
    ensures Considered(env, f.expected) && GateOpen(env, f.expected)
  {
    GateNeverRefuses(env, f.expected);
    if f.expected.family == Window { LiveWindowPolls(env, f); }
    if f.expected.family == Blob && f.expected.name in PreflightPolled(env) {
      var p :| p in env.all && Polled(p.expected) && Constructed(env.cfg, p.expected)
        && p.expected.name == f.expected.name;
      TwoFactories(env, f, p);
      CandidatesFacts(env);
      assert HasRival(Candidates(env), f.expected) by { assert p.expected in Candidates(env); }
    }
  }

  /** Every collector start-up can register is in the preflight's inventory, whatever the
      transports and factories do. */
  lemma PreflightCoversRuntime(env: Env)
    requires ValidEnv(env)
    ensures RegistryNames(env) <= PreflightNames(env)
  {
    forall c | c in Registry(env) ensures c.name in PreflightNames(env) {
      RegisteredByElements(env, LOOPS, c);
      var f :| f in env.all && Registers(env, f) && f.expected == c;
      LiveConsidered(env, f);
    }
  }

  /** What the preflight asks for, from the two layers: what is switched on, opted in to where it
      has to be, licensed, on its side of a switch and behind its own transport's opt-in. */
  lemma AskedExactly(env: Env, f: Factory)
    requires Sole(env) && f in env.all
    ensures Asked(env, f) <==>
      var c, cfg := f.expected, env.cfg;
      && SwitchedOn(cfg, c.name) && (c.experimental || c.highVolume ==> OptedIn(cfg, c.name))
      && (c.capability == "" || c.capability in env.lic.capabilities)
      && OnItsSide(env, f)
      && (c.family == Blob ==> cfg.blobAccountURL != "")
      && (c.family == MDCA ==> cfg.mdcaConfigured)
      && (c.family == EXO || (c.family == Window && c.transport == ExchangeOnline) ==> cfg.exoEnabled)
      && (c.family == Hunt ==> cfg.huntingEnabled)
  {
    GateSays(env, f.expected);
    ConfigReads(env.cfg, f.expected.name);
    hide GateOpen, SwitchedOn, OptedIn;
    if f.expected.family == Snapshot {
      SnapshotUnpaired(env, f);
    } else if f.expected.family == Window {
      if f.expected.name in BlobNames(env.all) {
        var g :| g in env.all && g.expected.family == Blob && g.expected.name == f.expected.name;
        TwoFactories(env, f, g);
      }
      if g :| g in env.all && g != f && g.expected.name == f.expected.name { TwoFactories(env, f, g); }
    } else if f.expected.family == Blob {
      BlobSideAsked(env, f);
    } else if g :| g in env.all && g != f && g.expected.name == f.expected.name {
      TwoFactories(env, f, g);
    }
  }

  lemma SnapshotUnpaired(env: Env, f: Factory)
    requires Sole(env) && f in env.all && f.expected.family == Snapshot
    ensures !Paired(env, f)
  {
    if g :| g in env.all && g != f && g.expected.name == f.expected.name { TwoFactories(env, f, g); }
  }

  lemma BlobSideAsked(env: Env, f: Factory)
    requires Sole(env) && f in env.all && f.expected.family == Blob
    ensures Considered(env, f.expected) <==> env.cfg.blobAccountURL != "" && OnItsSide(env, f)
  {
    ConfigReads(env.cfg, f.expected.name);
    if g :| g in env.all && g != f && g.expected.name == f.expected.name {
      TwoFactories(env, f, g);
      assert Polled(g.expected) && Constructed(env.cfg, g.expected);
      assert f.expected.name in PreflightPolled(env);
    }
  }

  /** What each kind of collector needs beyond what it declares. */
  lemma NeedsSay(cfg: Config, types: seq<string>, declared: Candidate -> seq<string>, c: Candidate)
    ensures var n := Needs(cfg, types, declared, c);
      && (n.permissions == [] || (c.family != O365 && n.permissions == declared(c)))
      && (c.family != O365 ==> n.permissions == declared(c))
      && (CategoryDelivery in n.unverifiable <==>
            c.family == Snapshot && c.name == "graph2otel.blob_categories" && cfg.blobAccountURL != "")
      && (StorageAccess in n.unverifiable <==> c.family == Blob)
      && (ActivityFeed in n.unverifiable <==> c.family == O365)
      && (ActivityFeedDlp in n.unverifiable <==> c.family == O365 && "DLP.All" in types)
      && (PortalToken in n.unverifiable <==> c.family == MDCA)
      && (DirectoryRole in n.unverifiable <==> c.family == EXO || (c.family == Window && c.transport == ExchangeOnline))
      && (HuntingBudget in n.unverifiable <==> c.family == Hunt)
      && forall i, j :: 0 <= i < j < |n.unverifiable| ==> n.unverifiable[i] != n.unverifiable[j]
  {}

  /** Nothing about start-up goes wrong: every transport and factory is built, the licence
      probe answered, and no per-mailbox collector is gated off. */
  predicate CleanStart(env: Env) {
    && env.lic.known
    && env.builds == Builds(true, true, true, true, true, true, true)
    && (forall f :: f in env.all ==> Constructs(f) && !PerMailboxSkip(env, f))
  }

  /** The polled side of a switch is a window collector, as all three are. */
  predicate SwitchesAreWindows(env: Env) {
    forall f, g :: f in env.all && g in env.all && SwitchPair(f.expected, g.expected) ==>
      f.expected.family != Snapshot
  }

  predicate BlobCensusUnwired(env: Env, c: Candidate) {
    c.family == Snapshot && !TransportConfigured(env.cfg, c)
  }

  /** On a clean start the preflight asks for exactly what start-up registers, plus the blob
      category census, which the preflight lists even where there is no blob ingest. */
  lemma PreflightExact(env: Env, name: string)
    requires ValidEnv(env) && CleanStart(env) && SwitchesAreWindows(env)
    ensures name in PreflightNames(env) <==>
      || name in RegistryNames(env)
      || (exists f :: f in env.all && BlobCensusUnwired(env, f.expected) && GateOpen(env, f.expected)
                      && f.expected.name == name)
  {
    PreflightCoversRuntime(env);
    CandidatesFacts(env);
    hide ValidEnv, Candidates, Ordered, RegisteredBy, LaneDown, Lane, Considered;
    hide RegistryNames, CleanStart, SwitchesAreWindows;
    if name in PreflightNames(env) {
      var f :| f in env.all && Considered(env, f.expected) && GateOpen(env, f.expected) && f.expected.name == name;
      if !BlobCensusUnwired(env, f.expected) { ConsideredRegisters(env, f); }
    }
  }

  /** A tenant without blob ingest, and the blob category census alone. */
  const CATEGORIES := Candidate("graph2otel.blob_categories", Snapshot, Graph, false, false, "", [], [])
  const CATEGORY_ENV := Env(
    Config(map[], map[], "", false, false, false, false), License({}, true),
    [Factory(CATEGORIES, Some(Runtime(CATEGORIES, false)))], Builds(true, true, true, true, true, true, true))

  lemma CategoryEnvValid()
    ensures ValidEnv(CATEGORY_ENV) && CleanStart(CATEGORY_ENV) && SwitchesAreWindows(CATEGORY_ENV)
  {
    var env, f := CATEGORY_ENV, CATEGORY_ENV.all[0];
    assert Inert(env.all) == [CATEGORIES] && [CATEGORIES][1..] == [];
    assert forall g :: g in env.all ==> g == f;
    assert Constructs(f) && !PerMailboxSkip(env, f);
  }

  /** There the preflight asks for the census and start-up registers nothing of that name. */
  lemma PreflightAsksTooMuch()
    ensures ValidEnv(CATEGORY_ENV) && CleanStart(CATEGORY_ENV) && SwitchesAreWindows(CATEGORY_ENV)
    ensures CATEGORIES.name in PreflightNames(CATEGORY_ENV) && CATEGORIES.name !in RegistryNames(CATEGORY_ENV)
  {
    CategoryEnvValid();
    var env, f := CATEGORY_ENV, CATEGORY_ENV.all[0];
    hide ValidEnv, CleanStart, SwitchesAreWindows, RegisteredBy;
    assert f in env.all && Considered(env, f.expected) && GateOpen(env, f.expected);
    if c :| c in Registry(env) && c.name == CATEGORIES.name { RegisteredByElements(env, LOOPS, c); }
  }

  lemma ConsideredRegisters(env: Env, f: Factory)
    requires ValidEnv(env) && CleanStart(env) && SwitchesAreWindows(env)
    requires f in env.all && Considered(env, f.expected) && GateOpen(env, f.expected)
    requires !BlobCensusUnwired(env, f.expected)
    ensures f.expected.name in RegistryNames(env)
  {
    ConsideredChosen(env, f);
    assert Registers(env, f);
    EveryFamilyHasALoop(f.expected.family);
    RegisteredByElements(env, LOOPS, f.expected);
  }

  lemma ConsideredChosen(env: Env, f: Factory)
    requires ValidEnv(env) && SwitchesAreWindows(env) && f in env.all && Considered(env, f.expected)
    ensures Chosen(env.cfg, Candidates(env), f.expected)
  {
    CandidatesFacts(env);
    hide ValidEnv, Candidates, Ordered;
    if r :| r in Candidates(env) && SwitchPair(f.expected, r) {
      var g :| g in env.all && g.expected == r;
      assert SwitchPair(g.expected, f.expected);
      if f.expected.family == Blob {
        assert Polled(g.expected) && Constructed(env.cfg, g.expected);
        assert f.expected.name in PreflightPolled(env);
      }
    }
  }
}
