/**
 The availability census: one row per logical collector, resolved from the
 registered candidates (cmd/graph2otel/availability_inventory.go).
 */
module Census {
  import opened Names
  import opened Options
  import opened Sequences

  datatype Family = Snapshot | Window | Blob | O365 | MDCA | EXO | Hunt

  datatype Transport =
    | Graph | BlobStore | O365Activity | AuditQuery | ReportExport | CloudAppSecurity | ExchangeOnline

  datatype PartialRequirement = PartialRequirement(limitation: string, capability: string)

  datatype Candidate = Candidate(
    name: string,
    family: Family,
    transport: Transport,
    experimental: bool,
    highVolume: bool,
    capability: string,  // "" when no licence capability is required
    partial: seq<PartialRequirement>,
    conflictsWith: seq<string>)

  // -------------------------------------------------------------- configuration

  datatype Toggle = Unset | On | Off

  datatype Source = SourceUnset | SourceGraph | SourceBlob

  datatype Override = Override(enabled: Toggle, source: Source)

  /** The configuration as one tenant sees it: the global collector block, that
      tenant's own block, and the tenant's transport switches. */
  datatype Config = Config(
    global: map<string, Override>,
    tenant: map<string, Override>,
    blobAccountURL: string,
    mdcaConfigured: bool,
    exoEnabled: bool,
    exoPerMailbox: bool,
    huntingEnabled: bool)
  {
    predicate BlobConfigured() { blobAccountURL != "" }

    function Layer(layer: map<string, Override>, name: string): Override {
      if name in layer then layer[name] else Override(Unset, SourceUnset)
    }

    /** CollectorSettings: default on, then the global block, then the tenant's. */
    predicate Enabled(name: string) {
      var g, t := Layer(global, name).enabled, Layer(tenant, name).enabled;
      if t != Unset then t == On else g != Off
    }

    /** CollectorExplicitlyEnabled: some layer said "on" and none later said "off". */
    predicate ExplicitlyEnabled(name: string) {
      var g, t := Layer(global, name).enabled, Layer(tenant, name).enabled;
      if t != Unset then t == On else g == On
    }

    /** CollectorSource resolved to "blob"; anything else means "graph". */
    predicate SourceIsBlob(name: string) {
      var g, t := Layer(global, name).source, Layer(tenant, name).source;
      (if t != SourceUnset then t else g) == SourceBlob
    }
  }

  datatype License = License(capabilities: set<string>, known: bool)

  // -------------------------------------------------------------- rows

  datatype State = Disabled | Blocked | Covered | Starting | Limited | StartupFailed

  datatype Reason =
    | DisabledByConfig | TransportNotConfigured | ExperimentalNotEnabled | HighVolumeNotEnabled
    | LicenseDetectionFailed | LicenseUnavailable | PartialLicense | TransportFallback | NoCompletedRun
    | CoveredByAlternative | TransportInitializationFailed | InvalidTransportConfiguration
    | CredentialInitializationFailed | GraphClientInitializationFailed

  datatype Row = Row(
    collector: string,
    transport: Transport,
    state: State,
    reason: Reason,
    limitations: seq<string>,
    missing: seq<string>)

  predicate Active(row: Row) {
    row.state == Starting || row.state == Limited
  }

  // -------------------------------------------------------------- candidates, sorted and grouped

  /** The place of a family's name among the families' names. */
  function Rank(f: Family): nat {
    match f
    case Blob => 0
    case EXO => 1
    case Hunt => 2
    case MDCA => 3
    case O365 => 4
    case Snapshot => 5
    case Window => 6
  }

  /** The families' names. */
  function FamilyName(f: Family): string {
    match f
    case Snapshot => "snapshot"
    case Window => "window"
    case Blob => "blob"
    case O365 => "o365"
    case MDCA => "mdca"
    case EXO => "exo"
    case Hunt => "hunt"
  }

  lemma RankIsAlphabetical(f: Family, g: Family)
    ensures Rank(f) <= Rank(g) <==> Leq(FamilyName(f), FamilyName(g))
  {
    LeqFirst(FamilyName(f), FamilyName(g));
  }

  lemma LeqFirst(a: string, b: string)
    requires a != "" && b != "" && (a[0] == b[0] ==> a == b)
    ensures Leq(a, b) <==> a[0] <= b[0]
  {
    LeqExactly(a, b);
  }

  /** By name, then by family. No two candidates agree in both, so the source's third key, the
      transport, never decides. */
  predicate Precedes(a: Candidate, b: Candidate) {
    if a.name == b.name then Rank(a.family) <= Rank(b.family) else Leq(a.name, b.name)
  }

  function InsertByName(c: Candidate, cs: seq<Candidate>): seq<Candidate> {
    if cs == [] || Precedes(c, cs[0]) then [c] + cs else [cs[0]] + InsertByName(c, cs[1..])
  }

  function SortByName(cs: seq<Candidate>): seq<Candidate> {
    if cs == [] then [] else InsertByName(cs[0], SortByName(cs[1..]))
  }

  predicate GraphSide(c: Candidate) {
    c.transport == Graph && (c.family == Snapshot || c.family == Window)
  }

  predicate BlobSide(c: Candidate) {
    c.transport == BlobStore && c.family == Blob
  }

  /** Two candidates may share a name only as the two transports of one source switch. */
  predicate SwitchPair(a: Candidate, b: Candidate) {
    a.name == b.name &&
    ((GraphSide(a) && BlobSide(b)) || (BlobSide(a) && GraphSide(b)))
  }

  /** Names are unique except for source-switch pairs. */
  predicate Distinct(cs: seq<Candidate>) {
    cs != [] ==>
      && (forall x :: x in cs[1..] && x.name == cs[0].name ==> SwitchPair(cs[0], x))
      && Distinct(cs[1..])
  }

  /** Distinct, and ascending by name. */
  predicate Ordered(cs: seq<Candidate>) {
    cs != [] ==>
      && (forall x :: x in cs[1..] ==>
            Leq(cs[0].name, x.name) && (x.name == cs[0].name ==> SwitchPair(cs[0], x)))
      && Ordered(cs[1..])
  }

  lemma {:induction false} InsertElements(c: Candidate, cs: seq<Candidate>)
    ensures forall x :: x in InsertByName(c, cs) <==> x == c || x in cs
  {
    if cs != [] && !Precedes(c, cs[0]) {
      InsertElements(c, cs[1..]);
      assert cs == [cs[0]] + cs[1..];
    }
  }

  lemma {:induction false} InsertOrdered(c: Candidate, cs: seq<Candidate>)
    requires Ordered(cs)
    requires forall x :: x in cs && x.name == c.name ==> SwitchPair(c, x)
    ensures Ordered(InsertByName(c, cs))
  {
    var r := InsertByName(c, cs);
    if cs == [] {
    } else {
      LeqTotal(c.name, cs[0].name);
      if Precedes(c, cs[0]) {
        forall x | x in r[1..] ensures Leq(c.name, x.name) {
          if x != cs[0] { LeqTransitive(c.name, cs[0].name, x.name); }
        }
        assert r[1..] == cs;
      } else {
        InsertOrdered(c, cs[1..]);
        InsertElements(c, cs[1..]);
        assert r[1..] == InsertByName(c, cs[1..]);
        assert cs[0] in cs;
      }
    }
  }

  /** The namesakes of a candidate come after it only if their family does. */
  predicate TiesBroken(cs: seq<Candidate>) {
    cs != [] ==> (forall x :: x in cs[1..] && x.name == cs[0].name ==> Precedes(cs[0], x)) && TiesBroken(cs[1..])
  }

  lemma {:induction false} InsertBreaksTies(c: Candidate, cs: seq<Candidate>)
    requires Ordered(cs) && TiesBroken(cs)
    ensures TiesBroken(InsertByName(c, cs))
  {
    var r := InsertByName(c, cs);
    if cs != [] {
      if Precedes(c, cs[0]) {
        LeqTotal(c.name, cs[0].name);
        forall x | x in r[1..] && x.name == c.name ensures Precedes(c, x) {
          if x != cs[0] { LeqAntisymmetric(c.name, cs[0].name); }
        }
        assert r[1..] == cs;
      } else {
        InsertBreaksTies(c, cs[1..]);
        InsertElements(c, cs[1..]);
        assert r[1..] == InsertByName(c, cs[1..]);
      }
    }
  }

  /** Sorting keeps exactly the candidates it is given and leaves them ordered, the blob side
      of a pair before the other. */
  lemma {:induction false} SortCorrect(cs: seq<Candidate>)
    requires Distinct(cs)
    ensures forall x :: x in SortByName(cs) <==> x in cs
    ensures Ordered(SortByName(cs)) && TiesBroken(SortByName(cs))
  {
    if cs != [] {
      SortCorrect(cs[1..]);
      InsertElements(cs[0], SortByName(cs[1..]));
      InsertOrdered(cs[0], SortByName(cs[1..]));
      InsertBreaksTies(cs[0], SortByName(cs[1..]));
      assert cs == [cs[0]] + cs[1..];
    }
  }

  /** Length of the leading run of equal names. */
  function GroupEnd(cs: seq<Candidate>): (end: nat)
    requires cs != []
    ensures 1 <= end <= |cs|
    ensures forall k :: 0 <= k < end ==> cs[k].name == cs[0].name
    ensures end < |cs| ==> cs[end].name != cs[0].name
  {
    if |cs| > 1 && cs[1].name == cs[0].name then 1 + GroupEnd(cs[1..]) else 1
  }

  datatype Selection = Selection(candidate: Candidate, fallback: bool)

  predicate GroupOk(group: seq<Candidate>) {
    |group| == 1 || (|group| == 2 && SwitchPair(group[0], group[1]))
  }

  function Select(cfg: Config, group: seq<Candidate>): (s: Selection)
    requires GroupOk(group)
  {
    if |group| == 1 then Selection(group[0], false)
    else
      var (g, b) := if group[0].transport == Graph then (group[0], group[1]) else (group[1], group[0]);
      if !cfg.SourceIsBlob(g.name) then Selection(g, false)
      else if cfg.BlobConfigured() then Selection(b, false)
      else Selection(g, true)
  }

  lemma {:induction false} OrderedSuffix(cs: seq<Candidate>, k: nat)
    requires Ordered(cs) && k <= |cs|
    ensures Ordered(cs[k..])
    ensures k < |cs| ==> forall x :: x in cs[k..] ==>
      forall i :: 0 <= i < k ==> Leq(cs[i].name, x.name) && (x.name == cs[i].name ==> SwitchPair(cs[i], x))
  {
    if k > 0 {
      OrderedSuffix(cs[1..], k - 1);
      assert cs[1..][k - 1..] == cs[k..];
      forall x, i | x in cs[k..] && 0 <= i < k
        ensures Leq(cs[i].name, x.name) && (x.name == cs[i].name ==> SwitchPair(cs[i], x))
      {
        if i > 0 { assert cs[i] == cs[1..][i - 1]; } else { assert x in cs[1..]; }
      }
    }
  }

  lemma GroupIsSmall(cs: seq<Candidate>)
    requires cs != [] && Ordered(cs)
    ensures GroupOk(cs[..GroupEnd(cs)])
  {
    if |cs| >= 2 { assert cs[1] in cs[1..]; }
    if |cs| >= 3 { assert cs[2] in cs[1..] && cs[2] in cs[1..][1..] && cs[1..][0] == cs[1]; }
  }

  lemma GroupFacts(cs: seq<Candidate>)
    requires cs != [] && Ordered(cs)
    ensures GroupOk(cs[..GroupEnd(cs)])
    ensures Ordered(cs[GroupEnd(cs)..])
    ensures forall x :: x in cs[GroupEnd(cs)..] ==> Leq(cs[0].name, x.name) && x.name != cs[0].name
  {
    var e := GroupEnd(cs);
    GroupIsSmall(cs);
    OrderedSuffix(cs, e);
    hide SwitchPair, Ordered, GroupOk, GroupEnd;
    forall x | x in cs[e..] ensures x.name != cs[0].name {
      if x.name == cs[0].name && x != cs[e] {
        OrderedSuffix(cs[e..], 1);
        assert x in cs[e..][1..] && cs[e] in cs[e..];
        LeqAntisymmetric(cs[e].name, cs[0].name);
      }
    }
  }

  function Selections(cfg: Config, cs: seq<Candidate>): (ss: seq<Selection>)
    requires Ordered(cs)
    decreases |cs|
  {
    if cs == [] then []
    else
      GroupFacts(cs);
      var e := GroupEnd(cs);
      [Select(cfg, cs[..e])] + Selections(cfg, cs[e..])
  }

  /** The side of a source switch that `source` and the blob account together choose. */
  function SwitchedTo(cfg: Config, name: string): Transport {
    if cfg.SourceIsBlob(name) && cfg.BlobConfigured() then BlobStore else Graph
  }

  predicate HasRival(cs: seq<Candidate>, c: Candidate) {
    exists rival :: rival in cs && SwitchPair(c, rival)
  }

  /** The census must pick c: it has no rival, or it is the side switched to. */
  predicate Chosen(cfg: Config, cs: seq<Candidate>, c: Candidate) {
    HasRival(cs, c) ==> c.transport == SwitchedTo(cfg, c.name)
  }

  predicate Ascending(ss: seq<Selection>) {
    ss != [] ==>
      && (forall s :: s in ss[1..] ==>
            Leq(ss[0].candidate.name, s.candidate.name) && ss[0].candidate.name != s.candidate.name)
      && Ascending(ss[1..])
  }

  predicate Picked(ss: seq<Selection>, c: Candidate) {
    exists s :: s in ss && s.candidate == c
  }

  /** One turn of the census loop. */
  lemma SelectionsStep(cfg: Config, cs: seq<Candidate>) returns (s0: Selection, rest: seq<Candidate>, e: nat)
    requires Ordered(cs) && cs != []
    ensures e == GroupEnd(cs) && rest == cs[e..] && |rest| < |cs| && Ordered(rest)
    ensures GroupOk(cs[..e]) && s0 == Select(cfg, cs[..e])
    ensures Selections(cfg, cs) == [s0] + Selections(cfg, rest)
    ensures s0.candidate in cs[..e] && s0.candidate.name == cs[0].name
    ensures forall x :: x in cs <==> x in cs[..e] || x in rest
    ensures forall x :: x in rest ==> Leq(cs[0].name, x.name) && x.name != cs[0].name
    ensures forall x :: x in cs[..e] ==> x.name == cs[0].name
  {
    GroupFacts(cs);
    e := GroupEnd(cs);
    s0, rest := Select(cfg, cs[..e]), cs[e..];
    assert cs == cs[..e] + rest;
  }

  lemma {:induction false} SelectionsAreCandidates(cfg: Config, cs: seq<Candidate>)
    requires Ordered(cs)
    ensures forall s :: s in Selections(cfg, cs) ==> s.candidate in cs
    decreases |cs|
  {
    if cs != [] {
      var s0, rest, e := SelectionsStep(cfg, cs);
      SelectionsAreCandidates(cfg, rest);
    }
  }

  lemma {:induction false} SelectionsAscend(cfg: Config, cs: seq<Candidate>)
    requires Ordered(cs)
    ensures Ascending(Selections(cfg, cs))
    decreases |cs|
  {
    if cs != [] {
      var s0, rest, e := SelectionsStep(cfg, cs);
      SelectionsAscend(cfg, rest);
      SelectionsAreCandidates(cfg, rest);
      assert Selections(cfg, cs)[1..] == Selections(cfg, rest);
    }
  }

  /** The side picked from one group. */
  lemma SelectChosen(cfg: Config, group: seq<Candidate>, c: Candidate)
    requires GroupOk(group) && c in group
    requires |group| == 1 ==> !SwitchPair(c, c)
    ensures Select(cfg, group).candidate == c <==> Chosen(cfg, group, c)
  {
    if |group| == 2 {
      assert SwitchPair(c, if c == group[0] then group[1] else group[0]);
    }
  }

  /** Every name is selected, and the candidate selected for it is the chosen one. */
  lemma {:induction false} SelectionsCorrect(cfg: Config, cs: seq<Candidate>, c: Candidate)
    requires Ordered(cs) && c in cs
    ensures exists s :: s in Selections(cfg, cs) && s.candidate.name == c.name
    ensures Picked(Selections(cfg, cs), c) <==> Chosen(cfg, cs, c)
    decreases |cs|
  {
    var s0, rest, e := SelectionsStep(cfg, cs);
    var ss := Selections(cfg, cs);
    assert s0 in ss;
    SelectionsAreCandidates(cfg, rest);
    if c in cs[..e] {
      SelectChosen(cfg, cs[..e], c);
      assert HasRival(cs, c) <==> HasRival(cs[..e], c) by {
        forall rival | rival in cs && SwitchPair(c, rival) ensures rival in cs[..e] {}
      }
    } else {
      SelectionsCorrect(cfg, rest, c);
      assert HasRival(cs, c) <==> HasRival(rest, c) by {
        forall rival | rival in cs && SwitchPair(c, rival) ensures rival in rest {}
      }
      forall s | s in Selections(cfg, rest) ensures s in ss {}
    }
  }

  // -------------------------------------------------------------- one row

  predicate TransportConfigured(cfg: Config, c: Candidate) {
    match c.family
    case Blob => cfg.BlobConfigured()
    case MDCA => cfg.mdcaConfigured
    case EXO => cfg.exoEnabled
    case Hunt => cfg.huntingEnabled
    case Window => c.transport == ExchangeOnline ==> cfg.exoEnabled
    case Snapshot => c.name == "graph2otel.blob_categories" ==> cfg.BlobConfigured()
    case O365 => true
  }

  predicate Satisfied(requirement: string, lic: License) {
    if requirement == "entra_p1_or_p2"
    then "entra_p1" in lic.capabilities || "entra_p2" in lic.capabilities
    else requirement in lic.capabilities
  }

  function Unmet(partial: seq<PartialRequirement>, lic: License): seq<PartialRequirement> {
    if partial == [] then []
    else (if Satisfied(partial[0].capability, lic) then [] else [partial[0]]) + Unmet(partial[1..], lic)
  }

  function Resolve(cfg: Config, lic: License, s: Selection): (row: Row)
    ensures row.collector == s.candidate.name && row.transport == s.candidate.transport
    ensures row.state != Covered
  {
    var c := s.candidate;
    var row := Row(c.name, c.transport, Disabled, DisabledByConfig, [], []);
    if !cfg.Enabled(c.name) then row
    else if !TransportConfigured(cfg, c) then row.(reason := TransportNotConfigured)
    else if c.experimental && !cfg.ExplicitlyEnabled(c.name) then row.(reason := ExperimentalNotEnabled)
    else if c.highVolume && !cfg.ExplicitlyEnabled(c.name) then row.(reason := HighVolumeNotEnabled)
    else if (c.capability != "" || c.partial != []) && !lic.known then
      row.(state := StartupFailed, reason := LicenseDetectionFailed)
    else if c.capability != "" && c.capability !in lic.capabilities then
      row.(state := Blocked, reason := LicenseUnavailable, missing := [c.capability])
    else
      var unmet := Unmet(c.partial, lic);
      if unmet != [] then
        row.(state := Limited, reason := PartialLicense,
             limitations := seq(|unmet|, i requires 0 <= i < |unmet| => unmet[i].limitation),
             missing := seq(|unmet|, i requires 0 <= i < |unmet| => unmet[i].capability))
      else row.(state := Starting, reason := if s.fallback then TransportFallback else NoCompletedRun)
  }

  /** The configuration with one collector set in the tenant's own block. */
  function Switched(cfg: Config, name: string, enabled: Toggle): Config {
    cfg.(tenant := cfg.tenant[name := Override(enabled, cfg.Layer(cfg.tenant, name).source)])
  }

  /** The tenant's own word decides: switched on there, a collector is disabled only for want
      of its transport, whatever the global block says and however it is classed; switched
      off there, it is disabled by configuration. Neither moves it to another transport, nor
      touches another collector's row. */
  lemma TenantDecides(cfg: Config, lic: License, s: Selection, other: Selection)
    requires other.candidate.name != s.candidate.name
    ensures var on, off := Switched(cfg, s.candidate.name, On), Switched(cfg, s.candidate.name, Off);
      && (Resolve(on, lic, s).state == Disabled <==> !TransportConfigured(cfg, s.candidate))
      && (Resolve(on, lic, s).state == Disabled ==> Resolve(on, lic, s).reason == TransportNotConfigured)
      && Resolve(off, lic, s).state == Disabled && Resolve(off, lic, s).reason == DisabledByConfig
      && (on.SourceIsBlob(s.candidate.name) <==> cfg.SourceIsBlob(s.candidate.name))
      && Resolve(on, lic, other) == Resolve(off, lic, other) == Resolve(cfg, lic, other)
  {
    hide Switched, Resolve, TransportConfigured;
    SwitchedReads(cfg, s.candidate.name, On, s.candidate);
    SwitchedReads(cfg, s.candidate.name, Off, s.candidate);
    SwitchedReads(cfg, s.candidate.name, On, other.candidate);
    SwitchedReads(cfg, s.candidate.name, Off, other.candidate);
    hide Config.Enabled, Config.ExplicitlyEnabled, Config.SourceIsBlob;
    DisabledExactly(Switched(cfg, s.candidate.name, On), lic, s);
    DisabledExactly(Switched(cfg, s.candidate.name, Off), lic, s);
    SameReading(Switched(cfg, s.candidate.name, On), cfg, lic, other);
    SameReading(Switched(cfg, s.candidate.name, Off), cfg, lic, other);
  }

  /** How a configuration reads after the switch. */
  lemma SwitchedReads(cfg: Config, name: string, enabled: Toggle, c: Candidate)
    requires enabled != Unset
    ensures var now := Switched(cfg, name, enabled);
      && TransportConfigured(now, c) == TransportConfigured(cfg, c)
      && now.SourceIsBlob(c.name) == cfg.SourceIsBlob(c.name)
      && now.Enabled(c.name) == (if c.name == name then enabled == On else cfg.Enabled(c.name))
      && now.ExplicitlyEnabled(c.name) == (if c.name == name then enabled == On else cfg.ExplicitlyEnabled(c.name))
  {}

  lemma DisabledExactly(cfg: Config, lic: License, s: Selection)
    ensures var r, c := Resolve(cfg, lic, s), s.candidate;
      && (r.state == Disabled <==>
            !cfg.Enabled(c.name) || !TransportConfigured(cfg, c)
            || ((c.experimental || c.highVolume) && !cfg.ExplicitlyEnabled(c.name)))
      && (r.state == Disabled && !cfg.Enabled(c.name) ==> r.reason == DisabledByConfig)
      && (r.state == Disabled && cfg.ExplicitlyEnabled(c.name) && cfg.Enabled(c.name) ==>
            r.reason == TransportNotConfigured)
  {
    hide TransportConfigured, Config.Enabled, Config.ExplicitlyEnabled, Unmet;
  }

  lemma SameReading(a: Config, b: Config, lic: License, s: Selection)
    requires TransportConfigured(a, s.candidate) == TransportConfigured(b, s.candidate)
    requires a.Enabled(s.candidate.name) == b.Enabled(s.candidate.name)
    requires a.ExplicitlyEnabled(s.candidate.name) == b.ExplicitlyEnabled(s.candidate.name)
    ensures Resolve(a, lic, s) == Resolve(b, lic, s)
  {
    hide TransportConfigured, Config.Enabled, Config.ExplicitlyEnabled, Unmet;
  }

  // -------------------------------------------------------------- what the two layers say

  predicate Says(layer: map<string, Override>, name: string, t: Toggle) { name in layer && layer[name].enabled == t }

  predicate SaysSource(layer: map<string, Override>, name: string, s: Source) {
    name in layer && layer[name].source == s
  }

  /** The tenant's block comes first, the global one second, and a collector nobody mentions
      is on. */
  predicate SwitchedOn(cfg: Config, name: string) {
    Says(cfg.tenant, name, On) || (!Says(cfg.tenant, name, Off) && !Says(cfg.global, name, Off))
  }

  /** One that has to be asked for is on only where the first layer to speak says so. */
  predicate OptedIn(cfg: Config, name: string) {
    Says(cfg.tenant, name, On) || (!Says(cfg.tenant, name, Off) && Says(cfg.global, name, On))
  }

  predicate BlobAsked(cfg: Config, name: string) {
    || SaysSource(cfg.tenant, name, SourceBlob)
    || (!SaysSource(cfg.tenant, name, SourceGraph) && SaysSource(cfg.global, name, SourceBlob))
  }

  /** The three readings of the configuration follow that precedence. */
  lemma ConfigReads(cfg: Config, name: string)
    ensures cfg.Enabled(name) <==> SwitchedOn(cfg, name)
    ensures cfg.ExplicitlyEnabled(name) <==> OptedIn(cfg, name)
    ensures cfg.SourceIsBlob(name) <==> BlobAsked(cfg, name)
  {}

  /** What a collector can lack. */
  lemma TransportNeeds(cfg: Config, c: Candidate)
    ensures !TransportConfigured(cfg, c) <==>
      || (cfg.blobAccountURL == "" &&
          (c.family == Blob || (c.family == Snapshot && c.name == "graph2otel.blob_categories")))
      || (!cfg.mdcaConfigured && c.family == MDCA)
      || (!cfg.exoEnabled && (c.family == EXO || (c.family == Window && c.transport == ExchangeOnline)))
      || (!cfg.huntingEnabled && c.family == Hunt)
  {}

  /** A licence lacks what a partial requirement asks for. */
  predicate Lacks(lic: License, p: PartialRequirement) {
    if p.capability == "entra_p1_or_p2" then {"entra_p1", "entra_p2"} !! lic.capabilities
    else p.capability !in lic.capabilities
  }

  predicate NeedsLicense(c: Candidate) { c.capability != "" || c.partial != [] }

  /** Nothing but the licence stands in a collector's way. */
  predicate Cleared(cfg: Config, c: Candidate) {
    && SwitchedOn(cfg, c.name) && TransportConfigured(cfg, c)
    && (c.experimental || c.highVolume ==> OptedIn(cfg, c.name))
  }

  predicate Licensed(lic: License, c: Candidate) {
    && (NeedsLicense(c) ==> lic.known)
    && (c.capability != "" ==> c.capability in lic.capabilities)
  }

  /** Every reason a row can have, and when it has it: configuration before transport, beta before
      volume, an unread licence before an insufficient one. */
  lemma RowSays(cfg: Config, lic: License, s: Selection)
    ensures var row, c := Resolve(cfg, lic, s), s.candidate;
      var partly := exists p :: p in c.partial && Lacks(lic, p);
      && (row.reason == DisabledByConfig <==> !SwitchedOn(cfg, c.name))
      && (row.reason == TransportNotConfigured <==> SwitchedOn(cfg, c.name) && !TransportConfigured(cfg, c))
      && (row.reason == ExperimentalNotEnabled <==>
            SwitchedOn(cfg, c.name) && TransportConfigured(cfg, c) && c.experimental && !OptedIn(cfg, c.name))
      && (row.reason == HighVolumeNotEnabled <==>
            SwitchedOn(cfg, c.name) && TransportConfigured(cfg, c) && !c.experimental && c.highVolume
            && !OptedIn(cfg, c.name))
      && (row.reason == LicenseDetectionFailed <==> Cleared(cfg, c) && NeedsLicense(c) && !lic.known)
      && (row.reason == LicenseUnavailable <==>
            Cleared(cfg, c) && lic.known && c.capability != "" && c.capability !in lic.capabilities)
      && (row.reason == LicenseUnavailable ==> row.missing == [c.capability])
      && (row.reason == PartialLicense <==> Cleared(cfg, c) && Licensed(lic, c) && partly)
      && (row.reason == TransportFallback <==> Cleared(cfg, c) && Licensed(lic, c) && !partly && s.fallback)
      && (row.reason == NoCompletedRun <==> Cleared(cfg, c) && Licensed(lic, c) && !partly && !s.fallback)
      && AllowedPair(row)
  {
    ConfigReads(cfg, s.candidate.name);
    UnmetExactly(s.candidate.partial, lic);
    hide TransportConfigured, Config.Enabled, Config.ExplicitlyEnabled, Unmet, SwitchedOn, OptedIn, Lacks;
  }

  /** The unmet requirements are the ones the licence lacks, in order. */
  lemma {:induction false} UnmetExactly(partial: seq<PartialRequirement>, lic: License)
    ensures forall p :: p in Unmet(partial, lic) <==> p in partial && Lacks(lic, p)
    ensures Unmet(partial, lic) == [] <==> forall p :: p in partial ==> !Lacks(lic, p)
  {
    if partial != [] {
      UnmetExactly(partial[1..], lic);
      LacksExactly(lic, partial[0]);
      assert partial == [partial[0]] + partial[1..];
      if Unmet(partial, lic) != [] { assert Unmet(partial, lic)[0] in Unmet(partial, lic); }
    }
  }

  lemma LacksExactly(lic: License, p: PartialRequirement)
    ensures Satisfied(p.capability, lic) <==> !Lacks(lic, p)
  {
    assert "entra_p1" in {"entra_p1", "entra_p2"} && "entra_p2" in {"entra_p1", "entra_p2"};
  }

  /** A limited row names each unmet requirement, its limitation beside its capability. */
  lemma LimitedNames(cfg: Config, lic: License, s: Selection, p: PartialRequirement)
    requires Resolve(cfg, lic, s).reason == PartialLicense
    ensures var row := Resolve(cfg, lic, s);
      && |row.limitations| == |row.missing|
      && (p in s.candidate.partial && Lacks(lic, p) ==>
            exists k :: 0 <= k < |row.missing| && row.limitations[k] == p.limitation && row.missing[k] == p.capability)
      && forall k :: 0 <= k < |row.missing| ==>
           exists q :: q in s.candidate.partial && Lacks(lic, q)
                       && row.limitations[k] == q.limitation && row.missing[k] == q.capability
  {
    var row, unmet := Resolve(cfg, lic, s), Unmet(s.candidate.partial, lic);
    UnmetExactly(s.candidate.partial, lic);
    hide TransportConfigured, Config.Enabled, Config.ExplicitlyEnabled, Unmet, Lacks;
    if p in unmet {
      var k :| 0 <= k < |unmet| && unmet[k] == p;
      assert row.limitations[k] == p.limitation && row.missing[k] == p.capability;
    }
    forall k | 0 <= k < |row.missing|
      ensures exists q :: q in s.candidate.partial && Lacks(lic, q)
                          && row.limitations[k] == q.limitation && row.missing[k] == q.capability
    {
      assert unmet[k] in unmet;
    }
  }

  // -------------------------------------------------------------- startup failures

  /** Unset fields match anything, as the empty string does in the source. */
  datatype Failure = Failure(
    family: Option<Family>, transport: Option<Transport>, collector: Option<string>, reason: Reason)

  predicate Matches(f: Failure, c: Candidate) {
    && (f.collector.Some? ==> f.collector.value == c.name)
    && (f.family.Some? ==> f.family.value == c.family)
    && (f.transport.Some? ==> f.transport.value == c.transport)
  }

  /** The first matching failure takes an active row down; nothing else changes a row. */
  function Fail(row: Row, c: Candidate, failures: seq<Failure>): Row
  {
    if failures == [] || !Active(row) then row
    else if Matches(failures[0], c) then
      row.(state := StartupFailed, reason := failures[0].reason, limitations := [])
    else Fail(row, c, failures[1..])
  }

  lemma {:induction false} FailCorrect(row: Row, c: Candidate, failures: seq<Failure>)
    ensures Active(Fail(row, c, failures)) <==> Active(row) && forall f :: f in failures ==> !Matches(f, c)
    ensures Active(Fail(row, c, failures)) || !Active(row) ==> Fail(row, c, failures) == row
    ensures Fail(row, c, failures).collector == row.collector && Fail(row, c, failures).transport == row.transport
    ensures row.state != Covered ==> Fail(row, c, failures).state != Covered
  {
    if failures != [] && Active(row) && !Matches(failures[0], c) {
      FailCorrect(row, c, failures[1..]);
      assert failures == [failures[0]] + failures[1..];
    }
  }

  function RowFor(cfg: Config, lic: License, s: Selection, failures: seq<Failure>): Row {
    Fail(Resolve(cfg, lic, s), s.candidate, failures)
  }

  function ResolveAll(cfg: Config, lic: License, ss: seq<Selection>, failures: seq<Failure>): (rows: seq<Row>)
    ensures |rows| == |ss|
  {
    if ss == [] then []
    else ResolveAll(cfg, lic, ss[..|ss| - 1], failures) + [RowFor(cfg, lic, ss[|ss| - 1], failures)]
  }

  lemma {:induction false} ResolveAllAt(cfg: Config, lic: License, ss: seq<Selection>, failures: seq<Failure>, i: nat)
    requires i < |ss|
    ensures ResolveAll(cfg, lic, ss, failures)[i] == RowFor(cfg, lic, ss[i], failures)
  {
    if i < |ss| - 1 { ResolveAllAt(cfg, lic, ss[..|ss| - 1], failures, i); }
  }

  // -------------------------------------------------------------- coverage

  /** The rows and the selections they were resolved from line up, one row a name. */
  predicate Aligned(rows: seq<Row>, ss: seq<Selection>) {
    && |rows| == |ss|
    && Ascending(ss)
    && (forall i :: 0 <= i < |ss| ==> rows[i].collector == ss[i].candidate.name)
  }

  /** Row j is active and its collector declares that it ships `name`'s records. */
  predicate Declares(rows: seq<Row>, ss: seq<Selection>, j: int, name: string)
    requires |rows| == |ss|
  {
    0 <= j < |ss| && Active(rows[j]) && name in ss[j].candidate.conflictsWith
  }

  /** The last active declarer below `n`, in census order; -1 when there is none. */
  function LastDeclarer(rows: seq<Row>, ss: seq<Selection>, name: string, n: nat): (j: int)
    requires |rows| == |ss| && n <= |ss|
    ensures -1 <= j < n
    ensures j >= 0 ==> Declares(rows, ss, j, name)
    ensures forall k :: j < k < n ==> !Declares(rows, ss, k, name)
  {
    if n == 0 then -1
    else if Declares(rows, ss, n - 1, name) then n - 1
    else LastDeclarer(rows, ss, name, n - 1)
  }

  /** A row after coverage has looked at the first n candidates. */
  function CoverRow(rows: seq<Row>, ss: seq<Selection>, i: nat, n: nat): Row
    requires |rows| == |ss| && i < |rows| && n <= |ss|
  {
    var j := LastDeclarer(rows, ss, rows[i].collector, n);
    if Active(rows[i]) || j < 0 then rows[i]
    else Row(rows[i].collector, ss[j].candidate.transport, Covered, CoveredByAlternative, [], [])
  }

  function Cover(rows: seq<Row>, ss: seq<Selection>): (covered: seq<Row>)
    requires |rows| == |ss|
    ensures |covered| == |rows|
  {
    seq(|rows|, i requires 0 <= i < |rows| => CoverRow(rows, ss, i, |ss|))
  }

  predicate PeersKnown(ss: seq<Selection>) {
    forall i, p :: 0 <= i < |ss| && p in ss[i].candidate.conflictsWith ==>
      exists k :: 0 <= k < |ss| && ss[k].candidate.name == p
  }

  /** The whole census as a value. */
  function Inventory(cfg: Config, lic: License, cs: seq<Candidate>, failures: seq<Failure>): (rows: seq<Row>)
    requires Ordered(cs)
  {
    var ss := Selections(cfg, cs);
    Cover(ResolveAll(cfg, lic, ss, failures), ss)
  }

  lemma {:induction false} AscendingIsUnique(ss: seq<Selection>, i: nat, j: nat)
    requires Ascending(ss) && i < j < |ss|
    ensures Leq(ss[i].candidate.name, ss[j].candidate.name) && ss[i].candidate.name != ss[j].candidate.name
  {
    if i == 0 { assert ss[j] in ss[1..]; } else { AscendingIsUnique(ss[1..], i - 1, j - 1); }
  }

  /** The census has one row a name, in ascending order of name: the closing sort
      by collector name finds the rows already sorted, and copying one census over
      another puts every row over the row of the same collector. */
  lemma CensusNames(cfg: Config, lic: License, cs: seq<Candidate>, failures: seq<Failure>)
    requires Ordered(cs)
    ensures |Inventory(cfg, lic, cs, failures)| == |Selections(cfg, cs)|
    ensures forall i :: 0 <= i < |Selections(cfg, cs)| ==>
      Inventory(cfg, lic, cs, failures)[i].collector == Selections(cfg, cs)[i].candidate.name
    ensures forall i, j :: 0 <= i < j < |Inventory(cfg, lic, cs, failures)| ==>
      var a, b := Inventory(cfg, lic, cs, failures)[i].collector, Inventory(cfg, lic, cs, failures)[j].collector;
      Leq(a, b) && a != b
  {
    var ss := Selections(cfg, cs);
    forall i | 0 <= i < |ss|
      ensures ResolveAll(cfg, lic, ss, failures)[i].collector == ss[i].candidate.name
    {
      ResolveAllAt(cfg, lic, ss, failures, i);
      FailCorrect(Resolve(cfg, lic, ss[i]), ss[i].candidate, failures);
    }
    SelectionsAscend(cfg, cs);
    forall i, j | 0 <= i < j < |ss| {
      AscendingIsUnique(ss, i, j);
    }
  }

  /** The startup-failure pass. A row is active afterwards exactly when it was active
      before and no failure matches it (so no row is ever revived), and it is covered
      exactly when it is inactive and some row that is STILL active declares it: the
      cover a failed collector gave is withdrawn. */
  lemma StartupFailurePass(cfg: Config, lic: License, cs: seq<Candidate>, failures: seq<Failure>, i: nat)
    requires Ordered(cs) && i < |Selections(cfg, cs)|
    ensures var ss, before, after :=
        Selections(cfg, cs), Inventory(cfg, lic, cs, []), Inventory(cfg, lic, cs, failures);
      && |before| == |after| == |ss|
      && before[i].collector == after[i].collector == ss[i].candidate.name
      && (Active(after[i]) <==> Active(before[i]) && forall f :: f in failures ==> !Matches(f, ss[i].candidate))
      && (Active(after[i]) ==> after[i] == before[i] && after[i].transport == ss[i].candidate.transport)
      && (Active(before[i]) <==> Active(Resolve(cfg, lic, ss[i])))
      && (after[i].state == Covered <==>
            !Active(after[i]) && exists j :: 0 <= j < |ss| && Declares(after, ss, j, after[i].collector))
  {
    var ss := Selections(cfg, cs);
    hide Resolve, ResolveAll, Ordered, Selections, Matches, Cover, Declares;
    ResolvedRow(cfg, lic, ss, [], i);
    ResolvedRow(cfg, lic, ss, failures, i);
    CoverCorrect(ResolveAll(cfg, lic, ss, []), ss, i);
    CoverCorrect(ResolveAll(cfg, lic, ss, failures), ss, i);
  }

  /** Coverage promotes an inactive row exactly when an active row declares it, and touches
      nothing else. */
  lemma CoverCorrect(rows: seq<Row>, ss: seq<Selection>, i: nat)
    requires |rows| == |ss| && i < |ss| && rows[i].state != Covered
    ensures var after := Cover(rows, ss);
      && after[i].collector == rows[i].collector
      && (Active(after[i]) <==> Active(rows[i])) && (Active(after[i]) ==> after[i] == rows[i])
      && (after[i].state == Covered <==>
            !Active(after[i]) && exists j :: 0 <= j < |ss| && Declares(after, ss, j, after[i].collector))
  {
    hide LastDeclarer, Active;
    var after := Cover(rows, ss);
    forall k | 0 <= k < |ss| ensures Active(after[k]) == Active(rows[k]) { CoverRowActive(rows, ss, k); }
    CoverRowActive(rows, ss, i);
    assert forall j :: 0 <= j < |ss| ==>
      (Declares(after, ss, j, rows[i].collector) <==> Declares(rows, ss, j, rows[i].collector));
  }

  /** A covered row names the transport of the last active row that declares it, and nothing of
      what it was. */
  lemma CoveredBy(rows: seq<Row>, ss: seq<Selection>, i: nat) returns (j: nat)
    requires |rows| == |ss| && i < |ss| && rows[i].state != Covered && Cover(rows, ss)[i].state == Covered
    ensures j < |ss| && Active(rows[j]) && rows[i].collector in ss[j].candidate.conflictsWith
    ensures forall k :: j < k < |ss| && Active(rows[k]) ==> rows[i].collector !in ss[k].candidate.conflictsWith
    ensures Cover(rows, ss)[i] ==
      Row(rows[i].collector, ss[j].candidate.transport, Covered, CoveredByAlternative, [], [])
  {
    j := LastDeclarer(rows, ss, rows[i].collector, |ss|);
    forall k | j < k < |ss| && Active(rows[k]) ensures rows[i].collector !in ss[k].candidate.conflictsWith {
      assert !Declares(rows, ss, k, rows[i].collector);
    }
  }

  lemma CoverRowActive(rows: seq<Row>, ss: seq<Selection>, k: nat)
    requires |rows| == |ss| && k < |ss|
    ensures Active(CoverRow(rows, ss, k, |ss|)) == Active(rows[k])
  {}

  /** What the failures make of one resolved row. */
  predicate ResolvedAs(r: Row, r0: Row, c: Candidate, failures: seq<Failure>) {
    && (Active(r) <==> Active(r0) && forall f :: f in failures ==> !Matches(f, c))
    && (Active(r) ==> r == r0)
    && r.collector == r0.collector == c.name && r.transport == r0.transport == c.transport
    && r.state != Covered && r0.state != Covered
  }

  lemma ResolvedRow(cfg: Config, lic: License, ss: seq<Selection>, failures: seq<Failure>, k: nat)
    requires k < |ss|
    ensures ResolvedAs(ResolveAll(cfg, lic, ss, failures)[k], Resolve(cfg, lic, ss[k]), ss[k].candidate, failures)
  {
    hide Resolve, ResolveAll, Fail, Matches;
    ResolveAllAt(cfg, lic, ss, failures, k);
    FailCorrect(Resolve(cfg, lic, ss[k]), ss[k].candidate, failures);
  }

  /** The (state, reason) pairs the availability package admits, among those start-up uses. */
  predicate AllowedPair(row: Row) {
    match row.state
    case Disabled =>
      row.reason in {TransportNotConfigured, ExperimentalNotEnabled, HighVolumeNotEnabled, DisabledByConfig}
    case Blocked => row.reason == LicenseUnavailable
    case Covered => row.reason == CoveredByAlternative
    case Starting => row.reason in {NoCompletedRun, TransportFallback}
    case Limited => row.reason == PartialLicense
    case StartupFailed =>
      row.reason in {LicenseDetectionFailed, TransportInitializationFailed, InvalidTransportConfiguration}
  }

  /** Every row of every census start-up can produce carries an admitted pair, and a row
      that runs limited names at least one limitation while no other row names any. */
  lemma CensusRowsAllowed(cfg: Config, lic: License, cs: seq<Candidate>, failures: seq<Failure>, i: nat)
    requires Ordered(cs) && i < |Inventory(cfg, lic, cs, failures)|
    requires forall f :: f in failures ==> f.reason in {TransportInitializationFailed, InvalidTransportConfiguration}
    ensures AllowedPair(Inventory(cfg, lic, cs, failures)[i])
    ensures Inventory(cfg, lic, cs, failures)[i].state == Limited <==>
      Inventory(cfg, lic, cs, failures)[i].limitations != []
  {
    var ss := Selections(cfg, cs);
    hide Resolve, ResolveAll, Fail, AllowedPair, Ordered, Selections;
    ResolveAllAt(cfg, lic, ss, failures, i);
    ResolveAllowed(cfg, lic, ss[i]);
    FailAllowed(Resolve(cfg, lic, ss[i]), ss[i].candidate, failures);
    CoverAllowed(ResolveAll(cfg, lic, ss, failures), ss, i);
  }

  predicate RowAllowed(row: Row) {
    AllowedPair(row) && (row.state == Limited <==> row.limitations != [])
  }

  lemma ResolveAllowed(cfg: Config, lic: License, s: Selection)
    ensures RowAllowed(Resolve(cfg, lic, s))
  {
    hide Unmet, TransportConfigured;
  }

  lemma FailAllowed(row: Row, c: Candidate, failures: seq<Failure>)
    requires RowAllowed(row)
    requires forall f :: f in failures ==> f.reason in {TransportInitializationFailed, InvalidTransportConfiguration}
    ensures RowAllowed(Fail(row, c, failures))
  {
    hide Fail;
    FailReason(row, c, failures);
  }

  lemma CoverAllowed(rows: seq<Row>, ss: seq<Selection>, i: nat)
    requires |rows| == |ss| && i < |ss| && RowAllowed(rows[i])
    ensures RowAllowed(Cover(rows, ss)[i])
  {
    hide Active, LastDeclarer;
  }

  /** A row taken down keeps its collector and transport and has the reason of the first failure
      that matches it. */
  lemma {:induction false} FirstFailureSays(row: Row, c: Candidate, failures: seq<Failure>, k: nat)
    requires Active(row) && k < |failures| && Matches(failures[k], c)
    requires forall j :: 0 <= j < k ==> !Matches(failures[j], c)
    ensures Fail(row, c, failures) ==
      Row(row.collector, row.transport, StartupFailed, failures[k].reason, [], row.missing)
  {
    if k > 0 {
      assert !Matches(failures[0], c);
      FirstFailureSays(row, c, failures[1..], k - 1);
    }
  }

  lemma {:induction false} FailReason(row: Row, c: Candidate, failures: seq<Failure>)
    ensures var r := Fail(row, c, failures);
      || r == row
      || (Active(row) && r == row.(state := r.state, reason := r.reason, limitations := [])
          && r.state == StartupFailed && exists f :: f in failures && Matches(f, c) && f.reason == r.reason)
  {
    if failures != [] && Active(row) && !Matches(failures[0], c) {
      FailReason(row, c, failures[1..]);
      assert failures == [failures[0]] + failures[1..];
    }
  }

  /** What a final row that is not covered says: what its collector resolved to, or the reason of
      a failure that matches it. */
  lemma FinalRow(cfg: Config, lic: License, cs: seq<Candidate>, failures: seq<Failure>, i: nat)
    requires Ordered(cs) && i < |Selections(cfg, cs)|
    ensures |Inventory(cfg, lic, cs, failures)| == |Selections(cfg, cs)|
    ensures var s := Selections(cfg, cs)[i];
      var row, row0 := Inventory(cfg, lic, cs, failures)[i], Resolve(cfg, lic, s);
      || row.state == Covered
      || (row == row0 && (Active(row0) ==> forall f :: f in failures ==> !Matches(f, s.candidate)))
      || (Active(row0) && row.state == StartupFailed && row.collector == row0.collector
          && exists f :: f in failures && Matches(f, s.candidate) && f.reason == row.reason)
  {
    hide Resolve, Selections, Ordered, ResolveAll, Matches, LastDeclarer, Active;
    var ss := Selections(cfg, cs);
    ResolveAllAt(cfg, lic, ss, failures, i);
    FailReason(Resolve(cfg, lic, ss[i]), ss[i].candidate, failures);
    FailCorrect(Resolve(cfg, lic, ss[i]), ss[i].candidate, failures);
  }

  /** A row reports a transport fallback exactly when its collector starts on the Graph side
      of a switch although `source: blob` asked for the other. */
  lemma FallbackReported(cfg: Config, lic: License, cs: seq<Candidate>, s: Selection)
    requires Ordered(cs) && s in Selections(cfg, cs)
    ensures s.fallback <==> HasRival(cs, s.candidate) && cfg.SourceIsBlob(s.candidate.name) && !cfg.BlobConfigured()
    ensures s.fallback ==> s.candidate.transport == Graph
    ensures Resolve(cfg, lic, s).reason == TransportFallback ==> Active(Resolve(cfg, lic, s)) && s.fallback
    decreases |cs|
  {
    var s0, rest, e := SelectionsStep(cfg, cs);
    hide Resolve, Selections, Ordered;
    ResolveFallback(cfg, lic, s);
    if s == s0 {
      SameRival(cs, cs[..e], rest, s.candidate);
      PairFallback(cfg, cs[..e]);
    } else {
      FallbackReported(cfg, lic, rest, s);
      SelectionsAreCandidates(cfg, rest);
      SameRival(cs, rest, cs[..e], s.candidate);
    }
  }

  lemma ResolveFallback(cfg: Config, lic: License, s: Selection)
    ensures Resolve(cfg, lic, s).reason == TransportFallback ==> s.fallback && Active(Resolve(cfg, lic, s))
  {}

  /** A rival has the same name, so it is in the part of the census that name is in. */
  lemma SameRival(cs: seq<Candidate>, part: seq<Candidate>, other: seq<Candidate>, c: Candidate)
    requires forall x :: x in cs <==> x in part || x in other
    requires c in part && forall x :: x in other ==> x.name != c.name
    ensures HasRival(cs, c) <==> HasRival(part, c)
  {
    if HasRival(cs, c) {
      var rival :| rival in cs && SwitchPair(c, rival);
      assert rival in part;
    }
  }

  lemma PairFallback(cfg: Config, group: seq<Candidate>)
    requires GroupOk(group) && (|group| == 1 ==> !SwitchPair(group[0], group[0]))
    ensures var s := Select(cfg, group);
      && (s.fallback <==> HasRival(group, s.candidate) && cfg.SourceIsBlob(s.candidate.name) && !cfg.BlobConfigured())
      && (s.fallback ==> s.candidate.transport == Graph)
  {
    var c := Select(cfg, group).candidate;
    if |group| == 2 { assert SwitchPair(c, if c == group[0] then group[1] else group[0]); }
  }

  // -------------------------------------------------------------- a tenant that did not start

  /** Whatever is not disabled has failed. */
  function FailWhole(row: Row, reason: Reason): Row {
    if row.state == Disabled then row else row.(state := StartupFailed, reason := reason, limitations := [])
  }

  function FailAll(cfg: Config, lic: License, ss: seq<Selection>, reason: Reason): (rows: seq<Row>)
    ensures |rows| == |ss|
  {
    if ss == [] then []
    else FailAll(cfg, lic, ss[..|ss| - 1], reason) + [FailWhole(Resolve(cfg, lic, ss[|ss| - 1]), reason)]
  }

  /** The census of a tenant whose credential or Graph client could not be built. */
  function FailedInventory(cfg: Config, lic: License, cs: seq<Candidate>, reason: Reason): seq<Row>
    requires Ordered(cs)
  {
    Cover(FailAll(cfg, lic, Selections(cfg, cs), reason), Selections(cfg, cs))
  }

  lemma {:induction false} FailAllAt(cfg: Config, lic: License, ss: seq<Selection>, reason: Reason, i: nat)
    requires i < |ss|
    ensures FailAll(cfg, lic, ss, reason)[i] == FailWhole(Resolve(cfg, lic, ss[i]), reason)
  {
    if i < |ss| - 1 { FailAllAt(cfg, lic, ss[..|ss| - 1], reason, i); }
  }

  /** Its rows are those of the census, in order; none is active and none covered, a disabled
      row says what it said before, and every other carries the one reason. */
  lemma FailedInventoryRows(cfg: Config, lic: License, cs: seq<Candidate>, reason: Reason, i: nat)
    requires Ordered(cs) && i < |Selections(cfg, cs)|
    ensures var before, rows := Inventory(cfg, lic, cs, []), FailedInventory(cfg, lic, cs, reason);
      var resolved := Resolve(cfg, lic, Selections(cfg, cs)[i]);
      && |before| == |rows| == |Selections(cfg, cs)|
      && before[i].collector == rows[i].collector
      && !Active(rows[i]) && rows[i].state != Covered
      && (resolved.state == Disabled ==> rows[i] == resolved)
      && (resolved.state != Disabled ==> rows[i].state == StartupFailed && rows[i].reason == reason)
  {
    hide Resolve, Selections, Ordered, ResolveAll, FailAll, Matches, Declares, LastDeclarer;
    var ss := Selections(cfg, cs);
    ResolvedRow(cfg, lic, ss, [], i);
    CoverCorrect(ResolveAll(cfg, lic, ss, []), ss, i);
    forall k | 0 <= k < |ss| ensures !Active(FailAll(cfg, lic, ss, reason)[k]) { FailAllAt(cfg, lic, ss, reason, k); }
    FailAllAt(cfg, lic, ss, reason, i);
    NothingCovers(FailAll(cfg, lic, ss, reason), ss, i);
  }

  /** With no row active none is promoted. */
  lemma NothingCovers(rows: seq<Row>, ss: seq<Selection>, i: nat)
    requires |rows| == |ss| && i < |ss| && forall k :: 0 <= k < |ss| ==> !Active(rows[k])
    ensures Cover(rows, ss)[i] == rows[i]
  {
    var j := LastDeclarer(rows, ss, rows[i].collector, |ss|);
  }

  // -------------------------------------------------------------- the loops

  /** The inner scan: the end of the run of equal names that begins at `start`. */
  method EndOfGroup(candidates: seq<Candidate>, start: nat) returns (end: nat)
    requires start < |candidates|
    ensures start < end <= |candidates| && end - start == GroupEnd(candidates[start..])
  {
    end := start + 1;
    while end < |candidates| && candidates[end].name == candidates[start].name
      invariant start < end <= |candidates|
      invariant forall k :: start <= k < end ==> candidates[k].name == candidates[start].name
    {
      end := end + 1;
    }
    assert forall k :: 0 <= k < |candidates| - start ==> candidates[start..][k] == candidates[start + k];
  }

  method ResolveOne(cfg: Config, lic: License, s: Selection, failures: seq<Failure>) returns (row: Row)
    ensures row == RowFor(cfg, lic, s, failures)
  {
    row := ApplyFailures(Resolve(cfg, lic, s), s.candidate, failures);
  }

  lemma NextSelection(cfg: Config, cs: seq<Candidate>, start: nat, end: nat)
    requires start < |cs| && Ordered(cs[start..]) && end - start == GroupEnd(cs[start..])
    ensures Ordered(cs[end..]) && GroupOk(cs[start..end])
    ensures Selections(cfg, cs[start..]) == [Select(cfg, cs[start..end])] + Selections(cfg, cs[end..])
  {
    hide Selections, Select, Ordered, GroupEnd, GroupOk;
    var s0, rest, e := SelectionsStep(cfg, cs[start..]);
    assert cs[start..][..e] == cs[start..end];
    assert rest == cs[end..];
  }

  /** Walk the sorted candidates name by name and resolve one row for each. */
  method ResolveRows(cfg: Config, lic: License, candidates: seq<Candidate>, failures: seq<Failure>)
    returns (rows: seq<Row>, selected: seq<Selection>)
    requires Ordered(candidates)
    ensures selected == Selections(cfg, candidates)
    ensures rows == ResolveAll(cfg, lic, selected, failures)
  {
    rows, selected := [], [];
    var start := 0;
    while start < |candidates|
      invariant 0 <= start <= |candidates|
      invariant Ordered(candidates[start..])
      invariant selected + Selections(cfg, candidates[start..]) == Selections(cfg, candidates)
      invariant rows == ResolveAll(cfg, lic, selected, failures)
    {
      var end := EndOfGroup(candidates, start);
      NextSelection(cfg, candidates, start, end);
      var s := Select(cfg, candidates[start..end]);
      var row := ResolveOne(cfg, lic, s, failures);
      ConcatAssociative(selected, [s], Selections(cfg, candidates[end..]));
      assert (selected + [s])[..|selected|] == selected;
      rows, selected := rows + [row], selected + [s];
      start := end;
    }
    assert candidates[start..] == [];
  }

  /** The inner loop of the startup-failure pass: the first match takes the row down. */
  method ApplyFailures(row: Row, c: Candidate, failures: seq<Failure>) returns (r: Row)
    ensures r == Fail(row, c, failures)
  {
    r := row;
    var k := 0;
    while k < |failures|
      invariant 0 <= k <= |failures|
      invariant r == row
      invariant Fail(row, c, failures) == Fail(r, c, failures[k..])
    {
      if Matches(failures[k], c) && Active(r) {
        r := r.(state := StartupFailed, reason := failures[k].reason, limitations := []);
        return;
      }
      k := k + 1;
    }
  }

  lemma CoverRowStep(rows: seq<Row>, ss: seq<Selection>, k: nat, i: nat)
    requires |rows| == |ss| && k < |rows| && i < |ss|
    ensures CoverRow(rows, ss, k, i + 1) ==
      if !Active(rows[k]) && Declares(rows, ss, i, rows[k].collector)
      then Row(rows[k].collector, ss[i].candidate.transport, Covered, CoveredByAlternative, [], [])
      else CoverRow(rows, ss, k, i)
  {}

  lemma CoverStart(rows: seq<Row>, ss: seq<Selection>)
    requires |rows| == |ss|
    ensures forall k :: 0 <= k < |rows| ==> CoverRow(rows, ss, k, 0) == rows[k]
  {}

  /** The index and activity tables, taken before any row is promoted. */
  method IndexRows(statics: array<Row>, selected: seq<Selection>)
    returns (index: map<string, nat>, active: seq<bool>)
    requires Aligned(statics[..], selected)
    ensures |active| == statics.Length && forall k :: 0 <= k < |active| ==> active[k] == Active(statics[k])
    ensures forall k :: 0 <= k < statics.Length ==>
      statics[k].collector in index && index[statics[k].collector] == k
  {
    index, active := map[], [];
    for i := 0 to statics.Length
      invariant |active| == i && forall k :: 0 <= k < i ==> active[k] == Active(statics[k])
      invariant forall k :: 0 <= k < i ==> statics[k].collector in index && index[statics[k].collector] == k
    {
      forall k | 0 <= k < i ensures statics[k].collector != statics[i].collector {
        AscendingIsUnique(selected, k, i);
        assert statics[..][k] == statics[k] && statics[..][i] == statics[i];
      }
      index := index[statics[i].collector := i];
      active := active + [Active(statics[i])];
    }
  }

  /** The inner loop: one active candidate promotes the inactive peers it declares. */
  method CoverPeers(statics: array<Row>, ghost rows: seq<Row>, selected: seq<Selection>, i: nat,
                    index: map<string, nat>, active: seq<bool>)
    requires |rows| == |selected| == statics.Length == |active| && i < |selected|
    requires PeersKnown(selected) && Active(rows[i])
    requires forall k :: 0 <= k < |rows| ==> active[k] == Active(rows[k])
    requires forall k :: 0 <= k < |rows| ==> rows[k].collector == selected[k].candidate.name
    requires forall k :: 0 <= k < |rows| ==> rows[k].collector in index && index[rows[k].collector] == k
    requires forall k :: 0 <= k < |rows| ==> statics[k] == CoverRow(rows, selected, k, i)
    modifies statics
    ensures forall k :: 0 <= k < |rows| ==> statics[k] == CoverRow(rows, selected, k, i + 1)
  {
    var peers, transport := selected[i].candidate.conflictsWith, selected[i].candidate.transport;
    for p := 0 to |peers|
      invariant forall k :: 0 <= k < |rows| ==>
        statics[k] == if !Active(rows[k]) && rows[k].collector in peers[..p]
                      then Row(rows[k].collector, transport, Covered, CoveredByAlternative, [], [])
                      else CoverRow(rows, selected, k, i)
    {
      assert peers[p] in peers && peers[..p + 1] == peers[..p] + [peers[p]];
      ghost var q :| 0 <= q < |selected| && selected[q].candidate.name == peers[p];
      assert rows[q].collector == peers[p];
      var at := index[peers[p]];
      if !active[at] {
        statics[at] := Row(statics[at].collector, transport, Covered, CoveredByAlternative, [], []);
      }
    }
    assert peers[..|peers|] == peers;
    forall k | 0 <= k < |rows| { CoverRowStep(rows, selected, k, i); }
  }

  /** applyAvailabilityCoverage: promote, in place, every inactive row that an active
      candidate declares; the last declarer in census order names the transport. */
  method ApplyCoverage(statics: array<Row>, selected: seq<Selection>)
    requires Aligned(statics[..], selected) && PeersKnown(selected)
    modifies statics
    ensures statics[..] == Cover(old(statics[..]), selected)
  {
    ghost var rows := statics[..];
    var index, active := IndexRows(statics, selected);
    hide PeersKnown, Active, Declares;
    CoverStart(rows, selected);
    assert forall k :: 0 <= k < |rows| ==> rows[k] == statics[k];
    for i := 0 to |selected|
      invariant forall k :: 0 <= k < |rows| ==> statics[k] == CoverRow(rows, selected, k, i)
    {
      if active[i] {
        CoverPeers(statics, rows, selected, i, index, active);
      } else {
        forall k | 0 <= k < |rows| { CoverRowStep(rows, selected, k, i); }
      }
    }
  }

  /** The loop of startupFailedInventory. */
  method FailRows(cfg: Config, lic: License, candidates: seq<Candidate>, reason: Reason)
    returns (rows: seq<Row>, selected: seq<Selection>)
    requires Ordered(candidates)
    ensures selected == Selections(cfg, candidates)
    ensures rows == FailAll(cfg, lic, selected, reason)
  {
    rows, selected := [], [];
    var start := 0;
    while start < |candidates|
      invariant 0 <= start <= |candidates|
      invariant Ordered(candidates[start..])
      invariant selected + Selections(cfg, candidates[start..]) == Selections(cfg, candidates)
      invariant rows == FailAll(cfg, lic, selected, reason)
    {
      var end := EndOfGroup(candidates, start);
      NextSelection(cfg, candidates, start, end);
      var s := Select(cfg, candidates[start..end]);
      var row := Resolve(cfg, lic, s);
      if row.state != Disabled {
        row := row.(state := StartupFailed, reason := reason, limitations := []);
      }
      ConcatAssociative(selected, [s], Selections(cfg, candidates[end..]));
      assert (selected + [s])[..|selected|] == selected;
      rows, selected := rows + [row], selected + [s];
      start := end;
    }
    assert candidates[start..] == [];
  }

  lemma FailedAligned(cfg: Config, lic: License, cs: seq<Candidate>, reason: Reason)
    requires Ordered(cs)
    ensures Aligned(FailAll(cfg, lic, Selections(cfg, cs), reason), Selections(cfg, cs))
  {
    SelectionsAscend(cfg, cs);
    var ss := Selections(cfg, cs);
    forall i | 0 <= i < |ss|
      ensures FailAll(cfg, lic, ss, reason)[i].collector == ss[i].candidate.name
    {
      FailAllAt(cfg, lic, ss, reason, i);
    }
  }

  /** startupFailedInventory. */
  method StartupFailedInventory(cfg: Config, lic: License, candidates: seq<Candidate>, reason: Reason)
    returns (inventory: array<Row>)
    requires Ordered(candidates) && PeersKnown(Selections(cfg, candidates))
    ensures fresh(inventory) && inventory[..] == FailedInventory(cfg, lic, candidates, reason)
  {
    var rows, selected := FailRows(cfg, lic, candidates, reason);
    FailedAligned(cfg, lic, candidates, reason);
    inventory := new Row[|rows|](i requires 0 <= i < |rows| => rows[i]);
    assert inventory[..] == rows;
    ApplyCoverage(inventory, selected);
  }

  lemma SelectionsAligned(cfg: Config, lic: License, cs: seq<Candidate>, failures: seq<Failure>)
    requires Ordered(cs)
    ensures Aligned(ResolveAll(cfg, lic, Selections(cfg, cs), failures), Selections(cfg, cs))
  {
    SelectionsAscend(cfg, cs);
    var ss := Selections(cfg, cs);
    forall i | 0 <= i < |ss|
      ensures ResolveAll(cfg, lic, ss, failures)[i].collector == ss[i].candidate.name
    {
      ResolveAllAt(cfg, lic, ss, failures, i);
      FailCorrect(Resolve(cfg, lic, ss[i]), ss[i].candidate, failures);
    }
  }

  /** resolveAvailabilityInventory. */
  method ResolveInventory(cfg: Config, lic: License, candidates: seq<Candidate>) returns (inventory: array<Row>)
    requires Ordered(candidates) && PeersKnown(Selections(cfg, candidates))
    ensures fresh(inventory) && inventory[..] == Inventory(cfg, lic, candidates, [])
  {
    var rows, selected := ResolveRows(cfg, lic, candidates, []);
    SelectionsAligned(cfg, lic, candidates, []);
    inventory := new Row[|rows|](i requires 0 <= i < |rows| => rows[i]);
    assert inventory[..] == rows;
    ApplyCoverage(inventory, selected);
  }

  /** applyAvailabilityStartupFailures: recompute the census under the failures and
      copy it over the inventory; no failure, no change. */
  method ApplyStartupFailures(inventory: array<Row>, cfg: Config, lic: License, candidates: seq<Candidate>,
                              failures: seq<Failure>)
    requires Ordered(candidates) && PeersKnown(Selections(cfg, candidates))
    requires inventory[..] == Inventory(cfg, lic, candidates, [])
    modifies inventory
    ensures inventory[..] == Inventory(cfg, lic, candidates, failures)
  {
    if |failures| == 0 { return; }
    var rows, selected := ResolveRows(cfg, lic, candidates, failures);
    SelectionsAligned(cfg, lic, candidates, failures);
    var statics := new Row[|rows|](i requires 0 <= i < |rows| => rows[i]);
    assert statics[..] == rows;
    ApplyCoverage(statics, selected);
    forall i | 0 <= i < inventory.Length {
      inventory[i] := statics[i];
    }
  }
}
