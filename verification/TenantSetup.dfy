/**
 Runtime registration of one tenant's collectors: the seven registration loops,
 their startup failures and the second census pass (cmd/graph2otel/tenants.go).
 */
module TenantSetup {
  import opened Census
  import opened Options
  import opened Sequences

  /** What a factory hands back at runtime, when it does not decline. */
  datatype Runtime = Runtime(collector: Candidate, perMailbox: bool)

  /** `expected` is the collector the factory builds from inert dependencies. */
  datatype Factory = Factory(expected: Candidate, built: Option<Runtime>)

  predicate Constructs(f: Factory) {
    f.built.Some? && f.built.value.collector.name == f.expected.name
  }

  /** The factories of one registration family, in registration order: each loop's slice. */
  function Lane(all: seq<Factory>, family: Family): seq<Factory> {
    if all == [] then []
    else
      var f := all[|all| - 1];
      Lane(all[..|all| - 1], family) + if f.expected.family == family then [f] else []
  }

  lemma {:induction false} LaneElements(all: seq<Factory>, family: Family)
    ensures forall f :: f in Lane(all, family) <==> f in all && f.expected.family == family
  {
    if all != [] {
      LaneElements(all[..|all| - 1], family);
      assert all == all[..|all| - 1] + [all[|all| - 1]];
    }
  }

  /** Whether each transport's own construction succeeds. */
  datatype Builds = Builds(
    blobSource: bool, o365ContentTypesValid: bool, o365Client: bool,
    mdcaToken: bool, mdcaClient: bool, exoClient: bool, huntClient: bool)

  datatype Env = Env(cfg: Config, lic: License, all: seq<Factory>, builds: Builds)

  function Inert(fs: seq<Factory>): (cs: seq<Candidate>)
    ensures |cs| == |fs|
    ensures forall i :: 0 <= i < |fs| ==> cs[i] == fs[i].expected
  {
    seq(|fs|, i requires 0 <= i < |fs| => fs[i].expected)
  }

  predicate Polled(c: Candidate) {
    c.family == Snapshot || c.family == Window
  }

  /** A collector's gate declarations do not depend on the dependencies it was built with. */
  predicate MetadataFixed(all: seq<Factory>) {
    forall f :: f in all && Constructs(f) ==> f.built.value.collector == f.expected
  }

  function PolledNames(all: seq<Factory>): set<string> {
    set f | f in all && Polled(f.expected) :: f.expected.name
  }

  function BlobNames(all: seq<Factory>): set<string> {
    set f | f in all && f.expected.family == Blob :: f.expected.name
  }

  /** `source: blob` is accepted only for a name on both a polled path and the blob path. */
  predicate SourcesSwitchable(cfg: Config, all: seq<Factory>) {
    forall f :: f in all && cfg.SourceIsBlob(f.expected.name) ==>
      f.expected.name in PolledNames(all) * BlobNames(all)
  }

  predicate Offers(all: seq<Factory>, name: string, families: set<Family>) {
    exists g :: g in all && g.expected.name == name && g.expected.family in families
  }

  /** `source: blob` is asked only of collectors that are offered on both sides: as a snapshot or a
      window, and over blobs. */
  lemma SwitchableExactly(cfg: Config, all: seq<Factory>)
    ensures SourcesSwitchable(cfg, all) <==> forall f :: f in all && BlobAsked(cfg, f.expected.name) ==>
      Offers(all, f.expected.name, {Snapshot, Window}) && Offers(all, f.expected.name, {Blob})
  {
    forall f | f in all
      ensures cfg.SourceIsBlob(f.expected.name) <==> BlobAsked(cfg, f.expected.name)
      ensures f.expected.name in PolledNames(all) <==> Offers(all, f.expected.name, {Snapshot, Window})
      ensures f.expected.name in BlobNames(all) <==> Offers(all, f.expected.name, {Blob})
    {
      ConfigReads(cfg, f.expected.name);
    }
  }

  predicate PeersRegistered(all: seq<Factory>) {
    forall f, peer :: f in all && peer in f.expected.conflictsWith ==>
      peer in set g | g in all :: g.expected.name
  }

  /** What the registry and the validated configuration guarantee to start-up. */
  predicate ValidEnv(env: Env) {
    && Distinct(Inert(env.all))
    && MetadataFixed(env.all)
    && SourcesSwitchable(env.cfg, env.all)
    && PeersRegistered(env.all)
  }

  function Candidates(env: Env): (cs: seq<Candidate>)
    ensures ValidEnv(env) ==> Ordered(cs)
  {
    assert ValidEnv(env) ==> Ordered(SortByName(Inert(env.all))) by {
      if ValidEnv(env) { SortCorrect(Inert(env.all)); }
    }
    SortByName(Inert(env.all))
  }

  lemma CandidatesFacts(env: Env)
    requires ValidEnv(env)
    ensures forall f :: f in env.all ==> f.expected in Candidates(env)
    ensures forall c :: c in Candidates(env) ==> exists f :: f in env.all && f.expected == c
  {
    var all := env.all;
    SortCorrect(Inert(all));
    forall f | f in all ensures f.expected in Inert(all) {
      var k :| 0 <= k < |all| && all[k] == f;
      assert Inert(all)[k] == f.expected;
    }
    forall c | c in Inert(all) ensures exists f :: f in all && f.expected == c {
      var k :| 0 <= k < |all| && Inert(all)[k] == c;
      assert all[k] in all;
    }
  }

  lemma {:induction false} DistinctAt(cs: seq<Candidate>, i: nat, j: nat)
    requires Distinct(cs) && i < j < |cs| && cs[i].name == cs[j].name
    ensures SwitchPair(cs[i], cs[j])
  {
    if i == 0 { assert cs[j] in cs[1..]; } else { DistinctAt(cs[1..], i - 1, j - 1); }
  }

  /** Two factories of one name are the two sides of a source switch. */
  lemma TwoFactories(env: Env, f: Factory, g: Factory)
    requires ValidEnv(env) && f in env.all && g in env.all
    requires f.expected.name == g.expected.name && f != g
    ensures SwitchPair(f.expected, g.expected)
  {
    var all := env.all;
    var i :| 0 <= i < |all| && all[i] == f;
    var j :| 0 <= j < |all| && all[j] == g;
    if i < j { DistinctAt(Inert(all), i, j); } else { DistinctAt(Inert(all), j, i); }
  }

  // -------------------------------------------------------------- what the census admits

  /** Every gate of the census but the choice between the two sides of a switch. */
  predicate Admitted(env: Env, c: Candidate) {
    && env.cfg.Enabled(c.name)
    && TransportConfigured(env.cfg, c)
    && (c.experimental || c.highVolume ==> env.cfg.ExplicitlyEnabled(c.name))
    && (c.capability != "" || c.partial != [] ==> env.lic.known)
    && (c.capability != "" ==> c.capability in env.lic.capabilities)
  }

  lemma AdmittedIsActive(env: Env, s: Selection)
    ensures Active(Resolve(env.cfg, env.lic, s)) <==> Admitted(env, s.candidate)
  {}

  /** The census gives c an active row. */
  predicate Live(env: Env, c: Candidate) {
    Chosen(env.cfg, Candidates(env), c) && Admitted(env, c)
  }

  /** The row a readiness check finds for a candidate is active. */
  predicate RowActive(rows: seq<Row>, c: Candidate) {
    exists i :: 0 <= i < |rows| && rows[i].collector == c.name && rows[i].transport == c.transport && Active(rows[i])
  }

  function FirstCensus(env: Env): seq<Row>
    requires ValidEnv(env)
  {
    Inventory(env.cfg, env.lic, Candidates(env), [])
  }

  lemma RowOf(env: Env, failures: seq<Failure>, c: Candidate) returns (i: nat)
    requires ValidEnv(env) && c in Candidates(env) && Chosen(env.cfg, Candidates(env), c)
    ensures i < |Selections(env.cfg, Candidates(env))| && Selections(env.cfg, Candidates(env))[i].candidate == c
    ensures i < |Inventory(env.cfg, env.lic, Candidates(env), failures)|
    ensures Inventory(env.cfg, env.lic, Candidates(env), failures)[i].collector == c.name
    ensures Active(Inventory(env.cfg, env.lic, Candidates(env), failures)[i]) <==>
      Admitted(env, c) && forall f :: f in failures ==> !Matches(f, c)
    ensures Active(Inventory(env.cfg, env.lic, Candidates(env), failures)[i]) ==>
      Inventory(env.cfg, env.lic, Candidates(env), failures)[i].transport == c.transport
  {
    SelectionsCorrect(env.cfg, Candidates(env), c);
    var ss := Selections(env.cfg, Candidates(env));
    var s :| s in ss && s.candidate == c;
    i :| 0 <= i < |ss| && ss[i] == s;
    StartupFailurePass(env.cfg, env.lic, Candidates(env), failures, i);
    AdmittedIsActive(env, s);
  }

  lemma SelectedIs(env: Env, i: nat, c: Candidate)
    requires ValidEnv(env) && c in Candidates(env)
    requires i < |Selections(env.cfg, Candidates(env))|
    requires var d := Selections(env.cfg, Candidates(env))[i].candidate; d.name == c.name && d.transport == c.transport
    ensures Selections(env.cfg, Candidates(env))[i].candidate == c
    ensures Chosen(env.cfg, Candidates(env), c)
  {
    CandidatesFacts(env);
    var d := Selections(env.cfg, Candidates(env))[i].candidate;
    SelectionsAreCandidates(env.cfg, Candidates(env));
    assert Selections(env.cfg, Candidates(env))[i] in Selections(env.cfg, Candidates(env));
    var f :| f in env.all && f.expected == c;
    var g :| g in env.all && g.expected == d;
    if f != g { TwoFactories(env, f, g); }
    SelectionsCorrect(env.cfg, Candidates(env), c);
  }

  /** The readiness check's reading of the census is exactly "live". */
  lemma RowActiveIsLive(env: Env, c: Candidate)
    requires ValidEnv(env) && c in Candidates(env)
    ensures RowActive(FirstCensus(env), c) <==> Live(env, c)
  {
    var rows := FirstCensus(env);
    if Live(env, c) {
      var i := RowOf(env, [], c);
      assert rows[i].collector == c.name;
    }
    if RowActive(rows, c) {
      var i :| 0 <= i < |rows| && rows[i].collector == c.name && rows[i].transport == c.transport && Active(rows[i]);
      CensusNames(env.cfg, env.lic, Candidates(env), []);
      StartupFailurePass(env.cfg, env.lic, Candidates(env), [], i);
      SelectedIs(env, i, c);
      AdmittedIsActive(env, Selections(env.cfg, Candidates(env))[i]);
    }
  }

  /** At most one candidate of a name is chosen: the two sides of a switch exclude each other. */
  lemma ChosenUnique(env: Env, f: Factory, g: Factory)
    requires ValidEnv(env) && f in env.all && g in env.all && f.expected.name == g.expected.name
    requires Chosen(env.cfg, Candidates(env), f.expected) && Chosen(env.cfg, Candidates(env), g.expected)
    ensures f == g
  {
    if f != g {
      CandidatesFacts(env);
      TwoFactories(env, f, g);
      assert SwitchPair(g.expected, f.expected);
    }
  }

  // -------------------------------------------------------------- the gates of the loops

  /** collectorGate. */
  predicate GateOpen(env: Env, c: Candidate) {
    && (c.capability == "" || c.capability in env.lic.capabilities)
    && env.cfg.Enabled(c.name)
    && (c.experimental ==> env.cfg.ExplicitlyEnabled(c.name))
    && (c.highVolume ==> env.cfg.ExplicitlyEnabled(c.name))
  }

  /** The first gate that is shut. */
  function GateRefusal(env: Env, c: Candidate): SkipReason
    requires !GateOpen(env, c)
  {
    if c.capability != "" && c.capability !in env.lic.capabilities then NeedsCapability(c.capability)
    else if !env.cfg.Enabled(c.name) then OffByConfig
    else if c.experimental && !env.cfg.ExplicitlyEnabled(c.name) then BetaNotOptedIn
    else HighVolumeNotOptedIn
  }

  /** The gate's reasons: the licence before the configuration, beta before volume. */
  lemma GateSays(env: Env, c: Candidate)
    ensures var licensed := c.capability == "" || c.capability in env.lic.capabilities;
      var optedIn := OptedIn(env.cfg, c.name);
      && (GateOpen(env, c) <==>
            licensed && SwitchedOn(env.cfg, c.name) && (c.experimental || c.highVolume ==> optedIn))
      && (!GateOpen(env, c) ==>
            && (GateRefusal(env, c) == NeedsCapability(c.capability) <==> !licensed)
            && (GateRefusal(env, c) == OffByConfig <==> licensed && !SwitchedOn(env.cfg, c.name))
            && (GateRefusal(env, c) == BetaNotOptedIn <==>
                  licensed && SwitchedOn(env.cfg, c.name) && c.experimental && !optedIn)
            && (GateRefusal(env, c) == HighVolumeNotOptedIn <==>
                  licensed && SwitchedOn(env.cfg, c.name) && (c.experimental ==> optedIn)))
  {
    ConfigReads(env.cfg, c.name);
  }

  predicate GraphPollingActive(sourceIsBlob: bool, blobConfigured: bool) {
    !sourceIsBlob || !blobConfigured
  }

  predicate BlobTwinSelected(name: string, polledNames: set<string>, sourceIsBlob: bool) {
    name !in polledNames || sourceIsBlob
  }

  /** A window collector the census made live is never the one `source: blob` stands down. */
  lemma LiveWindowPolls(env: Env, f: Factory)
    requires ValidEnv(env) && f in env.all && f.expected.family == Window && Live(env, f.expected)
    ensures GraphPollingActive(env.cfg.SourceIsBlob(f.expected.name), env.cfg.BlobConfigured())
  {
    if env.cfg.SourceIsBlob(f.expected.name) && env.cfg.BlobConfigured() {
      assert f.expected.name in BlobNames(env.all);
      var b :| b in env.all && b.expected.family == Blob && b.expected.name == f.expected.name;
      CandidatesFacts(env);
      TwoFactories(env, f, b);
      assert HasRival(Candidates(env), f.expected) by {
        assert b.expected in Candidates(env) && SwitchPair(f.expected, b.expected);
      }
    }
  }

  // -------------------------------------------------------------- outcome of the seven loops

  /** A lane whose transport is configured but could not be built. */
  function LaneDown(env: Env, family: Family): Option<Reason> {
    match family
    case Blob =>
      if env.cfg.BlobConfigured() && !env.builds.blobSource then Some(TransportInitializationFailed) else None
    case O365 =>
      if !env.builds.o365ContentTypesValid then Some(InvalidTransportConfiguration)
      else if !env.builds.o365Client then Some(TransportInitializationFailed) else None
    case MDCA =>
      if env.cfg.mdcaConfigured && !(env.builds.mdcaToken && env.builds.mdcaClient)
      then Some(TransportInitializationFailed) else None
    case EXO =>
      if env.cfg.exoEnabled && !env.builds.exoClient then Some(TransportInitializationFailed) else None
    case Hunt =>
      if env.cfg.huntingEnabled && !env.builds.huntClient then Some(TransportInitializationFailed) else None
    case _ => None
  }

  /** The Exchange Online loop skips this factory before it consults the census. */
  predicate PerMailboxSkip(env: Env, f: Factory) {
    && f.expected.family == EXO && env.cfg.exoEnabled && LaneDown(env, EXO).None?
    && f.built.Some? && f.built.value.perMailbox && !env.cfg.exoPerMailbox
  }

  predicate Reached(env: Env, f: Factory) {
    LaneDown(env, f.expected.family).None? && !PerMailboxSkip(env, f) && Live(env, f.expected)
  }

  predicate Registers(env: Env, f: Factory) {
    Reached(env, f) && Constructs(f)
  }

  predicate Declines(env: Env, f: Factory) {
    Reached(env, f) && !Constructs(f)
  }

  function DeclinedFailure(c: Candidate): Failure {
    Failure(Some(c.family), Some(c.transport), Some(c.name), TransportInitializationFailed)
  }

  function Registered(env: Env, fs: seq<Factory>): seq<Candidate> {
    if fs == [] then []
    else
      var f := fs[|fs| - 1];
      Registered(env, fs[..|fs| - 1]) + if Registers(env, f) then [f.expected] else []
  }

  function Declined(env: Env, fs: seq<Factory>): seq<Failure> {
    if fs == [] then []
    else
      var f := fs[|fs| - 1];
      Declined(env, fs[..|fs| - 1]) + if Declines(env, f) then [DeclinedFailure(f.expected)] else []
  }

  function LaneFailure(env: Env, family: Family): seq<Failure> {
    match LaneDown(env, family)
    case None => []
    case Some(reason) => [Failure(Some(family), None, None, reason)]
  }

  /** The order the seven registration loops run in. */
  const LOOPS: seq<Family> := [Snapshot, Window, Blob, O365, MDCA, EXO, Hunt]

  /** Everything the given loops register, in order. */
  function RegisteredBy(env: Env, loops: seq<Family>): seq<Candidate> {
    if loops == [] then []
    else
      var last := |loops| - 1;
      RegisteredBy(env, loops[..last]) + Registered(env, Lane(env.all, loops[last]))
  }

  /** Everything the given loops append to the failure list, in order. */
  function FailedBy(env: Env, loops: seq<Family>): seq<Failure> {
    if loops == [] then []
    else
      var last := |loops| - 1;
      FailedBy(env, loops[..last]) + (Declined(env, Lane(env.all, loops[last])) + LaneFailure(env, loops[last]))
  }

  function Registry(env: Env): seq<Candidate> { RegisteredBy(env, LOOPS) }

  function Failures(env: Env): seq<Failure> { FailedBy(env, LOOPS) }

  function FinalCensus(env: Env): seq<Row>
    requires ValidEnv(env)
  {
    Inventory(env.cfg, env.lic, Candidates(env), Failures(env))
  }

  lemma {:induction false} RegisteredElements(env: Env, fs: seq<Factory>)
    ensures forall x :: x in Registered(env, fs) <==> exists f :: f in fs && Registers(env, f) && f.expected == x
  {
    if fs != [] {
      var init, last := fs[..|fs| - 1], fs[|fs| - 1];
      RegisteredElements(env, init);
      assert fs == init + [last];
      forall x | x in Registered(env, fs) ensures exists f :: f in fs && Registers(env, f) && f.expected == x {
        if x in Registered(env, init) {
          var f :| f in init && Registers(env, f) && f.expected == x;
          assert f in fs;
        } else { assert last in fs; }
      }
    }
  }

  lemma {:induction false} DeclinedElements(env: Env, fs: seq<Factory>)
    ensures forall x :: x in Declined(env, fs) <==>
      exists f :: f in fs && Declines(env, f) && DeclinedFailure(f.expected) == x
  {
    if fs != [] {
      var init, last := fs[..|fs| - 1], fs[|fs| - 1];
      DeclinedElements(env, init);
      assert fs == init + [last];
      forall x | x in Declined(env, fs)
        ensures exists f :: f in fs && Declines(env, f) && DeclinedFailure(f.expected) == x
      {
        if x in Declined(env, init) {
          var f :| f in init && Declines(env, f) && DeclinedFailure(f.expected) == x;
          assert f in fs;
        } else { assert last in fs; }
      }
    }
  }

  predicate RegisteredIn(env: Env, loops: seq<Family>, x: Candidate) {
    exists f :: f in env.all && f.expected.family in loops && Registers(env, f) && f.expected == x
  }

  lemma OneLoopRegistered(env: Env, family: Family, x: Candidate)
    ensures x in Registered(env, Lane(env.all, family)) <==> RegisteredIn(env, [family], x)
  {
    LaneElements(env.all, family);
    RegisteredElements(env, Lane(env.all, family));
    hide Lane, Registered, Registers;
    if RegisteredIn(env, [family], x) {
      var f :| f in env.all && f.expected.family in [family] && Registers(env, f) && f.expected == x;
      assert f in Lane(env.all, family);
    }
  }

  lemma {:induction false} RegisteredByElements(env: Env, loops: seq<Family>, x: Candidate)
    ensures x in RegisteredBy(env, loops) <==> RegisteredIn(env, loops, x)
  {
    if loops != [] {
      hide Lane, Registered, Registers;
      var init, last := loops[..|loops| - 1], loops[|loops| - 1];
      assert forall family :: family in loops <==> family in init || family == last by {
        assert loops == init + [last];
      }
      RegisteredByElements(env, init, x);
      OneLoopRegistered(env, last, x);
      assert RegisteredIn(env, loops, x) <==> RegisteredIn(env, init, x) || RegisteredIn(env, [last], x);
    }
  }

  predicate DeclinedIn(env: Env, loops: seq<Family>, x: Failure) {
    exists f :: f in env.all && f.expected.family in loops && Declines(env, f) && DeclinedFailure(f.expected) == x
  }

  predicate LaneFailedIn(env: Env, loops: seq<Family>, x: Failure) {
    exists family :: family in loops && x in LaneFailure(env, family)
  }

  lemma OneLoopDeclined(env: Env, family: Family, x: Failure)
    ensures x in Declined(env, Lane(env.all, family)) <==> DeclinedIn(env, [family], x)
  {
    LaneElements(env.all, family);
    DeclinedElements(env, Lane(env.all, family));
    if DeclinedIn(env, [family], x) {
      var f :| f in env.all && f.expected.family in [family] && Declines(env, f) && DeclinedFailure(f.expected) == x;
      assert f in Lane(env.all, family);
    }
  }

  lemma {:induction false} FailedByElements(env: Env, loops: seq<Family>, x: Failure)
    ensures x in FailedBy(env, loops) <==> DeclinedIn(env, loops, x) || LaneFailedIn(env, loops, x)
  {
    if loops != [] {
      var init, last := loops[..|loops| - 1], loops[|loops| - 1];
      assert loops == init + [last];
      FailedByElements(env, init, x);
      OneLoopDeclined(env, last, x);
      OneMoreFails(env, init, last, x);
      assert FailedBy(env, loops) ==
        FailedBy(env, init) + (Declined(env, Lane(env.all, last)) + LaneFailure(env, last));
      hide *;
    }
  }

  lemma OneMoreFails(env: Env, init: seq<Family>, last: Family, x: Failure)
    ensures DeclinedIn(env, init + [last], x) <==> DeclinedIn(env, init, x) || DeclinedIn(env, [last], x)
    ensures LaneFailedIn(env, init + [last], x) <==> LaneFailedIn(env, init, x) || x in LaneFailure(env, last)
  {
    hide Declines, LaneFailure;
  }

  lemma EveryFamilyHasALoop(family: Family)
    ensures family in LOOPS
  {
    match family {
      case Snapshot => assert LOOPS[0] == family;
      case Window => assert LOOPS[1] == family;
      case Blob => assert LOOPS[2] == family;
      case O365 => assert LOOPS[3] == family;
      case MDCA => assert LOOPS[4] == family;
      case EXO => assert LOOPS[5] == family;
      case Hunt => assert LOOPS[6] == family;
    }
  }

  // -------------------------------------------------------------- the census and the registry agree

  predicate NamesOnce(cs: seq<Candidate>) {
    forall i, j :: 0 <= i < j < |cs| ==> cs[i].name != cs[j].name
  }

  lemma LiveNamesDiffer(env: Env, i: nat, j: nat)
    requires ValidEnv(env) && i < j < |env.all|
    requires Live(env, env.all[i].expected) && Live(env, env.all[j].expected)
    ensures env.all[i].expected.name != env.all[j].expected.name
  {
    if env.all[i].expected.name == env.all[j].expected.name {
      DistinctAt(Inert(env.all), i, j);
      ChosenUnique(env, env.all[i], env.all[j]);
    }
  }

  /** What a loop registers from the first n factories comes from one of them. */
  lemma LanePrefixSource(env: Env, n: nat, family: Family, x: Candidate) returns (k: nat)
    requires n <= |env.all| && x in Registered(env, Lane(env.all[..n], family))
    ensures k < n && env.all[k].expected == x && Registers(env, env.all[k])
  {
    LaneElements(env.all[..n], family);
    RegisteredElements(env, Lane(env.all[..n], family));
    var g :| g in Lane(env.all[..n], family) && Registers(env, g) && g.expected == x;
    k :| 0 <= k < n && env.all[..n][k] == g;
  }

  lemma LaneRegisteredStep(env: Env, n: nat, family: Family)
    requires 0 < n <= |env.all|
    ensures Registered(env, Lane(env.all[..n], family)) == Registered(env, Lane(env.all[..n - 1], family)) +
      if env.all[n - 1].expected.family == family && Registers(env, env.all[n - 1])
      then [env.all[n - 1].expected] else []
  {
    var lane, f := Lane(env.all[..n - 1], family), env.all[n - 1];
    assert env.all[..n][..n - 1] == env.all[..n - 1];
    assert (lane + [f])[..|lane|] == lane;
    if f.expected.family == family {
      assert Lane(env.all[..n], family) == lane + [f];
    } else {
      assert Lane(env.all[..n], family) == lane + [] == lane;
    }
  }

  lemma EmptyLane(env: Env, family: Family)
    ensures Registered(env, Lane([], family)) == []
  {}

  /** Within one loop nothing is registered twice. */
  lemma {:induction false} LaneNamesOnce(env: Env, n: nat, family: Family)
    requires ValidEnv(env) && n <= |env.all|
    ensures NamesOnce(Registered(env, Lane(env.all[..n], family)))
  {
    hide Lane, Registered, ValidEnv, Live, LaneDown, Constructs, PerMailboxSkip;
    if n == 0 {
      assert env.all[..0] == [];
      EmptyLane(env, family);
    } else {
      LaneNamesOnce(env, n - 1, family);
      LaneRegisteredStep(env, n, family);
      var before := Registered(env, Lane(env.all[..n - 1], family));
      if Registers(env, env.all[n - 1]) {
        forall i | 0 <= i < |before| ensures before[i].name != env.all[n - 1].expected.name {
          var k := LanePrefixSource(env, n - 1, family, before[i]);
          LiveNamesDiffer(env, k, n - 1);
        }
      }
    }
  }

  lemma {:induction false} LoopsNamesOnce(env: Env, loops: seq<Family>)
    requires ValidEnv(env)
    requires forall i, j :: 0 <= i < j < |loops| ==> loops[i] != loops[j]
    ensures NamesOnce(RegisteredBy(env, loops))
  {
    if loops != [] {
      var init, last := loops[..|loops| - 1], loops[|loops| - 1];
      LoopsNamesOnce(env, init);
      LaneNamesOnce(env, |env.all|, last);
      assert env.all[..|env.all|] == env.all;
      var before, lane := RegisteredBy(env, init), Registered(env, Lane(env.all, last));
      LaneElements(env.all, last);
      RegisteredElements(env, Lane(env.all, last));
      forall i, j | 0 <= i < |before| && 0 <= j < |lane| ensures before[i].name != lane[j].name {
        RegisteredByElements(env, init, before[i]);
        assert before[i] in before && lane[j] in lane;
        var f :| f in env.all && f.expected.family in init && Registers(env, f) && f.expected == before[i];
        var g :| g in Lane(env.all, last) && Registers(env, g) && g.expected == lane[j];
        if before[i].name == lane[j].name { ChosenUnique(env, f, g); }
      }
    }
  }

  /** No collector name is registered twice, on one transport or on two. */
  lemma RegistryNamesOnce(env: Env)
    requires ValidEnv(env)
    ensures NamesOnce(Registry(env))
  {
    LoopsNamesOnce(env, LOOPS);
  }

  /** The startup failures that match a live candidate are exactly its lane's failure
      and its own factory's refusal. */
  lemma MatchedByFailure(env: Env, f: Factory)
    requires ValidEnv(env) && f in env.all && Live(env, f.expected)
    ensures (forall x :: x in Failures(env) ==> !Matches(x, f.expected)) <==>
      Registers(env, f) || (LaneDown(env, f.expected.family).None? && PerMailboxSkip(env, f))
  {
    hide FailedBy, LaneDown, Live, PerMailboxSkip, Constructs, LaneFailure;
    EveryFamilyHasALoop(f.expected.family);
    if LaneDown(env, f.expected.family).Some? {
      LaneFailureMatches(env, f);
    } else if Declines(env, f) {
      RefusalMatches(env, f);
    } else {
      forall x | x in Failures(env) ensures !Matches(x, f.expected) { OtherFailure(env, f, x); }
    }
  }

  lemma LaneFailureMatches(env: Env, f: Factory)
    requires f in env.all && LaneDown(env, f.expected.family).Some?
    ensures exists x :: x in Failures(env) && Matches(x, f.expected)
  {
    hide FailedBy, LaneDown;
    EveryFamilyHasALoop(f.expected.family);
    var x := LaneFailure(env, f.expected.family)[0];
    FailedByElements(env, LOOPS, x);
    assert x in Failures(env) && Matches(x, f.expected);
  }

  lemma RefusalMatches(env: Env, f: Factory)
    requires f in env.all && Declines(env, f)
    ensures exists x :: x in Failures(env) && Matches(x, f.expected)
  {
    hide FailedBy, LaneDown, Declines;
    EveryFamilyHasALoop(f.expected.family);
    var x := DeclinedFailure(f.expected);
    FailedByElements(env, LOOPS, x);
    assert DeclinedIn(env, LOOPS, x);
    assert x in Failures(env) && Matches(x, f.expected);
  }

  /** Any other failure is another lane's, or the refusal of another collector's factory. */
  lemma OtherFailure(env: Env, f: Factory, x: Failure)
    requires ValidEnv(env) && f in env.all && Live(env, f.expected) && x in Failures(env)
    requires LaneDown(env, f.expected.family).None? && !Declines(env, f)
    ensures !Matches(x, f.expected)
  {
    hide FailedBy, LaneDown, Admitted, Constructs, PerMailboxSkip;
    FailedByElements(env, LOOPS, x);
    if DeclinedIn(env, LOOPS, x) && Matches(x, f.expected) {
      var g :| g in env.all && g.expected.family in LOOPS && Declines(env, g) && DeclinedFailure(g.expected) == x;
      ChosenUnique(env, f, g);
    }
  }

  /** Names the per-mailbox gate keeps out of the registry although the census made them live. */
  function SkippedNames(env: Env): set<string> {
    set f | f in env.all && PerMailboxSkip(env, f) && Live(env, f.expected) :: f.expected.name
  }

  function RegistryNames(env: Env): set<string> {
    set c | c in Registry(env) :: c.name
  }

  /** After the seven loops and the second census pass a name is registered exactly when
      its row is active, per-mailbox skips apart, on the transport the row names. */
  lemma CensusMatchesRegistry(env: Env, i: nat)
    requires ValidEnv(env) && i < |FinalCensus(env)|
    ensures Active(FinalCensus(env)[i]) <==>
      FinalCensus(env)[i].collector in RegistryNames(env) || FinalCensus(env)[i].collector in SkippedNames(env)
    ensures forall c :: c in Registry(env) && c.name == FinalCensus(env)[i].collector ==>
      c.transport == FinalCensus(env)[i].transport
  {
    var rows, ss := FinalCensus(env), Selections(env.cfg, Candidates(env));
    CandidatesFacts(env);
    CensusNames(env.cfg, env.lic, Candidates(env), Failures(env));
    StartupFailurePass(env.cfg, env.lic, Candidates(env), Failures(env), i);
    SelectionsAreCandidates(env.cfg, Candidates(env));
    var c := ss[i].candidate;
    assert ss[i] in ss;
    SelectionsCorrect(env.cfg, Candidates(env), c);
    AdmittedIsActive(env, ss[i]);
    var f :| f in env.all && f.expected == c;
    if Live(env, c) {
      MatchedByFailure(env, f);
      EveryFamilyHasALoop(c.family);
      RegisteredByElements(env, LOOPS, c);
    }
    forall d | d in Registry(env) && d.name == c.name ensures d == c && Active(rows[i]) {
      RegisteredByElements(env, LOOPS, d);
      var g :| g in env.all && Registers(env, g) && g.expected == d;
      ChosenUnique(env, f, g);
    }
    forall g | g in env.all && PerMailboxSkip(env, g) && Live(env, g.expected) && g.expected.name == c.name
      ensures g == f
    {
      ChosenUnique(env, f, g);
    }
  }

  /** The census and the registry disagree exactly when the per-mailbox gate drops a
      live collector. */
  lemma AgreementIsExact(env: Env)
    requires ValidEnv(env)
    ensures (forall i :: 0 <= i < |FinalCensus(env)| ==>
        (Active(FinalCensus(env)[i]) <==> FinalCensus(env)[i].collector in RegistryNames(env)))
      <==> SkippedNames(env) == {}
  {
    forall i | 0 <= i < |FinalCensus(env)| { CensusMatchesRegistry(env, i); }
    if f :| f in env.all && PerMailboxSkip(env, f) && Live(env, f.expected) {
      CandidatesFacts(env);
      var i := RowOf(env, Failures(env), f.expected);
      CensusMatchesRegistry(env, i);
      assert f.expected.name in SkippedNames(env);
      if f.expected.name in RegistryNames(env) {
        var d :| d in Registry(env) && d.name == f.expected.name;
        RegisteredByElements(env, LOOPS, d);
        var g :| g in env.all && Registers(env, g) && g.expected == d;
        ChosenUnique(env, f, g);
      }
    }
  }

  /** A tenant with Exchange Online on, the per-mailbox gate shut, and one per-mailbox collector. */
  const MAILBOXES := Candidate("mailboxes", EXO, ExchangeOnline, false, false, "", [], [])
  const MAILBOX_ENV := Env(
    Config(map[], map[], "", false, true, false, false), License({}, true),
    [Factory(MAILBOXES, Some(Runtime(MAILBOXES, true)))], Builds(true, true, true, true, true, true, true))

  /** There the census shows a row as active that is not registered. */
  lemma AgreementFails() returns (i: nat)
    ensures ValidEnv(MAILBOX_ENV) && i < |FinalCensus(MAILBOX_ENV)|
    ensures Active(FinalCensus(MAILBOX_ENV)[i])
    ensures FinalCensus(MAILBOX_ENV)[i].collector !in RegistryNames(MAILBOX_ENV)
  {
    MailboxesLive();
    hide ValidEnv, Live, FinalCensus, RegistryNames, PerMailboxSkip, SkippedNames;
    AgreementIsExact(MAILBOX_ENV);
    i :| 0 <= i < |FinalCensus(MAILBOX_ENV)| &&
      !(Active(FinalCensus(MAILBOX_ENV)[i]) <==> FinalCensus(MAILBOX_ENV)[i].collector in RegistryNames(MAILBOX_ENV));
    CensusMatchesRegistry(MAILBOX_ENV, i);
  }

  lemma MailboxesLive()
    ensures ValidEnv(MAILBOX_ENV) && Live(MAILBOX_ENV, MAILBOXES) && SkippedNames(MAILBOX_ENV) != {}
  {
    var env, f := MAILBOX_ENV, MAILBOX_ENV.all[0];
    assert Inert(env.all) == [MAILBOXES] && [MAILBOXES][1..] == [];
    assert forall g :: g in env.all ==> g == f;
    CandidatesFacts(env);
    assert !HasRival(Candidates(env), MAILBOXES);
    hide ValidEnv, Candidates;
    assert f in env.all && f.expected == MAILBOXES && PerMailboxSkip(env, f);
    assert MAILBOXES.name in SkippedNames(env);
  }

  /** A Graph/blob pair registers on the side `source` and the blob account choose and on
      no other; with no blob account `source: blob` means the Graph side, not nothing. */
  lemma OneTransportPerSwitch(env: Env, f: Factory, g: Factory)
    requires ValidEnv(env) && f in env.all && g in env.all && SwitchPair(f.expected, g.expected)
    ensures Registers(env, f) ==> f.expected.transport == SwitchedTo(env.cfg, f.expected.name)
    ensures !(Registers(env, f) && Registers(env, g))
    ensures !env.cfg.BlobConfigured() ==> SwitchedTo(env.cfg, f.expected.name) == Graph
    ensures GraphSide(f.expected) && !env.cfg.BlobConfigured() && Admitted(env, f.expected) && Constructs(f) ==>
      Registers(env, f)
  {
    CandidatesFacts(env);
    assert HasRival(Candidates(env), f.expected) by { assert g.expected in Candidates(env); }
    if Registers(env, f) && Registers(env, g) { ChosenUnique(env, f, g); }
  }

  /** A tenant whose one factory builds a collector of another name than it announced. */
  const ANNOUNCED := Candidate("announced", O365, O365Activity, false, false, "", [], [])
  const MISNAMED := Factory(ANNOUNCED, Some(Runtime(ANNOUNCED.(name := "built"), false)))
  const MISNAMED_ENV := Env(
    Config(map[], map[], "", false, false, false, false), License({}, true), [MISNAMED],
    Builds(true, true, true, true, true, true, true))

  /** There nothing registers, and the refusal is recorded under the announced name. */
  lemma MisnamedDeclined()
    ensures ValidEnv(MISNAMED_ENV) && Registry(MISNAMED_ENV) == []
    ensures exists x :: x in Failures(MISNAMED_ENV) && x.collector == Some("announced") && x.family == Some(O365)
  {
    var env := MISNAMED_ENV;
    MisnamedLive();
    hide ValidEnv, RegisteredBy, FailedBy, Registers, Declines;
    if Registry(env) != [] {
      var c := Registry(env)[0];
      assert c in Registry(env);
      RegisteredByElements(env, LOOPS, c);
    }
    var x := DeclinedFailure(ANNOUNCED);
    EveryFamilyHasALoop(O365);
    FailedByElements(env, LOOPS, x);
    assert MISNAMED in env.all && MISNAMED.expected.family in LOOPS && Declines(env, MISNAMED);
    assert DeclinedIn(env, LOOPS, x);
  }

  lemma MisnamedLive()
    ensures ValidEnv(MISNAMED_ENV) && Declines(MISNAMED_ENV, MISNAMED)
    ensures forall f :: f in MISNAMED_ENV.all ==> f == MISNAMED && !Registers(MISNAMED_ENV, f)
  {
    var env := MISNAMED_ENV;
    assert Inert(env.all) == [ANNOUNCED] && [ANNOUNCED][1..] == [];
    assert forall g :: g in env.all ==> g == MISNAMED;
    CandidatesFacts(env);
    assert !HasRival(Candidates(env), ANNOUNCED);
    hide ValidEnv, Candidates;
  }

  // -------------------------------------------------------------- what registers, and why not

  /** What takes each path down, and what it then says. */
  lemma LaneSays(env: Env, family: Family)
    ensures var b, cfg := env.builds, env.cfg;
      && (LaneDown(env, family) == Some(InvalidTransportConfiguration) <==> family == O365 && !b.o365ContentTypesValid)
      && (LaneDown(env, family) == Some(TransportInitializationFailed) <==>
            || (family == Blob && cfg.blobAccountURL != "" && !b.blobSource)
            || (family == O365 && b.o365ContentTypesValid && !b.o365Client)
            || (family == MDCA && cfg.mdcaConfigured && (!b.mdcaToken || !b.mdcaClient))
            || (family == EXO && cfg.exoEnabled && !b.exoClient)
            || (family == Hunt && cfg.huntingEnabled && !b.huntClient))
      && LaneDown(env, family) in
           {None, Some(InvalidTransportConfiguration), Some(TransportInitializationFailed)}
  {}

  /** Another factory carries the name: the other side of a source switch. */
  predicate Paired(env: Env, f: Factory) {
    exists g :: g in env.all && g != f && g.expected.name == f.expected.name
  }

  /** The side of its switch the two layers and the blob account ask for. */
  predicate OnItsSide(env: Env, f: Factory) {
    Paired(env, f) ==>
      f.expected.transport ==
        if BlobAsked(env.cfg, f.expected.name) && env.cfg.blobAccountURL != "" then BlobStore else Graph
  }

  /** Exactly what registers a collector: the configuration's two layers, its transport wired and
      built, its licence, its side of a switch, the per-mailbox opt-in and a factory that builds
      what it announced. */
  lemma RegisteredExactly(env: Env, f: Factory)
    requires ValidEnv(env) && f in env.all
    ensures f.expected in Registry(env) <==>
      && Cleared(env.cfg, f.expected) && Licensed(env.lic, f.expected)
      && OnItsSide(env, f)
      && LaneDown(env, f.expected.family) == None
      && f.built.Some? && f.built.value.collector.name == f.expected.name
      && (f.expected.family == EXO && f.built.value.perMailbox ==> env.cfg.exoPerMailbox)
  {
    var c := f.expected;
    ConfigReads(env.cfg, c.name);
    SideExactly(env, f);
    EveryFamilyHasALoop(c.family);
    RegisteredByElements(env, LOOPS, c);
    if g :| g in env.all && Registers(env, g) && g.expected == c { OneFactory(env, f, g); }
    TransportNeeds(env.cfg, c);
    hide ValidEnv, Candidates, RegisteredBy, SwitchedOn, OptedIn, Chosen, Config.Enabled, Config.ExplicitlyEnabled;
    hide OnItsSide, LaneDown, TransportConfigured;
    assert Live(env, c) <==> OnItsSide(env, f) && Cleared(env.cfg, c) && Licensed(env.lic, c);
  }

  lemma OneFactory(env: Env, f: Factory, g: Factory)
    requires ValidEnv(env) && f in env.all && g in env.all && f.expected == g.expected
    ensures f == g
  {
    if f != g { TwoFactories(env, f, g); }
  }

  lemma SideExactly(env: Env, f: Factory)
    requires ValidEnv(env) && f in env.all
    ensures OnItsSide(env, f) <==> Chosen(env.cfg, Candidates(env), f.expected)
  {
    PairedExactly(env, f);
    ConfigReads(env.cfg, f.expected.name);
    hide ValidEnv, Candidates, Config.SourceIsBlob, BlobAsked, Paired, HasRival;
  }

  lemma PairedExactly(env: Env, f: Factory)
    requires ValidEnv(env) && f in env.all
    ensures Paired(env, f) <==> HasRival(Candidates(env), f.expected)
  {
    CandidatesFacts(env);
    hide ValidEnv, Candidates;
    if g :| g in env.all && g != f && g.expected.name == f.expected.name {
      TwoFactories(env, f, g);
      assert HasRival(Candidates(env), f.expected) by { assert g.expected in Candidates(env); }
    }
    if r :| r in Candidates(env) && SwitchPair(f.expected, r) {
      var g :| g in env.all && g.expected == r;
      assert g != f && g.expected.name == f.expected.name;
    }
  }

  /** A final row that is neither active nor covered, of a collector the census resolves as
      active, says why it did not start: its path's reason, or that its transport failed to
      build it. */
  lemma FailedRowSays(env: Env, f: Factory, i: nat)
    requires ValidEnv(env) && f in env.all && Live(env, f.expected) && f.expected !in Registry(env)
    requires !PerMailboxSkip(env, f) && i < |FinalCensus(env)| && FinalCensus(env)[i].collector == f.expected.name
    ensures FinalCensus(env)[i].state == Covered || FinalCensus(env)[i].state == StartupFailed
    ensures FinalCensus(env)[i].state == StartupFailed ==>
      FinalCensus(env)[i].reason ==
        match LaneDown(env, f.expected.family)
        case Some(reason) => reason
        case None => TransportInitializationFailed
  {
    CandidatesFacts(env);
    var k := RowOf(env, Failures(env), f.expected);
    SomeFailureMatches(env, f);
    CensusNames(env.cfg, env.lic, Candidates(env), Failures(env));
    AdmittedIsActive(env, Selections(env.cfg, Candidates(env))[k]);
    assert Admitted(env, f.expected);
    FinalRow(env.cfg, env.lic, Candidates(env), Failures(env), k);
    hide ValidEnv, Candidates, Selections, Inventory, Failures, Registry, Live, Admitted, PerMailboxSkip, LaneDown;
    hide Matches, Resolve;
    assert i == k;
    forall x | x in Failures(env) && Matches(x, f.expected)
      ensures x.reason == match LaneDown(env, f.expected.family) case Some(reason) => reason
                          case None => TransportInitializationFailed
    {
      MatchingReason(env, f, x);
    }
  }

  lemma SomeFailureMatches(env: Env, f: Factory)
    requires ValidEnv(env) && f in env.all && Live(env, f.expected) && f.expected !in Registry(env)
    requires !PerMailboxSkip(env, f)
    ensures exists x :: x in Failures(env) && Matches(x, f.expected)
  {
    EveryFamilyHasALoop(f.expected.family);
    RegisteredByElements(env, LOOPS, f.expected);
    MatchedByFailure(env, f);
    hide ValidEnv, RegisteredBy, FailedBy, Live, PerMailboxSkip, LaneDown, Matches;
    assert !Registers(env, f);
  }

  lemma MatchingReason(env: Env, f: Factory, x: Failure)
    requires ValidEnv(env) && f in env.all && x in Failures(env) && Matches(x, f.expected)
    ensures x.reason == match LaneDown(env, f.expected.family)
      case Some(reason) => reason
      case None => TransportInitializationFailed
  {
    hide FailedBy, LaneDown, Live, Constructs, PerMailboxSkip;
    FailedByElements(env, LOOPS, x);
  }

  /** The factory is left out under the name, for this reason. */
  predicate SkippedAs(env: Env, f: Factory, name: string, why: SkipReason) {
    match why
    case LaneUnavailable(family, cause) =>
      f.expected.family == family && LaneDown(env, family) == Some(cause) && name == f.expected.name
    case PerMailboxNotOptedIn =>
      && f.expected.family == EXO && env.cfg.exoEnabled && env.builds.exoClient && !env.cfg.exoPerMailbox
      && f.built.Some? && f.built.value.perMailbox && name == f.built.value.collector.name
    case _ => false
  }

  ghost predicate SkippedIn(env: Env, fs: seq<Factory>, skips: Skips, name: string) {
    && (name in skips ==> exists f :: f in fs && SkippedAs(env, f, name, skips[name]))
    && (forall f, why :: f in fs && SkippedAs(env, f, name, why) ==> name in skips)
  }

  lemma {:induction false} MailboxesSkipped(env: Env, fs: seq<Factory>, name: string)
    requires LaneDown(env, EXO).None? || forall f :: f in fs ==> f.expected.family != EXO
    requires forall f :: f in fs ==> LaneDown(env, f.expected.family).None?
    ensures SkippedIn(env, fs, PerMailboxSkipped(env, fs), name)
  {
    if fs != [] {
      var init, last := fs[..|fs| - 1], fs[|fs| - 1];
      assert fs == init + [last];
      MailboxesSkipped(env, init, name);
      var before, more := PerMailboxSkipped(env, init), PerMailboxOf(env, last);
      if name in more {
        assert SkippedAs(env, last, name, PerMailboxNotOptedIn);
      } else if name in before {
        var f :| f in init && SkippedAs(env, f, name, before[name]);
        assert f in fs;
      }
    }
  }

  lemma LaneSkipsExactly(env: Env, family: Family, name: string)
    ensures SkippedIn(env, Lane(env.all, family), LaneSkips(env, family), name)
  {
    var fs := Lane(env.all, family);
    LaneElements(env.all, family);
    if LaneDown(env, family).None? {
      MailboxesSkipped(env, fs, name);
    } else {
      var why := LaneUnavailable(family, LaneDown(env, family).value);
      if name in NamesOf(fs) {
        var f :| f in fs && f.expected.name == name;
        assert SkippedAs(env, f, name, why);
      }
    }
  }

  /** The skips name exactly the factories of paths that are down and the per-mailbox ones not
      opted in to, each name with such a reason. */
  lemma {:induction false} SkipsExactly(env: Env, loops: seq<Family>, name: string)
    ensures name in SkipsBy(env, loops) ==> exists f ::
      f in env.all && f.expected.family in loops && SkippedAs(env, f, name, SkipsBy(env, loops)[name])
    ensures forall f, why :: f in env.all && f.expected.family in loops && SkippedAs(env, f, name, why) ==>
      name in SkipsBy(env, loops)
  {
    if loops != [] {
      var init, last := loops[..|loops| - 1], loops[|loops| - 1];
      assert loops == init + [last];
      SkipsExactly(env, init, name);
      LaneSkipsExactly(env, last, name);
      LaneElements(env.all, last);
      hide LaneSkips, Lane, SkippedAs;
      var lane := Lane(env.all, last);
      if name in LaneSkips(env, last) {
        var f :| f in lane && SkippedAs(env, f, name, LaneSkips(env, last)[name]);
        assert f in env.all && f.expected.family in loops;
      } else if name in SkipsBy(env, init) {
        var f :| f in env.all && f.expected.family in init && SkippedAs(env, f, name, SkipsBy(env, init)[name]);
        assert f.expected.family in loops;
      }
    }
  }

  /** The paths in the order start-up takes them. */
  function Turn(family: Family): nat {
    match family
    case Snapshot => 0
    case Window => 1
    case Blob => 2
    case O365 => 3
    case MDCA => 4
    case EXO => 5
    case Hunt => 6
  }

  lemma {:induction false} LoopsInOrder(env: Env, loops: seq<Family>)
    requires forall i, j :: 0 <= i < j < |loops| ==> Turn(loops[i]) <= Turn(loops[j])
    ensures forall c :: c in RegisteredBy(env, loops) ==> c.family in loops
    ensures forall i, j :: 0 <= i < j < |RegisteredBy(env, loops)| ==>
      Turn(RegisteredBy(env, loops)[i].family) <= Turn(RegisteredBy(env, loops)[j].family)
  {
    if loops != [] {
      var init, last := loops[..|loops| - 1], loops[|loops| - 1];
      assert loops == init + [last];
      LoopsInOrder(env, init);
      LaneElements(env.all, last);
      RegisteredElements(env, Lane(env.all, last));
      hide Turn, Lane, Registered, Registers;
      var before, lane := RegisteredBy(env, init), Registered(env, Lane(env.all, last));
      forall i | 0 <= i < |lane| ensures lane[i].family == last { assert lane[i] in lane; }
      forall i | 0 <= i < |before| ensures Turn(before[i].family) <= Turn(last) {
        assert before[i] in before;
        var k :| 0 <= k < |init| && init[k] == before[i].family;
        assert loops[k] == init[k];
      }
    }
  }

  /** The registry lists the paths' collectors in that order. */
  lemma RegistryInOrder(env: Env)
    ensures forall i, j :: 0 <= i < j < |Registry(env)| ==>
      Turn(Registry(env)[i].family) <= Turn(Registry(env)[j].family)
  {
    LoopsInOrder(env, LOOPS);
  }

  // -------------------------------------------------------------- transport conflicts

  /** Two registered collectors that ship the same records. */
  predicate Conflict(registry: seq<Candidate>) {
    exists a, b :: a in registry && b in registry && a.name != b.name && b.name in a.conflictsWith
  }

  /** There is a conflict exactly when one of the registered collectors declares another. */
  lemma ConflictExactly(env: Env)
    requires ValidEnv(env)
    ensures var r := Registry(env);
      Conflict(r) <==> exists i, j :: 0 <= i < |r| && 0 <= j < |r| && i != j && r[j].name in r[i].conflictsWith
  {
    RegistryNamesOnce(env);
    hide Registry, ValidEnv;
    var r := Registry(env);
    if i, j :| 0 <= i < |r| && 0 <= j < |r| && i != j && r[j].name in r[i].conflictsWith {
      assert r[i] in r && r[j] in r;
    }
  }

  lemma RowNamed(env: Env, name: string) returns (i: nat)
    requires ValidEnv(env) && exists p :: p in env.all && p.expected.name == name
    ensures i < |FinalCensus(env)| == |Selections(env.cfg, Candidates(env))| && FinalCensus(env)[i].collector == name
  {
    CandidatesFacts(env);
    hide ValidEnv, Ordered, Selections, Inventory, Candidates, Chosen, Failures;
    var p :| p in env.all && p.expected.name == name;
    SelectionsCorrect(env.cfg, Candidates(env), p.expected);
    var ss := Selections(env.cfg, Candidates(env));
    var s :| s in ss && s.candidate.name == name;
    i :| 0 <= i < |ss| && ss[i] == s;
    CensusNames(env.cfg, env.lic, Candidates(env), Failures(env));
  }

  /** A registered collector's row is active and carries its own declarations. */
  lemma RegisteredRow(env: Env, c: Candidate) returns (j: nat)
    requires ValidEnv(env) && c in Registry(env)
    ensures j < |FinalCensus(env)| == |Selections(env.cfg, Candidates(env))|
    ensures Active(FinalCensus(env)[j]) && Selections(env.cfg, Candidates(env))[j].candidate == c
  {
    CandidatesFacts(env);
    RegisteredByElements(env, LOOPS, c);
    var f :| f in env.all && Registers(env, f) && f.expected == c;
    j := RowOf(env, Failures(env), c);
    MatchedByFailure(env, f);
  }

  /** When set-up is not aborted, every peer a registered collector declares is
      unregistered, and its final row says covered unless the per-mailbox gate left it
      active: the records of a conflicting pair ship once. */
  lemma NoRecordShipsTwice(env: Env, c: Candidate, peer: string) returns (i: nat)
    requires ValidEnv(env) && !Conflict(Registry(env))
    requires c in Registry(env) && peer in c.conflictsWith && peer != c.name
    ensures peer !in RegistryNames(env)
    ensures i < |FinalCensus(env)| && FinalCensus(env)[i].collector == peer
    ensures FinalCensus(env)[i].state == Covered || peer in SkippedNames(env)
  {
    RegisteredByElements(env, LOOPS, c);
    assert peer in (set g | g in env.all :: g.expected.name);
    i := RowNamed(env, peer);
    var j := RegisteredRow(env, c);
    CensusMatchesRegistry(env, i);
    StartupFailurePass(env.cfg, env.lic, Candidates(env), Failures(env), i);
    assert Declares(FinalCensus(env), Selections(env.cfg, Candidates(env)), j, peer);
  }

  // -------------------------------------------------------------- the loops themselves

  /** The readiness check never lets a collector through that the gate then refuses. */
  lemma GateNeverRefuses(env: Env, c: Candidate)
    requires Live(env, c)
    ensures GateOpen(env, c)
  {}

  /** A blob collector the census made live has no polled namesake among those registered. */
  lemma LiveBlobSelected(env: Env, f: Factory, polledNames: set<string>)
    requires ValidEnv(env) && f in env.all && f.expected.family == Blob && Live(env, f.expected)
    requires forall name :: name in polledNames ==>
      exists p :: p in env.all && Polled(p.expected) && Live(env, p.expected) && p.expected.name == name
    ensures BlobTwinSelected(f.expected.name, polledNames, env.cfg.SourceIsBlob(f.expected.name))
  {
    if f.expected.name in polledNames {
      var p :| p in env.all && Polled(p.expected) && Live(env, p.expected) && p.expected.name == f.expected.name;
      ChosenUnique(env, p, f);
    }
  }

  /** Why a collector is recorded as absent. */
  datatype SkipReason =
    | NeedsCapability(capability: string)
    | OffByConfig
    | BetaNotOptedIn
    | HighVolumeNotOptedIn
    | PerMailboxNotOptedIn
    | LaneUnavailable(family: Family, cause: Reason)

  type Skips = map<string, SkipReason>

  function PerMailboxOf(env: Env, f: Factory): Skips {
    if PerMailboxSkip(env, f) then map[f.built.value.collector.name := PerMailboxNotOptedIn] else map[]
  }

  function PerMailboxSkipped(env: Env, fs: seq<Factory>): Skips {
    if fs == [] then map[]
    else PerMailboxSkipped(env, fs[..|fs| - 1]) + PerMailboxOf(env, fs[|fs| - 1])
  }

  function NamesOf(fs: seq<Factory>): set<string> { set f | f in fs :: f.expected.name }

  /** Every factory of the slice absent for one reason. */
  function AllSkipped(fs: seq<Factory>, why: SkipReason): Skips {
    map name | name in NamesOf(fs) :: why
  }

  /** What a path records as skipped: its whole lane when the transport is down, otherwise
      only what the per-mailbox gate drops. */
  function LaneSkips(env: Env, family: Family): Skips {
    match LaneDown(env, family)
    case Some(cause) => AllSkipped(Lane(env.all, family), LaneUnavailable(family, cause))
    case None => PerMailboxSkipped(env, Lane(env.all, family))
  }

  function SkipsBy(env: Env, loops: seq<Family>): Skips {
    if loops == [] then map[] else SkipsBy(env, loops[..|loops| - 1]) + LaneSkips(env, loops[|loops| - 1])
  }

  lemma MergeAssociative(a: Skips, b: Skips, c: Skips)
    ensures (a + b) + c == a + (b + c)
  {}

  /** Whether the tenant opted in to a path at all. */
  predicate LaneWanted(cfg: Config, family: Family) {
    match family
    case Blob => cfg.BlobConfigured()
    case MDCA => cfg.mdcaConfigured
    case EXO => cfg.exoEnabled
    case Hunt => cfg.huntingEnabled
    case _ => true
  }

  /** The readiness check may stop at the first row of its name and transport. */
  lemma OneRowPerName(env: Env, c: Candidate, i: nat)
    requires ValidEnv(env) && i < |FirstCensus(env)|
    requires FirstCensus(env)[i].collector == c.name && FirstCensus(env)[i].transport == c.transport
    ensures RowActive(FirstCensus(env), c) <==> Active(FirstCensus(env)[i])
  {
    CensusNames(env.cfg, env.lic, Candidates(env), []);
    assert forall k :: 0 <= k < |FirstCensus(env)| && FirstCensus(env)[k].collector == c.name ==> k == i;
  }

  /** One more factory of a loop. */
  lemma StepFacts(env: Env, fs: seq<Factory>, k: nat)
    requires k < |fs|
    ensures fs[k] in fs && fs[..k + 1][..k] == fs[..k] && fs[..k + 1][k] == fs[k]
    ensures Registered(env, fs[..k + 1]) ==
      Registered(env, fs[..k]) + if Registers(env, fs[k]) then [fs[k].expected] else []
    ensures Declined(env, fs[..k + 1]) ==
      Declined(env, fs[..k]) + if Declines(env, fs[k]) then [DeclinedFailure(fs[k].expected)] else []
    ensures PerMailboxSkipped(env, fs[..k + 1]) ==
      PerMailboxSkipped(env, fs[..k]) + PerMailboxOf(env, fs[k])
  {}

  /** One more loop. */
  lemma OneMoreLoop(env: Env, loops: seq<Family>, family: Family)
    ensures RegisteredBy(env, loops + [family]) == RegisteredBy(env, loops) + Registered(env, Lane(env.all, family))
    ensures FailedBy(env, loops + [family]) ==
      FailedBy(env, loops) + (Declined(env, Lane(env.all, family)) + LaneFailure(env, family))
    ensures SkipsBy(env, loops + [family]) == SkipsBy(env, loops) + LaneSkips(env, family)
  {
    assert (loops + [family])[..|loops|] == loops;
  }

  /** Before the first loop, and before the first factory of one. */
  lemma NoLoops(env: Env)
    ensures RegisteredBy(env, []) == [] && FailedBy(env, []) == [] && SkipsBy(env, []) == map[]
    ensures Registered(env, []) == [] && Declined(env, []) == [] && PerMailboxSkipped(env, []) == map[]
  {}

  lemma {:induction false} NothingReached(env: Env, fs: seq<Factory>)
    ensures (forall f :: f in fs ==> !Reached(env, f)) ==> Registered(env, fs) == [] && Declined(env, fs) == []
  {
    if fs != [] { NothingReached(env, fs[..|fs| - 1]); }
  }

  lemma {:induction false} NothingSkipped(env: Env, fs: seq<Factory>)
    ensures (forall f :: f in fs ==> !PerMailboxSkip(env, f)) ==> PerMailboxSkipped(env, fs) == map[]
  {
    if fs != [] { NothingSkipped(env, fs[..|fs| - 1]); }
  }

  /** A lane that is not wanted, or could not be built, reaches no factory. */
  lemma LaneSkipped(env: Env, family: Family)
    requires LaneDown(env, family).Some? || !LaneWanted(env.cfg, family)
    ensures Registered(env, Lane(env.all, family)) == [] && Declined(env, Lane(env.all, family)) == []
    ensures LaneDown(env, family).None? ==> PerMailboxSkipped(env, Lane(env.all, family)) == map[]
  {
    LaneElements(env.all, family);
    NothingReached(env, Lane(env.all, family));
    NothingSkipped(env, Lane(env.all, family));
  }

  /** What a path leaves when its loop does not run. */
  lemma LaneQuiet(env: Env, family: Family)
    ensures LaneDown(env, family).Some? || !LaneWanted(env.cfg, family) ==>
      Registered(env, Lane(env.all, family)) == [] && Declined(env, Lane(env.all, family)) == []
    ensures !LaneWanted(env.cfg, family) ==> LaneDown(env, family).None? && LaneSkips(env, family) == map[]
    ensures LaneDown(env, family).None? ==> LaneSkips(env, family) == PerMailboxSkipped(env, Lane(env.all, family))
    ensures LaneDown(env, family).Some? ==>
      LaneSkips(env, family) ==
        AllSkipped(Lane(env.all, family), LaneUnavailable(family, LaneDown(env, family).value))
  {
    if LaneDown(env, family).Some? || !LaneWanted(env.cfg, family) { LaneSkipped(env, family); }
  }

  lemma NoneSkipped(why: SkipReason)
    ensures AllSkipped([], why) == map[]
  {}

  lemma MergePut(a: Skips, b: Skips, name: string, why: SkipReason)
    ensures (a + b)[name := why] == a + b[name := why]
  {}

  lemma OneMoreSkipped(fs: seq<Factory>, k: nat, why: SkipReason)
    requires k < |fs|
    ensures AllSkipped(fs[..k + 1], why) == AllSkipped(fs[..k], why)[fs[k].expected.name := why]
  {
    assert fs[..k + 1] == fs[..k] + [fs[k]];
  }

  class Setup {
    const env: Env
    const inventory: array<Row>
    var registry: seq<Candidate>
    var skips: Skips
    var polledNames: set<string>
    var failures: seq<Failure>

    ghost predicate Valid()
      reads this, inventory
    {
      && ValidEnv(env)
      && inventory[..] == FirstCensus(env)
      && (forall name :: name in polledNames ==>
            exists p :: p in env.all && Polled(p.expected) && Live(env, p.expected) && p.expected.name == name)
    }

    constructor (env: Env, inventory: array<Row>)
      requires ValidEnv(env) && inventory[..] == FirstCensus(env)
      ensures this.env == env && this.inventory == inventory
      ensures Valid() && registry == [] && failures == [] && skips == map[]
    {
      this.env, this.inventory := env, inventory;
      registry, skips, polledNames, failures := [], map[], {}, [];
    }

    method RowIsActive(expected: Candidate) returns (active: bool)
      requires ValidEnv(env) && inventory[..] == FirstCensus(env)
      ensures active == RowActive(FirstCensus(env), expected)
    {
      ghost var rows := inventory[..];
      active := false;
      var i := 0;
      while i < inventory.Length
        invariant 0 <= i <= inventory.Length && !active
        invariant forall k :: 0 <= k < i ==>
          rows[k].collector != expected.name || rows[k].transport != expected.transport
      {
        assert inventory[i] == rows[i];
        if inventory[i].collector == expected.name && inventory[i].transport == expected.transport {
          OneRowPerName(env, expected, i);
          active := Active(inventory[i]);
          return;
        }
        i := i + 1;
      }
    }

    /** runtimeCollectorReady. */
    method Ready(f: Factory) returns (ok: bool)
      requires Valid() && f in env.all
      modifies this`failures
      ensures ok == (Live(env, f.expected) && Constructs(f))
      ensures failures == old(failures) +
        if Live(env, f.expected) && !Constructs(f) then [DeclinedFailure(f.expected)] else []
    {
      CandidatesFacts(env);
      RowActiveIsLive(env, f.expected);
      var active := RowIsActive(f.expected);
      if !active { return false; }
      if Constructs(f) { return true; }
      failures := failures + [DeclinedFailure(f.expected)];
      return false;
    }

    /** gateCollector: on a refusal the reason goes to the skips. */
    method Gate(c: Candidate) returns (ok: bool)
      modifies this`skips
      ensures ok == GateOpen(env, c)
      ensures skips == if ok then old(skips) else old(skips)[c.name := GateRefusal(env, c)]
    {
      if c.capability != "" && c.capability !in env.lic.capabilities {
        skips := skips[c.name := NeedsCapability(c.capability)];
      } else if !env.cfg.Enabled(c.name) {
        skips := skips[c.name := OffByConfig];
      } else if c.experimental && !env.cfg.ExplicitlyEnabled(c.name) {
        skips := skips[c.name := BetaNotOptedIn];
      } else if c.highVolume && !env.cfg.ExplicitlyEnabled(c.name) {
        skips := skips[c.name := HighVolumeNotOptedIn];
      } else {
        return true;
      }
      return false;
    }

    /** Gate a ready collector and register it; the gate has nothing left to refuse. */
    method Admit(f: Factory)
      requires Valid() && f in env.all && Live(env, f.expected) && Constructs(f)
      modifies this`registry, this`skips
      ensures registry == old(registry) + [f.expected] && skips == old(skips)
    {
      GateNeverRefuses(env, f.expected);
      assert f.built.value.collector == f.expected;
      var ok := Gate(f.built.value.collector);
      if ok { registry := registry + [f.built.value.collector]; }
    }

    /** What one factory adds: its collector when live and built, its refusal when only live. */
    twostate predicate Offered(f: Factory)
      reads this
    {
      && registry == old(registry) + (if Registers(env, f) then [f.expected] else [])
      && failures == old(failures) + (if Declines(env, f) then [DeclinedFailure(f.expected)] else [])
      && skips == old(skips) + PerMailboxOf(env, f)
    }

    /** One turn of the snapshot loop. */
    method OfferSnapshot(f: Factory)
      requires Valid() && f in env.all && f.expected.family == Snapshot
      modifies this
      ensures Valid() && Offered(f)
    {
      var ok := Ready(f);
      if ok {
        var name := f.built.value.collector.name;
        if name == "graph2otel.blob_categories" && !env.cfg.BlobConfigured() {
          assert false;
        }
        polledNames := polledNames + {name};
        Admit(f);
      }
    }

    /** One turn of the window loop: `source: blob` stands the polled side down. */
    method OfferWindow(f: Factory)
      requires Valid() && f in env.all && f.expected.family == Window
      modifies this
      ensures Valid() && Offered(f)
    {
      var ok := Ready(f);
      if ok {
        var name := f.built.value.collector.name;
        polledNames := polledNames + {name};
        LiveWindowPolls(env, f);
        if GraphPollingActive(env.cfg.SourceIsBlob(name), env.cfg.BlobConfigured()) {
          Admit(f);
        }
      }
    }

    /** One turn of the blob loop: a polled collector's twin waits for `source: blob`. */
    method OfferBlob(f: Factory)
      requires Valid() && f in env.all && f.expected.family == Blob && LaneDown(env, Blob).None?
      modifies this
      ensures Valid() && Offered(f)
    {
      var ok := Ready(f);
      if ok {
        var name := f.built.value.collector.name;
        LiveBlobSelected(env, f, polledNames);
        if BlobTwinSelected(name, polledNames, env.cfg.SourceIsBlob(name)) {
          Admit(f);
        }
      }
    }

    /** One turn of a loop that adds no check of its own. */
    method OfferPlain(f: Factory)
      requires Valid() && f in env.all && LaneDown(env, f.expected.family).None? && !PerMailboxSkip(env, f)
      modifies this
      ensures Valid() && Offered(f)
    {
      var ok := Ready(f);
      if ok { Admit(f); }
    }

    /** One turn of the Exchange Online loop: the per-mailbox gate comes before the census. */
    method OfferEXO(f: Factory)
      requires Valid() && f in env.all && f.expected.family == EXO && env.cfg.exoEnabled && LaneDown(env, EXO).None?
      modifies this
      ensures Valid() && Offered(f)
    {
      if f.built.Some? && f.built.value.perMailbox && !env.cfg.exoPerMailbox {
        skips := skips[f.built.value.collector.name := PerMailboxNotOptedIn];
      } else {
        OfferPlain(f);
      }
    }

    method Offer(f: Factory)
      requires Valid() && f in env.all && LaneDown(env, f.expected.family).None?
      requires f.expected.family == EXO ==> env.cfg.exoEnabled
      modifies this
      ensures Valid() && Offered(f)
    {
      match f.expected.family
      case Snapshot => OfferSnapshot(f);
      case Window => OfferWindow(f);
      case Blob => OfferBlob(f);
      case EXO => OfferEXO(f);
      case _ => OfferPlain(f);
    }

    /** The loop over one family's factories, once its transport is there. */
    method RunLoop(family: Family)
      requires Valid() && LaneDown(env, family).None?
      requires family == EXO ==> env.cfg.exoEnabled
      modifies this
      ensures Valid()
      ensures registry == old(registry) + Registered(env, Lane(env.all, family))
      ensures failures == old(failures) + Declined(env, Lane(env.all, family))
      ensures skips == old(skips) + PerMailboxSkipped(env, Lane(env.all, family))
    {
      var fs := Lane(env.all, family);
      LaneElements(env.all, family);
      hide Registered, Declined, PerMailboxSkipped, PerMailboxOf, Lane, Valid, LaneDown;
      hide Registers, Declines, PerMailboxSkip;
      NoLoops(env);
      assert fs[..0] == [];
      for k := 0 to |fs|
        invariant Valid()
        invariant registry == old(registry) + Registered(env, fs[..k])
        invariant failures == old(failures) + Declined(env, fs[..k])
        invariant skips == old(skips) + PerMailboxSkipped(env, fs[..k])
      {
        StepFacts(env, fs, k);
        ghost var r, d := registry, failures;
        Offer(fs[k]);
        ConcatAssociative(old(registry), Registered(env, fs[..k]), registry[|r|..]);
        ConcatAssociative(old(failures), Declined(env, fs[..k]), failures[|d|..]);
        MergeAssociative(old(skips), PerMailboxSkipped(env, fs[..k]), PerMailboxOf(env, fs[k]));
      }
      assert fs[..|fs|] == fs;
    }

    /** Record every factory of a lane that could not be built as skipped. */
    method SkipLane(fs: seq<Factory>, why: SkipReason)
      modifies this`skips
      ensures skips == old(skips) + AllSkipped(fs, why)
    {
      hide AllSkipped;
      NoneSkipped(why);
      assert fs[..0] == [];
      for k := 0 to |fs|
        invariant skips == old(skips) + AllSkipped(fs[..k], why)
      {
        OneMoreSkipped(fs, k, why);
        MergePut(old(skips), AllSkipped(fs[..k], why), fs[k].expected.name, why);
        skips := skips[fs[k].expected.name := why];
      }
      assert fs[..|fs|] == fs;
    }

    /** The whole of one registration path, as the failure list and the skips see it. */
    twostate predicate Ran(family: Family)
      reads this
    {
      && registry == old(registry) + Registered(env, Lane(env.all, family))
      && failures == old(failures) + Declined(env, Lane(env.all, family))
      && skips == old(skips) + LaneSkips(env, family)
    }

    /** What each path needs before its loop; the first thing missing takes the lane down. */
    method BuildTransport(family: Family) returns (reason: Option<Reason>)
      requires LaneWanted(env.cfg, family)
      ensures reason == LaneDown(env, family)
    {
      var b := env.builds;
      match family {
        case Blob =>
          if !b.blobSource { return Some(TransportInitializationFailed); }
        case O365 =>
          if !b.o365ContentTypesValid { return Some(InvalidTransportConfiguration); }
          if !b.o365Client { return Some(TransportInitializationFailed); }
        case MDCA =>
          if !b.mdcaToken { return Some(TransportInitializationFailed); }
          if !b.mdcaClient { return Some(TransportInitializationFailed); }
        case EXO =>
          if !b.exoClient { return Some(TransportInitializationFailed); }
        case Hunt =>
          if !b.huntClient { return Some(TransportInitializationFailed); }
        case _ =>
      }
      return None;
    }

    /** One registration path: opt-out, transport construction, loop. Returns the lane's
        startup failure. */
    method RegisterLane(family: Family) returns (reason: Option<Reason>)
      requires Valid()
      modifies this
      ensures Valid() && Ran(family) && reason == LaneDown(env, family)
    {
      LaneQuiet(env, family);
      hide LaneDown, LaneSkips, Lane, Registered, Declined, PerMailboxSkipped, AllSkipped, ValidEnv, FirstCensus, Live;
      if !LaneWanted(env.cfg, family) { return None; }
      reason := BuildTransport(family);
      if reason.Some? {
        SkipLane(Lane(env.all, family), LaneUnavailable(family, reason.value));
      } else {
        RunLoop(family);
      }
    }

    /** All seven paths, each lane's own failure appended after its loop. */
    method RunAll()
      requires Valid() && registry == [] && failures == [] && skips == map[]
      modifies this
      ensures Valid()
      ensures registry == Registry(env) && failures == Failures(env)
      ensures skips == SkipsBy(env, LOOPS)
    {
      hide RegisteredBy, FailedBy, SkipsBy, Valid;
      NoLoops(env);
      assert LOOPS[..0] == [];
      for k := 0 to |LOOPS|
        invariant Valid()
        invariant registry == RegisteredBy(env, LOOPS[..k]) && failures == FailedBy(env, LOOPS[..k])
        invariant skips == SkipsBy(env, LOOPS[..k])
      {
        var family := LOOPS[k];
        assert LOOPS[..k + 1] == LOOPS[..k] + [family];
        RunLane(family, LOOPS[..k]);
      }
      assert LOOPS[..|LOOPS|] == LOOPS;
    }

    method RunLane(family: Family, ghost before: seq<Family>)
      requires Valid()
      requires registry == RegisteredBy(env, before) && failures == FailedBy(env, before)
      requires skips == SkipsBy(env, before)
      modifies this
      ensures Valid()
      ensures registry == RegisteredBy(env, before + [family]) && failures == FailedBy(env, before + [family])
      ensures skips == SkipsBy(env, before + [family])
    {
      hide RegisteredBy, FailedBy, SkipsBy, LaneSkips, Lane, Registered, Declined, LaneDown, Live, ValidEnv;
      OneMoreLoop(env, before, family);
      var reason := RegisterLane(family);
      ConcatAssociative(FailedBy(env, before), Declined(env, Lane(env.all, family)), LaneFailure(env, family));
      if reason.Some? {
        failures := failures + [Failure(Some(family), None, None, reason.value)];
      } else {
        assert failures + [] == failures;
      }
    }
  }

  // -------------------------------------------------------------- the whole set-up

  lemma SelectedPeersKnown(env: Env)
    requires ValidEnv(env)
    ensures PeersKnown(Selections(env.cfg, Candidates(env)))
  {
    CandidatesFacts(env);
    SelectionsAreCandidates(env.cfg, Candidates(env));
    var ss := Selections(env.cfg, Candidates(env));
    forall i, peer | 0 <= i < |ss| && peer in ss[i].candidate.conflictsWith
      ensures exists k :: 0 <= k < |ss| && ss[k].candidate.name == peer
    {
      assert ss[i] in ss;
      var f :| f in env.all && f.expected == ss[i].candidate;
      assert peer in (set g | g in env.all :: g.expected.name);
      var k := RowNamed(env, peer);
      CensusNames(env.cfg, env.lic, Candidates(env), Failures(env));
    }
  }

  /** checkRegistryConflicts: walk the assembled registry. */
  method CheckConflicts(registry: seq<Candidate>) returns (conflict: bool)
    ensures conflict == Conflict(registry)
  {
    var names := set c | c in registry :: c.name;
    for i := 0 to |registry|
      invariant forall a, b :: a in registry[..i] && b in registry && a.name != b.name ==> b.name !in a.conflictsWith
    {
      var a := registry[i];
      for p := 0 to |a.conflictsWith|
        invariant forall q :: 0 <= q < p ==> a.conflictsWith[q] == a.name || a.conflictsWith[q] !in names
      {
        if a.conflictsWith[p] != a.name && a.conflictsWith[p] in names {
          ghost var b :| b in registry && b.name == a.conflictsWith[p];
          assert a in registry && b.name in a.conflictsWith;
          return true;
        }
      }
      assert registry[..i + 1] == registry[..i] + [a];
    }
    assert registry[..|registry|] == registry;
    return false;
  }

  /** validateRuntimeRegistryCensus. */
  method RegistryInCensus(registry: seq<Candidate>, inventory: seq<Row>) returns (ok: bool)
    ensures ok <==> forall c :: c in registry ==> exists row :: row in inventory && row.collector == c.name
  {
    var canonical := set row | row in inventory :: row.collector;
    for i := 0 to |registry|
      invariant forall c :: c in registry[..i] ==> c.name in canonical
    {
      if registry[i].name !in canonical {
        assert registry[i] in registry;
        return false;
      }
    }
    assert registry[..|registry|] == registry;
    return true;
  }

  /** What has to work before the registration paths: a credential that is built and proves the
      tenant, the Graph client, and the scheduler's store (a corrupt one is started cold). */
  datatype Gateway = Gateway(credential: bool, graphClient: bool, store: bool)

  datatype Outcome =
    | Aborted
    | Retained(inventory: seq<Row>)
    | Started(registry: seq<Candidate>, inventory: seq<Row>, skips: Skips)

  const UNKNOWN_LICENSE := License({}, false)

  /** The census a tenant that could not start is kept with. */
  function RetainedCensus(env: Env, gateway: Gateway): seq<Row>
    requires ValidEnv(env)
  {
    FailedInventory(env.cfg, UNKNOWN_LICENSE, Candidates(env),
                    if gateway.credential then GraphClientInitializationFailed else CredentialInitializationFailed)
  }

  /** setupTenant up to the scheduler: credential, Graph client, store, census, seven paths,
      conflict check, second census pass, registry check. */
  method SetupTenant(env: Env, gateway: Gateway) returns (outcome: Outcome)
    requires ValidEnv(env)
    ensures outcome.Retained? <==> !gateway.credential || !gateway.graphClient
    ensures outcome.Retained? ==> outcome.inventory == RetainedCensus(env, gateway)
    ensures outcome.Aborted? <==>
      gateway.credential && gateway.graphClient && (!gateway.store || Conflict(Registry(env)))
    ensures outcome.Started? ==>
      outcome.registry == Registry(env) && outcome.inventory == FinalCensus(env) && outcome.skips == SkipsBy(env, LOOPS)
    ensures outcome.Started? ==> NamesOnce(outcome.registry)
    ensures outcome.Started? ==> forall row :: row in outcome.inventory ==> RowAgrees(env, outcome.registry, row)
  {
    SelectedPeersKnown(env);
    var candidates := Candidates(env);
    if !gateway.credential {
      var failed := StartupFailedInventory(env.cfg, UNKNOWN_LICENSE, candidates, CredentialInitializationFailed);
      return Retained(failed[..]);
    }
    if !gateway.graphClient {
      var failed := StartupFailedInventory(env.cfg, UNKNOWN_LICENSE, candidates, GraphClientInitializationFailed);
      return Retained(failed[..]);
    }
    var inventory := ResolveInventory(env.cfg, env.lic, candidates);
    if !gateway.store { return Aborted; }
    var setup := new Setup(env, inventory);
    setup.RunAll();
    var conflict := CheckConflicts(setup.registry);
    if conflict { return Aborted; }
    ApplyStartupFailures(inventory, env.cfg, env.lic, candidates, setup.failures);
    RegistryAgrees(env);
    var ok := RegistryInCensus(setup.registry, inventory[..]);
    if !ok { assert false; }
    return Started(setup.registry, inventory[..], setup.skips);
  }

  /** A retained tenant runs nothing, and its census says so: a row is disabled exactly when the
      configuration or transport stands against its collector, and otherwise says what was missing. */
  lemma RetainedRunsNothing(env: Env, gateway: Gateway, i: nat)
    requires ValidEnv(env) && i < |Selections(env.cfg, Candidates(env))|
    ensures var rows, ss := RetainedCensus(env, gateway), Selections(env.cfg, Candidates(env));
      && |rows| == |ss| && !Active(rows[i]) && rows[i].state != Covered
      && (rows[i].state == Disabled <==> !Cleared(env.cfg, ss[i].candidate))
      && (rows[i].state != Disabled ==> rows[i].state == StartupFailed)
      && (rows[i].state != Disabled && !gateway.credential ==> rows[i].reason == CredentialInitializationFailed)
      && (rows[i].state != Disabled && gateway.credential ==> rows[i].reason == GraphClientInitializationFailed)
  {
    RowSays(env.cfg, UNKNOWN_LICENSE, Selections(env.cfg, Candidates(env))[i]);
    FailedInventoryRows(
      env.cfg, UNKNOWN_LICENSE, Candidates(env),
      if gateway.credential then GraphClientInitializationFailed else CredentialInitializationFailed, i);
  }

  /** A row is active exactly when its collector is registered on its transport, per-mailbox
      skips apart. */
  predicate RowAgrees(env: Env, registry: seq<Candidate>, row: Row) {
    Active(row) <==>
      || (exists c :: c in registry && c.name == row.collector && c.transport == row.transport)
      || row.collector in SkippedNames(env)
  }

  /** What set-up promises about the final census, row by row. */
  lemma RegistryAgrees(env: Env)
    requires ValidEnv(env)
    ensures NamesOnce(Registry(env))
    ensures forall c :: c in Registry(env) ==> exists row :: row in FinalCensus(env) && row.collector == c.name
    ensures forall row :: row in FinalCensus(env) ==> RowAgrees(env, Registry(env), row)
  {
    RegistryNamesOnce(env);
    forall c | c in Registry(env) ensures exists row :: row in FinalCensus(env) && row.collector == c.name {
      var j := RegisteredRow(env, c);
      CensusNames(env.cfg, env.lic, Candidates(env), Failures(env));
      assert FinalCensus(env)[j] in FinalCensus(env);
    }
    forall row | row in FinalCensus(env) ensures RowAgrees(env, Registry(env), row) {
      var i :| 0 <= i < |FinalCensus(env)| && FinalCensus(env)[i] == row;
      CensusMatchesRegistry(env, i);
    }
  }
}
