/**
 Deployment of the alert rules: the three-phase push (grafana/rules_deploy.py), the
 read-back, and the prune of rules the repository no longer defines
 (scripts/grafana-prune-rules.py), over a server known only by what it refuses.
 */
module Deploy {
  import opened Options

  /** The semantic part of a rule. The server drops `paused: false`. */
  datatype Spec = Spec(paused: Option<bool>, fields: map<string, string>)

  function Stored(s: Spec): Spec {
    if s.paused == Some(false) then s.(paused := None) else s
  }

  /** A rule as the server holds it. */
  datatype Rule = Rule(spec: Spec, group: Option<string>, folder: string)

  type Rules = map<string, Rule>

  /** A committed manifest; `token` says whether it carries the folder token. */
  datatype Manifest = Manifest(spec: Spec, group: Option<string>, token: bool)

  /** A manifest whose folder has been filled in. */
  datatype File = File(spec: Spec, group: Option<string>, folder: string)

  type Files = map<string, File>

  /** strip_group_labels. */
  function Strip(f: File): File { f.(group := None) }

  datatype Error = GroupOnCreate | Ungroupable | Other

  // -------------------------------------------------------------- the server

  /** Why the server refuses one file: what it documents, or a fault of its own. */
  function Refusal(rules: Rules, name: string, f: File, fault: bool): Option<Error> {
    if fault then Some(Other)
    else if name !in rules then (if f.group.Some? then Some(GroupOnCreate) else None)
    else if f.group.Some? && rules[name].group.None? then Some(Ungroupable)
    else None
  }

  /** The rule an accepted file leaves. `loses` says whether a rule in a group leaves it when
      it is updated without one, which the server does not document. */
  function Written(rules: Rules, name: string, f: File, loses: bool): Rule {
    Rule(Stored(f.spec), if f.group.None? && name in rules && !loses then rules[name].group else f.group, f.folder)
  }

  /** The rules the accepted files of a batch leave. */
  function Accepted(rules: Rules, files: Files, faults: set<string>, loses: bool): Rules {
    map n | n in files && Refusal(rules, n, files[n], n in faults).None? :: Written(rules, n, files[n], loses)
  }

  /** One batch: every file is accepted or refused on its own, and a refused one applies nothing. */
  function Batch(rules: Rules, files: Files, faults: set<string>, loses: bool): Rules {
    rules + Accepted(rules, files, faults, loses)
  }

  function Refusals(rules: Rules, files: Files, faults: set<string>): map<string, Error> {
    map n | n in files && Refusal(rules, n, files[n], n in faults).Some? ::
      Refusal(rules, n, files[n], n in faults).value
  }

  /** What can go wrong in each phase besides the documented refusals: files that fail, and a
      batch whose outcome cannot be read. */
  datatype Weather = Weather(faults: set<string>, readable: bool)

  datatype Faults = Faults(create: Weather, group: Weather, regroup: Weather, loses: bool)

  // -------------------------------------------------------------- the push

  /** Raised: an operational error. Crashed: a group nobody mapped to a folder. */
  datatype Result =
    | Raised
    | Crashed
    | Done(pushed: nat, failures: map<string, Error>, ungrouped: set<string>)
  {
    predicate Clean() { Done? && failures == map[] }
  }

  datatype Problem = NoGroup | UnmappedGroup | NoToken

  /** What keeps a manifest from being resolved, in the order it is looked for. */
  function ProblemOf(m: Manifest, uids: map<string, string>): Option<Problem> {
    if m.group.None? then Some(NoGroup)
    else if m.group.value !in uids then Some(UnmappedGroup)
    else if !m.token then Some(NoToken)
    else None
  }

  /** Every manifest has a group the caller mapped to a folder, and carries the token. */
  predicate Resolvable(manifests: map<string, Manifest>, uids: map<string, string>) {
    forall n :: n in manifests ==> manifests[n].group.Some? && manifests[n].group.value in uids && manifests[n].token
  }

  function Resolved(manifests: map<string, Manifest>, uids: map<string, string>): Files
    requires Resolvable(manifests, uids)
  {
    map n | n in manifests :: File(manifests[n].spec, manifests[n].group, uids[manifests[n].group.value])
  }

  function Stripped(files: Files, names: set<string>): Files {
    map n | n in files && n in names :: Strip(files[n])
  }

  function Ungroupables(errors: map<string, Error>): set<string> {
    set n | n in errors && errors[n] == Ungroupable
  }

  function Real(errors: map<string, Error>): map<string, Error> {
    map n | n in errors && errors[n] != Ungroupable :: errors[n]
  }

  /** The summary's count of what a batch applied. */
  function Succeeded(files: Files, errors: map<string, Error>): nat { |files.Keys - errors.Keys| }

  /** A phase with nothing to push is not run, so its result is not read. */
  predicate Unread(files: Files, w: Weather) { files != map[] && !w.readable }

  /** The retry of the ungroupable rules without their group. */
  function Regroup(rules: Rules, files: Files, errors: map<string, Error>, faults: Faults): (Rules, Result) {
    var retry := Stripped(files, Ungroupables(errors));
    var after := Batch(rules, retry, faults.regroup.faults, faults.loses);
    if Unread(retry, faults.regroup) then (after, Raised)
    else
      var failures := Real(errors) + Refusals(rules, retry, faults.regroup.faults);
      (after, Done(Succeeded(files, errors), failures, Ungroupables(errors)))
  }

  /** push, once the folders are filled in. */
  function PushFiles(rules: Rules, files: Files, absent: set<string>, faults: Faults): (Rules, Result) {
    var creating := Stripped(files, absent);
    var created := Batch(rules, creating, faults.create.faults, faults.loses);
    var refused := Refusals(rules, creating, faults.create.faults);
    if Unread(creating, faults.create) then (created, Raised)
    else if refused != map[] then (created, Done(Succeeded(creating, refused), refused, {}))
    else
      var grouped := Batch(created, files, faults.group.faults, faults.loses);
      if !faults.group.readable then (grouped, Raised)
      else Regroup(grouped, files, Refusals(created, files, faults.group.faults), faults)
  }

  // -------------------------------------------------------------- one file at a time

  lemma BatchAt(rules: Rules, files: Files, faults: set<string>, loses: bool, n: string)
    ensures n !in files ==> (n in Batch(rules, files, faults, loses) <==> n in rules)
    ensures n !in files && n in rules ==> Batch(rules, files, faults, loses)[n] == rules[n]
    ensures n in files ==>
      var why, after := Refusal(rules, n, files[n], n in faults), Batch(rules, files, faults, loses);
      && (why.None? ==> n in after && after[n] == Written(rules, n, files[n], loses))
      && (why.Some? ==> (n in after <==> n in rules) && (n in rules ==> after[n] == rules[n]))
    ensures n in Refusals(rules, files, faults) <==> n in files && Refusal(rules, n, files[n], n in faults).Some?
    ensures n in Refusals(rules, files, faults) ==>
      Refusals(rules, files, faults)[n] == Refusal(rules, n, files[n], n in faults).value
  {}

  /** The live rule carries the source's content, in the source's folder. */
  predicate Lands(rules: Rules, files: Files, n: string)
    requires n in files
  {
    n in rules && rules[n].spec == Stored(files[n].spec) && rules[n].folder == files[n].folder
  }

  predicate AllGrouped(files: Files) { forall n :: n in files ==> files[n].group.Some? }

  /** Deployment converges, from any server state, under any faults and whatever the caller
      believed to be absent: a push that reports no failures leaves every pushed rule's
      content equal to source, and reports as ungrouped exactly the rules whose live group
      differs from source. */
  lemma PushConverges(rules: Rules, files: Files, absent: set<string>, faults: Faults, n: string)
    requires AllGrouped(files) && PushFiles(rules, files, absent, faults).1.Clean()
    ensures var (after, result) := PushFiles(rules, files, absent, faults);
      && (n in files ==> Lands(after, files, n) && (n in result.ungrouped <==> after[n].group != files[n].group))
      && (n in result.ungrouped ==> n in files)
  {
    var creating := Stripped(files, absent);
    var created := Batch(rules, creating, faults.create.faults, faults.loses);
    BatchAt(rules, creating, faults.create.faults, faults.loses, n);
    BatchAt(created, files, faults.group.faults, faults.loses, n);
    var grouped := Batch(created, files, faults.group.faults, faults.loses);
    RegroupConverges(created, grouped, files, faults, n);
  }

  lemma RegroupConverges(created: Rules, grouped: Rules, files: Files, faults: Faults, n: string)
    requires AllGrouped(files) && grouped == Batch(created, files, faults.group.faults, faults.loses)
    requires Regroup(grouped, files, Refusals(created, files, faults.group.faults), faults).1.Clean()
    ensures var (after, result) := Regroup(grouped, files, Refusals(created, files, faults.group.faults), faults);
      && (n in files ==> Lands(after, files, n) && (n in result.ungrouped <==> after[n].group != files[n].group))
      && (n in result.ungrouped ==> n in files)
  {
    var errors := Refusals(created, files, faults.group.faults);
    var retry := Stripped(files, Ungroupables(errors));
    BatchAt(created, files, faults.group.faults, faults.loses, n);
    BatchAt(grouped, retry, faults.regroup.faults, faults.loses, n);
    var failures := Real(errors) + Refusals(grouped, retry, faults.regroup.faults);
    assert failures == map[] && n !in failures;
    assert n !in Real(errors) && n !in Refusals(grouped, retry, faults.regroup.faults);
  }

  /** The absent set main computes before any mutation. */
  function Absent(rules: Rules, files: Files): set<string> { files.Keys - rules.Keys }

  /** A rule that is new, or that sits in no group. */
  predicate StartsUngrouped(rules: Rules, n: string) { n in rules ==> rules[n].group.None? }

  function Starters(rules: Rules, files: Files): set<string> {
    set n | n in files && StartsUngrouped(rules, n)
  }

  /** With the absent set accurate, the create phase writes exactly the new rules, un-grouped,
      and touches nothing that was there. */
  lemma CreatePhase(rules: Rules, files: Files, faults: set<string>, loses: bool, n: string)
    requires AllGrouped(files)
    ensures var creating := Stripped(files, Absent(rules, files));
      var created := Batch(rules, creating, faults, loses);
      && (n in rules ==> n in created && created[n] == rules[n])
      && (n in created && n !in rules ==>
            n in files && n !in faults && created[n] == Written(rules, n, Strip(files[n]), loses))
      && (n in Refusals(rules, creating, faults) <==> n in files && n !in rules && n in faults)
      && (n in files && n !in faults ==> n in created && (created[n].group.None? <==> StartsUngrouped(rules, n)))
  {
    BatchAt(rules, Stripped(files, Absent(rules, files)), faults, loses, n);
  }

  /** What it takes for a push to report no failure: every phase that runs is read, and no
      file meets a fault in a phase it is in. The documented refusals never count. */
  predicate NothingFails(rules: Rules, files: Files, faults: Faults) {
    && (Absent(rules, files) != {} ==> faults.create.readable)
    && (forall n :: n in files && n !in rules ==> n !in faults.create.faults)
    && faults.group.readable
    && (forall n :: n in files ==> n !in faults.group.faults)
    && (Starters(rules, files) != {} ==> faults.regroup.readable)
    && (forall n :: n in Starters(rules, files) ==> n !in faults.regroup.faults)
  }

  lemma Created(rules: Rules, files: Files, faults: Faults)
    requires AllGrouped(files)
    ensures var creating := Stripped(files, Absent(rules, files));
      && (creating == map[] <==> Absent(rules, files) == {})
      && (Refusals(rules, creating, faults.create.faults) == map[] <==>
            forall n :: n in files && n !in rules ==> n !in faults.create.faults)
  {
    var creating := Stripped(files, Absent(rules, files));
    assert creating.Keys == Absent(rules, files);
    var refused := Refusals(rules, creating, faults.create.faults);
    forall n ensures n in refused <==> n in files && n !in rules && n in faults.create.faults {
      CreatePhase(rules, files, faults.create.faults, faults.loses, n);
    }
    if n :| n in files && n !in rules && n in faults.create.faults { assert n in refused; }
    if refused != map[] { var n :| n in refused; }
  }

  /** The group phase after a create phase that failed nowhere: ungroupable are exactly the
      rules that started un-grouped. */
  lemma GroupPhase(rules: Rules, files: Files, faults: Faults)
    requires AllGrouped(files)
    requires forall n :: n in files && n !in rules ==> n !in faults.create.faults
    ensures var created := Batch(rules, Stripped(files, Absent(rules, files)), faults.create.faults, faults.loses);
      var errors := Refusals(created, files, faults.group.faults);
      && Ungroupables(errors) == Starters(rules, files) - faults.group.faults
      && (Real(errors) == map[] <==> forall n :: n in files ==> n !in faults.group.faults)
  {
    var created := Batch(rules, Stripped(files, Absent(rules, files)), faults.create.faults, faults.loses);
    var errors := Refusals(created, files, faults.group.faults);
    forall n
      ensures n in Ungroupables(errors) <==> n in Starters(rules, files) - faults.group.faults
      ensures n in Real(errors) <==> n in files && n in faults.group.faults
    {
      CreatePhase(rules, files, faults.create.faults, faults.loses, n);
      BatchAt(created, files, faults.group.faults, faults.loses, n);
    }
    if n :| n in files && n in faults.group.faults { assert n in Real(errors); }
    if Real(errors) != map[] { var n :| n in Real(errors); }
  }

  /** The retry meets no documented refusal. */
  lemma RegroupPhase(grouped: Rules, files: Files, names: set<string>, faults: Faults)
    requires forall n :: n in files ==> n in grouped
    requires names <= files.Keys
    ensures var retry := Stripped(files, names);
      && (retry == map[] <==> names == {})
      && Refusals(grouped, retry, faults.regroup.faults).Keys == names * faults.regroup.faults
  {
    var retry := Stripped(files, names);
    assert retry.Keys == names;
    forall n ensures n in Refusals(grouped, retry, faults.regroup.faults) <==> n in names * faults.regroup.faults {
      BatchAt(grouped, retry, faults.regroup.faults, faults.loses, n);
    }
  }

  lemma MergeEmpty(a: map<string, Error>, b: map<string, Error>)
    ensures a + b == map[] <==> a == map[] && b == map[]
  {
    assert (a + b).Keys == a.Keys + b.Keys;
    if a + b == map[] {
      assert a.Keys == {} && b.Keys == {};
    }
  }

  lemma RegroupClean(grouped: Rules, files: Files, errors: map<string, Error>, faults: Faults)
    requires forall n :: n in files ==> n in grouped
    requires Ungroupables(errors) <= files.Keys
    ensures Regroup(grouped, files, errors, faults).1.Clean() <==>
      && Real(errors) == map[]
      && (Ungroupables(errors) != {} ==> faults.regroup.readable)
      && Ungroupables(errors) * faults.regroup.faults == {}
  {
    hide Ungroupables, Real, Stripped, Refusals, Batch;
    var retry := Stripped(files, Ungroupables(errors));
    RegroupPhase(grouped, files, Ungroupables(errors), faults);
    var refused := Refusals(grouped, retry, faults.regroup.faults);
    MergeEmpty(Real(errors), refused);
    assert refused == map[] <==> refused.Keys == {};
  }

  /** Every file's rule exists once the create phase is through. */
  lemma AllThere(rules: Rules, files: Files, faults: Faults)
    requires AllGrouped(files)
    requires forall n :: n in files && n !in rules ==> n !in faults.create.faults
    ensures var created := Batch(rules, Stripped(files, Absent(rules, files)), faults.create.faults, faults.loses);
      forall n :: n in files ==> n in Batch(created, files, faults.group.faults, faults.loses)
  {
    var created := Batch(rules, Stripped(files, Absent(rules, files)), faults.create.faults, faults.loses);
    forall n | n in files ensures n in Batch(created, files, faults.group.faults, faults.loses) {
      CreatePhase(rules, files, faults.create.faults, faults.loses, n);
      BatchAt(created, files, faults.group.faults, faults.loses, n);
    }
  }

  /** A push reports no failure exactly when nothing undocumented goes wrong. */
  lemma CleanExactly(rules: Rules, files: Files, faults: Faults)
    requires AllGrouped(files)
    ensures PushFiles(rules, files, Absent(rules, files), faults).1.Clean() <==> NothingFails(rules, files, faults)
  {
    hide Regroup, Batch, Refusals, Ungroupables, Real, Stripped, Starters, Absent;
    Created(rules, files, faults);
    if forall n :: n in files && n !in rules ==> n !in faults.create.faults {
      GroupPhase(rules, files, faults);
      AllThere(rules, files, faults);
      StartersAreFiles(rules, files);
      var created := Batch(rules, Stripped(files, Absent(rules, files)), faults.create.faults, faults.loses);
      var errors := Refusals(created, files, faults.group.faults);
      RegroupClean(Batch(created, files, faults.group.faults, faults.loses), files, errors, faults);
      if forall n :: n in files ==> n !in faults.group.faults {
        assert Ungroupables(errors) == Starters(rules, files);
        Disjoint(Starters(rules, files), faults.regroup.faults);
      }
    }
  }

  lemma NeverCrashes(rules: Rules, files: Files, absent: set<string>, faults: Faults)
    ensures !PushFiles(rules, files, absent, faults).1.Crashed?
  {
    hide Batch, Refusals, Stripped, Ungroupables, Real;
  }

  lemma Disjoint(a: set<string>, b: set<string>)
    ensures a * b == {} <==> forall n :: n in a ==> n !in b
  {
    if n :| n in a && n in b { assert n in a * b; }
  }

  lemma StartersAreFiles(rules: Rules, files: Files)
    ensures Starters(rules, files) <= files.Keys
  {}

  /** A clean push, the absent set accurate, leaves un-grouped exactly the rules that were new
      or already sat in no group. */
  lemma UngroupedExactly(rules: Rules, files: Files, faults: Faults)
    requires AllGrouped(files) && PushFiles(rules, files, Absent(rules, files), faults).1.Clean()
    ensures PushFiles(rules, files, Absent(rules, files), faults).1.ungrouped == Starters(rules, files)
  {
    hide Batch, Refusals, Real, Stripped, Starters, Ungroupables;
    CleanExactly(rules, files, faults);
    Created(rules, files, faults);
    GroupPhase(rules, files, faults);
    Disjoint(Starters(rules, files), faults.group.faults);
    StartersAreFiles(rules, files);
  }

  /** Whatever the caller believed to be absent, a clean push leaves un-grouped exactly the rules
      that were new or sat in no group, and on a server that takes a group out of a rule it is not
      written with, those wrongly believed absent. */
  lemma UngroupedWhatever(rules: Rules, files: Files, absent: set<string>, faults: Faults, n: string)
    requires AllGrouped(files) && PushFiles(rules, files, absent, faults).1.Clean()
    ensures n in PushFiles(rules, files, absent, faults).1.ungrouped <==>
      n in files && (StartsUngrouped(rules, n) || (n in absent && faults.loses))
  {
    var creating := Stripped(files, absent);
    var created := Batch(rules, creating, faults.create.faults, faults.loses);
    var errors := Refusals(created, files, faults.group.faults);
    var retry := Stripped(files, Ungroupables(errors));
    var grouped := Batch(created, files, faults.group.faults, faults.loses);
    var failures := Real(errors) + Refusals(grouped, retry, faults.regroup.faults);
    assert failures == map[] && n !in failures;
    assert n !in Real(errors) && n !in Refusals(rules, creating, faults.create.faults);
    BatchAt(rules, creating, faults.create.faults, faults.loses, n);
    BatchAt(created, files, faults.group.faults, faults.loses, n);
  }

  /** What a clean push leaves a rule as: the fields of its source, a paused flag only where the
      source says yes. */
  lemma CleanStores(rules: Rules, files: Files, absent: set<string>, faults: Faults, n: string)
    requires AllGrouped(files) && PushFiles(rules, files, absent, faults).1.Clean() && n in files
    ensures var after, source := PushFiles(rules, files, absent, faults).0, files[n].spec;
      && n in after && after[n].spec.fields == source.fields && after[n].folder == files[n].folder
      && (after[n].spec.paused == Some(true) <==> source.paused == Some(true))
      && after[n].spec.paused != Some(false)
  {
    hide PushFiles;
    PushConverges(rules, files, absent, faults, n);
  }

  /** From the manifests on: a clean push leaves each of them under its name, in the folder its group
      is mapped to, and in that group unless it is reported as un-grouped. */
  lemma ManifestLands(rules: Rules, manifests: map<string, Manifest>, uids: map<string, string>,
                      absent: set<string>, faults: Faults, n: string)
    requires Resolvable(manifests, uids) && n in manifests
    requires PushFiles(rules, Resolved(manifests, uids), absent, faults).1.Clean()
    ensures var after, m := PushFiles(rules, Resolved(manifests, uids), absent, faults).0, manifests[n];
      && n in after && after[n].spec.fields == m.spec.fields
      && (after[n].spec.paused == Some(true) <==> m.spec.paused == Some(true))
      && after[n].folder == uids[m.group.value]
      && (n !in PushFiles(rules, Resolved(manifests, uids), absent, faults).1.ungrouped ==> after[n].group == m.group)
  {
    hide PushFiles;
    CleanStores(rules, Resolved(manifests, uids), absent, faults, n);
    PushConverges(rules, Resolved(manifests, uids), absent, faults, n);
  }

  /** A clean push counts as pushed exactly the rules it does not name as un-grouped. */
  lemma PushedCount(rules: Rules, files: Files, faults: Faults)
    requires AllGrouped(files) && PushFiles(rules, files, Absent(rules, files), faults).1.Clean()
    ensures var result := PushFiles(rules, files, Absent(rules, files), faults).1;
      result.pushed == |files| - |result.ungrouped|
  {
    hide Batch, Refusals, Real, Stripped, Starters, Ungroupables;
    CleanExactly(rules, files, faults);
    Created(rules, files, faults);
    GroupPhase(rules, files, faults);
    StartersAreFiles(rules, files);
    Disjoint(Starters(rules, files), faults.group.faults);
    var created := Batch(rules, Stripped(files, Absent(rules, files)), faults.create.faults, faults.loses);
    var errors := Refusals(created, files, faults.group.faults);
    OnlyUngroupable(errors);
    SucceededCount(files, errors);
  }

  lemma SucceededCount(files: Files, errors: map<string, Error>)
    requires errors.Keys <= files.Keys
    ensures Succeeded(files, errors) == |files| - |errors.Keys|
  {
    assert files.Keys == (files.Keys - errors.Keys) + errors.Keys;
    assert |files.Keys| == |files|;
  }

  lemma OnlyUngroupable(errors: map<string, Error>)
    ensures Real(errors) == map[] ==> errors.Keys == Ungroupables(errors)
  {
    if Real(errors) == map[] {
      forall n | n in errors ensures errors[n] == Ungroupable { assert n !in Real(errors); }
    }
  }

  /** Whatever happens, a push deletes nothing and leaves every rule outside its files alone. */
  lemma PushFrame(rules: Rules, files: Files, absent: set<string>, faults: Faults, n: string)
    ensures var after := PushFiles(rules, files, absent, faults).0;
      && (n in rules ==> n in after)
      && (n !in files ==> (n in after <==> n in rules) && (n in rules ==> after[n] == rules[n]))
  {
    hide Batch, Refusals, Real, Ungroupables;
    var creating := Stripped(files, absent);
    var created := Batch(rules, creating, faults.create.faults, faults.loses);
    BatchAt(rules, creating, faults.create.faults, faults.loses, n);
    BatchAt(created, files, faults.group.faults, faults.loses, n);
    var grouped := Batch(created, files, faults.group.faults, faults.loses);
    var retry := Stripped(files, Ungroupables(Refusals(created, files, faults.group.faults)));
    BatchAt(grouped, retry, faults.regroup.faults, faults.loses, n);
  }

  /** The create phase goes wrong: its outcome cannot be read, or a new rule is refused. */
  predicate CreateFails(rules: Rules, files: Files, faults: Faults) {
    || (Absent(rules, files) != {} && !faults.create.readable)
    || exists m :: m in files && m !in rules && m in faults.create.faults
  }

  /** A run whose create phase fails has changed no rule that was there before it. It raises
      when the outcome cannot be read, and otherwise reports exactly the new rules refused and
      none as un-grouped. */
  lemma CreateFailureKeeps(rules: Rules, files: Files, faults: Faults, n: string)
    requires AllGrouped(files) && CreateFails(rules, files, faults)
    ensures var (after, result) := PushFiles(rules, files, Absent(rules, files), faults);
      && (n in rules ==> n in after && after[n] == rules[n])
      && (!faults.create.readable ==> result == Raised)
      && (faults.create.readable ==> result.Done? && result.ungrouped == {})
      && (faults.create.readable ==> result.failures.Keys == Absent(rules, files) * faults.create.faults)
  {
    Created(rules, files, faults);
    CreatePhase(rules, files, faults.create.faults, faults.loses, n);
    var refused := Refusals(rules, Stripped(files, Absent(rules, files)), faults.create.faults);
    forall m ensures m in refused <==> m in Absent(rules, files) * faults.create.faults {
      CreatePhase(rules, files, faults.create.faults, faults.loses, m);
    }
    if m :| m in files && m !in rules && m in faults.create.faults { assert m in Absent(rules, files); }
  }

  /** Its count is of the new rules that were created all the same. */
  lemma CreateFailureCounts(rules: Rules, files: Files, faults: Faults)
    requires AllGrouped(files) && CreateFails(rules, files, faults) && faults.create.readable
    ensures var result := PushFiles(rules, files, Absent(rules, files), faults).1;
      result.Done? && result.pushed == |Absent(rules, files)| - |Absent(rules, files) * faults.create.faults|
  {
    CreateFailureKeeps(rules, files, faults, "");
    var creating := Stripped(files, Absent(rules, files));
    var refused := Refusals(rules, creating, faults.create.faults);
    assert creating.Keys == Absent(rules, files) && |creating.Keys| == |creating|;
    Created(rules, files, faults);
    hide Stripped, Refusals, Batch;
    SucceededCount(creating, refused);
  }

  /** Which rules the group phase refuses: those that started un-grouped, and those that meet a fault. */
  lemma GroupPhaseNames(rules: Rules, files: Files, faults: Faults)
    requires AllGrouped(files)
    requires forall n :: n in files && n !in rules ==> n !in faults.create.faults
    ensures var created := Batch(rules, Stripped(files, Absent(rules, files)), faults.create.faults, faults.loses);
      var errors := Refusals(created, files, faults.group.faults);
      && Real(errors).Keys == files.Keys * faults.group.faults
      && errors.Keys == files.Keys * faults.group.faults + Starters(rules, files)
  {
    var created := Batch(rules, Stripped(files, Absent(rules, files)), faults.create.faults, faults.loses);
    var errors := Refusals(created, files, faults.group.faults);
    forall n
      ensures n in Real(errors) <==> n in files && n in faults.group.faults
      ensures n in errors <==> n in files && (n in faults.group.faults || StartsUngrouped(rules, n))
    {
      CreatePhase(rules, files, faults.create.faults, faults.loses, n);
      BatchAt(created, files, faults.group.faults, faults.loses, n);
    }
  }

  /** What a run that gets past its create phase reports, clean or not: as un-grouped the rules that
      started so and met no fault, as failures the faults of the group phase and those of the retry
      of the un-grouped ones, and as pushed what the group phase applied. */
  lemma RunReports(rules: Rules, files: Files, faults: Faults)
    requires AllGrouped(files) && !CreateFails(rules, files, faults) && faults.group.readable
    ensures var result := PushFiles(rules, files, Absent(rules, files), faults).1;
      var ungrouped := Starters(rules, files) - faults.group.faults;
      if ungrouped != {} && !faults.regroup.readable then result == Raised
      else
        && result.Done? && result.ungrouped == ungrouped
        && result.failures.Keys == files.Keys * faults.group.faults + ungrouped * faults.regroup.faults
        && result.pushed == |files| - |files.Keys * faults.group.faults + Starters(rules, files)|
  {
    var created := Batch(rules, Stripped(files, Absent(rules, files)), faults.create.faults, faults.loses);
    var grouped := Batch(created, files, faults.group.faults, faults.loses);
    var errors := Refusals(created, files, faults.group.faults);
    hide Batch, Refusals, Stripped, Starters, Real, Ungroupables, Regroup, PushFiles, Absent, Succeeded;
    GroupPhase(rules, files, faults);
    GroupPhaseNames(rules, files, faults);
    AllThere(rules, files, faults);
    StartersAreFiles(rules, files);
    PastCreate(rules, files, faults);
    RegroupReports(grouped, files, errors, faults);
    SucceededCount(files, errors);
  }

  lemma PastCreate(rules: Rules, files: Files, faults: Faults)
    requires AllGrouped(files) && !CreateFails(rules, files, faults) && faults.group.readable
    ensures var created := Batch(rules, Stripped(files, Absent(rules, files)), faults.create.faults, faults.loses);
      PushFiles(rules, files, Absent(rules, files), faults) ==
        Regroup(Batch(created, files, faults.group.faults, faults.loses), files,
                Refusals(created, files, faults.group.faults), faults)
  {
    Created(rules, files, faults);
    hide Batch, Refusals, Stripped, Regroup;
  }

  lemma RegroupReports(grouped: Rules, files: Files, errors: map<string, Error>, faults: Faults)
    requires forall n :: n in files ==> n in grouped
    requires Ungroupables(errors) <= files.Keys
    ensures var result := Regroup(grouped, files, errors, faults).1;
      var names := Ungroupables(errors);
      if names != {} && !faults.regroup.readable then result == Raised
      else
        && result.Done? && result.ungrouped == names && result.pushed == Succeeded(files, errors)
        && result.failures.Keys == Real(errors).Keys + names * faults.regroup.faults
  {
    hide Batch, Refusals, Stripped, Real, Ungroupables, Succeeded;
    RegroupPhase(grouped, files, Ungroupables(errors), faults);
  }

  /** The state a clean push leaves: every file's rule has its content, and sits in its group
      or in none. */
  predicate Settled(rules: Rules, files: Files) {
    forall n :: n in files ==> Lands(rules, files, n) && (rules[n].group == files[n].group || rules[n].group.None?)
  }

  lemma CleanSettles(rules: Rules, files: Files, faults: Faults)
    requires AllGrouped(files) && PushFiles(rules, files, Absent(rules, files), faults).1.Clean()
    ensures Settled(PushFiles(rules, files, Absent(rules, files), faults).0, files)
  {
    var (after, result) := PushFiles(rules, files, Absent(rules, files), faults);
    forall n | n in files
      ensures Lands(after, files, n) && (after[n].group == files[n].group || after[n].group.None?)
    {
      PushConverges(rules, files, Absent(rules, files), faults, n);
      UngroupedExactly(rules, files, faults);
      if n in Starters(rules, files) { StarterStays(rules, files, faults, n); }
    }
  }

  /** The server never puts an un-grouped rule into a group. */
  lemma StarterStays(rules: Rules, files: Files, faults: Faults, n: string)
    requires AllGrouped(files) && n in Starters(rules, files)
    requires PushFiles(rules, files, Absent(rules, files), faults).1.Clean()
    ensures var after := PushFiles(rules, files, Absent(rules, files), faults).0;
      n in after ==> after[n].group.None?
  {
    CleanExactly(rules, files, faults);
    CreatePhase(rules, files, faults.create.faults, faults.loses, n);
    var created := Batch(rules, Stripped(files, Absent(rules, files)), faults.create.faults, faults.loses);
    BatchAt(created, files, faults.group.faults, faults.loses, n);
    var grouped := Batch(created, files, faults.group.faults, faults.loses);
    var retry := Stripped(files, Ungroupables(Refusals(created, files, faults.group.faults)));
    BatchAt(grouped, retry, faults.regroup.faults, faults.loses, n);
  }

  lemma BatchIdle(rules: Rules, files: Files, faults: set<string>, loses: bool)
    requires forall n :: n in files && Refusal(rules, n, files[n], n in faults).None? ==>
      n in rules && Written(rules, n, files[n], loses) == rules[n]
    ensures Batch(rules, files, faults, loses) == rules
  {
    var after := Batch(rules, files, faults, loses);
    forall n ensures n in after <==> n in rules { BatchAt(rules, files, faults, loses, n); }
    forall n | n in rules ensures after[n] == rules[n] { BatchAt(rules, files, faults, loses, n); }
    assert after.Keys == rules.Keys;
  }

  /** Repeated deployment is stable: from a settled state a push with the same manifests has
      nothing to create, and under any faults it leaves the server exactly as it was. */
  lemma RepeatIsStable(rules: Rules, files: Files, faults: Faults)
    requires AllGrouped(files) && Settled(rules, files)
    ensures Absent(rules, files) == {} && PushFiles(rules, files, Absent(rules, files), faults).0 == rules
  {
    assert Absent(rules, files) == {};
    var creating := Stripped(files, {});
    assert creating == map[];
    BatchIdle(rules, creating, faults.create.faults, faults.loses);
    BatchIdle(rules, files, faults.group.faults, faults.loses);
    var errors := Refusals(rules, files, faults.group.faults);
    var retry := Stripped(files, Ungroupables(errors));
    forall n | n in retry ensures n in rules && rules[n].group.None? {
      BatchAt(rules, files, faults.group.faults, faults.loses, n);
    }
    BatchIdle(rules, retry, faults.regroup.faults, faults.loses);
  }

  // -------------------------------------------------------------- the read-back

  const COMPARED: seq<string> :=
    ["title", "for", "noDataState", "execErrState", "trigger", "labels", "annotations", "expressions"]

  function Get(s: Spec, field: string): Option<string> {
    if field in s.fields then Some(s.fields[field]) else None
  }

  datatype Diff = PausedDiff | FieldDiff(field: string)

  function FieldDiffs(want: Spec, got: Spec, fields: seq<string>): seq<Diff> {
    if fields == [] then []
    else
      var last := fields[|fields| - 1];
      FieldDiffs(want, got, fields[..|fields| - 1]) +
        if Get(want, last) != Get(got, last) then [FieldDiff(last)] else []
  }

  /** compare: absent and `false` are the same `paused`. */
  function Diffs(want: Spec, got: Spec): seq<Diff> {
    (if (want.paused == Some(true)) != (got.paused == Some(true)) then [PausedDiff] else [])
    + FieldDiffs(want, got, COMPARED)
  }

  lemma {:induction false} FieldDiffsExact(want: Spec, got: Spec, fields: seq<string>, f: string)
    ensures FieldDiff(f) in FieldDiffs(want, got, fields) <==> f in fields && Get(want, f) != Get(got, f)
    ensures PausedDiff !in FieldDiffs(want, got, fields)
  {
    if fields != [] {
      FieldDiffsExact(want, got, fields[..|fields| - 1], f);
      assert fields == fields[..|fields| - 1] + [fields[|fields| - 1]];
    }
  }

  /** The two specs agree on everything a rule means. */
  predicate SameContent(want: Spec, got: Spec) {
    && (want.paused == Some(true) <==> got.paused == Some(true))
    && forall f :: f in COMPARED ==> Get(want, f) == Get(got, f)
  }

  /** No difference is reported exactly when the content is the same, and each field that
      differs is named. */
  lemma DiffsExact(want: Spec, got: Spec)
    ensures Diffs(want, got) == [] <==> SameContent(want, got)
    ensures forall f :: FieldDiff(f) in Diffs(want, got) <==> f in COMPARED && Get(want, f) != Get(got, f)
  {
    hide FieldDiffs, Get;
    forall f ensures FieldDiff(f) in FieldDiffs(want, got, COMPARED) <==> f in COMPARED && Get(want, f) != Get(got, f) {
      FieldDiffsExact(want, got, COMPARED, f);
    }
    FieldDiffsExact(want, got, COMPARED, "");
    var ds := FieldDiffs(want, got, COMPARED);
    if ds != [] {
      assert ds[0] in ds;
      assert ds[0].FieldDiff?;
    }
  }

  /** The read-back compares whether a rule is paused, an absent flag meaning no, and these fields,
      each as it is and whether it is there at all; nothing else. */
  lemma DiffsSay(want: Spec, got: Spec, field: string)
    ensures PausedDiff in Diffs(want, got) <==> (want.paused == Some(true)) != (got.paused == Some(true))
    ensures FieldDiff(field) in Diffs(want, got) <==>
      && field in {"title", "for", "noDataState", "execErrState", "trigger", "labels", "annotations", "expressions"}
      && !(field in want.fields && field in got.fields && want.fields[field] == got.fields[field])
      && (field in want.fields || field in got.fields)
  {
    FieldDiffsAt(want, got, COMPARED, field);
    ComparedFields(field);
    hide FieldDiffs;
    assert forall d :: d in FieldDiffs(want, got, COMPARED) ==> d.FieldDiff? by {
      OnlyFields(want, got, COMPARED);
    }
  }

  lemma ComparedFields(field: string)
    ensures field in COMPARED <==>
      field in {"title", "for", "noDataState", "execErrState", "trigger", "labels", "annotations", "expressions"}
  {}

  lemma {:induction false} FieldDiffsAt(want: Spec, got: Spec, fields: seq<string>, field: string)
    ensures FieldDiff(field) in FieldDiffs(want, got, fields) <==>
      field in fields && Get(want, field) != Get(got, field)
  {
    if fields != [] {
      var init, last := fields[..|fields| - 1], fields[|fields| - 1];
      FieldDiffsAt(want, got, init, field);
      assert fields == init + [last];
    }
  }

  lemma {:induction false} OnlyFields(want: Spec, got: Spec, fields: seq<string>)
    ensures forall d :: d in FieldDiffs(want, got, fields) ==> d.FieldDiff?
  {
    if fields != [] { OnlyFields(want, got, fields[..|fields| - 1]); }
  }

  datatype Status = Matched | MatchedContentUngrouped | Drifted

  datatype Receipt = Receipt(
    absent: seq<string>, divergent: map<string, seq<Diff>>, matching: seq<string>, ungrouped: seq<string>)
  {
    function Status(): Status {
      if absent != [] || divergent != map[] then Drifted
      else if ungrouped != [] then MatchedContentUngrouped
      else Matched
    }
  }

  /** What the read-back adds to its receipt for one name. */
  function Note(rules: Rules, files: Files, r: Receipt, n: string): Receipt
    requires n in files
  {
    if n !in rules then r.(absent := r.absent + [n])
    else
      var diffs := Diffs(files[n].spec, rules[n].spec);
      var s := if rules[n].group != files[n].group then r.(ungrouped := r.ungrouped + [n]) else r;
      if diffs != [] then s.(divergent := s.divergent[n := diffs]) else s.(matching := s.matching + [n])
  }

  function Notes(rules: Rules, files: Files, names: seq<string>): Receipt
    requires forall n :: n in names ==> n in files
  {
    if names == [] then Receipt([], map[], [], [])
    else Note(rules, files, Notes(rules, files, names[..|names| - 1]), names[|names| - 1])
  }

  lemma {:induction false} NotesExact(rules: Rules, files: Files, names: seq<string>, n: string)
    requires forall m :: m in names ==> m in files
    ensures var r := Notes(rules, files, names);
      && (n in r.absent <==> n in names && n !in rules)
      && (n in r.divergent <==> n in names && n in rules && !SameContent(files[n].spec, rules[n].spec))
      && (n in r.matching <==> n in names && n in rules && SameContent(files[n].spec, rules[n].spec))
      && (n in r.ungrouped <==> n in names && n in rules && rules[n].group != files[n].group)
  {
    hide Diffs, SameContent;
    if names != [] {
      var init, last := names[..|names| - 1], names[|names| - 1];
      NotesExact(rules, files, init, n);
      assert names == init + [last];
      if last in rules { DiffsExact(files[last].spec, rules[last].spec); }
    }
  }

  /** A rule that differs from source makes the read-back report drift, and nothing else does. */
  lemma DriftExact(rules: Rules, files: Files, names: seq<string>)
    requires forall n :: n in names <==> n in files
    ensures Notes(rules, files, names).Status() == Drifted <==>
      exists n :: n in files && (n !in rules || !SameContent(files[n].spec, rules[n].spec))
    ensures Notes(rules, files, names).Status() == Matched <==>
      forall n :: n in files ==>
        n in rules && SameContent(files[n].spec, rules[n].spec) && rules[n].group == files[n].group
  {
    hide SameContent, Notes;
    var r := Notes(rules, files, names);
    forall n
      ensures n in r.absent <==> n in files && n !in rules
      ensures n in r.divergent <==> n in files && n in rules && !SameContent(files[n].spec, rules[n].spec)
      ensures n in r.ungrouped <==> n in files && n in rules && rules[n].group != files[n].group
    {
      NotesExact(rules, files, names, n);
    }
    if r.absent != [] { assert r.absent[0] in r.absent; }
    if r.divergent != map[] { var n :| n in r.divergent; }
    if r.ungrouped != [] { assert r.ungrouped[0] in r.ungrouped; }
  }

  lemma StoredIsSame(s: Spec)
    ensures SameContent(s, Stored(s))
  {}

  /** The read-back after a clean push is never "drifted": it is "matched" when nothing was
      reported un-grouped and names exactly the un-grouped rules otherwise. */
  lemma ReadbackAfterPush(rules: Rules, files: Files, absent: set<string>, faults: Faults, names: seq<string>)
    requires AllGrouped(files) && forall n :: n in names <==> n in files
    requires PushFiles(rules, files, absent, faults).1.Clean()
    ensures var (after, result) := PushFiles(rules, files, absent, faults);
      var r := Notes(after, files, names);
      && r.Status() == (if result.ungrouped == {} then Matched else MatchedContentUngrouped)
      && forall n :: n in r.ungrouped <==> n in result.ungrouped
  {
    var (after, result) := PushFiles(rules, files, absent, faults);
    forall n
      ensures n in files ==> n in after && SameContent(files[n].spec, after[n].spec)
      ensures n in result.ungrouped <==> n in files && after[n].group != files[n].group
      ensures n in Notes(after, files, names).ungrouped <==> n in result.ungrouped
    {
      PushConverges(rules, files, absent, faults, n);
      if n in files { StoredIsSame(files[n].spec); }
      NotesExact(after, files, names, n);
    }
    DriftExact(after, files, names);
  }

  // -------------------------------------------------------------- the prune

  /** One of the folders to prune; a rule in no folder is in none of them. */
  predicate FolderPruned(folder: string, folders: set<string>) { folder != "" && folder in folders }

  predicate InFolders(r: Rule, folders: set<string>) { FolderPruned(r.folder, folders) }

  /** What pruning leaves: the rules in no pruned folder and those on the keep list, as they were. */
  lemma PrunedExactly(rules: Rules, folders: set<string>, keep: set<string>, n: string)
    ensures n in Pruned(rules, folders, keep) <==>
      n in rules && (rules[n].folder == "" || rules[n].folder !in folders || n in keep)
    ensures n in Pruned(rules, folders, keep) ==> Pruned(rules, folders, keep)[n] == rules[n]
  {}

  /** Live in one of the folders and not on the keep list. */
  function Orphans(rules: Rules, folders: set<string>, keep: set<string>): set<string> {
    set n | n in rules && InFolders(rules[n], folders) && n !in keep
  }

  function Pruned(rules: Rules, folders: set<string>, keep: set<string>): Rules {
    rules - Orphans(rules, folders, keep)
  }

  lemma BatchWithout(rules: Rules, gone: set<string>, files: Files, faults: set<string>, loses: bool)
    requires gone !! files.Keys
    ensures Batch(rules - gone, files, faults, loses) == Batch(rules, files, faults, loses) - gone
    ensures Refusals(rules - gone, files, faults) == Refusals(rules, files, faults)
  {
    forall n | n in files
      ensures Refusal(rules - gone, n, files[n], n in faults) == Refusal(rules, n, files[n], n in faults)
      ensures Written(rules - gone, n, files[n], loses) == Written(rules, n, files[n], loses)
    {
      assert n !in gone;
    }
    hide Refusal, Written;
    var m := Accepted(rules, files, faults, loses);
    assert m == Accepted(rules - gone, files, faults, loses);
    MergeWithout(rules, gone, m);
    assert Refusals(rules - gone, files, faults) == Refusals(rules, files, faults);
  }

  lemma MergeWithout(rules: Rules, gone: set<string>, m: Rules)
    requires gone !! m.Keys
    ensures (rules - gone) + m == (rules + m) - gone
  {}

  /** Rules outside the pushed files may be deleted before the push or after it, whatever
      goes wrong in the push. */
  lemma PushWithout(rules: Rules, gone: set<string>, files: Files, absent: set<string>, faults: Faults)
    requires gone !! files.Keys
    ensures PushFiles(rules - gone, files, absent, faults).0 == PushFiles(rules, files, absent, faults).0 - gone
    ensures PushFiles(rules - gone, files, absent, faults).1 == PushFiles(rules, files, absent, faults).1
  {
    hide Batch, Refusals, Ungroupables, Real;
    var creating := Stripped(files, absent);
    assert creating.Keys <= files.Keys;
    BatchWithout(rules, gone, creating, faults.create.faults, faults.loses);
    var created := Batch(rules, creating, faults.create.faults, faults.loses);
    BatchWithout(created, gone, files, faults.group.faults, faults.loses);
    var grouped := Batch(created, files, faults.group.faults, faults.loses);
    var retry := Stripped(files, Ungroupables(Refusals(created, files, faults.group.faults)));
    assert retry.Keys <= files.Keys;
    BatchWithout(grouped, gone, retry, faults.regroup.faults, faults.loses);
  }

  lemma SameOrphans(rules: Rules, after: Rules, files: Files, folders: set<string>, keep: set<string>)
    requires files.Keys <= keep
    requires forall n :: n !in files ==> (n in after <==> n in rules) && (n in rules ==> after[n] == rules[n])
    ensures Orphans(after, folders, keep) == Orphans(rules, folders, keep)
  {}

  /** Pruning and pushing commute when the keep list covers the pushed names: one final
      state, one push result, from any state and under any faults of the push. */
  lemma PruneCommutes(rules: Rules, files: Files, folders: set<string>, keep: set<string>, faults: Faults)
    requires files.Keys <= keep
    ensures var pruned := Pruned(rules, folders, keep);
      && PushFiles(pruned, files, Absent(pruned, files), faults).0
           == Pruned(PushFiles(rules, files, Absent(rules, files), faults).0, folders, keep)
      && PushFiles(pruned, files, Absent(pruned, files), faults).1
           == PushFiles(rules, files, Absent(rules, files), faults).1
  {
    hide PushFiles;
    var gone := Orphans(rules, folders, keep);
    var pruned := Pruned(rules, folders, keep);
    assert Absent(pruned, files) == Absent(rules, files);
    PushWithout(rules, gone, files, Absent(rules, files), faults);
    var after := PushFiles(rules, files, Absent(rules, files), faults).0;
    forall n | n !in files ensures (n in after <==> n in rules) && (n in rules ==> after[n] == rules[n]) {
      PushFrame(rules, files, Absent(rules, files), faults, n);
    }
    SameOrphans(rules, after, files, folders, keep);
  }

  /** What a clean push leaves of one file, whatever the state it found. */
  function Final(rules: Rules, files: Files, n: string): Rule
    requires n in files
  {
    Rule(Stored(files[n].spec), if StartsUngrouped(rules, n) then None else files[n].group, files[n].folder)
  }

  lemma CleanWrites(rules: Rules, files: Files, faults: Faults, n: string)
    requires AllGrouped(files) && PushFiles(rules, files, Absent(rules, files), faults).1.Clean() && n in files
    ensures var after := PushFiles(rules, files, Absent(rules, files), faults).0;
      n in after && after[n] == Final(rules, files, n)
  {
    hide PushFiles;
    PushConverges(rules, files, Absent(rules, files), faults, n);
    UngroupedExactly(rules, files, faults);
    if StartsUngrouped(rules, n) { StarterStays(rules, files, faults, n); }
  }

  /** The order cannot tell for one pushed name: it is kept; or it is neither pushed into a
      pruned folder nor taken from one while it sits in a group. */
  predicate OrderBlind(rules: Rules, files: Files, folders: set<string>, keep: set<string>, n: string)
    requires n in files
  {
    n !in keep ==>
      && !FolderPruned(files[n].folder, folders)
      && (n in rules && InFolders(rules[n], folders) ==> rules[n].group.None?)
  }

  /** A rule after both, in either order. */
  lemma BothOrders(rules: Rules, files: Files, folders: set<string>, keep: set<string>, faults: Faults, n: string)
    requires AllGrouped(files)
    requires PushFiles(rules, files, Absent(rules, files), faults).1.Clean()
    requires var pruned := Pruned(rules, folders, keep);
      PushFiles(pruned, files, Absent(pruned, files), faults).1.Clean()
    ensures var pruned := Pruned(rules, folders, keep);
      var pruneFirst := PushFiles(pruned, files, Absent(pruned, files), faults).0;
      var pushFirst := Pruned(PushFiles(rules, files, Absent(rules, files), faults).0, folders, keep);
      && (n !in files ==> (n in pruneFirst <==> n in pushFirst))
      && (n !in files && n in pruneFirst && n in pushFirst ==> pruneFirst[n] == pushFirst[n])
      && (n in files ==> n in pruneFirst)
      && (n in files ==> (OrderBlind(rules, files, folders, keep, n) <==>
            n in pushFirst && pruneFirst[n] == pushFirst[n]))
  {
    hide PushFiles;
    var pruned := Pruned(rules, folders, keep);
    PushFrame(rules, files, Absent(rules, files), faults, n);
    PushFrame(pruned, files, Absent(pruned, files), faults, n);
    if n in files {
      CleanWrites(rules, files, faults, n);
      CleanWrites(pruned, files, faults, n);
    }
  }

  /** Pruning and pushing end in one state, both pushes clean, exactly when the order is blind
      to every pushed name. */
  lemma OrderExactly(rules: Rules, files: Files, folders: set<string>, keep: set<string>, faults: Faults)
    requires AllGrouped(files)
    requires PushFiles(rules, files, Absent(rules, files), faults).1.Clean()
    requires var pruned := Pruned(rules, folders, keep);
      PushFiles(pruned, files, Absent(pruned, files), faults).1.Clean()
    ensures var pruned := Pruned(rules, folders, keep);
      PushFiles(pruned, files, Absent(pruned, files), faults).0
        == Pruned(PushFiles(rules, files, Absent(rules, files), faults).0, folders, keep)
      <==> forall n :: n in files ==> OrderBlind(rules, files, folders, keep, n)
  {
    hide PushFiles, OrderBlind;
    var pruned := Pruned(rules, folders, keep);
    var pruneFirst := PushFiles(pruned, files, Absent(pruned, files), faults).0;
    var pushFirst := Pruned(PushFiles(rules, files, Absent(rules, files), faults).0, folders, keep);
    forall n
      ensures n !in files ==> (n in pruneFirst <==> n in pushFirst)
      ensures n !in files && n in pruneFirst && n in pushFirst ==> pruneFirst[n] == pushFirst[n]
      ensures n in files ==> n in pruneFirst
      ensures n in files ==>
        (OrderBlind(rules, files, folders, keep, n) <==> n in pushFirst && pruneFirst[n] == pushFirst[n])
    {
      BothOrders(rules, files, folders, keep, faults, n);
    }
    SameRules(pruneFirst, pushFirst);
  }

  lemma SameRules(a: Rules, b: Rules)
    ensures a == b <==> forall n :: (n in a <==> n in b) && (n in a && n in b ==> a[n] == b[n])
  {
    if forall n :: (n in a <==> n in b) && (n in a && n in b ==> a[n] == b[n]) { assert a.Keys == b.Keys; }
  }

  /** The orders do differ: a grouped rule moved out of a pruned folder keeps its group when it
      is pushed first, and comes back un-grouped when it is pruned first. */
  lemma GroupLost() returns (rules: Rules, files: Files, faults: Faults)
    ensures AllGrouped(files) && "rule" in files && !OrderBlind(rules, files, {"old"}, {"other"}, "rule")
    ensures var pruned := Pruned(rules, {"old"}, {"other"});
      && PushFiles(rules, files, Absent(rules, files), faults).1.Clean()
      && PushFiles(pruned, files, Absent(pruned, files), faults).1.Clean()
      && PushFiles(pruned, files, Absent(pruned, files), faults).0
           != Pruned(PushFiles(rules, files, Absent(rules, files), faults).0, {"old"}, {"other"})
  {
    var spec, calm := Spec(None, map[]), Weather({}, true);
    rules := map["rule" := Rule(spec, Some("group"), "old")];
    files := map["rule" := File(spec, Some("group"), "new")];
    faults := Faults(calm, calm, calm, false);
    hide PushFiles;
    var pruned := Pruned(rules, {"old"}, {"other"});
    CleanExactly(rules, files, faults);
    CleanExactly(pruned, files, faults);
    OrderExactly(rules, files, {"old"}, {"other"}, faults);
  }

  function NamesIn(rules: Rules, folders: set<string>): set<string> {
    set n | n in rules && InFolders(rules[n], folders)
  }

  /** After both succeed, the rule names in the pruned folders are exactly the keep list,
      provided exactly that every manifest's folder is one of them. */
  lemma FoldersHoldKeepList(rules: Rules, files: Files, folders: set<string>, faults: Faults)
    requires AllGrouped(files) && PushFiles(rules, files, Absent(rules, files), faults).1.Clean()
    ensures var after := Pruned(PushFiles(rules, files, Absent(rules, files), faults).0, folders, files.Keys);
      NamesIn(after, folders) == files.Keys <==>
        forall n :: n in files ==> FolderPruned(files[n].folder, folders)
  {
    hide PushFiles;
    var pushed := PushFiles(rules, files, Absent(rules, files), faults).0;
    var after := Pruned(pushed, folders, files.Keys);
    forall n | n in files
      ensures n in after && after[n].folder == files[n].folder
    {
      PushConverges(rules, files, Absent(rules, files), faults, n);
    }
    assert NamesIn(after, folders) <= files.Keys;
    if NamesIn(after, folders) == files.Keys {
      forall n | n in files ensures FolderPruned(files[n].folder, folders) {
        assert n in NamesIn(after, folders);
      }
    }
  }

  // -------------------------------------------------------------- the programs

  function Only(files: Files, names: set<string>): Files {
    map n | n in files && n in names :: files[n]
  }

  lemma AcceptedStep(rules: Rules, files: Files, names: set<string>, n: string, faults: set<string>, loses: bool)
    requires n in files && n !in names
    ensures var was := Accepted(rules, Only(files, names), faults, loses);
      var now := Accepted(rules, Only(files, names + {n}), faults, loses);
      n !in was && now == if Refusal(rules, n, files[n], n in faults).None?
                          then was[n := Written(rules, n, files[n], loses)] else was
  {
    hide Refusal, Written;
    var few, more := Only(files, names), Only(files, names + {n});
    assert forall m :: m in more <==> m in few || m == n;
    assert forall m :: m in few ==> more[m] == few[m];
  }

  lemma RefusalsStep(rules: Rules, files: Files, names: set<string>, n: string, faults: set<string>)
    requires n in files && n !in names
    ensures Refusals(rules, Only(files, names + {n}), faults) ==
      if Refusal(rules, n, files[n], n in faults).Some?
      then Refusals(rules, Only(files, names), faults)[n := Refusal(rules, n, files[n], n in faults).value]
      else Refusals(rules, Only(files, names), faults)
  {
    hide Refusal;
    var few, more := Only(files, names), Only(files, names + {n});
    assert forall m :: m in more <==> m in few || m == n;
    assert forall m :: m in few ==> more[m] == few[m];
  }

  lemma MergePut(rules: Rules, m: Rules, n: string, r: Rule)
    ensures rules + m[n := r] == (rules + m)[n := r]
  {}

  /** One more file of a batch: the others have not touched its rule. */
  lemma BatchStep(rules: Rules, files: Files, names: set<string>, n: string, faults: set<string>, loses: bool)
    requires n in files && n !in names
    ensures var was := Batch(rules, Only(files, names), faults, loses);
      var now := Batch(rules, Only(files, names + {n}), faults, loses);
      var why := Refusal(was, n, files[n], n in faults);
      && now == (if why.None? then was[n := Written(was, n, files[n], loses)] else was)
      && var refused := Refusals(rules, Only(files, names), faults);
         Refusals(rules, Only(files, names + {n}), faults) ==
           (if why.Some? then refused[n := why.value] else refused)
  {
    var m := Accepted(rules, Only(files, names), faults, loses);
    var was := Batch(rules, Only(files, names), faults, loses);
    AcceptedStep(rules, files, names, n, faults, loses);
    RefusalsStep(rules, files, names, n, faults);
    assert was == rules + m;
    assert (n in was <==> n in rules) && (n in rules ==> was[n] == rules[n]);
    MergePut(rules, m, n, Written(rules, n, files[n], loses));
  }

  lemma OnlySome(rules: Rules, files: Files, faults: set<string>, loses: bool)
    ensures Batch(rules, Only(files, {}), faults, loses) == rules && Refusals(rules, Only(files, {}), faults) == map[]
    ensures Only(files, files.Keys) == files
  {
    assert Only(files, {}) == map[];
  }

  /** What a manifest lacks: the first of a group, a mapped one and the folder token. */
  lemma ProblemExactly(m: Manifest, uids: map<string, string>)
    ensures var mapped := m.group.Some? && m.group.value in uids;
      && (ProblemOf(m, uids) == None <==> mapped && m.token)
      && (ProblemOf(m, uids) == Some(NoGroup) <==> m.group.None?)
      && (ProblemOf(m, uids) == Some(UnmappedGroup) <==> m.group.Some? && !mapped)
      && (ProblemOf(m, uids) == Some(NoToken) <==> mapped && !m.token)
  {}

  /** Some manifest has the problem this result stands for. */
  predicate Unresolved(manifests: map<string, Manifest>, uids: map<string, string>, result: Result) {
    match result
    case Raised => exists n :: n in manifests && ProblemOf(manifests[n], uids) in {Some(NoGroup), Some(NoToken)}
    case Crashed => exists n :: n in manifests && ProblemOf(manifests[n], uids) == Some(UnmappedGroup)
    case Done(_, _, _) => false
  }

  function ExitCode(s: Status): nat { if s == Drifted then 1 else 0 }

  class Grafana {
    const loses: bool
    var alerts: Rules
    var recordings: Rules

    constructor (alerts: Rules, recordings: Rules, loses: bool)
      ensures this.alerts == alerts && this.recordings == recordings && this.loses == loses
    {
      this.alerts, this.recordings, this.loses := alerts, recordings, loses;
    }

    /** The server's answer to one file. */
    method Put(name: string, f: File, fault: bool) returns (why: Option<Error>)
      modifies this`alerts
      ensures why == Refusal(old(alerts), name, f, fault)
      ensures alerts == if why.None? then old(alerts)[name := Written(old(alerts), name, f, loses)] else old(alerts)
    {
      why := Refusal(alerts, name, f, fault);
      if why.None? { alerts := alerts[name := Written(alerts, name, f, loses)]; }
    }

    /** _push_dir: the files in any order; the outcome may turn out unreadable afterwards. */
    method PushDir(files: Files, w: Weather) returns (errors: map<string, Error>, ok: bool)
      modifies this`alerts
      ensures alerts == Batch(old(alerts), files, w.faults, loses)
      ensures errors == Refusals(old(alerts), files, w.faults) && ok == w.readable
    {
      hide Batch, Refusals, Refusal, Written;
      errors := map[];
      var todo := files.Keys;
      ghost var start, seen := alerts, {};
      OnlySome(start, files, w.faults, loses);
      while todo != {}
        invariant todo <= files.Keys && seen == files.Keys - todo
        invariant alerts == Batch(start, Only(files, seen), w.faults, loses)
        invariant errors == Refusals(start, Only(files, seen), w.faults)
        decreases |todo|
      {
        var n :| n in todo;
        BatchStep(start, files, seen, n, w.faults, loses);
        var why := Put(n, files[n], n in w.faults);
        if why.Some? { errors := errors[n := why.value]; }
        todo, seen := todo - {n}, seen + {n};
      }
      assert seen == files.Keys;
      ok := w.readable;
    }

    /** push. Anything missing from a manifest raises before the server is touched. */
    method Push(manifests: map<string, Manifest>, uids: map<string, string>, absent: set<string>, faults: Faults)
      returns (result: Result)
      requires faults.loses == loses
      modifies this`alerts
      ensures !Resolvable(manifests, uids) ==> alerts == old(alerts) && Unresolved(manifests, uids, result)
      ensures Resolvable(manifests, uids) ==>
        (alerts, result) == PushFiles(old(alerts), Resolved(manifests, uids), absent, faults)
    {
      hide PushFiles;
      var problem, files := ResolveAll(manifests, uids);
      if problem.Some? { return if problem.value == UnmappedGroup then Crashed else Raised; }
      result := PushResolved(files, absent, faults);
    }

    /** The three phases. */
    method PushResolved(files: Files, absent: set<string>, faults: Faults) returns (result: Result)
      requires faults.loses == loses
      modifies this`alerts
      ensures (alerts, result) == PushFiles(old(alerts), files, absent, faults)
    {
      hide Batch, Refusals, Stripped, Regroup;
      var creating := Stripped(files, absent);
      var failures, ok := PushSome(creating, faults.create);
      if !ok { return Raised; }
      if failures != map[] { return Done(Succeeded(creating, failures), failures, {}); }
      var errors, read := PushDir(files, faults.group);
      if !read { return Raised; }
      result := RegroupFiles(files, errors, faults);
    }

    /** A phase with nothing to push is not run. */
    method PushSome(files: Files, w: Weather) returns (errors: map<string, Error>, ok: bool)
      modifies this`alerts
      ensures alerts == Batch(old(alerts), files, w.faults, loses)
      ensures errors == Refusals(old(alerts), files, w.faults) && ok == !Unread(files, w)
    {
      hide Batch, Refusals;
      if files != map[] {
        errors, ok := PushDir(files, w);
      } else {
        OnlySome(alerts, map[], w.faults, loses);
        assert Only(map[], {}) == map[];
        errors, ok := map[], true;
      }
    }

    /** The retry, and the summary of the run. */
    method RegroupFiles(files: Files, errors: map<string, Error>, faults: Faults) returns (result: Result)
      requires faults.loses == loses
      modifies this`alerts
      ensures (alerts, result) == Regroup(old(alerts), files, errors, faults)
    {
      hide Batch, Refusals, Stripped, Real, Ungroupables;
      var ungrouped, failures := Classify(errors);
      var retry := Stripped(files, ungrouped);
      var more, ok := PushSome(retry, faults.regroup);
      if !ok { return Raised; }
      return Done(Succeeded(files, errors), failures + more, ungrouped);
    }

    /** Tell the ungroupable rules from the real failures. */
    static method Classify(errors: map<string, Error>) returns (ungrouped: set<string>, failures: map<string, Error>)
      ensures ungrouped == Ungroupables(errors) && failures == Real(errors)
    {
      ungrouped, failures := {}, map[];
      var todo := errors.Keys;
      while todo != {}
        invariant todo <= errors.Keys
        invariant forall n :: n in ungrouped <==> n in errors && n !in todo && errors[n] == Ungroupable
        invariant forall n :: n in failures <==> n in errors && n !in todo && errors[n] != Ungroupable
        invariant forall n :: n in failures ==> failures[n] == errors[n]
        decreases |todo|
      {
        var n :| n in todo;
        if errors[n] == Ungroupable { ungrouped := ungrouped + {n}; } else { failures := failures[n := errors[n]]; }
        todo := todo - {n};
      }
    }

    /** The folder of every manifest, or the first thing missing. */
    static method ResolveAll(manifests: map<string, Manifest>, uids: map<string, string>)
      returns (problem: Option<Problem>, files: Files)
      ensures problem.None? <==> Resolvable(manifests, uids)
      ensures problem.None? ==> files == Resolved(manifests, uids)
      ensures problem.Some? ==> exists n :: n in manifests && ProblemOf(manifests[n], uids) == problem
    {
      files := map[];
      var todo := manifests.Keys;
      while todo != {}
        invariant todo <= manifests.Keys
        invariant forall n :: n in files <==> n in manifests && n !in todo
        invariant forall n :: n in files ==>
          var m := manifests[n];
          m.group.Some? && m.group.value in uids && m.token && files[n] == File(m.spec, m.group, uids[m.group.value])
        decreases |todo|
      {
        var n :| n in todo;
        var m := manifests[n];
        problem := ProblemOf(m, uids);
        if problem.Some? { return problem, files; }
        files := files[n := File(m.spec, m.group, uids[m.group.value])];
        todo := todo - {n};
      }
      problem := None;
    }

    /** compare. */
    static method Compare(want: Spec, got: Spec) returns (diffs: seq<Diff>)
      ensures diffs == Diffs(want, got)
    {
      diffs := [];
      var wantPaused, gotPaused := want.paused == Some(true), got.paused == Some(true);
      if wantPaused != gotPaused { diffs := [PausedDiff]; }
      ghost var head := diffs;
      for i := 0 to |COMPARED|
        invariant diffs == head + FieldDiffs(want, got, COMPARED[..i])
      {
        assert COMPARED[..i + 1][..i] == COMPARED[..i] && COMPARED[..i + 1][i] == COMPARED[i];
        if Get(want, COMPARED[i]) != Get(got, COMPARED[i]) { diffs := diffs + [FieldDiff(COMPARED[i])]; }
      }
      assert COMPARED[..|COMPARED|] == COMPARED;
    }

    /** readback, over the sorted names of the projected rules. */
    method Readback(files: Files, names: seq<string>) returns (r: Receipt)
      requires forall n :: n in names ==> n in files
      ensures r == Notes(alerts, files, names)
    {
      r := Receipt([], map[], [], []);
      for i := 0 to |names|
        invariant r == Notes(alerts, files, names[..i])
      {
        assert names[..i + 1][..i] == names[..i] && names[..i + 1][i] == names[i];
        var n := names[i];
        if n !in alerts {
          r := r.(absent := r.absent + [n]);
        } else {
          var diffs := Compare(files[n].spec, alerts[n].spec);
          if alerts[n].group != files[n].group { r := r.(ungrouped := r.ungrouped + [n]); }
          if diffs != [] {
            r := r.(divergent := r.divergent[n := diffs]);
          } else {
            r := r.(matching := r.matching + [n]);
          }
        }
      }
      assert names[..|names|] == names;
    }

    /** main: 2 for an operational error, 1 for failures, drift or a crash, 0 otherwise. Looking
        up the live rules can fail before the push, which then is not begun, and in the
        read-back. */
    method Deploy(manifests: map<string, Manifest>, uids: map<string, string>, names: seq<string>, faults: Faults,
                  listed: bool, readable: bool)
      returns (code: nat)
      requires faults.loses == loses
      requires forall n :: n in names <==> n in manifests
      modifies this`alerts
      ensures !listed || !Resolvable(manifests, uids) ==> alerts == old(alerts)
      ensures !listed ==> code == 2
      ensures listed && !Resolvable(manifests, uids) ==>
        || (code == 2 && Unresolved(manifests, uids, Raised))
        || (code == 1 && Unresolved(manifests, uids, Crashed))
      ensures listed && Resolvable(manifests, uids) ==>
        var files := Resolved(manifests, uids);
        var (after, result) := PushFiles(old(alerts), files, Absent(old(alerts), files), faults);
        && alerts == after
        && (code == 0 <==> readable && NothingFails(old(alerts), files, faults))
        && (code == 2 <==> result.Raised? || (result.Clean() && !readable))
        && (result.Clean() ==> Settled(alerts, files))
    {
      hide PushFiles, NothingFails, Settled;
      ghost var before := alerts;
      if !listed { return 2; }
      var existing := set n | n in names && n in alerts;
      var absent := manifests.Keys - existing;
      var result := Push(manifests, uids, absent, faults);
      if Resolvable(manifests, uids) {
        assert absent == Absent(before, Resolved(manifests, uids));
        CleanExactly(before, Resolved(manifests, uids), faults);
        NeverCrashes(before, Resolved(manifests, uids), absent, faults);
      }
      if result.Raised? { return 2; }
      if result.Crashed? { return 1; }
      if result.failures != map[] { return 1; }
      var files := Resolved(manifests, uids);
      CleanSettles(before, files, faults);
      if !readable { return 2; }
      ReadbackAfterPush(before, files, absent, faults, names);
      var receipt := Readback(files, names);
      return ExitCode(receipt.Status());
    }

    /** Delete the orphans of one collection, stopping at the first that cannot be deleted. */
    method DeleteAlerts(orphans: set<string>, undeletable: set<string>) returns (gone: set<string>, ok: bool)
      modifies this`alerts
      ensures gone <= orphans && alerts == old(alerts) - gone
      ensures ok <==> orphans * undeletable == {}
      ensures ok ==> gone == orphans
    {
      gone := {};
      while orphans - gone != {}
        invariant gone <= orphans && gone !! undeletable && alerts == old(alerts) - gone
        decreases |orphans - gone|
      {
        var n :| n in orphans - gone;
        if n in undeletable {
          assert n in orphans * undeletable;
          return gone, false;
        }
        alerts := alerts - {n};
        gone := gone + {n};
      }
      ok := true;
    }

    method DeleteRecordings(orphans: set<string>, undeletable: set<string>) returns (gone: set<string>, ok: bool)
      modifies this`recordings
      ensures gone <= orphans && recordings == old(recordings) - gone
      ensures ok <==> orphans * undeletable == {}
      ensures ok ==> gone == orphans
    {
      gone := {};
      while orphans - gone != {}
        invariant gone <= orphans && gone !! undeletable && recordings == old(recordings) - gone
        decreases |orphans - gone|
      {
        var n :| n in orphans - gone;
        if n in undeletable {
          assert n in orphans * undeletable;
          return gone, false;
        }
        recordings := recordings - {n};
        gone := gone + {n};
      }
      ok := true;
    }

    /** The prune. With nothing to keep it refuses before it looks at the server. The last two
        parameters are the rules of each collection the server will not delete. */
    method Prune(folders: set<string>, keep: set<string>, listable: bool, dryRun: bool,
                 stuckAlerts: set<string>, stuckRecordings: set<string>)
      returns (code: nat)
      modifies this
      ensures code == 2 <==> keep == {}
      ensures code == 0 <==> (
        && keep != {} && listable
        && (dryRun || (Orphans(old(alerts), folders, keep) * stuckAlerts == {}
                       && Orphans(old(recordings), folders, keep) * stuckRecordings == {})))
      ensures code == 2 || dryRun || !listable ==> alerts == old(alerts) && recordings == old(recordings)
      ensures alerts.Keys <= old(alerts).Keys && recordings.Keys <= old(recordings).Keys
      ensures code == 0 && !dryRun ==>
        alerts == Pruned(old(alerts), folders, keep) && recordings == Pruned(old(recordings), folders, keep)
      ensures forall n :: n in old(alerts) && (n in keep || !InFolders(old(alerts)[n], folders)) ==>
        n in alerts && alerts[n] == old(alerts)[n]
      ensures forall n :: n in old(recordings) && (n in keep || !InFolders(old(recordings)[n], folders)) ==>
        n in recordings && recordings[n] == old(recordings)[n]
    {
      if keep == {} { return 2; }
      if !listable { return 1; }
      var staleAlerts, staleRecordings := Orphans(alerts, folders, keep), Orphans(recordings, folders, keep);
      if dryRun { return 0; }
      var gone, ok := DeleteAlerts(staleAlerts, stuckAlerts);
      if !ok { return 1; }
      var more, done := DeleteRecordings(staleRecordings, stuckRecordings);
      return if done then 0 else 1;
    }
  }
}
