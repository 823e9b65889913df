# graph2otel: verified models of its decision logic

graph2otel polls Microsoft 365 tenants and ships what it finds as OpenTelemetry, together
with generated Grafana dashboards and alert rules. This project models the parts of the
repository where several pieces of code have to agree, or where text is taken apart and put
together again, and proves what they promise.

| file | what it models |
|---|---|
| `Census.dfy` | the availability census: candidates sorted and grouped by name, one transport chosen, one state resolved, coverage applied in place |
| `TenantSetup.dfy` | the set-up of one tenant: its exits, the seven registration loops, their startup failures, the second census pass |
| `Preflight.dfy` | the requirement inventory of the `check` command |
| `Deploy.dfy` | pushing alert rules in three phases, the read-back, pruning, over a server known by what it refuses |
| `ExprEval.dfy` | the template expression evaluator of the console runtime, which works on raw text |
| `Css.dfy`, `CssForms.dfy` | the comment stripper, declaration splitter and `!important` rewriter; what each form of text becomes |
| `Deck.dfy` | the keyed pass over a deck's children |
| `Yaml.dfy`, `Duration.dfy` | the block-YAML printer of the rule generator against a reader; duration spellings |
| `Layout.dfy` | the shelf packer, cutting a panel stream into leaf tabs, putting the introduction first |
| `Tabs.dfy`, `TabFaults.dfy`, `Links.dfy` | conditional rendering of tabs and rows, the structural checker of a manifest, what each violation means, the link patterns it searches for, tab slugs |
| `Supervise.dfy` | the supervised shutdown of the admin server, as interleaved goroutines |
| `Sampler.dfy` | the admin sampler's rates, its rolling cost window, counter deltas |
| `StorageCost.dfy` | the cost model of the storage report |
| `Names.dfy`, `Options.dfy`, `Sequences.dfy`, `Text.dfy`, `Decimal.dfy` | name order, missing values, concatenation, white space and trimming, decimal numbers |

`dafny verify dfyconfig.toml` checks everything.

## How to read it

Code that changes things step by step is a method or a class here: the census overwrites an
array, set-up appends to a registry and a failure list, the push changes a server, the
sampler keeps a window. Each such method is proved equal to a function of its inputs or of
the old state, and the lemmas are about those functions. Lemmas called `...Exactly` or
`...Says` say what such a function gives without its helpers: over the configuration's maps, the
characters of a text, the elements of a manifest, the actions of a run.

Factories, transports, the server's faults, host primitives of JavaScript and clocks are
arbitrary inputs. The assumptions made about what is not modelled:

- Collector names are unique but for the Graph/blob pairs of a source switch
  (`Census.Distinct`), and `source: blob` is set only on a name that both a polled and a blob
  collector carry (`TenantSetup.SourcesSwitchable`).
- A collector's own gate declarations do not depend on the dependencies it was built with
  (`TenantSetup.MetadataFixed`), and a declared peer is a registered name
  (`TenantSetup.PeersRegistered`).
- A licence gate is "no capability required, or it is held".
- The server applies nothing from a file it refuses, and refuses exactly what the deployer
  documents, besides faults of its own. Whether updating a grouped rule without a group
  takes it out of its group is left open (`loses`).
- The polled side of a source switch is a window collector (`Preflight.SwitchesAreWindows`), as
  it is for the three switches there are. What the preflight asks for exactly, and with which
  prerequisites, rests on it.
- The renderer of conditions is arbitrary but for two things: a condition on an undeclared
  variable is true for "matches" and "notMatches", and `.+` matches every value but the empty
  one (`Tabs.Sound`). What other patterns and operators say, and whether a group without items
  shows, is left open.
- The YAML reader covers block sequences and mappings (YAML 1.2.2, sections 8.2.1 and 8.2.2)
  and double-quoted scalars (section 7.3.1), with plain keys.

## Where the code and what is said of it differ

- The Exchange Online loop drops per-mailbox collectors before it looks at the census
  (cmd/graph2otel/tenants.go:1237-1241), so the census can show such a collector as starting
  while nothing is registered. `TenantSetup.AgreementIsExact`: census and registry agree
  exactly when that gate drops no live collector. `TenantSetup.AgreementFails` is a tenant
  where they do not: Exchange Online on, per-mailbox off, one per-mailbox collector.
- The licence and opt-in gate behind the census can never refuse: whatever reaches it has
  passed the same tests (`TenantSetup.GateNeverRefuses`), so its skip reasons are never recorded.
- The preflight asks for the blob category census even where there is no blob ingest for it
  to read (cmd/graph2otel/check.go:236-240), which start-up never registers
  (`Preflight.PreflightExact`); `Preflight.PreflightAsksTooMuch` is such a tenant.
- The expression splitter does not know about quotes: `"a==b"` is compared, not a string.
  `ExprEval.StringLiteralExact` says which string literals evaluate to themselves.
- The YAML printer escapes the backslash, the quote and the line feed, but no carriage
  return and no other control character; an empty list inside a list prints as a string.
  `Yaml.RoundTripExact` says exactly which trees come back.
- The prune calls its order relative to the push equivalent. With both pushes clean it is
  exactly when every pushed name that is not kept goes into no pruned folder and does not sit
  in one within a group (`Deploy.OrderExactly`); so it always is when the keep list covers the
  pushed names (`Deploy.PruneCommutes`), and not always otherwise (`Deploy.GroupLost`).
- The read-back does not compare the folder a rule is in; `Deploy.PushConverges` does.
- The deployer's group look-up is not guarded: a group no folder is mapped to ends the run
  with a traceback and not as an operational error (`Deploy.Grafana.Deploy`).
- The manifest checker is there to keep every condition fail-visible. Its two rules are exact
  for conditions made of the generator's operators and pattern that are to be shown
  (`Tabs.GroupRuleExact`), but it never looks at a group's visibility, at its patterns, at other
  operators, or into a group without items. `Tabs.CleanIsFailVisible` says exactly which clean
  manifests keep a panel visible, judging each condition one variable at a time
  (`Tabs.ShownExactly`), or by its escapes' patterns alone (`Tabs.PatternRuleExact`).
  `Tabs.HidePasses`, `Tabs.PatternPasses`, `Tabs.OperatorPasses` and `Tabs.EmptyOrPasses` are
  manifests it passes, one for each thing it does not look at.
- The title check stands in for unique slugs. It is exact for paths of titles
  (`Tabs.TitlePathUnique`), but links have slugs: those are unambiguous exactly when no two
  siblings share one (`Tabs.SlugPathUnique`), and "A B" and "A  B", which share one, pass
  (`Tabs.SlugClashPasses`).
- The cost model is said to reproduce the measured bytes with neutral knobs. On the fallback
  path it does so exactly when there are none, or neither the append size nor the retention is
  zero (`StorageCost.FallbackReproduces`, `StorageCost.ZeroRetentionForgets`); on the measured
  path exactly when the metered appends, kept for the retention, amount to the bytes resident
  (`StorageCost.MeasuredReproduces`, `StorageCost.MeteredDiffers`). And scaling the volume
  alone is exactly linear (`StorageCost.VolumeIsLinear`), not nearly so.

## Model

| member | source | states |
|---|---|---|
| `Census.SortCorrect` | cmd/graph2otel/availability_inventory.go:62-145 | sorting keeps exactly the candidates and leaves them ascending by name, namesakes being switch pairs with the side of the lesser family first |
| `Census.RankIsAlphabetical` | cmd/graph2otel/availability_inventory.go:19-25 | families are ordered as their names are |
| `Names.LeqExactly` | cmd/graph2otel/availability_inventory.go:130-136 | a name comes before the ones it begins, and otherwise the first difference decides |
| `Census.EndOfGroup` | cmd/graph2otel/availability_inventory.go:162-166 | the inner scan ends at the end of the run of equal names |
| `Census.SelectionsCorrect` | cmd/graph2otel/availability_inventory.go:147-215 | every name gets a selection, and a candidate is selected exactly when it has no rival or is the side the source setting and the blob account switch to |
| `Census.CensusNames` | cmd/graph2otel/availability_inventory.go:147-181 | one row a name, strictly ascending by name, so the closing sort changes nothing |
| `Census.ResolveRows` | cmd/graph2otel/availability_inventory.go:157-174 | the grouping loops compute the selections and their rows in order |
| `Census.CoverCorrect` | cmd/graph2otel/availability_inventory.go:291-332 | a row is covered exactly when it is inactive and an active row declares it; nothing else changes |
| `Census.CoveredBy` | cmd/graph2otel/availability_inventory.go:291-323 | a covered row names the transport of the last active row that declares it, and keeps nothing else |
| `Census.ApplyCoverage` | cmd/graph2otel/availability_inventory.go:291-323 | the in-place promotion, with activity read before any row changes, computes that |
| `Census.ResolveInventory` | cmd/graph2otel/availability_inventory.go:147-181 | the whole first census |
| `Census.FallbackReported` | cmd/graph2otel/availability_inventory.go:183-215 | a fallback is reported exactly for a switched collector whose `source: blob` has no blob account, and then it runs on Graph |
| `Census.CensusRowsAllowed` | cmd/graph2otel/availability_inventory.go:217-283 | under any failures every row carries an admitted pair of state and reason, and only limited rows name limitations, at least one |
| `Census.TenantDecides` | cmd/graph2otel/availability_inventory.go:217-260 | switched on in the tenant's block a collector is disabled only for want of its transport, switched off it is disabled by configuration; neither moves its transport or another's row |
| `Census.ConfigReads` | internal/config/config.go:505-590 | on, opted in and `source: blob` are read from the tenant's block first and the global one second; a collector nobody mentions is on, not opted in, and on Graph |
| `Census.TransportNeeds` | cmd/graph2otel/availability_inventory.go:335-365 | what each family lacks when its transport is not configured |
| `Census.RowSays` | cmd/graph2otel/availability_inventory.go:217-283 | every reason a row can have, and exactly when: configuration before transport, beta before volume, an unread licence before an insufficient one |
| `Census.LimitedNames` | cmd/graph2otel/availability_inventory.go:258-270 | a limited row names exactly the unmet requirements, each limitation beside its capability |
| `Census.FailCorrect` | cmd/graph2otel/tenants.go:232-262 | failures take down exactly the active rows they match and leave every other row as it was |
| `Census.FirstFailureSays` | cmd/graph2otel/tenants.go:246-256 | a row taken down keeps its name, transport and missing capabilities and has the reason of the first failure that matches |
| `Census.ApplyFailures` | cmd/graph2otel/tenants.go:236-256 | the inner loop stops at the first failure that matches |
| `Census.StartupFailurePass` | cmd/graph2otel/tenants.go:220-278 | length, names and order are kept; final active rows are the initial ones matched by no failure; covered means inactive and declared by a still active row, so a failed collector's cover is withdrawn |
| `Census.FinalRow` | cmd/graph2otel/tenants.go:220-262 | a final row that is not covered says what its collector resolved to, or the reason of a failure that matches it |
| `Census.ApplyStartupFailures` | cmd/graph2otel/tenants.go:220-265 | the recomputed census is copied over the inventory row by row |
| `Census.FailedInventoryRows` | cmd/graph2otel/tenants.go:181-218 | a tenant that could not start keeps the census rows in order: none is active or covered, a disabled row is unchanged, every other carries the one reason |
| `Census.StartupFailedInventory` | cmd/graph2otel/tenants.go:181-218 | the grouping loop and the coverage pass compute that census |
| `TenantSetup.AdmittedIsActive` | cmd/graph2otel/availability_inventory.go:217-283 | the census resolves a candidate as active exactly when config, transport, opt-ins and licence admit it |
| `TenantSetup.RowActiveIsLive` | cmd/graph2otel/tenants.go:284-303 | the readiness check's reading of the inventory is exactly "chosen and admitted" |
| `TenantSetup.ChosenUnique` | cmd/graph2otel/availability_inventory.go:183-215 | at most one candidate of a name can be chosen |
| `TenantSetup.LiveWindowPolls` | cmd/graph2otel/tenants.go:907-915 | a window collector the census made live is never the one `source: blob` stands down |
| `TenantSetup.LiveBlobSelected` | cmd/graph2otel/tenants.go:917-979 | a blob collector the census made live passes the twin check whatever the polled names are by then |
| `TenantSetup.GateNeverRefuses` | cmd/graph2otel/tenants.go:1566-1582 | the gate admits whatever the census made live |
| `TenantSetup.GateSays` | cmd/graph2otel/tenants.go:1566-1582 | exactly when the gate is open, and which of its reasons it gives when it is not |
| `TenantSetup.Setup.Ready` | cmd/graph2otel/tenants.go:284-319 | true exactly for a live candidate whose factory built it; a live one that was not built appends its failure |
| `TenantSetup.Setup.Gate` | cmd/graph2otel/tenants.go:1538-1557 | admits by the gate, and otherwise records under the name the first gate that is shut |
| `TenantSetup.Setup.OfferSnapshot` | cmd/graph2otel/tenants.go:543-562 | one snapshot factory adds exactly its collector or its refusal |
| `TenantSetup.Setup.OfferWindow` | cmd/graph2otel/tenants.go:592-619 | one window factory likewise, with the source switch |
| `TenantSetup.Setup.OfferBlob` | cmd/graph2otel/tenants.go:952-994 | one blob factory likewise, with the twin check on the names polled so far |
| `TenantSetup.Setup.OfferEXO` | cmd/graph2otel/tenants.go:1222-1251 | one Exchange Online factory likewise, the per-mailbox gate first |
| `TenantSetup.Setup.RunLoop` | cmd/graph2otel/tenants.go:921-996 | one family's loop adds its registered collectors and refusals in order |
| `TenantSetup.Setup.BuildTransport` | cmd/graph2otel/tenants.go:1012-1057 | what a path needs is built in order, and the first thing missing gives the lane its reason |
| `TenantSetup.Setup.RegisterLane` | cmd/graph2otel/tenants.go:998-1083 | one path: opt-out, transport failure with every factory skipped for its reason, or the loop |
| `TenantSetup.Setup.RunAll` | cmd/graph2otel/tenants.go:543-732 | all seven paths leave exactly the registry, the failure list and the skips with their reasons of the specification |
| `TenantSetup.MatchedByFailure` | cmd/graph2otel/tenants.go:267-278 | no failure matches a live candidate exactly when it registers or the per-mailbox gate dropped it |
| `TenantSetup.RegistryNamesOnce` | cmd/graph2otel/tenants.go:543-732 | no name is registered twice, within a loop or across loops |
| `TenantSetup.RegisteredExactly` | cmd/graph2otel/tenants.go:543-732 | a collector registers exactly when the two layers switch it on and opt it in, its transport is wired and built, its licence suffices, it is on its side of a switch, per-mailbox is opted in to where it matters, and its factory builds what it announced |
| `TenantSetup.MisnamedDeclined` | cmd/graph2otel/tenants.go:302-317 | a factory that builds a collector of another name registers nothing and is recorded as failed under the announced one |
| `TenantSetup.SwitchableExactly` | cmd/graph2otel/config_validation.go:86-110 | a blob source is asked only of collectors offered both as a snapshot or window and over blobs |
| `TenantSetup.RegistryInOrder` | cmd/graph2otel/tenants.go:543-732 | the registry lists the seven paths' collectors in the order of the paths |
| `TenantSetup.LaneSays` | cmd/graph2otel/tenants.go:921-1260 | exactly what takes each path down, and with which reason |
| `TenantSetup.FailedRowSays` | cmd/graph2otel/tenants.go:284-319 | a live collector that did not register has a covered row, or one with its path's reason, or with the refusal's |
| `TenantSetup.SkipsExactly` | cmd/graph2otel/tenants.go:1349-1410 | the skips name exactly the factories of paths that are down and the per-mailbox ones not opted in to, with that reason |
| `TenantSetup.CensusMatchesRegistry` | cmd/graph2otel/tenants.go:543-760 | a final row is active exactly when its name is registered or skipped per mailbox, and registration is on the row's transport |
| `TenantSetup.AgreementIsExact` | cmd/graph2otel/tenants.go:1237-1241 | census and registry agree on every row exactly when no live collector was skipped per mailbox |
| `TenantSetup.AgreementFails` | cmd/graph2otel/tenants.go:1237-1241 | there is a tenant whose census shows a row as active that is not registered |
| `TenantSetup.OneTransportPerSwitch` | cmd/graph2otel/tenants.go:592-619 | a pair registers at most once, on the side switched to; without a blob account that is Graph, which registers when admitted and built |
| `TenantSetup.CheckConflicts` | cmd/graph2otel/tenants.go:851-879 | true exactly when two registered collectors ship the same records |
| `TenantSetup.ConflictExactly` | internal/collectors/conflicts.go:76-101 | that is when one of the registered collectors declares another of them |
| `TenantSetup.NoRecordShipsTwice` | cmd/graph2otel/tenants.go:733-760 | unless set-up aborts, a declared peer is unregistered, and its final row is covered or skipped per mailbox |
| `TenantSetup.RegistryInCensus` | cmd/graph2otel/tenants.go:321-335 | true exactly when every registered name has a row |
| `TenantSetup.RegistryAgrees` | cmd/graph2otel/tenants.go:321-335 | every registered name has a row, names are registered once, and every row agrees with the registry |
| `TenantSetup.SetupTenant` | cmd/graph2otel/tenants.go:384-760 | a tenant is kept without running exactly when its credential or Graph client fails, with the failed census; it aborts exactly on a broken store or a conflict; otherwise registry, final census and skips are the specified ones and agree |
| `TenantSetup.RetainedRunsNothing` | cmd/graph2otel/tenants.go:406-450 | a tenant kept without running has a full census in which a row is disabled exactly when the configuration or its transport stands against it, and otherwise names what was missing |
| `Preflight.RequiredCollectors` | cmd/graph2otel/check.go:196-309 | exactly the specified names get a requirement, each with the permissions its collector declares, none for Office 365, and exactly its own prerequisites; an empty inventory is an error |
| `Preflight.PreflightCoversRuntime` | cmd/graph2otel/check.go:196-303 | with the same config and capabilities every name start-up can register is in the preflight inventory |
| `Preflight.PreflightExact` | cmd/graph2otel/check.go:196-303 | on a clean start the preflight lists exactly what start-up registers, plus the blob category census where there is no blob ingest |
| `Preflight.AskedExactly` | cmd/graph2otel/check.go:196-303 | a collector is asked for exactly when the two layers switch it on and opt it in, its licence suffices, it is on its side of a switch and its transport's own opt-in is set |
| `Preflight.NeedsSay` | cmd/graph2otel/check.go:205-340 | exactly which collectors need which unverifiable prerequisite, and whose declared permissions are looked at |
| `Preflight.AppendsAddUp` | cmd/graph2otel/check.go:214-230 | what two paths ask of one name adds up |
| `Preflight.PreflightAsksTooMuch` | cmd/graph2otel/check.go:236-240 | there is a tenant whose preflight asks for a collector start-up never registers |
| `Preflight.LiveConsidered` | cmd/graph2otel/check.go:205-300 | whatever the census makes live the preflight considers, though it builds the polled names differently |
| `Preflight.ConsideredChosen` | cmd/graph2otel/check.go:205-300 | whatever the preflight considers is the side of its switch the census chooses |
| `Deploy.BatchAt` | grafana/rules_deploy.py:144-160 | each file of a batch is accepted or refused on its own, and a refused one applies nothing |
| `Deploy.PushConverges` | grafana/rules_deploy.py:246-315 | from any state, under any faults and any absent set, a push without failures leaves every rule's content and folder equal to source and reports as ungrouped exactly the rules whose live group differs |
| `Deploy.CleanWrites` | grafana/rules_deploy.py:246-315 | with an accurate absent set a clean push leaves each pushed rule in its folder with its content, in its group exactly when it was in one before |
| `Deploy.UngroupedExactly` | grafana/rules_deploy.py:284-315 | with an accurate absent set those are exactly the rules that were new or sat in no group |
| `Deploy.UngroupedWhatever` | grafana/rules_deploy.py:265-315 | with any absent set they are those, and on a server that takes groups out also the ones wrongly believed absent |
| `Deploy.CleanStores` | grafana/rules_deploy.py:246-315 | a clean push leaves the fields of the source, and a paused flag only where the source says yes |
| `Deploy.ManifestLands` | grafana/rules_deploy.py:259-315 | a clean push leaves each manifest in the folder its group is mapped to, and in that group unless it is reported as ungrouped |
| `Deploy.PushedCount` | grafana/rules_deploy.py:284-315 | a clean push counts as pushed exactly the rules it does not name as ungrouped |
| `Deploy.CleanExactly` | grafana/rules_deploy.py:246-315 | a push reports no failure exactly when nothing but the documented refusals happened in a phase that ran |
| `Deploy.PushFrame` | grafana/rules_deploy.py:249-258 | no run deletes a rule or touches one outside its manifests |
| `Deploy.CreateFailureKeeps` | grafana/rules_deploy.py:265-276 | a create phase that fails, by a refusal or an unreadable outcome, changes no rule that existed; it raises when unreadable and otherwise reports exactly the new rules refused |
| `Deploy.CreateFailureCounts` | grafana/rules_deploy.py:268-276 | it counts the new rules that were created all the same |
| `Deploy.RunReports` | grafana/rules_deploy.py:278-315 | what a run past its create phase reports, clean or not: exactly the un-grouped, the failures of the group phase and of the retry, and the number pushed |
| `Deploy.CleanSettles` | grafana/rules_deploy.py:246-315 | a clean push leaves a settled state |
| `Deploy.RepeatIsStable` | grafana/rules_deploy.py:246-315 | from a settled state another push creates nothing and, under any faults, changes nothing |
| `Deploy.Grafana.PushDir` | grafana/rules_deploy.py:213-243 | the files in any order have the effect of the batch; the outcome may still be unreadable |
| `Deploy.Grafana.ResolveAll` | grafana/rules_deploy.py:259-263 | succeeds exactly when every manifest has a mapped group and the folder token, and otherwise gives what some manifest lacks |
| `Deploy.ProblemExactly` | grafana/rules_deploy.py:129-141 | a manifest lacks its group, a mapped one or the folder token, the first of them being the one reported |
| `Deploy.Grafana.Push` | grafana/rules_deploy.py:246-315 | fails with nothing changed on an unresolvable manifest, and otherwise is the three-phase protocol, counts included |
| `Deploy.Grafana.Deploy` | grafana/rules_deploy.py:461-492 | a failing look-up before the push gives 2 with nothing changed; so does a manifest without group or token, and an unmapped group gives 1; otherwise the server is left as the push leaves it, with 0 exactly when nothing undocumented fails and the read-back is readable, 2 exactly when an outcome or the read-back is unreadable, and settled after any clean push |
| `Deploy.DiffsExact` | grafana/rules_deploy.py:348-373 | no difference is reported exactly when the content is the same, and each differing field is named |
| `Deploy.DiffsSay` | grafana/rules_deploy.py:51-52 | the compared things are the paused flag, absent meaning no, and eight named fields, each with its value and its presence |
| `Deploy.Grafana.Compare` | grafana/rules_deploy.py:348-373 | the loop computes those differences in order |
| `Deploy.Grafana.Readback` | grafana/rules_deploy.py:394-420 | the receipt, name by name |
| `Deploy.NotesExact` | grafana/rules_deploy.py:401-415 | each list of the receipt holds exactly the names it should |
| `Deploy.DriftExact` | grafana/rules_deploy.py:416-420 | drifted exactly when a rule is missing or differs; matched exactly when all content and groups agree |
| `Deploy.ReadbackAfterPush` | grafana/rules_deploy.py:394-420 | after a clean push the read-back is never drifted and names exactly the ungrouped rules |
| `Deploy.Grafana.Prune` | scripts/grafana-prune-rules.py:91-151 | an empty keep list is refused; it succeeds exactly when the server lists its rules and lets every orphan go, and then exactly the orphans are gone; no kept rule and no rule outside the folders is ever touched |
| `Deploy.PrunedExactly` | scripts/grafana-prune-rules.py:91-151 | pruning leaves, as they were, the rules in no pruned folder and those on the keep list |
| `Deploy.PruneCommutes` | scripts/grafana-prune-rules.py:16-18 | with a keep list covering the pushed names, both orders give one state and one push result, under any faults of the push |
| `Deploy.OrderExactly` | scripts/grafana-prune-rules.py:16-18 | with both pushes clean the two orders end in one state exactly when every pushed name is kept, or neither goes into a pruned folder nor sits in one within a group |
| `Deploy.GroupLost` | scripts/grafana-prune-rules.py:16-18 | a grouped rule pushed out of a pruned folder keeps its group in one order and loses it in the other |
| `Deploy.FoldersHoldKeepList` | scripts/grafana-prune-rules.py:91-151 | after both succeed the names in the folders are the keep list exactly when every manifest's folder is among them |
| `ExprEval.Evaluates` | design/console-v2/support.js:205-294 | evaluating the printed text of any expression tree, padded with white space, gives the tree's meaning |
| `ExprEval.ComparisonsMean` | design/console-v2/support.js:213-224 | the four comparisons are strict and loose equality, and their negations, of what both sides evaluate to |
| `ExprEval.NegationAndParens` | design/console-v2/support.js:209-226 | a negation is the boolean of what is not truthy, and parentheses change nothing |
| `ExprEval.NothingOnTheLeft` | design/console-v2/support.js:255-256 | an operator with nothing on its left compares nothing: the text is undefined, or what negating undefined gives |
| `ExprEval.LiteralsMean` | design/console-v2/support.js:227-234 | the four words, numbers and quoted texts evaluate to themselves |
| `ExprEval.UnclosedQuote` | design/console-v2/support.js:231-234 | a quote the same quote does not close is undefined |
| `ExprEval.NumbersExactly` | design/console-v2/support.js:204-204 | digits with an optional sign and fraction are numbers, and nothing else is |
| `ExprEval.IdentifiersExactly` | design/console-v2/support.js:203-203 | which texts are names |
| `ExprEval.VariableMeans` | design/console-v2/support.js:263-266 | a name is looked up in the values, and undefined if there are none |
| `ExprEval.DotMeans` | design/console-v2/support.js:268-273 | a member of what a path reaches is looked up by the host, and undefined of null and undefined |
| `ExprEval.KeyMeans` | design/console-v2/support.js:274-290 | so is what a key in brackets evaluates to |
| `ExprEval.DeadEnds` | design/console-v2/support.js:263-294 | what the path loop does not understand is undefined |
| `ExprEval.BlankMeansNothing` | design/console-v2/support.js:206-207 | so is a text of white space |
| `Text.SpaceCodes` | design/console-v2/support.js:206-206 | the white space that is trimmed, by code point |
| `ExprEval.StringLiteralExact` | design/console-v2/support.js:209-232 | a quoted text evaluates to itself exactly when the splitter finds no operator in it |
| `ExprEval.QuotesDoNotProtect` | design/console-v2/support.js:248-262 | a string with an operator inside is split |
| `ExprEval.ComparisonSplits` | design/console-v2/support.js:248-262 | the splitter finds exactly the operator a comparison was printed with |
| `ExprEval.ParensWrap` | design/console-v2/support.js:237-247 | parentheses printed around balanced text wrap the whole |
| `ExprEval.ParensDoNotWrap` | design/console-v2/support.js:237-247 | parentheses that close earlier do not |
| `ExprEval.Follows` | design/console-v2/support.js:263-294 | following the printed accesses of a path reaches what they mean |
| `ExprEval.ParensWrapWhole` | design/console-v2/support.js:237-247 | the depth loop decides whether the outer parentheses belong together |
| `ExprEval.FindTopLevelEquality` | design/console-v2/support.js:248-262 | the loop finds the first operator outside brackets |
| `ExprEval.ResolveText` | design/console-v2/support.js:205-236 | the recursive evaluator, terminating on every string |
| `ExprEval.MatchBracket` | design/console-v2/support.js:277-287 | the inner loop finds the closing bracket or none |
| `ExprEval.ResolvePathText` | design/console-v2/support.js:263-294 | the path loop, terminating on every string |
| `Css.StripIdempotent` | design/console-v2/support.js:1511-1541 | stripping comments twice is stripping them once, on every text |
| `Css.StripLeavesNone` | design/console-v2/support.js:1511-1541 | no comment is left, and none is made by what the stripping joins |
| `Css.StripIdle` | design/console-v2/support.js:1511-1541 | a text without comments is left as it is |
| `Css.StripMakesNoUrl` | design/console-v2/support.js:1498-1541 | stripping never turns text into an unquoted url token |
| `Css.SplitLossless` | design/console-v2/support.js:1542-1565 | the declarations joined by semicolons are the text |
| `Css.FirstDeclaration` | design/console-v2/support.js:1544-1565 | comment-free text is a declaration that runs to a top-level semicolon, or hangs to the end |
| `Css.JoinSplits` | design/console-v2/support.js:1542-1566 | joined declarations that stand on their own are split at exactly the joints |
| `Css.FinishStands` | design/console-v2/support.js:1566 | what trimming and marking make of a split text stands on its own |
| `Css.ImportantIdempotent` | design/console-v2/support.js:1542-1567 | the rewriter is idempotent on every text, unclosed quotes, parentheses, comments and urls included |
| `Css.ImportantDeclarations` | design/console-v2/support.js:1542-1567 | the output splits into non-empty trimmed declarations, each marked important |
| `Css.ScanUnquotedUrl` | design/console-v2/support.js:1498-1510 | the scan ends where the url token does, or reports none |
| `Css.StripComments` | design/console-v2/support.js:1511-1541 | the quote and escape loop computes the stripped text |
| `Css.SplitDeclarations` | design/console-v2/support.js:1542-1565 | the depth loop computes the declarations |
| `Css.Importantify` | design/console-v2/support.js:1542-1567 | the whole rewriter |
| `CssForms.CommentGoes` | design/console-v2/support.js:1527-1530 | a comment becomes one space and ends at the first star and slash after its opening |
| `CssForms.OpenCommentGoes` | design/console-v2/support.js:1527-1530 | one that is never closed takes the rest with it |
| `CssForms.QuotedKept` | design/console-v2/support.js:1516-1526 | a string is copied, comments, urls and escaped quotes in it included |
| `CssForms.OpenQuotedKept` | design/console-v2/support.js:1516-1526 | so is one that is never closed |
| `CssForms.UrlKept` | design/console-v2/support.js:1498-1510 | an unquoted url is copied to its closing parenthesis, escapes, comments and quotes in it included |
| `CssForms.QuotedUrlKept` | design/console-v2/support.js:1502-1504 | a quoted one is a string behind four characters |
| `CssForms.PlainKept` | design/console-v2/support.js:1531-1534 | any other character is copied, and one of a name keeps what follows from being a url |
| `CssForms.SemicolonParts` | design/console-v2/support.js:1554-1557 | a semicolon parts declarations outside parentheses, and only there |
| `CssForms.ParenthesesNest` | design/console-v2/support.js:1552-1553 | parentheses nest, and a closing one too many does not count |
| `CssForms.QuotedHolds` | design/console-v2/support.js:1548-1551 | nothing in a string parts or nests |
| `CssForms.UrlHolds` | design/console-v2/support.js:1558-1560 | nor does anything in a url |
| `CssForms.PlainHolds` | design/console-v2/support.js:1558-1560 | any other character belongs to its declaration |
| `CssForms.MarkedExactly` | design/console-v2/support.js:1566-1566 | a declaration is left alone exactly when it ends in an exclamation mark and the word, in any capitals, and is marked otherwise |
| `CssForms.FinishedAlone` | design/console-v2/support.js:1566-1566 | declarations are trimmed, and dropped when nothing is left |
| `CssForms.FinishedInOrder` | design/console-v2/support.js:1566-1566 | each for itself, in order |
| `CssForms.EachMarked` | design/console-v2/support.js:1542-1567 | declarations that stand on their own come out of the whole rewriter marked, in their places |
| `Deck.KeysDistinct` | design/console-v2/support.js:493-542 | whenever keys are returned, no two are the same |
| `Deck.MarkNoColon` | design/console-v2/support.js:499-524 | a complete pass makes the marks of whitespace keys well formed, every later slide id having been checked |
| `Deck.RepeatedIdClashes` | design/console-v2/support.js:536-540 | were a repeated id accepted, two slides would share a key |
| `Deck.UncheckedIdsClash` | design/console-v2/support.js:514-524 | with unchecked ids two whitespace keys can be equal |
| `Deck.WalkDeckChildren` | design/console-v2/support.js:493-542 | keys are returned exactly when every child can be keyed; one a child, pairwise distinct |
| `Deck.RefusedExactly` | design/console-v2/support.js:511-540 | the pass gives up exactly for text that is not white space, control flow, and a slide without a proper id or with an earlier one's |
| `Deck.KeysSpelled` | design/console-v2/support.js:511-541 | a slide is keyed by its id, white space by the slide that comes next and the white space before it, anything else by its place |
| `Deck.EarlierCounts` | design/console-v2/support.js:514-518 | the number in a whitespace key counts the earlier ones with its mark |
| `Deck.NextIds` | design/console-v2/support.js:499-510 | the backward loop gives each child the next slide's id |
| `Deck.NextIdExactly` | design/console-v2/support.js:499-510 | the slide that comes next is the first element from there on, if it is a slide and has an id |
| `Yaml.ReadPrinted` | grafana/build_rules.py:164-204 | a reader of the printed subset recovers what the text says of any tree with printable strings |
| `Yaml.RoundTripExact` | grafana/build_rules.py:164-204 | it recovers the tree itself exactly when no string holds a control character but tab and line feed, no list holds an empty container, and the tree is none |
| `Yaml.PrintInjective` | grafana/build_rules.py:164-204 | two such trees with one text are one tree |
| `Yaml.EmptyItemLost` | grafana/build_rules.py:196-202 | an empty list in a list prints as a string does |
| `Yaml.CarriageReturnLost` | grafana/build_rules.py:164-171 | a carriage return breaks the line it is printed on |
| `Yaml.ReplaceIsEscape` | grafana/build_rules.py:170-171 | the three replacements in order escape each character once |
| `Yaml.EmitNoFeed` | grafana/build_rules.py:164-204 | whatever the strings hold, no printed line holds a line feed |
| `Yaml.EntryText` | grafana/build_rules.py:177-191 | the lines of a dictionary entry, a nested block joined already |
| `Yaml.ItemText` | grafana/build_rules.py:194-202 | the lines of a list item, a block's first line moved to the dash |
| `Yaml.Yamlify` | grafana/build_rules.py:174-204 | the printer computes the text the reader was proved against |
| `Yaml.NestedExactly` | grafana/build_rules.py:174-204 | a block under a key is what it is on its own, two columns to the right; in a list its first line stands behind the dash |
| `Yaml.ScalarsExactly` | grafana/build_rules.py:160-204 | anything else stands behind its key or dash as it is on its own, and an empty container in words of its own |
| `Duration.DurationRoundTrip` | grafana/build_rules.py:1637-1670 | parsing the spelling of any number of seconds gives the number back |
| `Duration.SpelledExactly` | grafana/build_rules.py:1648-1670 | leading zero units are left out, trailing ones kept |
| `Duration.UnitsParsed` | grafana/build_rules.py:1637-1646 | any units in order add up, and none at all is refused |
| `Duration.OthersRefused` | grafana/build_rules.py:1637-1646 | so is anything that does not begin with a digit and end with a unit |
| `Decimal.PrintNatExactly` | grafana/build_rules.py:1648-1670 | numbers are written in decimal, without leading zeros |
| `Layout.PackFails` | grafana/v2.py:196-224 | packing fails exactly when a panel is wider than the grid |
| `Layout.PackPlaces` | grafana/v2.py:196-224 | every panel is placed once, in order, at its own size, within 24 columns |
| `Layout.PackExactly` | grafana/v2.py:196-224 | a panel stands beside the last one if it fits within 24 columns, and otherwise on a new shelf below the tallest of the old one |
| `Layout.PackApart` | grafana/v2.py:196-224 | no two rectangles of a row overlap |
| `Layout.RereadPacked` | grafana/boards/common.py:135-145 | reading a packed grid back gives the panels it was packed from |
| `Layout.RepackIsIdle` | grafana/boards/common.py:135-145 | so packing it again changes nothing |
| `Layout.NameHoldsId` | grafana/v2.py:78-86 | an element is named "panel-" and its id, and the name gives the id back |
| `Layout.CutConserves` | grafana/boards/common.py:148-174 | the leaves hold in order exactly the panels after the first marker, one leaf a marker; the others are reported |
| `Layout.DomainPlaces` | grafana/boards/common.py:104-174 | a domain is built exactly when there is a marker and every panel fits, and then places the introduction and each panel once, every leaf packed from its own panels |
| `Layout.PackGrid` | grafana/v2.py:196-224 | the loop over column, row and shelf height computes the packing |
| `Layout.Leaf.Prepend` | grafana/boards/common.py:135-141 | the row is re-packed in place behind the new panel, or left alone |
| `Layout.Board.Leaves` | grafana/boards/common.py:148-174 | the flushing loop builds the packed leaves and appends exactly the stray panels to the violations |
| `Layout.Board.Add` | grafana/boards/common.py:77-132 | the layout of a whole domain |
| `Tabs.ConditionBuilt` | grafana/v2.py:227-265 | a condition is refused exactly when it claims presence without a census, and is fail-visible otherwise |
| `Tabs.ConditionMeans` | grafana/v2.py:227-265 | what the constructor builds shows exactly when a claimed variable has a value or is undeclared, or the census is empty or undeclared; without a claim it builds nothing |
| `Tabs.ConstructorsKeep` | grafana/v2.py:268-308 | rows, leaves and domains keep what they are given and attach that condition |
| `Tabs.ConstructorsBuild` | grafana/v2.py:268-308 | whatever rows, leaves and domains are nested, every condition in the tree is fail-visible |
| `Tabs.HidesExactly` | grafana/v2.py:227-265 | whatever the renderer does with other groups, a fail-visible condition hides exactly with a non-empty census and every sentinel empty |
| `Tabs.PanelHiddenExactly` | grafana/v2.py:227-308 | a placed panel is hidden exactly with a non-empty census and some condition around it all empty, so an empty census shows everything |
| `Tabs.WalkMatches` | grafana/v2.py:505-596 | the checker's two walks see exactly the names placed and the names some placement puts under a condition |
| `Tabs.PathChecked` | grafana/v2.py:526-537 | every condition around a placement is one the checker looks at |
| `Tabs.ShownExactly` | grafana/v2.py:227-265 | a condition of any visibility, operators and patterns shows in every state with empty escapes exactly when it does one variable at a time |
| `Tabs.EscapeSuffices` | grafana/v2.py:227-265 | an escape whose pattern lets the empty value through keeps a shown "or" open, whatever else is in it |
| `Tabs.GroupRuleExact` | grafana/v2.py:619-634 | a condition of plain items that is to be shown shows in every state with empty escapes exactly when it passes the two rules; one that is to be hidden does so only as an "and" that contradicts itself |
| `Tabs.PatternRuleExact` | grafana/v2.py:619-634 | with escapes of any patterns, a condition that is to be shown and passes the two rules does so exactly when one of its escapes, or each for an "and", lets the empty value through |
| `Tabs.CleanIsFailVisible` | grafana/v2.py:599-679 | without violations a placed panel is visible in every state with empty escapes exactly when every condition around it keeps open: without items as the renderer has it, of plain items when it is to be shown, and otherwise one variable at a time |
| `Tabs.EmptyOrPasses` | grafana/v2.py:619-634 | a manifest without violations whose only panel shows as the renderer has an "or" of nothing |
| `Tabs.HidePasses` | grafana/v2.py:619-642 | a manifest without violations whose only panel no state with an empty escape shows, its visibility being "hide" |
| `Tabs.PatternPasses` | grafana/v2.py:619-642 | a manifest without violations that hides its panel with every variable empty, the pattern of its escape matching the empty value |
| `Tabs.OperatorPasses` | grafana/v2.py:619-642 | the same, by an operator no rule looks at |
| `Tabs.StructureExact` | grafana/v2.py:609-642 | the structural checks find nothing exactly when the elements are the ones placed and every condition is safe and names declared variables |
| `TabFaults.PlacementExactly` | grafana/v2.py:607-617 | an element is reported as unplaced, or a name as dangling, exactly when it is only on one side |
| `TabFaults.PlacedExactly` | grafana/v2.py:505-526 | a placement is a row the panel is in, below the conditions of every tab around it, from the outside in, and of the row |
| `TabFaults.ConditionExactly` | grafana/v2.py:619-642 | which conditions are reported, as what, and under which tab or row |
| `Tabs.LinkRuleExact` | grafana/v2.py:644-668 | a link is accepted exactly when its panel exists and is unconditional, or the link names a tab |
| `TabFaults.LinkExactly` | grafana/v2.py:644-668 | a link is reported under its element as going nowhere exactly when no element has its panel's id, and as going where nothing may show exactly when its panel can be hidden and it names no tab |
| `Tabs.LinksReach` | grafana/v2.py:644-668 | without violations a link reaches a placed element of its id, and without a dtab one visible wherever it stands in every state |
| `Links.DashboardPathRead` | grafana/build_rules.py:2230-2237 | the checker reads a rule's deep link as naming its panel and a tab, whatever dashboard and slug |
| `Links.DrillDownRead` | grafana/boards/selfobs.py:137-143 | the checker reads a drill-down link, time range and variables included, as naming its panel and no tab |
| `Links.TargetExactly` | grafana/v2.py:536-536 | a link views a panel exactly when a parameter of that name has a number |
| `Links.FirstCounts` | grafana/v2.py:648-652 | and the first one says which |
| `Links.HasDtabExactly` | grafana/v2.py:537-537 | a link names a tab exactly by "dtab", or by word characters ending in a hyphen in front of it |
| `Tabs.TitlePathUnique` | grafana/v2.py:670-677 | the title check finds nothing exactly when every path of titles means at most one tab |
| `TabFaults.TitleExactly` | grafana/v2.py:670-677 | a title is reported exactly when two siblings have it |
| `Tabs.SlugPathUnique` | grafana/v2.py:89-96 | every path of slugs means at most one tab exactly when no two siblings share a slug, and then the title check finds nothing |
| `Tabs.SlugClashPasses` | grafana/v2.py:670-677 | a manifest without violations in which one slug means two tabs |
| `Links.SlugIdle` | grafana/v2.py:89-96 | a title is its own slug exactly when it holds no white space, and a slug is its own slug |
| `Links.SlugJoins` | grafana/v2.py:89-96 | a slug is the title's words, joined by single hyphens |
| `Tabs.WalkTabs` | grafana/v2.py:505-516 | the depth-first generator |
| `Tabs.PlacedElementNames` | grafana/v2.py:582-596 | the loops collect the placed names |
| `Tabs.ConditionalGroups` | grafana/v2.py:526-537 | the conditions of tabs and rows with their owners, in order |
| `Tabs.ConditionalElementNames` | grafana/v2.py:551-579 | the recursive walk carrying the hidden flag |
| `Tabs.CheckGroup` | grafana/v2.py:619-642 | the faults of one condition |
| `Tabs.CheckLinks` | grafana/v2.py:644-668 | the faults of every link of every element, read from its URL |
| `Tabs.ManifestViolations` | grafana/v2.py:599-679 | every breach is reported, not the first |
| `Supervise.StepKeeps` | cmd/graph2otel/main.go:423-445 | every step of every goroutine keeps the invariant |
| `Supervise.ReturnIsSafe` | cmd/graph2otel/main.go:423-445 | on every interleaving the supervisor returns only after Start returned and its sampler was joined, having called cancel and wait once each in that order; nil only for a cancelled context and a nil Start |
| `Supervise.NothingStopsEarly` | internal/admin/admin.go:156-184 | the sampler runs until the context is cancelled or Start is on its way out, and the tenants until Start has ended and they are cancelled |
| `Supervise.ResultsAreCaused` | internal/admin/admin.go:156-184 | over every run: Start fails exactly when its listener or its shutdown did and ends well exactly when it was closed or shut down; the supervisor returns that failure, or its own error exactly when it looked before the context was cancelled, or else nil |
| `Supervise.RunsEnd` | internal/admin/admin.go:156-184 | every run is finite |
| `Supervise.CancelledRunsReturn` | internal/admin/admin.go:156-184 | once cancelled, a run that can go no further has returned and every goroutine has ended |
| `Supervise.StoppedRunsReturn` | cmd/graph2otel/main.go:432-437 | a server that stops by itself ends the supervisor too, never with nil |
| `Sampler.DeltasConserve` | internal/admin/sampler.go:288-314 | delta rows sum to the difference of totals exactly when no counter stepped back or disappeared, and never to less |
| `Sampler.DeltasTelescope` | internal/admin/sampler.go:288-314 | deltas over adjacent intervals add up |
| `Sampler.DeltaRowsExactly` | internal/admin/sampler.go:288-314 | one row for each attribution that gained something, each counter measured against the earlier row of that attribution or against nothing |
| `Sampler.RatesIntegrate` | internal/admin/sampler.go:187-194 | the recorded rates account for the whole advance of a rising total exactly when it never moved under a standing clock |
| `Sampler.RateExactly` | internal/admin/sampler.go:187-194 | a rate is the advance over the time between, nothing for a total that went back, and there is none without a forward clock |
| `Sampler.RateSampler.Sample` | internal/admin/sampler.go:169-232 | for each of the three counters a rate is recorded exactly for a second reading on a forward clock |
| `Sampler.ObservedKeeps` | internal/admin/sampler.go:247-257 | one more observation leaves the times strictly increasing and within ten minutes of it |
| `Sampler.WindowHolds` | internal/admin/sampler.go:234-257 | what that means for any two observations |
| `Sampler.WindowExactly` | internal/admin/sampler.go:247-257 | what is more than ten minutes old leaves the window, and nothing else |
| `Sampler.ProjectExactly` | internal/admin/sampler.go:275-329 | a projection compares each signal's counters with the same signal's |
| `Sampler.CostSampler.SampleCost` | internal/admin/sampler.go:234-286 | the new window, and a projection exactly when one is due; projections span two to ten minutes and are a minute apart |
| `Sampler.CostSampler.Run` | internal/admin/sampler.go:150-168 | the window and the projections are those of the samples taken one by one, on any clock, and the bounds hold after any of them |
| `Sampler.DeltaVolumeRows` | internal/admin/sampler.go:296-314 | the loop computes the delta rows |
| `StorageCost.RatesConserve` | scripts/storage-report.py:350-366 | on the measured path the containers' rates sum to the account's exactly when there are bytes to share by |
| `StorageCost.FallbackReproduces` | scripts/storage-report.py:365-395 | on the fallback path neutral knobs give back the measured bytes exactly when there are none, or neither the append size nor the retention is zero |
| `StorageCost.ZeroRetentionForgets` | scripts/storage-report.py:365-366 | with a retention of zero days any bytes come back as none |
| `StorageCost.MeasuredReproduces` | scripts/storage-report.py:381-395 | on the measured path they do exactly when the metered appends explain the resident bytes |
| `StorageCost.MeteredDiffers` | scripts/storage-report.py:361-395 | ten metered appends that do not explain five resident bytes make ten of them |
| `StorageCost.RetentionIsFree` | scripts/storage-report.py:381-395 | retention changes neither write cost nor appends |
| `StorageCost.VolumeIsLinear` | scripts/storage-report.py:556-580 | with the volume knob alone the total is today's times the knob, and with none it is today's |
| `StorageCost.BaselineExactly` | scripts/storage-report.py:557-580 | today's figure is the total of the scenario with every knob back where it was |
| `StorageCost.TotalsApart` | scripts/storage-report.py:558-565 | the column totals are what is kept at the storage price, the appends at the write price, and the appends |
| `StorageCost.PricesApart` | scripts/storage-report.py:335-400 | storage is paid for what is kept, the write price for appends, listing and other writes, the read price for reads; the operations outside the containers follow the volume knob in a scenario only |
| `StorageCost.ScaleExactly` | scripts/storage-report.py:369-378 | a container's scale is the volume knob times every knob whose name its own contains |
| `StorageCost.TotalsAdd` | scripts/storage-report.py:229-247 | an operation's total adds up its points |
| `StorageCost.OnePoint` | scripts/storage-report.py:229-247 | a gap, or another operation's point, counts for nothing |
| `StorageCost.ParseTransactions` | scripts/storage-report.py:229-247 | each operation's total, gaps making no entry |
| `StorageCost.ReportTotals` | scripts/storage-report.py:556-580 | the totals loop, and its baseline |

## Left out

- TenantSetup.Setup.RunLoop: one loop with a dispatch on the family stands for the seven loops, whose bodies differ only in the checks modelled.
- TenantSetup.Setup.Gate: the reasons recorded are kinds, not the source's wording, and the interval a collector is admitted with is not kept.
- TenantSetup.SetupTenant: log lines, the licence tier metric, sweeping of checkpoints and the schedulers started at the end.
- Preflight.RequiredCollectors: the requirements are a map by name instead of a list sorted by it, and prerequisites are kinds, not sentences.
- Census.SortCorrect: the sort is a function on values, not in place; that only switch pairs repeat a name is an assumption here and a panic in the source.
- Deploy.Grafana.Push: manifests are records, not text; the byte-level replacement of the folder token and the removal of group lines are fields.
- Deploy.Grafana.Deploy: resolving folder titles is one look-up with listing the live rules, and the read-back on its own is `Deploy.Grafana.Readback`.
- Deploy.Grafana.Prune: orphans are deleted in any order, which covers the sorted one.
- ExprEval.Evaluates: string literals may hold any text in which brackets close and no operator shows; numbers are kept as text, and surrogate pairs are not modelled.
- Yaml.RoundTripExact: keys are plain identifiers, none of them read as a word such as true, and floats are finite.
- Duration.DurationRoundTrip: digits are ASCII and seconds are not negative.
- Tabs.CleanIsFailVisible: conditions are "or" or "and" over variables, and the layouts are tabs, rows and grids.
- Tabs.ManifestViolations: violations are a set of kinds, without the sorted messages; the two link patterns know ASCII letters and digits only.
- Sampler.RateSampler.Sample: rates are kept whole instead of in a ring of the last readings; gauges that are only copied are left out.
- Sampler.CostSampler.SampleCost: whether the projection of the numbers succeeds is an input; counters are unbounded, which differs only where a 64-bit counter would wrap.
- StorageCost.ReportTotals: container names come without their common prefix, and rounding is not modelled.
- Supervise.ReturnIsSafe: sampling ticks change nothing in the state and are left out; Shutdown and the tenants' drain are assumed to end for the two lemmas about runs that return.
- Intervals, lookbacks, schedulers, checkpoints, metadata resolution and the self-identity of a tenant.
- The regular-expression checks over query text, rule and panel data, and the reverse validation of metric names.
- React rendering, module loading and DOM code, and the panel budget of a leaf.
- The graphs, history and formatting of the storage report, and growth rates.
