# Verification of mimir-operator

The operator keeps the rules of Mimir tenants in step with the PrometheusRules of a Kubernetes
cluster. Each MimirRules object names a tenant and selects PrometheusRules; the operator rewrites
them (overrides, external labels), posts them to the Mimir ruler of the tenant, and deletes from
it what is no longer selected. This project models that behaviour in Dafny and proves properties
of it. `dafny verify dfyconfig.toml` checks all of it.

## What is modelled

**The operator as a transition system** (`Operator`). A system is a cluster of PrometheusRules,
the rules whose last change the watch handler has still to see, the MimirRules objects with the
work queue and the reconciliation each has under way, and the remote rules of every tenant. Each
Kubernetes or Mimir call of `Reconcile` is one step. A call can be refused, or take effect and be
reported as failed, and deleting a namespace that is not there can be answered with 404. Steps of
different MimirRules interleave freely with users creating, changing and deleting objects and
rules and setting other finalizers, with the watch handler, and with crashes of the operator. A
panic, in the transformation of a rule or in the handler, is a step with the effect of a crash.
The handler is one step: it lists the MimirRules, looks up the rule, and lists the rules each
MimirRules selects, all at once; `RuleWatch` has it call by call and proves that this is what the
step does. A list call of the handler that fails makes it panic as well, which is a crash.
Object updates carry a resource version and are refused when it is out of date; any change of an
object queues its key. A status holds its error, told apart by what failed: a call with the text
it gave, a selector, a duration in a text, or a namespace answered with 404. Over all runs of this
system:

- `Finalizers`: a tenant that has rules has an object that carries the finalizer. Another
  finalizer on the object breaks this: once the operator's own is off, the object being deleted is
  synchronised like any other (`ForeignFinalizers`). The guard holds in all runs exactly if no
  other finalizer is ever set, and each way of setting one is enough to break it: at creation,
  later, or by a foreground deletion.
- `Agreement`: a MimirRules is queued, in flight, failed, or in agreement with what it selects, up
  to rules whose change is waiting for the handler or was dropped by it; a quiet cluster with no
  change dropped is in agreement. `RefRules` is a precise index of whom a rule change concerns.
  If the handler cannot list the MimirRules it drops the event, and `LostEventExactly` says when
  this does harm.
- `Isolation`: short of a panic, the reconciliations of distinct tenants do not affect each other.
  A panic in one of them ends all of them and queues every object. The handling of rule changes is
  shared: one stored MimirRules with an invalid selector makes the handler panic at any change of
  a rule that exists, whoever selects the rule.
- `Convergence`, `Endings`: in a cluster that no longer changes, schedules of one MimirRules
  without failing calls that cannot go on have come to rest, and what is then there is what the
  attempts report: agreement, if all selectors are valid and everything selected can be transformed
  and decoded. An object being deleted is retried until it is gone, on a remote that answers 404
  after one failure for each namespace with two groups or more.
- `Retries`: the exact condition under which a MimirRules, taken alone, is retried for ever although
  no call fails: all selectors are valid, and the transformation of something selected panics, or
  two selected texts differ in whether, or why, they do not decode. In the latter case the names
  posted before the failure and the error reported follow the random order of a Go map, the status
  changes with them, and each change queues the key again.
- `EndlessRuns`: the same for the whole operator, everything interleaved. From any state with no
  reconciliation under way it can go on for ever exactly if the handler is to panic over a pending
  change, or such a MimirRules is queued or to be queued for one; and it panics again and again,
  which queues every healthy MimirRules each time, exactly if the handler is to panic or a
  MimirRules is due that panics. A state from which nothing can go on is quiet.

**The calls of one synchronisation** (`Selection`, `RemoteRuler`, `RuleSync`, `Teardown`,
`FullSync`). The methods follow the Go functions loop by loop against a `Mimir` object that
records its calls and can fail at any of them. A sync lays the wanted groups over what a wanted
namespace held, and never deletes a stale group in it; the theorems say exactly that. Deleting a
tenant asks to delete a namespace once for each of its groups, and `Teardown` counts the attempts
this costs when the remote refuses to delete an absent namespace. Wherever one of them is cut off,
its calls, the tenant and `RefRules` are stated; and `SyncSteps` and `RemovalSteps` prove the same
of the steps of the transition system, whatever answers the calls get.

**The in-place transformation** (`SwapScan`, `RuleModel`, `RuleHeap`, `LabelHeap`).
`applyOverrides` ranges over a saved slice header while it overwrites and removes elements of
the same array, and label maps are shared between an override and all the rules it hits and then
written in place. `RuleHeap` and `LabelHeap` run on arrays and heap-allocated maps. `SwapScan`
gives the exact condition under which no index is out of range, and what is then left. The
condition can fail: a group whose first rule is disabled and whose last rule has an override
makes the operator panic, and so does the same situation among groups. `RuleLoading` sets up the
arrays and maps from decoded objects and reads the outcome off, so that `FullSync` runs this code.

**Durations and timestamps** (`Decimal`, `DurationText`, `DurationSpelling`, `Timestamps`). The
duration parser accepts exactly the texts of a grammar with an exact sum that fits; its arithmetic,
in `uint64`, never wraps. `DurationSpelling` says the same letter by letter, with the reason for
each refusal and the text printed. Parsing a printed duration gives it back to the millisecond if
and only if it is above minus one millisecond. A timestamp is read right unless it is a negative
number of at least one second with a fraction: the fraction is then added with the wrong sign.

## Assumptions

- One MimirRules for each tenant, with ID and URL fixed; only the operator writes to the tenant.
- Kubernetes reads are current. Listing an empty tenant succeeds.
- Kubernetes namespaces contain no underscore (section 2.1 of RFC 1123). With one, two rules can
  get the same Mimir namespace (`Selection.KeyTextCollides`).
- Only the operator takes its finalizer off an object.
- A panic of the operator is not recovered from; after a restart every MimirRules is queued and
  every rule is handled.
- Kubernetes accepts no new finalizer on an object being deleted, but for one set by the deletion.
- Decoding a text stops at the first duration it refuses, in the order of the text, and its error
  names that duration.
- Encoding a PrometheusRule and decoding it again is the identity on its groups, but for the
  duration fields, which are parsed and printed.
- The number of fraction digits of a timestamp that count is the constant 3.

The documentation differs from the code in two places, and the model follows the code: the Mimir
namespace is the Kubernetes namespace and the name joined by `_` (`docs/index.md` shows `-`), and
an empty list of selectors selects nothing (`docs/index.md` says `{}` selects everything).

## Model

| member | source | states |
|---|---|---|
| `Agreement.NeverForgotten` | internal/controller/mimirrules/mimirrules_controller.go:113-185 | at any time of any run, a MimirRules is queued, in flight, gone, failed, or its tenant holds what it selects and RefRules lists it, up to rules whose last change is waiting for the handler, or was dropped by it and neither handled since nor followed by a restart |
| `Agreement.QuietMeansAgreement` | internal/controller/mimirrules/mimirrules_controller.go:205-216 | in a quiet cluster with no such dropped change each MimirRules is gone, failed, or reports success with no unwanted namespace on the remote, every wanted group with the wanted content, and RefRules the ascending list of the wanted names |
| `Agreement.StepKeepsTracked` | internal/controller/mimirrules/mimirrules_controller.go:44-86 | the invariant behind this, kept by every step, a dropped event included: an in-flight snapshot is right about each handled rule, or lists one that the stored RefRules lacks, so that the status is going to change |
| `Agreement.SaveStatusKeeps` | internal/controller/mimirrules/mimirrules_controller.go:190-203 | a status update that changes nothing leaves nothing out of date |
| `Agreement.PostKeeps` | internal/controller/mimirapi/rules.go:58-63 | posting a group adds it to its namespace and disturbs no namespace delivered before |
| `Agreement.TriggerComplete` | internal/controller/mimirrules/mimirrules_controller.go:140-185 | after a successful sync a change of one rule requests exactly the MimirRules that selected it before or select it now, hence all whose desired output changes |
| `Agreement.StillInAgreement` | internal/controller/mimirrules/mimirrules_controller.go:161-180 | when one rule changes, a tenant in agreement still is exactly if the rule is selected as before and, if it is, its namespace already delivers the new text |
| `Agreement.LostEventExactly` | internal/controller/mimirrules/mimirrules_controller.go:142-146 | when the handler drops the event of any one change of a rule, a quiet cluster is quiet again, and a successful MimirRules is right exactly under that condition |
| `Agreement.LostEventLeavesStale` | internal/controller/mimirrules/mimirrules_controller.go:142-146 | in particular a deleted rule that was selected and has content stays on the remote |
| `Finalizers.FinalizerGuards` | internal/controller/mimirrules/mimirrules_controller.go:61-85 | over all runs without other finalizers, a tenant with rules has an object that carries the finalizer, and no group is posted unless the finalizer is in place |
| `Finalizers.FinalizerLeavesLast` | internal/controller/mimirrules/mimirrules_controller.go:71-83 | the finalizer only goes by the operator's own update, with the tenant empty before and after |
| `Finalizers.StepKeepsSafe` | internal/controller/mimirrules/mimirrules_controller.go:44-86 | every step that sets no other finalizer keeps the lifecycle invariant of every node |
| `ForeignFinalizers.ForeignLeaks` | internal/controller/mimirrules/mimirrules_controller.go:71-85 | any run that has come to an object being deleted that only another finalizer keeps alive can go on to the object gone and rules on its tenant, if it selects a rule with a group to post and everything it selects can be transformed |
| `ForeignFinalizers.GuardExactly` | internal/controller/mimirrules/mimirrules_controller.go:61-85 | from any beginning, the guard holds after all runs that set other finalizers only in the given ways (at creation, later, or with a foreground deletion) exactly if there is no such way |
| `Isolation.Alone` | internal/controller/mimirapi/client.go:128 | what a run does to a MimirRules and its tenant is what the run does with all steps of other MimirRules left out, but that a panic, whoever causes it, is a crash |
| `Isolation.PanicTakesAll` | internal/controller/mimirrules/rules.go:38-41 | a panic, in one reconciliation or in the handler, ends all of them, queues every stored object and makes every rule pending |
| `Isolation.HandlingTakesAll` | internal/controller/mimirrules/mimirrules_controller.go:166-170 | the handler panics exactly if it would with one of the MimirRules alone, and else does to each what it would do to that one alone |
| `Isolation.BlockedStaysPending` | internal/controller/mimirrules/mimirrules_controller.go:219-226 | while some stored MimirRules has an invalid selector and the rule exists, its change stays unhandled, in every run that does not drop it, panics and restarts included, and the cluster does not come to be quiet |
| `RuleWatch.ReconcileOnPrometheusRuleChange` | internal/controller/mimirrules/mimirrules_controller.go:140-185 | the loops of the handler: no request if the MimirRules cannot be listed; else the MimirRules that select the rule or list it in RefRules, in list order; a panic exactly if the list of rules of some MimirRules did not come about, which with reliable calls is an invalid selector and a rule not known to be gone |
| `RuleWatch.Contains` | internal/controller/mimirrules/mimirrules_controller.go:219-226 | true exactly if namespace and name occur, and a panic exactly on a nil list |
| `RuleWatch.HandleIsHandler` | internal/controller/mimirrules/mimirrules_controller.go:140-185 | handling a change in the transition system panics exactly if the handler does with every call succeeding, and otherwise queues exactly the requests it returns |
| `Operator.NodeStep` | internal/controller/mimirapi/client.go:128 | the rules of a tenant change only by a reconciliation of its own MimirRules |
| `RemoteRuler.FaultMeaning` | internal/controller/mimirapi/rules.go:51-56 | an error is reported for a text exactly if it does not decode |
| `Readiness.StepKeepsAllReady` | internal/controller/mimirrules/mimirrules_controller.go:44-86 | every step keeps the order of a reconciliation: a namespace answered with 404 lies below all that is left of the tenant and above the one of the attempt before |
| `Outcomes.OutcomeUnique` | internal/controller/mimirrules/mimirrules_controller.go:190-203 | unless an attempt panics or two selected texts differ in whether or why they do not decode, a status that an attempt would report again is the only one it can report |
| `Convergence.NoEndlessSchedule` | internal/controller/mimirrules/mimirrules_controller.go:44-86 | in a cluster that no longer changes, no endless sequence of steps without failing calls, panics and restarts among them, starts at a node that is being deleted or whose attempts come out in one way |
| `Convergence.StepDescends` | internal/controller/mimirrules/mimirrules_controller.go:44-86 | each such step lowers a rank made of whether the attempt is out of date, the changes of the object still to come, and the position in the reconciliation |
| `Convergence.EveryActionAdvances` | internal/controller/mimirrules/rules.go:32-78 | every call, failed or not, and every panic, moves a reconciliation towards its end |
| `Endings.Progress` | internal/controller/mimirrules/mimirrules_controller.go:44-86 | a node that is not at rest can take a step without a failing call |
| `Endings.SchedulesEndInAgreement` | internal/controller/mimirrules/mimirrules_controller.go:113-122 | a schedule that cannot go on has come to rest, whatever the spec; then the object is gone and the tenant empty, or the status is what attempts report, and that is success with the tenant in agreement if all selectors are valid and all selected texts decode |
| `Endings.RemovalIsRetried` | internal/controller/mimirrules/mimirrules_controller.go:71-83 | an object being deleted is retried until it is gone and its tenant empty; a remote that answers 404 makes it fail exactly once for each namespace with two groups or more, another never |
| `Endings.HealthyOnceHandled` | internal/controller/mimirrules/mimirrules_controller.go:205-216 | such schedules can start after any run, failures and crashes included, at any MimirRules that is queued, once rule changes have been handled |
| `Retries.RetriedForever` | internal/controller/mimirrules/rules.go:50-60 | a queued MimirRules, taken alone, can be retried for ever without a failing call exactly if its selectors are valid, and what it selects makes the transformation panic or two selected texts differ in whether or why they do not decode |
| `Retries.RestlessExample` | internal/controller/mimirapi/rules.go:51-56 | overrides that set the durations 5x and 7x on two selected alerts meet that condition |
| `EndlessRuns.BusyForever` | internal/controller/mimirrules/mimirrules_controller.go:44-86 | from any state with no reconciliation under way, the whole operator, all nodes interleaved with the handler, can go on for ever without a failing call exactly if the handler is to panic over a pending change, or a MimirRules is due whose attempts panic or do not all fail alike |
| `EndlessRuns.StartedForever` | internal/controller/mimirrules/mimirrules_controller.go:44-86 | after a start of the operator, in any state a run can lead to, that is: if some stored object not being deleted has such attempts, or some stored selector is invalid while there is a rule |
| `EndlessRuns.RestartedForever` | internal/controller/mimirrules/rules.go:38-41 | it can panic again and again for ever exactly if the handler is to panic, or a MimirRules is due whose attempts do |
| `EndlessRuns.EventDescends` | internal/controller/mimirrules/mimirrules_controller.go:44-86 | short of that, each event lowers the number of pending changes, or leaves it and lowers the sum of the ranks of all nodes |
| `EndlessRuns.StuckIsQuiet` | internal/controller/mimirrules/mimirrules_controller.go:44-86 | no event without a failing call is possible exactly if nothing is queued, in flight or pending |
| `RuleLoading.TransformFound` | internal/controller/mimirrules/rules.go:38-41 | between decoding and encoding, the in-place code panics exactly if the transformation of some rule found does, and otherwise each is what its transformation gives |
| `FullSync.SyncRulesToRuler` | internal/controller/mimirrules/rules.go:32-78 | success brings the tenant into agreement with what is selected, and leaves the store `Synced`; a sync that ends before anything is posted leaves RefRules and the tenant as they were; one that fails later leaves in RefRules the wanted names in ascending order once all has been posted, and else the names visited before the one in which it failed, in the order of visiting; a namespace that is wanted and was there is there in any case; with reliable calls it panics exactly if all selectors are valid and some selected rule does, and succeeds exactly if all are valid and every selected rule can be transformed and decoded |
| `FullSync.UnpackedSelected` | internal/controller/mimirrules/rules.go:228-260 | the texts to post are one for each selected rule, under its name, as transformed |
| `RuleSync.PushRules` | internal/controller/mimirrules/rules.go:49-78 | wherever it is cut off, only wanted namespaces were posted to, each with a prefix of its groups, none whose text does not decode; nothing is deleted before all was posted, and only unwanted namespaces, in order up to the first failure; if it was cut off while posting, RefRules is the names visited before the one in which it failed, each posted in full, in that order; and after that, whether it fails or not, all the wanted names in ascending order; on success the store is `Synced` |
| `SyncSteps.SyncIsPushRules` | internal/controller/mimirrules/rules.go:32-78 | in the transition system, whatever the answers and however the cluster changes while rules are read, a synchronisation that comes to a status has made the calls, and left the tenant and RefRules, as PushRules promises, or has done nothing and keeps the old RefRules; the error is that of the call, selector or text that failed |
| `SyncSteps.ReadIsConcatenated` | internal/controller/mimirrules/rules.go:99-143 | a step of reading takes up what a list call returns as the concatenation does: the objects whose key is new |
| `SyncSteps.FailsWithOldNames` | internal/controller/mimirrules/mimirrules_controller.go:54-77 | a failure before a synchronisation is reported with its error and the old RefRules |
| `RuleSync.PostNamespaces` | internal/controller/mimirrules/rules.go:54-60 | the posting loop, in any order of the Go map |
| `RuleSync.CreateRuleGroupStr` | internal/controller/mimirapi/rules.go:50-66 | a text that does not decode has nothing posted; otherwise the groups go in order up to the first failure, and the namespace holds that prefix laid over what it held |
| `RuleSync.PostGroups` | internal/controller/mimirapi/rules.go:58-65 | the loop of it |
| `RuleSync.DiffRuleNamespaces` | internal/controller/mimirrules/rules.go:263-282 | the deletion list is exactly the held namespaces that are not wanted, ascending, each once |
| `RuleSync.DeleteNamespaces` | internal/controller/mimirrules/rules.go:71-75 | deletes the listed namespaces in order up to the first failure and nothing else |
| `RuleSync.RemoveDuplicate` | internal/utils/utils.go:20-30 | keeps the first occurrence of each element, in order |
| `RuleSync.FirstSeenElements` | internal/utils/utils.go:20-30 | which has the same elements, each once |
| `RuleSync.OverlayMeaning` | internal/controller/mimirapi/rules.go:58-63 | a posted name holds the last group posted under it, another what it held: stale groups of a wanted namespace stay |
| `RuleSync.SyncTwice` | internal/controller/mimirrules/rules.go:50-77 | a second sync of the same texts changes nothing and has nothing to delete |
| `RemoteRuler.Mimir.CreateRuleGroup` | internal/controller/mimirapi/rules.go:30-47 | sets one group of one namespace of one tenant, also perhaps when it reports a failure |
| `RemoteRuler.Mimir.DeleteNamespace` | internal/controller/mimirapi/rules.go:171-183 | removes one namespace of one tenant, also perhaps when it reports a failure |
| `RemoteRuler.Mimir.ListRules` | internal/controller/mimirapi/rules.go:117-142 | changes nothing and returns all the rules of the tenant or a failure |
| `RemoteRuler.ListRulesElement` | internal/controller/mimirapi/rules.go:145-168 | all the groups of the tenant, each once with its namespace and name, namespaces ascending |
| `RemoteRuler.DecodeEach` | internal/controller/mimirapi/rules.go:51-56 | a text decodes exactly when each of its groups does, and then group by group |
| `RemoteRuler.DecodedIsWritten` | internal/controller/mimirapi/rwrulefmt/rulefmt.go:34-61 | a text decodes exactly when all its durations parse; and then, group by group and rule by rule, the remote gets the name, alert, record, expression, labels and annotations written, and the interval, `for` and `keep_firing_for` with the values written, or nothing for none or zero |
| `RemoteRuler.FirstFaultIs` | internal/controller/mimirapi/rules.go:51-56 | the error is that of the first bad duration: group by group the interval, then rule by rule `for` and `keep_firing_for`; and quotes it unless it is empty or out of range |
| `RemoteRuler.StoreMeaning` | internal/controller/mimirapi/rules.go:30-47 | posting a group sets this group of this namespace and nothing else, deleting a namespace removes it and nothing else |
| `RemoteRuler.WireDurationFaithful` | internal/controller/mimirapi/rwrulefmt/rulefmt.go:34-61 | a duration field reaches the remote with the value written, or is left out if zero |
| `Teardown.DeleteRulesForTenant` | internal/controller/mimirrules/rules.go:81-96 | the calls are a listing and deletions in order, one for each group, up to the first failure, and what is gone is what they deleted; success means the tenant is empty; on a strict remote that does not fail otherwise it succeeds exactly if no namespace has two groups, and leaves the namespaces after the least that has |
| `RemovalSteps.RemovalIsDeleteRules` | internal/controller/mimirrules/rules.go:81-96 | in the transition system a removal makes the calls that DeleteRulesForTenant makes and leaves the tenant as it does, whatever the answers; a failure is reported with its error and the old RefRules |
| `Teardown.AttemptShrinks` | internal/controller/mimirrules/rules.go:89-93 | an attempt on a non-empty tenant leaves strictly fewer namespaces, and one fewer with two groups |
| `Teardown.FirstSuccess` | internal/controller/mimirapi/client.go:168-173 | the first success is attempt 1 + the number of namespaces with two groups or more, and each failure names a greater namespace than the one before |
| `Selection.FindPrometheusRules` | internal/controller/mimirrules/rules.go:99-122 | no key twice, in order of first occurrence, exactly the rules some selector matches; with reliable calls it fails exactly on an invalid selector |
| `Selection.MatchesMeaning` | internal/controller/mimirrules/rules.go:99-122 | what each requirement of a selector asks of the labels, absent ones included; all must be met; the empty selector matches all, that of nothing none |
| `Selection.SelectedMeaning` | internal/controller/mimirrules/rules.go:99-122 | a rule is selected if one of the selectors matches it, so by no selector none |
| `Selection.Concatenate` | internal/controller/mimirrules/rules.go:126-132 | appends what has not occurred before |
| `Selection.FirstOccurrencesOrder` | internal/controller/mimirrules/rules.go:126-132 | what is kept is the objects at the ascending positions before which their key does not occur |
| `Selection.IsRuleInSlice` | internal/controller/mimirrules/rules.go:135-143 | true exactly if namespace and name occur |
| `Selection.KeyTextInjective` | internal/controller/mimirrules/rules.go:256 | without underscores in namespaces the text determines the key |
| `Selection.KeyTextIs` | internal/controller/mimirrules/rules.go:256 | the Mimir namespace is the Kubernetes namespace, an underscore, and the name |
| `Selection.UnpackRules` | internal/controller/mimirrules/rules.go:228-260 | the map from names to groups, later items over earlier ones |
| `Selection.UnpackedLast` | internal/controller/mimirrules/rules.go:228-260 | of items with one text the last wins |
| `Selection.UnpackKeepsAll` | internal/controller/mimirrules/rules.go:234-257 | for distinct items in proper namespaces none is lost or added and each keeps its groups |
| `SwapScan.ScanCharacterised` | internal/controller/mimirrules/rules.go:146-155 | a loop that overwrites and swap-removes over a saved header stays in range exactly if each position acted on plus the removals before it is below the length; then the contents and the position of every element |
| `SwapScan.MovedIsUntouched` | internal/controller/mimirrules/rules.go:146-149 | an element moved into a hole is one the loop never acts on |
| `SwapScan.ScanNatural` | internal/controller/mimirrules/rules.go:163-223 | the loop commutes with a change of representation of the elements |
| `RuleModel.RulesCharacterised` | internal/controller/mimirrules/rules.go:170-219 | for one group: no panic exactly if every rule with an override at index r has r plus the disabled rules before it below n; then the rules left are the others rewritten, and none are left exactly if its only rule is disabled |
| `RuleModel.RuleGoverned` | internal/controller/mimirrules/rules.go:176-213 | an alert goes by the override of its alert name, a recording rule by that of its record name: disabled, it is gone; else it has the expression, `for`, labels and annotations of the override where given, and all else as it was |
| `RuleModel.RemainingOneByOne` | internal/controller/mimirrules/rules.go:170-219 | in a group each rule is left as it would be alone |
| `RuleModel.OverridesCharacterised` | internal/controller/mimirrules/rules.go:163-223 | for one item: no panic exactly if moreover each group with such a rule fits likewise; then the groups left, as a multiset, are those whose only rule is not disabled, each with its name, its interval and the multiset of its remaining rules |
| `RuleModel.GroupActionMeaning` | internal/controller/mimirrules/rules.go:189-219 | a group is removed exactly if its only rule is disabled, left alone exactly if no rule has an override, and otherwise keeps its name and interval |
| `RuleModel.FirstDisabledLastOverridden` | internal/controller/mimirrules/rules.go:189-219 | a disabled first rule and an override for the last always panic |
| `RuleModel.LabelTwice` | internal/controller/mimirrules/rules.go:285-311 | external labels twice are external labels once, and a rule keeps the labels it has |
| `RuleModel.LabelledRule` | internal/controller/mimirrules/rules.go:285-311 | the labels of a rule are its own and, for other names, the external ones; nothing else changes, and without external labels nothing |
| `RuleHeap.ApplyOverrides` | internal/controller/mimirrules/rules.go:163-223 | in place on arrays: panics exactly if the specification does for some item, and otherwise leaves each item as specified |
| `RuleHeap.OverrideItem` | internal/controller/mimirrules/rules.go:169-221 | the same for one item, over the saved header of its groups |
| `RuleHeap.OverrideGroup` | internal/controller/mimirrules/rules.go:170-220 | the same for one group, over the saved header of its rules |
| `RuleHeap.RemoveAt` | internal/controller/mimirrules/rules.go:146-155 | overwrites the position with the last element and drops the last position, in the shared array |
| `LabelHeap.FillIn` | internal/controller/mimirrules/rules.go:299-305 | in any order of the keys, the labels that are absent are added and no other changed |
| `LabelHeap.ApplyExternalLabels` | internal/controller/mimirrules/rules.go:285-311 | with maps shared in any way, every rule ends with its labels laid over the external ones |
| `LabelHeap.TransformItems` | internal/controller/mimirrules/rules.go:38-41 | both steps on the heap, with maps shared between overrides and rules, panic exactly if and otherwise give what the steps give on plain values |
| `DurationText.ParseDuration` | internal/controller/mimirapi/rwrulefmt/model/time.go:204-257 | the loop in uint64 arithmetic, without wrap-around, returns what the specification returns, errors included, in at most eight turns, and at most seven if it succeeds |
| `DurationText.ReadToken` | internal/controller/mimirapi/rwrulefmt/model/time.go:218-242 | one turn of scanning |
| `DurationText.ParseCharacterised` | internal/controller/mimirapi/rwrulefmt/model/time.go:204-257 | a text parses to d exactly if it is "0" and d is zero, or digits-and-unit tokens with units strictly from bigger to smaller whose exact sum is d, at most 2^63-1 |
| `DurationText.ParseRejects` | internal/controller/mimirapi/rwrulefmt/model/time.go:204-257 | a text is refused exactly if it denotes no duration |
| `DurationSpelling.ReadsAsSpelled` | internal/controller/mimirapi/rwrulefmt/model/time.go:189-257 | a text is read as d exactly if it is "0" and d is zero, or numbers with the letters y, w, d, h, m, s, ms, in this order, that sum up to d with the nanoseconds of each written out, and d fits |
| `DurationSpelling.EachUnit` | internal/controller/mimirapi/rwrulefmt/model/time.go:190-200 | a number with each of the seven units is that many times the nanoseconds written out |
| `DurationSpelling.TwoUnits` | internal/controller/mimirapi/rwrulefmt/model/time.go:237-242 | two numbers are their sum if the second unit is smaller, and refused otherwise |
| `DurationSpelling.OrderExamples` | internal/controller/mimirapi/rwrulefmt/model/time.go:187-188 | 5m is 300 seconds, 1h1m is 3660 seconds, and 1m1h is refused |
| `DurationSpelling.RefusedBecause` | internal/controller/mimirapi/rwrulefmt/model/time.go:206-255 | the error of a refused text: empty; or, after pieces in order, something that is no number with letters, unknown letters, a unit out of order, or a sum that is too big |
| `DurationText.GuardIsExact` | internal/controller/mimirapi/rwrulefmt/model/time.go:248-250 | the guard refuses exactly the products above 2^63 |
| `DurationText.RenderInjective` | internal/controller/mimirapi/rwrulefmt/model/time.go:187-200 | the grammar is unambiguous |
| `DurationText.FormatDuration` | internal/controller/mimirapi/rwrulefmt/model/time.go:259-290 | the greedy printer in int64 arithmetic prints the canonical tokens |
| `DurationText.CanonicalDenotes` | internal/controller/mimirapi/rwrulefmt/model/time.go:278-287 | these are well formed and their exact sum is the number of milliseconds |
| `DurationSpelling.PrintsAsSpelled` | internal/controller/mimirapi/rwrulefmt/model/time.go:259-290 | what is printed: 0s for less than a millisecond, nothing for a millisecond or more below zero, one number for whole years or else whole weeks, and otherwise days, hours, minutes, seconds and milliseconds without the zero ones, with the quotients written out |
| `DurationText.RoundTrip` | internal/controller/mimirapi/rwrulefmt/model/time.go:259-290 | over all int64 values, parsing the printed form gives the value cut to the millisecond exactly if it is above minus one millisecond; at or below, the printed form is empty and refused |
| `DurationText.PrintingIsCanonical` | internal/controller/mimirapi/rwrulefmt/model/time.go:204-290 | accepted texts are whole milliseconds, survive printing and parsing, and are equal in value exactly if they print alike |
| `Timestamps.Time.UnmarshalJSON` | internal/controller/mimirapi/rwrulefmt/model/time.go:125-166 | the branches of the source give what `Read` gives, and a failure leaves the value |
| `Timestamps.ReadIsMeaning` | internal/controller/mimirapi/rwrulefmt/model/time.go:125-166 | decimal seconds are read as their value in milliseconds, truncated toward zero, exactly if that fits and the text is not a negative number of at least a second with non-zero milliseconds; such a number comes out too big by twice its milliseconds |
| `Timestamps.ReadAccepts` | internal/controller/mimirapi/rwrulefmt/model/time.go:125-166 | a text is read exactly if it is a 64-bit integer, or one, a dot, and a text without a dot whose first three characters, padded with zeros, are an integer, be it with a sign |
| `Decimal.DigitValues` | internal/controller/mimirapi/rwrulefmt/model/time.go:222 | the ten digits and their values |
| `Ordering.LessMeaning` | internal/controller/mimirrules/rules.go:60 | the order of names is lexicographic by character |

## Left out

- HTTP, URL escaping, TLS, authentication, logging, the Kubernetes client and its caches: abstract state and steps that can fail.
- YAML and JSON encoding, apart from duration fields; group limits and remote-write settings; integer-typed expressions.
- Resource versions of PrometheusRules, resynchronisation periods, rate limits and leader election.
- The MimirAlertManagerConfig controller and `alerts.go`: the same lifecycle with a single blob.
- Printing timestamps (`Time.String`), which goes through floating point.
- CRDs, Helm, kustomize, RBAC, deep copies, `cmd/main.go`.
- Operator.NodeStep: a call that reached Mimir before the operator crashed takes effect before the crash in the model, never after it.
