// The rules of the tenants of a remote Mimir ruler, and the client calls that read and write
// them. A call can fail at any time; a call that fails may still have taken effect.
module RemoteRuler {
  import opened Words
  import opened Ordering
  import opened RuleModel
  import DurationText

  // ---------------------------------------------------------------------------------------
  // What is posted: groups with their durations parsed and printed again
  // ---------------------------------------------------------------------------------------

  // An empty duration or an empty label set is left out of the payload.
  datatype RemoteRule = RemoteRule(
    alert: string, record: string, expr: string, forText: string, keepFiringFor: string,
    labels: Labels, annotations: Labels)

  datatype RemoteGroup = RemoteGroup(name: string, interval: string, rules: seq<RemoteRule>)

  // A duration field on its way to the remote; None if the text is not a duration.
  function WireDuration(text: Option<string>): Option<string> {
    if text.None? then Some("")
    else
      match DurationText.Parse(text.value)
      case Failure(_) => None
      case Success(d) => Some(if d == 0 then "" else DurationText.Print(d))
  }

  // The remote gets the duration that was written, or nothing for zero.
  lemma WireDurationFaithful(text: string)
    ensures WireDuration(Some(text)).Some? <==> DurationText.Parse(text).Success?
    ensures WireDuration(Some(text)).Some? ==>
              var wire := WireDuration(Some(text)).value;
              if DurationText.Parse(text) == Success(0) then wire == ""
              else DurationText.Parse(wire) == DurationText.Parse(text)
  {
    if DurationText.Parse(text).Success? {
      DurationText.Reprint(text);
    }
  }

  function DecodeRule(rule: Rule<Labels>): Option<RemoteRule> {
    var f, k := WireDuration(rule.forText), WireDuration(rule.keepFiringFor);
    if f.None? || k.None? then None
    else Some(RemoteRule(rule.alert, rule.record, rule.expr, f.value, k.value, Own(rule.labels), Own(rule.annotations)))
  }

  function DecodeRules(rules: seq<Rule<Labels>>): Option<seq<RemoteRule>> {
    if rules == [] then Some([])
    else
      var first, rest := DecodeRule(rules[0]), DecodeRules(rules[1..]);
      if first.None? || rest.None? then None else Some([first.value] + rest.value)
  }

  function DecodeGroup(group: Group<Labels>): Option<RemoteGroup> {
    var interval, rules := WireDuration(group.interval), DecodeRules(group.rules);
    if interval.None? || rules.None? then None else Some(RemoteGroup(group.name, interval.value, rules.value))
  }

  // Unmarshalling the text of a namespace: all of its groups or an error.
  function Decode(groups: seq<Group<Labels>>): Option<seq<RemoteGroup>> {
    if groups == [] then Some([])
    else
      var first, rest := DecodeGroup(groups[0]), Decode(groups[1..]);
      if first.None? || rest.None? then None else Some([first.value] + rest.value)
  }

  // Why a text does not decode: the first bad duration in it, in the order of the text. The
  // message quotes the duration unless it is empty or out of range.
  datatype Fault = Fault(error: DurationText.DurationError, quoted: string)

  function DurationFault(text: Option<string>): Option<Fault> {
    if text.None? || DurationText.Parse(text.value).Success? then None
    else
      var error := DurationText.Parse(text.value).error;
      Some(Fault(error, if error.NotADuration? || error.UnknownUnit? then text.value else ""))
  }

  function FirstOf(a: Option<Fault>, b: Option<Fault>): Option<Fault> { if a.Some? then a else b }

  function RulesFault(rules: seq<Rule<Labels>>): Option<Fault> {
    if rules == [] then None
    else
      FirstOf(DurationFault(rules[0].forText), FirstOf(DurationFault(rules[0].keepFiringFor), RulesFault(rules[1..])))
  }

  function FirstFault(groups: seq<Group<Labels>>): Option<Fault> {
    if groups == [] then None
    else FirstOf(DurationFault(groups[0].interval), FirstOf(RulesFault(groups[0].rules), FirstFault(groups[1..])))
  }

  lemma {:induction false} RulesFaultMeaning(rules: seq<Rule<Labels>>)
    ensures RulesFault(rules).Some? <==> DecodeRules(rules).None?
  {
    hide DurationText.Parse;
    if rules != [] {
      RulesFaultMeaning(rules[1..]);
    }
  }

  // A text has a fault exactly when it does not decode.
  lemma {:induction false} FaultMeaning(groups: seq<Group<Labels>>)
    ensures FirstFault(groups).Some? <==> Decode(groups).None?
  {
    hide DurationText.Parse, RulesFault, DecodeRules;
    if groups != [] {
      FaultMeaning(groups[1..]);
      RulesFaultMeaning(groups[0].rules);
    }
  }

  // A text decodes exactly when every duration in it parses, and then group by group.
  lemma {:induction false} DecodeEach(groups: seq<Group<Labels>>)
    ensures Decode(groups).Some? <==> forall i :: 0 <= i < |groups| ==> DecodeGroup(groups[i]).Some?
    ensures Decode(groups).Some? ==>
              && |Decode(groups).value| == |groups|
              && forall i :: 0 <= i < |groups| ==> DecodeGroup(groups[i]) == Some(Decode(groups).value[i])
  {
    hide DecodeGroup;
    if groups != [] {
      DecodeEach(groups[1..]);
      assert groups == [groups[0]] + groups[1..];
    }
  }

  // A duration written and what the remote gets for it: the same value, as it is printed, or
  // nothing for none or zero.
  ghost predicate DurationKept(wire: string, written: Option<string>) {
    if written.None? then wire == ""
    else
      && DurationText.Parse(written.value).Success?
      && if DurationText.Parse(written.value) == Success(0) then wire == ""
         else
           && wire == DurationText.Print(DurationText.Parse(written.value).value)
           && DurationText.Parse(wire) == DurationText.Parse(written.value)
  }

  ghost predicate LabelsKept(wire: Labels, written: Option<Labels>) {
    && (forall k :: k in wire <==> written.Some? && k in written.value)
    && (forall k :: k in wire && written.Some? && k in written.value ==> wire[k] == written.value[k])
  }

  // Field by field.
  ghost predicate RuleKept(wire: RemoteRule, written: Rule<Labels>) {
    && wire.alert == written.alert && wire.record == written.record && wire.expr == written.expr
    && DurationKept(wire.forText, written.forText) && DurationKept(wire.keepFiringFor, written.keepFiringFor)
    && LabelsKept(wire.labels, written.labels) && LabelsKept(wire.annotations, written.annotations)
  }

  ghost predicate GroupKept(wire: RemoteGroup, written: Group<Labels>) {
    && wire.name == written.name && DurationKept(wire.interval, written.interval)
    && |wire.rules| == |written.rules|
    && forall r :: 0 <= r < |written.rules| ==> RuleKept(wire.rules[r], written.rules[r])
  }

  ghost predicate DurationRead(written: Option<string>) { written.Some? ==> DurationText.Parse(written.value).Success? }

  // All the durations in a group are durations.
  ghost predicate DurationsRead(group: Group<Labels>) {
    && DurationRead(group.interval)
    && forall r :: 0 <= r < |group.rules| ==>
         DurationRead(group.rules[r].forText) && DurationRead(group.rules[r].keepFiringFor)
  }

  // A text decodes exactly when all its durations parse, and then to what is written in it,
  // group by group, rule by rule and field by field.
  lemma {:induction false} DecodedIsWritten(groups: seq<Group<Labels>>)
    ensures Decode(groups).Some? <==> forall g :: 0 <= g < |groups| ==> DurationsRead(groups[g])
    ensures Decode(groups).Some? ==>
              && |Decode(groups).value| == |groups|
              && forall g :: 0 <= g < |groups| ==> GroupKept(Decode(groups).value[g], groups[g])
  {
    hide DecodeGroup, Decode, DurationsRead, GroupKept;
    DecodeEach(groups);
    forall g | 0 <= g < |groups|
      ensures DecodeGroup(groups[g]).Some? <==> DurationsRead(groups[g])
      ensures DecodeGroup(groups[g]).Some? ==> GroupKept(DecodeGroup(groups[g]).value, groups[g])
    {
      GroupIsWritten(groups[g]);
    }
  }

  lemma GroupIsWritten(group: Group<Labels>)
    ensures DecodeGroup(group).Some? <==> DurationsRead(group)
    ensures DecodeGroup(group).Some? ==> GroupKept(DecodeGroup(group).value, group)
  {
    hide DecodeRules, DurationKept, RuleKept, WireDuration, DurationRead;
    WireIsKept(group.interval);
    RulesAreWritten(group.rules);
  }

  lemma WireIsKept(written: Option<string>)
    ensures WireDuration(written).Some? <==> DurationRead(written)
    ensures WireDuration(written).Some? ==> DurationKept(WireDuration(written).value, written)
  {
    hide DurationText.Parse, DurationText.Print;
    if written.Some? {
      WireDurationFaithful(written.value);
    }
  }

  lemma RuleIsWritten(rule: Rule<Labels>)
    ensures DecodeRule(rule).Some? <==> DurationRead(rule.forText) && DurationRead(rule.keepFiringFor)
    ensures DecodeRule(rule).Some? ==> RuleKept(DecodeRule(rule).value, rule)
  {
    hide WireDuration, DurationKept, DurationRead;
    WireIsKept(rule.forText);
    WireIsKept(rule.keepFiringFor);
  }

  lemma {:induction false} RulesAreWritten(rules: seq<Rule<Labels>>)
    ensures DecodeRules(rules).Some? <==>
              forall r :: 0 <= r < |rules| ==> DurationRead(rules[r].forText) && DurationRead(rules[r].keepFiringFor)
    ensures DecodeRules(rules).Some? ==>
              && |DecodeRules(rules).value| == |rules|
              && forall r :: 0 <= r < |rules| ==> RuleKept(DecodeRules(rules).value[r], rules[r])
  {
    hide DecodeRule, RuleKept, DurationRead;
    if rules != [] {
      RuleIsWritten(rules[0]);
      RulesAreWritten(rules[1..]);
      assert rules == [rules[0]] + rules[1..];
    }
  }

  // The duration is none, for this reason; and the message quotes it where it does.
  ghost predicate IsFault(written: Option<string>, f: Fault) {
    && written.Some? && DurationText.Parse(written.value) == Failure(f.error)
    && (f.error.NotADuration? || f.error.UnknownUnit? ==> f.quoted == written.value)
    && (f.error.EmptyText? || f.error.OutOfRange? ==> f.quoted == "")
  }

  ghost predicate RuleRead(rule: Rule<Labels>) { DurationRead(rule.forText) && DurationRead(rule.keepFiringFor) }

  ghost predicate RuleFault(rule: Rule<Labels>, f: Fault) {
    if DurationRead(rule.forText) then IsFault(rule.keepFiringFor, f) else IsFault(rule.forText, f)
  }

  // The first rule with a bad duration.
  ghost predicate RulesFaultAt(rules: seq<Rule<Labels>>, f: Fault, r: nat) {
    r < |rules| && RuleFault(rules[r], f) && forall i :: 0 <= i < r ==> RuleRead(rules[i])
  }

  ghost predicate GroupFault(group: Group<Labels>, f: Fault) {
    if DurationRead(group.interval) then exists r: nat :: RulesFaultAt(group.rules, f, r)
    else IsFault(group.interval, f)
  }

  ghost predicate GroupsFaultAt(groups: seq<Group<Labels>>, f: Fault, g: nat) {
    g < |groups| && GroupFault(groups[g], f) && forall i :: 0 <= i < g ==> DurationsRead(groups[i])
  }

  lemma DurationFaultIs(written: Option<string>)
    ensures DurationFault(written).None? <==> DurationRead(written)
    ensures DurationFault(written).Some? ==> IsFault(written, DurationFault(written).value)
  {
  }

  lemma {:induction false} RulesFaultIs(rules: seq<Rule<Labels>>)
    ensures RulesFault(rules).None? ==> forall r :: 0 <= r < |rules| ==> RuleRead(rules[r])
    ensures RulesFault(rules).Some? ==> exists r: nat :: RulesFaultAt(rules, RulesFault(rules).value, r)
  {
    hide IsFault, DurationRead, DurationFault;
    if rules != [] {
      DurationFaultIs(rules[0].forText);
      DurationFaultIs(rules[0].keepFiringFor);
      RulesFaultIs(rules[1..]);
      var f := RulesFault(rules);
      if !RuleRead(rules[0]) {
        assert RulesFaultAt(rules, f.value, 0);
      } else if r: nat :| f.Some? && RulesFaultAt(rules[1..], f.value, r) {
        assert forall i :: 1 <= i < r + 1 ==> rules[i] == rules[1..][i - 1];
        assert rules[r + 1] == rules[1..][r];
        assert RulesFaultAt(rules, f.value, r + 1);
      } else {
        assert forall i :: 1 <= i < |rules| ==> rules[i] == rules[1..][i - 1];
      }
    }
  }

  // The fault reported is the first in the order of the text: group by group the interval, and
  // then rule by rule `for` and `keep_firing_for`.
  lemma {:induction false} FirstFaultIs(groups: seq<Group<Labels>>)
    ensures FirstFault(groups).Some? ==> exists g: nat :: GroupsFaultAt(groups, FirstFault(groups).value, g)
  {
    hide IsFault, DurationRead, DurationFault, RulesFault, RulesFaultAt, RuleRead;
    if groups != [] {
      DurationFaultIs(groups[0].interval);
      RulesFaultIs(groups[0].rules);
      ReadGroup(groups[0]);
      FirstFaultIs(groups[1..]);
      var f := FirstFault(groups);
      if DurationFault(groups[0].interval).Some? || RulesFault(groups[0].rules).Some? {
        assert GroupsFaultAt(groups, f.value, 0);
      } else if g: nat :| f.Some? && GroupsFaultAt(groups[1..], f.value, g) {
        assert forall i :: 1 <= i < g + 1 ==> groups[i] == groups[1..][i - 1];
        assert groups[g + 1] == groups[1..][g];
        assert GroupsFaultAt(groups, f.value, g + 1);
      }
    }
  }

  lemma ReadGroup(group: Group<Labels>)
    ensures DurationsRead(group) <==>
              DurationRead(group.interval) && forall r :: 0 <= r < |group.rules| ==> RuleRead(group.rules[r])
  {
    hide DurationRead;
  }

  // ---------------------------------------------------------------------------------------
  // The rules of a tenant
  // ---------------------------------------------------------------------------------------

  // Groups by name, by namespace. A stored namespace has at least one group.
  type Store = map<string, map<string, RemoteGroup>>

  ghost predicate Valid(store: Store) { forall ns :: ns in store ==> store[ns] != map[] }

  function GroupsAt(store: Store, ns: string): map<string, RemoteGroup> {
    if ns in store then store[ns] else map[]
  }

  function PostTo(store: Store, ns: string, group: RemoteGroup): Store {
    store[ns := GroupsAt(store, ns)[group.name := group]]
  }

  function Drop(store: Store, ns: string): Store { store - {ns} }

  function TenantStore(tenants: map<string, Store>, tenant: string): Store {
    if tenant in tenants then tenants[tenant] else map[]
  }

  // Posting a group sets this group of this namespace of this tenant and nothing else; dropping a
  // namespace removes it and nothing else.
  lemma StoreMeaning(tenants: map<string, Store>, tenant: string, store: Store, ns: string, group: RemoteGroup)
    ensures var after := PostTo(store, ns, group);
            && after.Keys == store.Keys + {ns} && group.name in after[ns] && after[ns][group.name] == group
            && (forall other :: other in store && other != ns ==> after[other] == store[other])
            && (forall name :: name != group.name ==>
                  (name in after[ns] <==> ns in store && name in store[ns])
                  && (name in after[ns] ==> after[ns][name] == store[ns][name]))
    ensures var after := Drop(store, ns);
            after.Keys == store.Keys - {ns} && forall other :: other in after ==> after[other] == store[other]
    ensures TenantStore(tenants[tenant := store], tenant) == store && TenantStore(tenants - {tenant}, tenant) == map[]
  {
  }

  // Groups posted on top of others, the later ones winning.
  function Overlay(base: map<string, RemoteGroup>, groups: seq<RemoteGroup>): map<string, RemoteGroup> {
    if groups == [] then base
    else
      var n := |groups| - 1;
      Overlay(base, groups[..n])[groups[n].name := groups[n]]
  }

  datatype Call =
    | Post(tenant: string, namespace: string, group: RemoteGroup, ok: bool)
    | Delete(tenant: string, namespace: string, ok: bool)
    | List(tenant: string, ok: bool)

  datatype RuleElement = RuleElement(namespace: string, ruleGroup: string)

  class Mimir {
    var tenants: map<string, Store>
    ghost var calls: seq<Call>
    // Whether deleting an absent namespace is an error, and whether calls can fail otherwise.
    const strict: bool
    const reliable: bool

    constructor (strict: bool, reliable: bool)
      ensures tenants == map[] && calls == []
      ensures this.strict == strict && this.reliable == reliable
    {
      tenants, calls := map[], [];
      this.strict, this.reliable := strict, reliable;
    }

    ghost predicate AllValid()
      reads this
    {
      forall t :: t in tenants ==> Valid(tenants[t])
    }

    // CreateRuleGroup
    method CreateRuleGroup(tenant: string, ns: string, group: RemoteGroup) returns (ok: bool)
      modifies this
      ensures calls == old(calls) + [Post(tenant, ns, group, ok)]
      ensures tenants == old(tenants)
           || tenants == old(tenants)[tenant := PostTo(TenantStore(old(tenants), tenant), ns, group)]
      ensures ok ==> tenants == old(tenants)[tenant := PostTo(TenantStore(old(tenants), tenant), ns, group)]
      ensures reliable ==> ok
    {
      var reached, answered := true, true;
      if !reliable {
        reached, answered := *, *;
      }
      if reached {
        tenants := tenants[tenant := PostTo(TenantStore(tenants, tenant), ns, group)];
      }
      ok := reached && answered;
      calls := calls + [Post(tenant, ns, group, ok)];
    }

    // DeleteNamespace
    method DeleteNamespace(tenant: string, ns: string) returns (ok: bool)
      modifies this
      ensures calls == old(calls) + [Delete(tenant, ns, ok)]
      ensures tenants == old(tenants) || tenants == old(tenants)[tenant := Drop(TenantStore(old(tenants), tenant), ns)]
      ensures ok ==> tenants == old(tenants)[tenant := Drop(TenantStore(old(tenants), tenant), ns)]
      ensures strict && ns !in TenantStore(old(tenants), tenant) ==> !ok
      ensures reliable ==> tenants == old(tenants)[tenant := Drop(TenantStore(old(tenants), tenant), ns)]
      ensures reliable ==> (ok <==> !strict || ns in TenantStore(old(tenants), tenant))
    {
      var reached, answered := true, true;
      if !reliable {
        reached, answered := *, *;
      }
      var absent := ns !in TenantStore(tenants, tenant);
      if reached {
        tenants := tenants[tenant := Drop(TenantStore(tenants, tenant), ns)];
      }
      ok := reached && answered && !(strict && absent);
      calls := calls + [Delete(tenant, ns, ok)];
    }

    // ListRules
    method ListRules(tenant: string) returns (rules: Option<Store>)
      modifies this
      ensures tenants == old(tenants)
      ensures calls == old(calls) + [List(tenant, rules.Some?)]
      ensures rules.Some? ==> rules.value == TenantStore(tenants, tenant)
      ensures reliable ==> rules.Some?
    {
      var answered := true;
      if !reliable {
        answered := *;
      }
      rules := if answered then Some(TenantStore(tenants, tenant)) else None;
      calls := calls + [List(tenant, answered)];
    }
  }

  // ---------------------------------------------------------------------------------------
  // Listing
  // ---------------------------------------------------------------------------------------

  ghost function Repeat(ns: string, n: nat): seq<string> { seq(n, _ => ns) }

  // Each namespace once per group it holds.
  ghost function PerGroup(keys: seq<string>, store: Store): seq<string>
    requires Elements(keys) <= store.Keys
  {
    if keys == [] then []
    else
      var n := |keys| - 1;
      assert keys[n] in Elements(keys);
      assert Elements(keys[..n]) <= Elements(keys);
      PerGroup(keys[..n], store) + Repeat(keys[n], |store[keys[n]]|)
  }

  ghost function Namespaces(elements: seq<RuleElement>): seq<string> {
    seq(|elements|, i requires 0 <= i < |elements| => elements[i].namespace)
  }

  // The keys of a map in some order.
  method KeysOf(store: Store) returns (keys: seq<string>)
    ensures Distinct(keys) && Elements(keys) == store.Keys
  {
    keys := [];
    var rest := store.Keys;
    while rest != {}
      invariant rest <= store.Keys && Distinct(keys) && Elements(keys) == store.Keys - rest
      decreases |rest|
    {
      var ns :| ns in rest;
      ElementsSnoc(keys, ns);
      keys := keys + [ns];
      rest := rest - {ns};
    }
  }

  // The groups of some namespaces, as elements of a list.
  ghost function ElementsOf(store: Store, names: set<string>): set<RuleElement> {
    set ns, name | ns in store && ns in names && name in store[ns] :: RuleElement(ns, name)
  }

  // ListRulesElement: every group once, sorted by namespace.
  method ListRulesElement(mimir: Mimir, tenant: string)
    returns (elements: Option<seq<RuleElement>>, ghost keys: seq<string>)
    modifies mimir
    ensures mimir.tenants == old(mimir.tenants)
    ensures mimir.calls == old(mimir.calls) + [List(tenant, elements.Some?)]
    ensures mimir.reliable ==> elements.Some?
    ensures elements.Some? ==> Ascending(keys) && Elements(keys) == TenantStore(mimir.tenants, tenant).Keys
    ensures elements.Some? ==> Namespaces(elements.value) == PerGroup(keys, TenantStore(mimir.tenants, tenant))
    ensures elements.Some? ==> var store := TenantStore(mimir.tenants, tenant);
                               Distinct(elements.value) && Elements(elements.value) == ElementsOf(store, store.Keys)
  {
    keys := [];
    var answer := mimir.ListRules(tenant);
    if answer.None? {
      return None, keys;
    }
    var rules: seq<RuleElement>;
    rules, keys := Flatten(answer.value);
    return Some(rules), keys;
  }

  // The state of the loop over the sorted namespaces.
  ghost predicate FlatSoFar(store: Store, keys: seq<string>, rules: seq<RuleElement>) {
    && Elements(keys) <= store.Keys && Namespaces(rules) == PerGroup(keys, store)
    && Distinct(rules) && Elements(rules) == ElementsOf(store, Elements(keys))
  }

  method Flatten(store: Store) returns (rules: seq<RuleElement>, ghost keys: seq<string>)
    ensures Ascending(keys) && Elements(keys) == store.Keys && Namespaces(rules) == PerGroup(keys, store)
    ensures Distinct(rules) && Elements(rules) == ElementsOf(store, store.Keys)
  {
    hide Sort, FlatSoFar, Appended, ElementsOf, Ascending, Elements, Distinct;
    var unsorted := KeysOf(store);
    SortDistinct(unsorted);
    var nsKeys := Sort(unsorted);
    keys := nsKeys;
    rules := [];
    FlatAtFirst(store);
    assert nsKeys[..0] == [];
    var i := 0;
    while i < |nsKeys|
      invariant i <= |nsKeys| && FlatSoFar(store, nsKeys[..i], rules)
    {
      var ns := nsKeys[i];
      NextName(nsKeys, i);
      var more := AppendElements(rules, ns, store[ns]);
      FlatFurther(store, nsKeys[..i], ns, rules, more);
      rules := more;
      i := i + 1;
    }
    assert nsKeys[..i] == nsKeys;
    AllFlat(store, nsKeys, rules);
  }

  lemma NextName(keys: seq<string>, i: nat)
    requires Ascending(keys) && i < |keys|
    ensures keys[..i + 1] == keys[..i] + [keys[i]] && keys[i] in Elements(keys) && keys[i] !in Elements(keys[..i])
  {
    LessIsTotal(keys[i], keys[i]);
  }

  lemma FlatAtFirst(store: Store)
    ensures FlatSoFar(store, [], [])
  {
  }

  lemma {:induction false} AllFlat(store: Store, keys: seq<string>, rules: seq<RuleElement>)
    requires FlatSoFar(store, keys, rules)
    ensures Elements(keys) <= store.Keys && Namespaces(rules) == PerGroup(keys, store)
    ensures Distinct(rules) && Elements(rules) == ElementsOf(store, Elements(keys))
  {
  }

  lemma OneMoreNamespace(store: Store, names: set<string>, ns: string)
    requires ns in store && ns !in names
    ensures ElementsOf(store, names + {ns}) == ElementsOf(store, names) + GroupElements(ns, store[ns])
    ensures ElementsOf(store, names) !! GroupElements(ns, store[ns])
  {
  }

  lemma FlatFurther(store: Store, keys: seq<string>, ns: string, rules: seq<RuleElement>, more: seq<RuleElement>)
    requires FlatSoFar(store, keys, rules) && ns in store && ns !in Elements(keys)
    requires Appended(rules, ns, store[ns], more)
    ensures FlatSoFar(store, keys + [ns], more)
  {
    hide Elements, Distinct, ElementsOf, GroupElements, Repeat, Namespaces;
    ElementsSnoc(keys, ns);
    OneMoreNamespace(store, Elements(keys), ns);
    assert (keys + [ns])[..|keys|] == keys;
    AppendDistinct(rules, more[|rules|..]);
    assert rules + more[|rules|..] == more;
  }

  // The groups of one namespace, as elements of a list.
  ghost function GroupElements(ns: string, groups: map<string, RemoteGroup>): set<RuleElement> {
    set name | name in groups :: RuleElement(ns, name)
  }

  // One element for each group of a namespace has been added.
  ghost predicate Appended(rules: seq<RuleElement>, ns: string, groups: map<string, RemoteGroup>,
                           more: seq<RuleElement>)
  {
    && rules <= more && Namespaces(more) == Namespaces(rules) + Repeat(ns, |groups|)
    && Distinct(more[|rules|..]) && Elements(more[|rules|..]) == GroupElements(ns, groups)
  }

  method AppendElements(rules: seq<RuleElement>, ns: string, groups: map<string, RemoteGroup>)
    returns (result: seq<RuleElement>)
    ensures Appended(rules, ns, groups, result)
  {
    var added: seq<RuleElement> := [];
    var names := groups.Keys;
    while names != {}
      invariant names <= groups.Keys && |added| + |names| == |groups| && Distinct(added)
      invariant Elements(added) == set name | name in groups.Keys - names :: RuleElement(ns, name)
      invariant forall k :: 0 <= k < |added| ==> added[k].namespace == ns
      decreases |names|
    {
      var name :| name in names;
      ElementsSnoc(added, RuleElement(ns, name));
      added := added + [RuleElement(ns, name)];
      names := names - {name};
    }
    result := rules + added;
    assert result[|rules|..] == added;
  }
}
