// The reconciliations of distinct tenants do not disturb each other, whatever the interleaving,
// unless one panics; the handling of rule changes is shared.
module Isolation {
  import opened Words
  import opened Selection
  import opened Operator
  import opened Agreement

  // The system with all other MimirRules and tenants left out.
  ghost function Only(s: System, m: Key): System
    requires m in s.nodes
  {
    System(s.cluster, s.pending, map[m := s.nodes[m]], map[s.nodes[m].id := StoreOf(s, m)])
  }

  // Steps of another MimirRules: its remote calls, its updates, and what users do to it.
  predicate IsOnAnother(e: Event, m: Key) {
    && (e.Reconcile? || e.CreateMimirRules? || e.UpdateSpec? || e.DeleteMimirRules? || e.AddForeign? || e.DropForeign?
        || e.Requeue?)
    && !IsOn(e, m)
  }

  // What there is of a run for one MimirRules: the steps of the others are left out, and a
  // panic, whoever causes it, is a crash.
  ghost function Seen(s: System, events: seq<Event>, m: Key): seq<Event>
    requires Run(s, events).Some?
  {
    if events == [] then []
    else
      var n := |events| - 1;
      var d := Effect(Run(s, events[..n]).value, events[n]);
      Seen(s, events[..n], m) + if IsOnAnother(d, m) then [] else [d]
  }

  lemma OthersStepAside(s: System, e: Event, m: Key)
    requires OneTenantEach(s) && m in s.nodes && Enabled(s, e) && IsOnAnother(Effect(s, e), m)
    ensures m in Apply(s, e).nodes && Only(Apply(s, e), m) == Only(s, m)
  {
    hide Perform, CanPerform, Requested, Panicking;
    NodeStep(s, e, m);
  }

  lemma OwnStepEnabled(s: System, e: Event, m: Key)
    requires m in s.nodes && Enabled(s, e) && !IsOnAnother(Effect(s, e), m)
    ensures Enabled(Only(s, m), Effect(s, e)) && StoreOf(Only(s, m), m) == StoreOf(s, m)
    ensures Effect(Only(s, m), Effect(s, e)) == Effect(s, e)
  {
    hide Perform, CanPerform, Selection.AllValid, Panics;
  }

  lemma OwnNodeAlone(s: System, e: Event, m: Key)
    requires m in s.nodes && Enabled(s, e) && Enabled(Only(s, m), Effect(s, e))
    requires Effect(Only(s, m), Effect(s, e)) == Effect(s, e) && StoreOf(Only(s, m), m) == StoreOf(s, m)
    ensures NodeAfter(Only(s, m), Effect(s, e), m) == NodeAfter(s, e, m)
  {
    hide Perform, CanPerform, Outside, StoreOf, IsOn, Panicking;
  }

  lemma OwnStepAlone(s: System, e: Event, m: Key)
    requires OneTenantEach(s) && m in s.nodes && Enabled(s, e) && !IsOnAnother(Effect(s, e), m)
    ensures m in Apply(s, e).nodes && Enabled(Only(s, m), Effect(s, e))
    ensures Apply(Only(s, m), Effect(s, e)) == Only(Apply(s, e), m)
  {
    hide Perform, CanPerform, NodeAfter, Enabled, ClusterAfter, PendingAfter, Effect;
    var d := Effect(s, e);
    OwnStepEnabled(s, e, m);
    OwnNodeAlone(s, e, m);
    NodeStep(s, e, m);
    var alone := Apply(Only(s, m), d);
    assert d.Reconcile? ==> d.m == m;
    assert alone.nodes == map[m := NodeAfter(s, e, m)];
    assert alone.remote == map[s.nodes[m].id := StoreOf(Apply(s, e), m)];
  }

  // What a run does to one MimirRules and its tenant is what the run does without the steps of
  // the others, but for their panics.
  lemma {:induction false} Alone(s: System, events: seq<Event>, m: Key)
    requires OneTenantEach(s) && m in s.nodes && Run(s, events).Some?
    ensures m in Run(s, events).value.nodes && OneTenantEach(Run(s, events).value)
    ensures Run(Only(s, m), Seen(s, events, m)) == Some(Only(Run(s, events).value, m))
  {
    hide Enabled, Apply, OneTenantEach, IsOnAnother, Effect;
    if events != [] {
      var n := |events| - 1;
      var e, before := events[n], Run(s, events[..n]).value;
      Alone(s, events[..n], m);
      StepKeepsTenants(before, e);
      if IsOnAnother(Effect(before, e), m) {
        OthersStepAside(before, e, m);
        assert Seen(s, events, m) == Seen(s, events[..n], m);
      } else {
        OwnStepAlone(before, e, m);
        Extend(Only(s, m), Seen(s, events[..n], m), Effect(before, e));
      }
    }
  }

  // ---------------------------------------------------------------------------------------
  // What is shared
  // ---------------------------------------------------------------------------------------

  // A panic in the reconciliation of one MimirRules, or over one with an invalid selector, is
  // the end of all reconciliations: every object is queued, and every rule is to be handled.
  lemma PanicTakesAll(s: System, e: Event, m: Key)
    requires OneTenantEach(s) && Panicking(s, e) && Enabled(s, e) && m in s.nodes
    ensures var t := Apply(s, e);
            && t.cluster == s.cluster && t.pending == s.cluster.Keys
            && m in t.nodes && t.nodes[m] == AfterCrash(s.nodes[m]) && StoreOf(t, m) == StoreOf(s, m)
  {
    hide Perform, CanPerform, Panicking, Enabled;
    NodeStep(s, e, m);
  }

  // The watch handler is shared: it panics exactly if it would for one of the objects alone, and
  // else queues, for each object, what it would for that object alone.
  lemma HandlingTakesAll(s: System, key: Key)
    requires OneTenantEach(s)
    ensures Panicking(s, Handle(key)) <==> exists m :: m in s.nodes && Panicking(Only(s, m), Handle(key))
    ensures !Panicking(s, Handle(key)) ==>
              forall m :: m in s.nodes ==>
                            m in Apply(s, Handle(key)).nodes
                            && Only(Apply(s, Handle(key)), m) == Apply(Only(s, m), Handle(key))
  {
    hide Panicking, Apply, Only, IsOnAnother;
    HandlerPanicShared(s, key);
    if !Panicking(s, Handle(key)) {
      forall m | m in s.nodes
        ensures m in Apply(s, Handle(key)).nodes
        ensures Only(Apply(s, Handle(key)), m) == Apply(Only(s, m), Handle(key))
      {
        NobodysStep(Handle(key), m);
        OwnStepAlone(s, Handle(key), m);
      }
    }
  }

  lemma NobodysStep(e: Event, m: Key)
    requires e.Handle?
    ensures !IsOnAnother(e, m)
  {
  }

  lemma HandlerPanicShared(s: System, key: Key)
    ensures Panicking(s, Handle(key)) <==> exists m :: m in s.nodes && Panicking(Only(s, m), Handle(key))
  {
    hide SelectorsValid;
    if m :| m in s.nodes && !SelectorsValid(s.nodes[m]) {
      assert Only(s, m).nodes[m] == s.nodes[m];
    }
  }

  // The rule exists, and some object with an invalid selector is stored.
  ghost predicate Blocked(s: System, key: Key) {
    key in s.cluster && exists m :: m in s.nodes && !SelectorsValid(s.nodes[m])
  }

  ghost predicate BlockedThrough(s: System, events: seq<Event>, key: Key) {
    forall i :: 0 <= i < |events| ==> Run(s, events[..i]).Some? && Blocked(Run(s, events[..i]).value, key)
  }

  lemma StepKeepsPending(s: System, e: Event, key: Key)
    requires Enabled(s, e) && Blocked(s, key) && key in s.pending && e != LoseEvent(key)
    ensures key in Apply(s, e).pending
  {
    hide CanPerform, NodeAfter, SelectorsValid, Panics;
  }

  // As long as one object with an invalid selector is stored, a change of an existing rule waits,
  // whoever selects the rule, and the cluster does not come to be quiet.
  lemma {:induction false} BlockedStaysPending(s: System, events: seq<Event>, key: Key)
    requires key in s.pending && Run(s, events).Some? && BlockedThrough(s, events, key) && LoseEvent(key) !in events
    ensures key in Run(s, events).value.pending && !Quiet(Run(s, events).value)
  {
    hide Enabled, Apply, Blocked, Quiet;
    if events != [] {
      var n := |events| - 1;
      assert forall i :: 0 <= i < n ==> events[..n][..i] == events[..i];
      assert events[n] in events;
      BlockedStaysPending(s, events[..n], key);
      StepKeepsPending(Run(s, events[..n]).value, events[n], key);
    }
    NotQuiet(Run(s, events).value, key);
  }

  lemma NotQuiet(s: System, key: Key)
    requires key in s.pending
    ensures !Quiet(s)
  {
  }
}
