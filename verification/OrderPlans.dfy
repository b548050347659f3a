/**
  Which orders a cycle plans for a device, said about the device before and after, the fences and the routes
  (internal/engine/actions.go, standing.go).
*/
module OrderPlans {
  import opened Base
  import opened Keys
  import opened Transition
  import opened Fleet
  import opened SweepFacts
  import opened Outages
  import opened DwellOnce
  import opened FleetPlans

  // -------- Lists of actions and of orders --------

  lemma {:induction false} EnabledIs(acts: seq<FenceAction>, w: When, a: FenceAction)
    ensures a in Enabled(acts, w) <==> a in acts && a.enabled && a.when == w
  {
    if acts != [] {
      EnabledIs(acts[1..], w, a);
    }
  }

  /** Enabled actions keep their order and their number. */
  lemma {:induction false} EnabledConcat(a: seq<FenceAction>, b: seq<FenceAction>, w: When)
    ensures Enabled(a + b, w) == Enabled(a, w) + Enabled(b, w)
  {
    if a == [] {
      assert a + b == b;
    } else {
      assert (a + b)[1..] == a[1..] + b;
      EnabledConcat(a[1..], b, w);
    }
  }

  lemma {:induction false} HarmlessIs(acts: seq<FenceAction>, a: FenceAction)
    ensures a in Harmless(acts) <==> a in acts && a.action !in {"lock", "wipe", "clear_passcode", "reboot"}
  {
    if acts != [] {
      HarmlessIs(acts[1..], a);
    }
  }

  lemma FenceOrdersAre(id: string, acts: seq<FenceAction>, fenceID: string, trigger: string, o: Order)
    ensures |FenceOrders(id, acts, fenceID, trigger)| == |acts|
    ensures o in FenceOrders(id, acts, fenceID, trigger)
            <==> exists a :: a in acts && o == Order(id, a.action, fenceID, "", trigger)
  {
    var os := FenceOrders(id, acts, fenceID, trigger);
    if a :| a in acts && o == Order(id, a.action, fenceID, "", trigger) {
      var i :| 0 <= i < |acts| && acts[i] == a;
      assert os[i] == o;
    }
  }

  /** The fence has an enabled action of this name for this event. */
  predicate Wants(acts: seq<FenceAction>, w: When, action: string) {
    exists i :: 0 <= i < |acts| && acts[i].enabled && acts[i].when == w && acts[i].action == action
  }

  lemma WantsIs(acts: seq<FenceAction>, w: When, action: string)
    ensures Wants(acts, w, action) <==> exists a :: a in Enabled(acts, w) && a.action == action
  {
    if i :| 0 <= i < |acts| && acts[i].enabled && acts[i].when == w && acts[i].action == action {
      EnabledIs(acts, w, acts[i]);
    }
    if a :| a in Enabled(acts, w) && a.action == action {
      EnabledIs(acts, w, a);
      var i :| 0 <= i < |acts| && acts[i] == a;
    }
  }

  lemma OrdersForEvent(id: string, f: Fence, w: When, trigger: string, o: Order)
    ensures o in FenceOrders(id, f.ActionsFor(w), f.id, trigger)
            <==> Wants(f.actions, w, o.action) && o == Order(id, o.action, f.id, "", trigger)
  {
    hide Enabled, FenceOrders;
    FenceOrdersAre(id, f.ActionsFor(w), f.id, trigger, o);
    WantsIs(f.actions, w, o.action);
  }

  lemma {:induction false} FindFenceIs(fences: seq<Fence>, id: string)
    requires UniqueFences(fences)
    ensures forall k :: 0 <= k < |fences| && fences[k].id == id ==> FindFence(fences, id) == Some(fences[k])
    ensures FindFence(fences, id).Some? ==> exists k :: 0 <= k < |fences| && fences[k].id == id
  {
    if fences != [] {
      FindFenceIs(fences[1..], id);
      assert forall k :: 1 <= k < |fences| ==> fences[k] == fences[1..][k - 1];
      if FindFence(fences[1..], id).Some? {
        var k :| 0 <= k < |fences| - 1 && fences[1..][k].id == id;
        assert fences[k + 1].id == id;
      }
    }
  }

  // -------- What is planned --------

  predicate WasInside(was: Option<Device>, f: Fence) {
    was.Some? && was.value.fenceState == Inside && was.value.insideFence == f.id
  }

  predicate IsInside(cur: Device, f: Fence) {
    cur.fenceState == Inside && cur.insideFence == f.id
  }

  /** The device was inside the fence and is not any more: its enabled on_exit actions. */
  predicate ExitDue(was: Option<Device>, cur: Device, f: Fence, o: Order) {
    && WasInside(was, f) && !IsInside(cur, f)
    && Wants(f.actions, OnExit, o.action) && o == Order(cur.id, o.action, f.id, "", "on_exit")
  }

  /** It is inside the fence and was not before, and the fence does not wait for a stay: its on_enter actions. */
  predicate EnterDue(was: Option<Device>, cur: Device, f: Fence, o: Order) {
    && IsInside(cur, f) && !WasInside(was, f) && f.dwellSeconds <= 0
    && Wants(f.actions, OnEnter, o.action) && o == Order(cur.id, o.action, f.id, "", "on_enter")
  }

  /** Its position was known and is lost: the harmless on_unknown actions of every fence. */
  predicate UnknownDue(was: Option<Device>, cur: Device, f: Fence, o: Order) {
    && was.Some? && was.value.fenceState != Unknown && cur.fenceState == Unknown
    && o.action !in {"lock", "wipe", "clear_passcode", "reboot"}
    && Wants(f.actions, OnUnknown, o.action) && o == Order(cur.id, o.action, f.id, "", "on_unknown")
  }

  predicate TransitionDue(was: Option<Device>, cur: Device, f: Fence, o: Order) {
    ExitDue(was, cur, f, o) || EnterDue(was, cur, f, o) || UnknownDue(was, cur, f, o)
  }

  lemma ExitPlanned(was: Option<Device>, cur: Device, from: string, fences: seq<Fence>, o: Order)
    requires UniqueFences(fences) && ValidFences(fences)
    requires from == if was.Some? then was.value.insideFence else ""
    requires was.Some? ==> Placed(was.value)
    requires forall k :: 0 <= k < |fences| && WasInside(was, fences[k]) ==> !IsInside(cur, fences[k])
    ensures o in ExitOrders(cur.id, from, fences) <==> exists k :: 0 <= k < |fences| && ExitDue(was, cur, fences[k], o)
  {
    hide FenceOrders, Enabled, ValidFenceID, Wants;
    FindFenceIs(fences, from);
    forall k | 0 <= k < |fences| ensures fences[k].id != "" && (WasInside(was, fences[k]) <==> fences[k].id == from) {
      ValidFenceIDFree(fences[k].id);
    }
    if k :| 0 <= k < |fences| && fences[k].id == from {
      OrdersForEvent(cur.id, fences[k], OnExit, "on_exit", o);
    }
  }

  lemma EnterPlanned(was: Option<Device>, cur: Device, fences: seq<Fence>, o: Order)
    requires UniqueFences(fences) && ValidFences(fences) && Placed(cur)
    requires forall k :: 0 <= k < |fences| && IsInside(cur, fences[k]) ==> !WasInside(was, fences[k])
    ensures o in EnterOrders(cur.id, cur.insideFence, fences)
            <==> exists k :: 0 <= k < |fences| && EnterDue(was, cur, fences[k], o)
  {
    hide FenceOrders, Enabled, ValidFenceID, Wants;
    FindFenceIs(fences, cur.insideFence);
    forall k | 0 <= k < |fences| ensures fences[k].id != "" && (IsInside(cur, fences[k]) <==> fences[k].id == cur.insideFence) {
      ValidFenceIDFree(fences[k].id);
    }
    if k :| 0 <= k < |fences| && fences[k].id == cur.insideFence {
      OrdersForEvent(cur.id, fences[k], OnEnter, "on_enter", o);
    }
  }

  lemma HarmlessOrders(id: string, f: Fence, o: Order)
    ensures o in FenceOrders(id, Harmless(f.ActionsFor(OnUnknown)), f.id, "on_unknown")
            <==> o.action !in {"lock", "wipe", "clear_passcode", "reboot"}
                 && Wants(f.actions, OnUnknown, o.action) && o == Order(id, o.action, f.id, "", "on_unknown")
  {
    hide Enabled, FenceOrders, Harmless;
    var acts := f.ActionsFor(OnUnknown);
    FenceOrdersAre(id, Harmless(acts), f.id, "on_unknown", o);
    WantsIs(f.actions, OnUnknown, o.action);
    if a :| a in Harmless(acts) && o == Order(id, a.action, f.id, "", "on_unknown") {
      HarmlessIs(acts, a);
    }
    if a :| a in acts && a.action == o.action {
      HarmlessIs(acts, a);
    }
  }

  lemma {:induction false} UnknownPlanned(id: string, fences: seq<Fence>, o: Order)
    ensures o in UnknownOrders(id, fences)
            <==> exists k :: 0 <= k < |fences| && o.action !in {"lock", "wipe", "clear_passcode", "reboot"}
                             && Wants(fences[k].actions, OnUnknown, o.action)
                             && o == Order(id, o.action, fences[k].id, "", "on_unknown")
  {
    hide FenceOrders, Harmless, Enabled, Wants;
    if fences != [] {
      HarmlessOrders(id, fences[0], o);
      UnknownPlanned(id, fences[1..], o);
      assert forall k :: 1 <= k < |fences| ==> fences[k] == fences[1..][k - 1];
    }
  }

  lemma FenceOfKeyIs(d: Device)
    requires Placed(d)
    ensures FenceOfKey(KeyOf(d)) == d.insideFence
  {
    var head := if d.insideFence == "" then "none" else d.insideFence;
    if d.insideFence != "" {
      ValidFenceIDFree(d.insideFence);
    }
    ParseKeyCut(head, StateText(d.fenceState));
    assert KeyOf(d)[..|head|] == head;
  }

  lemma FirstKeyNamesNone()
    ensures FenceOfKey(FIRST_KEY) == ""
  {
    ParseKeyCut("none", StateText(Unknown));
    assert FIRST_KEY[..4] == "none";
  }

  lemma DueSplits(was: Option<Device>, cur: Device, fences: seq<Fence>, o: Order)
    ensures (exists k :: 0 <= k < |fences| && TransitionDue(was, cur, fences[k], o))
            <==> || (exists k :: 0 <= k < |fences| && ExitDue(was, cur, fences[k], o))
                 || (exists k :: 0 <= k < |fences| && EnterDue(was, cur, fences[k], o))
                 || (exists k :: 0 <= k < |fences| && UnknownDue(was, cur, fences[k], o))
  {
    hide ExitDue, EnterDue, UnknownDue;
    if k :| 0 <= k < |fences| && ExitDue(was, cur, fences[k], o) {
      assert TransitionDue(was, cur, fences[k], o);
    } else if k :| 0 <= k < |fences| && EnterDue(was, cur, fences[k], o) {
      assert TransitionDue(was, cur, fences[k], o);
    } else if k :| 0 <= k < |fences| && UnknownDue(was, cur, fences[k], o) {
      assert TransitionDue(was, cur, fences[k], o);
    }
  }

  lemma NothingDue(was: Option<Device>, cur: Device, f: Fence, o: Order)
    requires if was.Some? then SameStance(was, cur) else cur.fenceState == Unknown
    ensures !TransitionDue(was, cur, f, o)
  {
    hide Wants;
  }

  lemma ChangePlanned(was: Option<Device>, cur: Device, fences: seq<Fence>, o: Order)
    requires ValidFences(fences) && UniqueFences(fences) && (was.Some? ==> Placed(was.value)) && Placed(cur)
    requires !(if was.Some? then SameStance(was, cur) else cur.fenceState == Unknown)
    ensures || o in ExitOrders(cur.id, if was.Some? then was.value.insideFence else "", fences)
            || o in EnterOrders(cur.id, cur.insideFence, fences)
            || (cur.fenceState == Unknown && o in UnknownOrders(cur.id, fences))
            <==> exists k :: 0 <= k < |fences| && TransitionDue(was, cur, fences[k], o)
  {
    DueSplits(was, cur, fences, o);
    hide ExitDue, EnterDue, TransitionDue, ExitOrders, EnterOrders, UnknownOrders, Wants, ValidFenceID;
    ExitPlanned(was, cur, if was.Some? then was.value.insideFence else "", fences, o);
    EnterPlanned(was, cur, fences, o);
    UnknownPlanned(cur.id, fences, o);
  }

  /**
    On a change of stance: on_exit of the fence that was left, on_enter of the one entered unless it waits for a stay,
    and on a lost position the harmless on_unknown of every fence. Without a change, nothing.
  */
  lemma TransitionPlanned(was: Option<Device>, d: Device, inp: Input, o: Order)
    requires ValidFences(inp.fences) && UniqueFences(inp.fences) && (was.Some? ==> Placed(was.value))
    ensures var cur := EvaluatedDevice(was, d, inp);
            o in TransitionOrders(cur, EventOf(was, d, inp.fences, inp.now), inp.fences)
            <==> exists k :: 0 <= k < |inp.fences| && TransitionDue(was, cur, inp.fences[k], o)
  {
    var cur := EvaluatedDevice(was, d, inp);
    var tr := EventOf(was, d, inp.fences, inp.now);
    EvaluatedPlaced(was, d, inp);
    KeyTells(was, cur);
    EventIs(was, d, inp);
    FenceOfKeyIs(cur);
    FirstKeyNamesNone();
    if was.Some? {
      FenceOfKeyIs(was.value);
    }
    hide EvaluatedDevice, EventOf, KeyOf, FenceOfKey, ExitOrders, EnterOrders, UnknownOrders, TransitionDue, Placed,
         SameStance, ValidFences, UniqueFences;
    if tr.Some? {
      ChangePlanned(was, cur, inp.fences, o);
    } else {
      forall k | 0 <= k < |inp.fences| ensures !TransitionDue(was, cur, inp.fences[k], o) {
        NothingDue(was, cur, inp.fences[k], o);
      }
    }
  }

  lemma EventIs(was: Option<Device>, d: Device, inp: Input)
    ensures var cur := EvaluatedDevice(was, d, inp);
            var tr := EventOf(was, d, inp.fences, inp.now);
            && (tr.None? <==> PreviousKey(was) == KeyOf(cur))
            && (tr.Some? ==> tr.value.from == PreviousKey(was) && tr.value.to == KeyOf(cur))
  {
  }

  // -------- Routes, stays, violations --------

  /** It was not off the route and is now: the enabled on_exit actions of its route, or a notice if it has no actions. */
  predicate RouteDue(was: Option<Device>, cur: Device, r: Route, o: Order) {
    && was.Some? && was.value.routeState != OffRoute && cur.routeState == OffRoute
    && (if r.actions == [] then o.action == "notify" else Wants(r.actions, OnExit, o.action))
    && o == Order(cur.id, o.action, "", r.id, "route_exit")
  }

  lemma RoutePlanned(was: Option<Device>, cur: Device, routes: seq<Route>, o: Order)
    ensures o in RouteOrders(was, cur, routes)
            <==> exists k: nat :: Assigned(routes, cur.id, k) && RouteDue(was, cur, routes[k], o)
  {
    hide Enabled, Assigned, Wants;
    ForDeviceIs(routes, cur.id);
    var r := ForDevice(routes, cur.id);
    if r.Some? && was.Some? && cur.routeState == OffRoute && was.value.routeState != OffRoute {
      var k: nat :| Assigned(routes, cur.id, k);
      var os := RouteOrders(was, cur, routes);
      RouteActionsAre(r.value, o.action);
      var acts := RouteActions(r.value);
      if a :| a in acts && a.action == o.action {
        var i :| 0 <= i < |acts| && acts[i] == a;
        assert os[i] == Order(cur.id, o.action, "", r.value.id, "route_exit");
      }
      if o in os {
        var i :| 0 <= i < |os| && os[i] == o;
        assert acts[i] in acts && acts[i].action == o.action;
      }
    }
  }

  lemma RouteActionsAre(r: Route, action: string)
    ensures (exists a :: a in RouteActions(r) && a.action == action)
            <==> if r.actions == [] then action == "notify" else Wants(r.actions, OnExit, action)
  {
    WantsIs(r.actions, OnExit, action);
    if r.actions == [] {
      var note := FenceAction("notify", OnExit, true);
      assert RouteActions(r) == [note] && note in RouteActions(r);
    }
  }

  /** The stay has reached the threshold of the fence and was not marked yet: its on_enter actions. */
  predicate DwellDue(cur: Device, f: Fence, marks: map<string, Time>, o: Order) {
    && f.dwellSeconds > 0 && IsInside(cur, f) && cur.since.Some? && cur.dwell >= f.dwellSeconds
    && !(cur.id + "|" + f.id in marks && marks[cur.id + "|" + f.id] == cur.since.value)
    && Wants(f.actions, OnEnter, o.action) && o == Order(cur.id, o.action, f.id, "", "dwell")
  }

  /** Outside every fence, on every n-th count of this fence, the present cycle included: its on_violation actions. */
  predicate ViolationDue(cur: Device, f: Fence, violations: map<string, int>, o: Order) {
    && cur.fenceState == Outside
    && (Count(violations, cur.id + "|" + f.id) + 1) % (if f.violationInterval < 1 then 1 else f.violationInterval) == 0
    && Wants(f.actions, OnViolation, o.action) && o == Order(cur.id, o.action, f.id, "", "on_violation")
  }

  lemma {:induction false} MarksElsewhere(cur: Device, fences: seq<Fence>, m: map<string, Time>, key: string)
    requires forall i :: 0 <= i < |fences| ==> MarkKey(cur.id, fences[i].id) != key
    ensures At(MarksAfter(cur, fences, m), key) == At(m, key)
  {
    if fences != [] {
      hide MarkKey, Fires, Forgets;
      var n := |fences| - 1;
      MarksElsewhere(cur, fences[..n], m, key);
    }
  }

  lemma {:induction false} CountsElsewhere(cur: Device, fences: seq<Fence>, v: map<string, int>, key: string)
    requires forall i :: 0 <= i < |fences| ==> MarkKey(cur.id, fences[i].id) != key
    ensures At(ViolationsAfter(cur, fences, v), key) == At(v, key)
  {
    if fences != [] {
      hide MarkKey, Violates;
      CountsElsewhere(cur, fences[..|fences| - 1], v, key);
    }
  }

  lemma KeysApart(id: string, fences: seq<Fence>, n: nat)
    requires UniqueFences(fences) && ValidFences(fences) && n < |fences|
    ensures forall i :: 0 <= i < n ==> MarkKey(id, fences[i].id) != MarkKey(id, fences[n].id)
  {
    hide MarkKey, ValidFenceID;
    ValidFenceIDFree(fences[n].id);
    forall i | 0 <= i < n ensures MarkKey(id, fences[i].id) != MarkKey(id, fences[n].id) {
      ValidFenceIDFree(fences[i].id);
      if MarkKey(id, fences[i].id) == MarkKey(id, fences[n].id) {
        MarkKeyInjective(id, fences[i].id, id, fences[n].id);
      }
    }
  }

  lemma FiresIs(cur: Device, f: Fence, m: map<string, Time>, o: Order)
    ensures Fires(cur, f, m) && o in FenceOrders(cur.id, f.ActionsFor(OnEnter), f.id, "dwell") <==> DwellDue(cur, f, m, o)
  {
    assert MarkKey(cur.id, f.id) == cur.id + "|" + f.id;
    OrdersForEvent(cur.id, f, OnEnter, "dwell", o);
    hide FenceOrders, Wants, Enabled;
    if f.ActionsFor(OnEnter) == [] {
      NothingOrdered(cur.id, f, "dwell", o);
    }
  }

  lemma NothingOrdered(id: string, f: Fence, trigger: string, o: Order)
    ensures o !in FenceOrders(id, [], f.id, trigger)
  {
  }

  lemma FiresByMark(cur: Device, f: Fence, m: map<string, Time>, m': map<string, Time>)
    requires At(m, MarkKey(cur.id, f.id)) == At(m', MarkKey(cur.id, f.id))
    ensures Fires(cur, f, m) == Fires(cur, f, m')
  {
  }

  lemma {:induction false} DwellPlanned(cur: Device, fences: seq<Fence>, m: map<string, Time>, o: Order)
    requires UniqueFences(fences) && ValidFences(fences)
    ensures o in DwellOrders(cur, fences, m) <==> exists k :: 0 <= k < |fences| && DwellDue(cur, fences[k], m, o)
  {
    if fences != [] {
      hide MarkKey, Fires, DwellDue, FenceOrders, ValidFenceID, MarksAfter;
      var n := |fences| - 1;
      DwellPlanned(cur, fences[..n], m, o);
      KeysApart(cur.id, fences, n);
      MarksElsewhere(cur, fences[..n], m, MarkKey(cur.id, fences[n].id));
      FiresByMark(cur, fences[n], MarksAfter(cur, fences[..n], m), m);
      FiresIs(cur, fences[n], m, o);
      assert forall k :: 0 <= k < n ==> fences[..n][k] == fences[k];
    }
  }

  lemma DueIs(cur: Device, f: Fence, v: map<string, int>, o: Order)
    ensures Due(cur, f, v) && o in FenceOrders(cur.id, f.ActionsFor(OnViolation), f.id, "on_violation")
            <==> ViolationDue(cur, f, v, o)
  {
    assert MarkKey(cur.id, f.id) == cur.id + "|" + f.id;
    OrdersForEvent(cur.id, f, OnViolation, "on_violation", o);
    hide FenceOrders, Wants, Enabled;
    if f.ActionsFor(OnViolation) == [] {
      NothingOrdered(cur.id, f, "on_violation", o);
    }
  }

  lemma DueByCount(cur: Device, f: Fence, v: map<string, int>, v': map<string, int>)
    requires At(v, MarkKey(cur.id, f.id)) == At(v', MarkKey(cur.id, f.id))
    ensures Due(cur, f, v) == Due(cur, f, v')
  {
  }

  lemma {:induction false} ViolationPlanned(cur: Device, fences: seq<Fence>, v: map<string, int>, o: Order)
    requires UniqueFences(fences) && ValidFences(fences)
    ensures o in StandingOrders(cur, fences, v) <==> exists k :: 0 <= k < |fences| && ViolationDue(cur, fences[k], v, o)
  {
    if fences != [] {
      hide MarkKey, Due, ViolationDue, FenceOrders, ValidFenceID, ViolationsAfter;
      var n := |fences| - 1;
      ViolationPlanned(cur, fences[..n], v, o);
      KeysApart(cur.id, fences, n);
      CountsElsewhere(cur, fences[..n], v, MarkKey(cur.id, fences[n].id));
      DueByCount(cur, fences[n], ViolationsAfter(cur, fences[..n], v), v);
      DueIs(cur, fences[n], v, o);
      assert forall k :: 0 <= k < n ==> fences[..n][k] == fences[k];
    }
  }

  // -------- The whole plan --------

  /** Every reason a device has for an order in one cycle. */
  ghost predicate OrderDue(was: Option<Device>, cur: Device, inp: Input, marks: map<string, Time>,
                           violations: map<string, int>, o: Order)
  {
    || (exists k: nat :: Assigned(inp.routes, cur.id, k) && RouteDue(was, cur, inp.routes[k], o))
    || (exists k :: 0 <= k < |inp.fences| && TransitionDue(was, cur, inp.fences[k], o))
    || (exists k :: 0 <= k < |inp.fences| && DwellDue(cur, inp.fences[k], marks, o))
    || (exists k :: 0 <= k < |inp.fences| && ViolationDue(cur, inp.fences[k], violations, o))
  }

  lemma {:induction false} UnknownTrigger(id: string, fences: seq<Fence>)
    ensures forall o :: o in UnknownOrders(id, fences) ==> o.trigger == "on_unknown"
  {
    forall o | o in UnknownOrders(id, fences) ensures o.trigger == "on_unknown" {
      UnknownPlanned(id, fences, o);
    }
  }

  lemma {:induction false} DwellTrigger(cur: Device, fences: seq<Fence>, m: map<string, Time>)
    ensures forall o :: o in DwellOrders(cur, fences, m) ==> o.trigger == "dwell"
  {
    if fences != [] {
      hide Fires, Enabled;
      DwellTrigger(cur, fences[..|fences| - 1], m);
    }
  }

  lemma {:induction false} StandingTrigger(cur: Device, fences: seq<Fence>, v: map<string, int>)
    ensures forall o :: o in StandingOrders(cur, fences, v) ==> o.trigger == "on_violation"
  {
    if fences != [] {
      hide Due, Enabled;
      StandingTrigger(cur, fences[..|fences| - 1], v);
    }
  }

  lemma TransitionParts(cur: Device, tr: Option<Event>, fences: seq<Fence>)
    returns (exits: seq<Order>, enters: seq<Order>, unknown: seq<Order>)
    ensures TransitionOrders(cur, tr, fences) == exits + enters + unknown
    ensures forall o :: o in exits ==> o.trigger == "on_exit"
    ensures forall o :: o in enters ==> o.trigger == "on_enter"
    ensures forall o :: o in unknown ==> o.trigger == "on_unknown"
  {
    hide FenceOfKey, Enabled, FindFence, UnknownOrders;
    UnknownTrigger(cur.id, fences);
    exits, enters, unknown := [], [], [];
    if tr.Some? {
      exits := ExitOrders(cur.id, FenceOfKey(tr.value.from), fences);
      enters := EnterOrders(cur.id, FenceOfKey(tr.value.to), fences);
      unknown := if cur.fenceState.Unknown? then UnknownOrders(cur.id, fences) else [];
    }
  }

  /** The plan of a device comes trigger by trigger; of an order asked for twice the first is kept. */
  lemma PlanInParts(was: Option<Device>, cur: Device, tr: Option<Event>, inp: Input, marks: map<string, Time>,
                    violations: map<string, int>)
    returns (route: seq<Order>, exits: seq<Order>, enters: seq<Order>, unknown: seq<Order>, dwell: seq<Order>,
             standing: seq<Order>)
    ensures OrdersOf(was, cur, tr, inp, marks, violations) == route + exits + enters + unknown + dwell + standing
    ensures forall o :: o in route ==> o.trigger == "route_exit"
    ensures forall o :: o in exits ==> o.trigger == "on_exit"
    ensures forall o :: o in enters ==> o.trigger == "on_enter"
    ensures forall o :: o in unknown ==> o.trigger == "on_unknown"
    ensures forall o :: o in dwell ==> o.trigger == "dwell"
    ensures forall o :: o in standing ==> o.trigger == "on_violation"
  {
    hide DwellOrders, StandingOrders, TransitionOrders, RouteOrders;
    RouteTrigger(was, cur, inp.routes);
    DwellTrigger(cur, inp.fences, marks);
    StandingTrigger(cur, inp.fences, violations);
    exits, enters, unknown := TransitionParts(cur, tr, inp.fences);
    route := RouteOrders(was, cur, inp.routes);
    dwell, standing := DwellOrders(cur, inp.fences, marks), StandingOrders(cur, inp.fences, violations);
    assert route + (exits + enters + unknown) + dwell + standing == route + exits + enters + unknown + dwell + standing;
  }

  lemma RouteTrigger(was: Option<Device>, cur: Device, routes: seq<Route>)
    ensures forall o :: o in RouteOrders(was, cur, routes) ==> o.trigger == "route_exit"
  {
    hide ForDevice, RouteActions;
  }

  /** One device of a cycle: an order is planned for it if and only if there is a reason for it. */
  lemma PlanIff(was: Option<Device>, d: Device, inp: Input, marks: map<string, Time>, violations: map<string, int>,
                o: Order)
    requires ValidFences(inp.fences) && UniqueFences(inp.fences) && (was.Some? ==> Placed(was.value))
    ensures var cur := EvaluatedDevice(was, d, inp);
            o in OrdersOf(was, cur, EventOf(was, d, inp.fences, inp.now), inp, marks, violations)
            <==> OrderDue(was, cur, inp, marks, violations, o)
  {
    hide EvaluatedDevice, EventOf, TransitionDue, DwellDue, ViolationDue, RouteDue, Assigned, TransitionOrders, DwellOrders,
         StandingOrders, RouteOrders;
    var cur := EvaluatedDevice(was, d, inp);
    RoutePlanned(was, cur, inp.routes, o);
    TransitionPlanned(was, d, inp, o);
    DwellPlanned(cur, inp.fences, marks, o);
    ViolationPlanned(cur, inp.fences, violations, o);
  }

  // -------- The order of a plan --------

  /** Action by action. */
  lemma FenceOrdersConcat(id: string, a: seq<FenceAction>, b: seq<FenceAction>, fenceID: string, trigger: string)
    ensures FenceOrders(id, a + b, fenceID, trigger)
         == FenceOrders(id, a, fenceID, trigger) + FenceOrders(id, b, fenceID, trigger)
  {
  }

  lemma {:induction false} HarmlessConcat(a: seq<FenceAction>, b: seq<FenceAction>)
    ensures Harmless(a + b) == Harmless(a) + Harmless(b)
  {
    if a == [] {
      assert a + b == b;
    } else {
      assert (a + b)[1..] == a[1..] + b;
      HarmlessConcat(a[1..], b);
    }
  }

  /** The orders of a route are those of its enabled exit actions in their order, or one notification. */
  lemma RouteInOrder(was: Option<Device>, cur: Device, routes: seq<Route>, r: Route)
    requires ForDevice(routes, cur.id) == Some(r) && RouteOrders(was, cur, routes) != []
    ensures var os, acts := RouteOrders(was, cur, routes), Enabled(r.actions, OnExit);
            && (r.actions == [] ==> os == [Order(cur.id, "notify", "", r.id, "route_exit")])
            && (r.actions != [] ==>
                  |os| == |acts| && forall i :: 0 <= i < |os| ==> os[i] == Order(cur.id, acts[i].action, "", r.id, "route_exit"))
  {
    hide ForDevice, Enabled;
  }

  /** Fence by fence: on a lost position. */
  lemma {:induction false} UnknownConcat(id: string, a: seq<Fence>, b: seq<Fence>)
    ensures UnknownOrders(id, a + b) == UnknownOrders(id, a) + UnknownOrders(id, b)
  {
    hide FenceOrders, Harmless;
    if a == [] {
      assert a + b == b;
    } else {
      assert (a + b)[1..] == a[1..] + b;
      UnknownConcat(id, a[1..], b);
    }
  }

  /** Fence by fence: of the stays, each with the marks the fences before it left. */
  lemma {:induction false} DwellConcat(cur: Device, a: seq<Fence>, b: seq<Fence>, m: map<string, Time>)
    ensures MarksAfter(cur, a + b, m) == MarksAfter(cur, b, MarksAfter(cur, a, m))
    ensures DwellOrders(cur, a + b, m) == DwellOrders(cur, a, m) + DwellOrders(cur, b, MarksAfter(cur, a, m))
  {
    hide Fires, Marked, FenceOrders;
    if b == [] {
      assert a + b == a;
    } else {
      assert (a + b)[..|a + b| - 1] == a + b[..|b| - 1];
      DwellConcat(cur, a, b[..|b| - 1], m);
    }
  }

  /** Fence by fence: of the violations, each with the counts the fences before it left. */
  lemma {:induction false} StandingConcat(cur: Device, a: seq<Fence>, b: seq<Fence>, v: map<string, int>)
    ensures ViolationsAfter(cur, a + b, v) == ViolationsAfter(cur, b, ViolationsAfter(cur, a, v))
    ensures StandingOrders(cur, a + b, v) == StandingOrders(cur, a, v) + StandingOrders(cur, b, ViolationsAfter(cur, a, v))
  {
    hide Due, Counted, FenceOrders;
    if b == [] {
      assert a + b == a;
    } else {
      assert (a + b)[..|a + b| - 1] == a + b[..|b| - 1];
      StandingConcat(cur, a, b[..|b| - 1], v);
    }
  }

  // -------- One cycle --------

  lemma {:induction false} SweepPlans(prev: map<string, Device>, inp: Input, ds: seq<Device>, w: Work, id: string)
    requires Unique(ds) && ValidFences(inp.fences)
    ensures var v := Sweep(prev, inp, ds, w);
            var sent := Lookup(ds, id);
            if sent.None? then SameWork(w, v, id)
            else
              var cur := EvaluatedDevice(Get(prev, id), sent.value, inp);
              var tr := EventOf(Get(prev, id), sent.value, inp.fences, inp.now);
              && OrdersFor(v.orders, id) == OrdersFor(w.orders, id) + OrdersOf(Get(prev, id), cur, tr, inp, w.marks, w.violations)
              && Agree(MarksAfter(cur, inp.fences, w.marks), v.marks, id)
              && Agree(ViolationsAfter(cur, inp.fences, w.violations), v.violations, id)
  {
    hide EvaluatedDevice, Visit, OrdersOf, SameWork, EventOf, Agree, MarksAfter, ViolationsAfter;
    if ds == [] {
      SameWorkRefl(w, id);
    } else {
      var n := |ds| - 1;
      var b := Sweep(prev, inp, ds[..n], w);
      SweepPlans(prev, inp, ds[..n], w, id);
      LookupIs(ds[..n], id);
      if ds[n].id == id {
        OwnVisit(prev, inp, ds[n], w, b);
      } else {
        VisitFrame(prev, inp, ds[n], b, id);
        SameWorkParts(b, Visit(prev, inp, ds[n], b), id);
        if Lookup(ds, id).None? {
          SameWorkTrans(w, b, Visit(prev, inp, ds[n], b), id);
        } else {
          var cur := EvaluatedDevice(Get(prev, id), Lookup(ds, id).value, inp);
          AgreeAll(MarksAfter(cur, inp.fences, w.marks), b.marks, Visit(prev, inp, ds[n], b).marks, id);
          AgreeAll(ViolationsAfter(cur, inp.fences, w.violations), b.violations, Visit(prev, inp, ds[n], b).violations, id);
        }
      }
    }
  }

  lemma SameWorkRefl(w: Work, id: string)
    ensures SameWork(w, w, id)
  {
  }

  lemma SameWorkTrans(a: Work, b: Work, c: Work, id: string)
    requires SameWork(a, b, id) && SameWork(b, c, id)
    ensures SameWork(a, c, id)
  {
  }

  lemma SameWorkParts(a: Work, b: Work, id: string)
    requires SameWork(a, b, id)
    ensures OrdersFor(a.orders, id) == OrdersFor(b.orders, id)
    ensures Agree(a.marks, b.marks, id) && Agree(a.violations, b.violations, id)
  {
  }

  lemma AgreeAll<T(!new)>(a: map<string, T>, b: map<string, T>, c: map<string, T>, id: string)
    requires Agree(a, b, id) && Agree(b, c, id)
    ensures Agree(a, c, id)
  {
  }

  lemma {:induction false} OrdersForAll(orders: seq<Order>, id: string)
    requires forall o :: o in orders ==> o.deviceID == id
    ensures OrdersFor(orders, id) == orders
  {
    if orders != [] {
      OrdersForAll(orders[..|orders| - 1], id);
    }
  }

  lemma {:induction false} OrdersForIs(orders: seq<Order>, id: string, o: Order)
    ensures o in OrdersFor(orders, id) <==> o in orders && o.deviceID == id
  {
    if orders != [] {
      OrdersForIs(orders[..|orders| - 1], id, o);
      assert orders == orders[..|orders| - 1] + [orders[|orders| - 1]];
    }
  }

  lemma OwnVisit(prev: map<string, Device>, inp: Input, d: Device, w: Work, b: Work)
    requires SameWork(w, b, d.id) && ValidFences(inp.fences)
    ensures var v := Visit(prev, inp, d, b);
            var cur := EvaluatedDevice(Get(prev, d.id), d, inp);
            var tr := EventOf(Get(prev, d.id), d, inp.fences, inp.now);
            && OrdersFor(v.orders, d.id)
               == OrdersFor(w.orders, d.id) + OrdersOf(Get(prev, d.id), cur, tr, inp, w.marks, w.violations)
            && Agree(MarksAfter(cur, inp.fences, w.marks), v.marks, d.id)
            && Agree(ViolationsAfter(cur, inp.fences, w.violations), v.violations, d.id)
  {
    hide EvaluatedDevice, EventOf, MarksAfter, ViolationsAfter, DwellOrders, StandingOrders, TransitionOrders, RouteOrders,
         DirtyAfter, FiringsOf;
    var before := Get(prev, d.id);
    var cur := EvaluatedDevice(before, d, inp);
    EvaluatedID(before, d, inp);
    var tr := EventOf(before, d, inp.fences, inp.now);
    MarksCongruent(cur, inp.fences, w.marks, b.marks);
    ViolationsCongruent(cur, inp.fences, w.violations, b.violations);
    var orders := OrdersOf(before, cur, tr, inp, w.marks, w.violations);
    assert orders == OrdersOf(before, cur, tr, inp, b.marks, b.violations);
    OwnedOrders(before, cur, tr, inp, w.marks, w.violations);
    OrdersForAll(orders, d.id);
    OrdersForConcat(b.orders, orders, d.id);
  }

  /** What a cycle orders for a device is the plan of its own visit, by the marks and counts the cycle began with. */
  lemma OrdersOfCycle(s: State, inp: Input, id: string)
    requires Unique(AllFetched(inp.outcomes)) && ValidFences(inp.fences)
    ensures var was, sent := Lookup(s.devices, id), Lookup(AllFetched(inp.outcomes), id);
            CycleOrders(s, inp, id)
            == if sent.None? then []
               else OrdersOf(was, EvaluatedDevice(was, sent.value, inp), EventOf(was, sent.value, inp.fences, inp.now), inp,
                             s.marks, s.violations)
  {
    hide EvaluatedDevice, EventOf, OrdersOf, Sweep, Index, Agree, MarksAfter, ViolationsAfter;
    SweepPlans(Index(s.devices), inp, AllFetched(inp.outcomes), Begin(s), id);
  }

  /** A connector sent the device, and there is a reason for this order to it. */
  ghost predicate DueTo(s: State, inp: Input, d: Device, o: Order) {
    && Sent(inp.outcomes, d) && d.id == o.deviceID
    && OrderDue(Lookup(s.devices, d.id), EvaluatedDevice(Lookup(s.devices, d.id), d, inp), inp, s.marks, s.violations, o)
  }

  /** A cycle orders something if and only if it evaluated the device and there is a reason for it. */
  lemma OrderedIff(s: State, inp: Input, o: Order)
    requires Unique(AllFetched(inp.outcomes)) && ValidFences(inp.fences) && UniqueFences(inp.fences)
    requires forall i :: 0 <= i < |s.devices| ==> Placed(s.devices[i])
    ensures o in CycleWork(s, inp).orders
            <==> exists d :: DueTo(s, inp, d, o)
  {
    hide EvaluatedDevice, EventOf, OrdersOf, Sweep, Index, OrderDue, AllFetched, Sent;
    var id := o.deviceID;
    var was, sent := Lookup(s.devices, id), Lookup(AllFetched(inp.outcomes), id);
    OrdersOfCycle(s, inp, id);
    OrdersForIs(CycleWork(s, inp).orders, id, o);
    LookupIs(s.devices, id);
    LookupIs(AllFetched(inp.outcomes), id);
    if sent.Some? {
      SentIsRead(inp.outcomes, sent.value);
      PlanIff(was, sent.value, inp, s.marks, s.violations, o);
      var cur := EvaluatedDevice(was, sent.value, inp);
      assert DueTo(s, inp, sent.value, o) <==> OrderDue(was, cur, inp, s.marks, s.violations, o);
    }
    forall d | Sent(inp.outcomes, d) && d.id == id ensures sent == Some(d) {
      SentIsRead(inp.outcomes, d);
      var all := AllFetched(inp.outcomes);
      var i :| 0 <= i < |all| && all[i] == d;
    }
  }

  /** Earlier devices of the fleet are served first. */
  lemma {:induction false} EarlierFirst(prev: map<string, Device>, inp: Input, ds: seq<Device>, i: nat, w: Work)
    requires i <= |ds|
    ensures Sweep(prev, inp, ds[..i], w).orders <= Sweep(prev, inp, ds, w).orders
  {
    hide OrdersOf, EvaluatedDevice, EventOf;
    if i == |ds| {
      assert ds[..i] == ds;
    } else {
      var n := |ds| - 1;
      EarlierFirst(prev, inp, ds[..n], i, w);
      assert ds[..n][..i] == ds[..i];
    }
  }

  /** In every reachable state the stored devices are placed, as the plans ask. */
  lemma {:induction false} StoredPlaced(steps: seq<Step>)
    requires WellFormed(steps)
    ensures forall i :: 0 <= i < |After(steps).devices| ==> Placed(After(steps).devices[i])
  {
    if steps != [] {
      var n := |steps| - 1;
      StoredPlaced(steps[..n]);
      if steps[n].Run? {
        hide Cycle, EvaluatedDevice, Placed, Index;
        var s, inp := After(steps[..n]), steps[n].inp;
        CycleStores(s, inp);
        var evaluated := CycleEvaluated(s, inp);
        var kept := Stale(s.devices, Down(inp.outcomes), IDs(evaluated));
        forall i | 0 <= i < |evaluated| ensures Placed(evaluated[i]) {
          var d := AllFetched(inp.outcomes)[i];
          EvaluatedAt(Index(s.devices), inp, AllFetched(inp.outcomes), i);
          EvaluatedPlaced(Lookup(s.devices, d.id), d, inp);
        }
        KeptFrom(s.devices, Down(inp.outcomes), IDs(evaluated));
        forall i | 0 <= i < |kept| ensures Placed(kept[i]) {
          assert kept[i] in s.devices;
          var j :| 0 <= j < |s.devices| && s.devices[j] == kept[i];
        }
      }
    }
  }

  lemma {:induction false} KeptFrom(prev: seq<Device>, down: set<string>, seen: set<string>)
    ensures forall d :: d in Stale(prev, down, seen) ==> d in prev
  {
    if prev != [] {
      KeptFrom(prev[..|prev| - 1], down, seen);
    }
  }
}
