/**
  What a cycle reads from its connectors, what it makes of one device, and which geofence and route orders it plans,
  said about the fleet, the fences and the routes instead of the loops (internal/engine/cycle.go, actions.go, standing.go).
*/
module FleetPlans {
  import opened Base
  import opened Keys
  import opened Transition
  import opened Fleet
  import opened SweepFacts
  import opened HistoricalReplay

  // -------- What the connectors sent --------

  /** The answers of two runs of connectors are read one after the other. */
  lemma {:induction false} FetchedConcat(a: seq<Outcome>, b: seq<Outcome>)
    ensures AllFetched(a + b) == AllFetched(a) + AllFetched(b)
  {
    if b == [] {
      assert a + b == a;
    } else {
      assert (a + b)[..|a + b| - 1] == a + b[..|b| - 1];
      FetchedConcat(a, b[..|b| - 1]);
    }
  }

  lemma FetchedOne(name: string, ds: seq<Device>)
    ensures AllFetched([Fetched(name, ds)]) == ds && AllFetched([Failed(name)]) == []
  {
    assert [Fetched(name, ds)][..0] == [] && [Failed(name)][..0] == [];
  }

  /** Some connector answered, and sent the device. */
  predicate Sent(outs: seq<Outcome>, d: Device) {
    exists i :: 0 <= i < |outs| && outs[i].Fetched? && d in outs[i].devices
  }

  lemma {:induction false} SentIsRead(outs: seq<Outcome>, d: Device)
    ensures d in AllFetched(outs) <==> Sent(outs, d)
  {
    if outs != [] {
      var n := |outs| - 1;
      SentIsRead(outs[..n], d);
      assert forall i :: 0 <= i < n ==> outs[..n][i] == outs[i];
      if i :| 0 <= i < |outs| && outs[i].Fetched? && d in outs[i].devices {
        assert i < n ==> outs[..n][i].Fetched? && d in outs[..n][i].devices;
      }
    }
  }

  /**
    The fleet after a cycle, device by device: evaluated if an answering connector sent it, kept as it was if nobody
    sent it and the connector it belongs to failed, gone otherwise.
  */
  lemma FleetAfterCycle(s: State, inp: Input, id: string)
    requires Unique(s.devices) && Unique(AllFetched(inp.outcomes))
    ensures forall d :: Sent(inp.outcomes, d) && d.id == id ==>
              Lookup(Cycle(s, inp).devices, id) == Some(EvaluatedDevice(Lookup(s.devices, id), d, inp))
    ensures (forall d :: Sent(inp.outcomes, d) ==> d.id != id) ==>
              Lookup(Cycle(s, inp).devices, id)
              == if Lookup(s.devices, id).Some? && Failed(Lookup(s.devices, id).value.provider) in inp.outcomes
                 then Lookup(s.devices, id) else None
  {
    hide EvaluatedDevice, Cycle, Index, AllFetched, Unique;
    LookupAfterCycle(s, inp, id);
    var all := AllFetched(inp.outcomes);
    LookupIs(all, id);
    forall d | Sent(inp.outcomes, d) && d.id == id ensures Lookup(all, id) == Some(d) {
      SentIsRead(inp.outcomes, d);
      var i :| 0 <= i < |all| && all[i] == d;
    }
    if forall d :: Sent(inp.outcomes, d) ==> d.id != id {
      forall i | 0 <= i < |all| ensures all[i].id != id {
        SentIsRead(inp.outcomes, all[i]);
      }
    }
    DownIs(inp.outcomes);
  }

  lemma DownIs(outs: seq<Outcome>)
    ensures forall name :: name in Down(outs) <==> Failed(name) in outs
  {
  }

  /** The devices file starts with what was sent, in the order of the connectors and of their answers. */
  lemma StoredInOrder(s: State, inp: Input, i: nat)
    requires i < |AllFetched(inp.outcomes)|
    ensures var d := AllFetched(inp.outcomes)[i];
            i < |Cycle(s, inp).devices|
            && Cycle(s, inp).devices[i] == EvaluatedDevice(Lookup(s.devices, d.id), d, inp)
  {
    hide EvaluatedDevice, Cycle, Index, Stale;
    CycleStores(s, inp);
    EvaluatedAt(Index(s.devices), inp, AllFetched(inp.outcomes), i);
  }

  /** The devices kept over an outage follow in the order they had. */
  lemma {:induction false} KeptConcat(a: seq<Device>, b: seq<Device>, down: set<string>, seen: set<string>)
    ensures Stale(a + b, down, seen) == Stale(a, down, seen) + Stale(b, down, seen)
  {
    if b == [] {
      assert a + b == a;
    } else {
      assert (a + b)[..|a + b| - 1] == a + b[..|b| - 1];
      KeptConcat(a, b[..|b| - 1], down, seen);
    }
  }

  /** When a list holds an id twice, the last device with it is the one that counts. */
  lemma {:induction false} LastOneCounts(ds: seq<Device>, i: nat)
    requires i < |ds| && forall j :: i < j < |ds| ==> ds[j].id != ds[i].id
    ensures Lookup(ds, ds[i].id) == Some(ds[i])
  {
    if i < |ds| - 1 {
      LastOneCounts(ds[..|ds| - 1], i);
    }
  }

  // -------- One device --------

  /** Inside means in a fence that has a name, and only then a fence is named. */
  predicate Placed(d: Device) {
    && (d.fenceState == Inside <==> d.insideFence != "")
    && (d.insideFence == "" || ValidFenceID(d.insideFence))
  }

  /** The position can be placed: it is there, finite, and on the globe. */
  predicate Located(d: Device) {
    d.point.Some? && d.point.value.Point?
    && -90.0 <= d.point.value.lat <= 90.0 && -180.0 <= d.point.value.lng <= 180.0
  }

  predicate SameStance(was: Option<Device>, cur: Device) {
    was.Some? && was.value.fenceState == cur.fenceState && was.value.insideFence == cur.insideFence
  }

  /** State, fence, start and length of the stay of an evaluated device. */
  lemma EvaluatedStance(was: Option<Device>, d: Device, inp: Input)
    requires ValidFences(inp.fences) && (was.Some? ==> Placed(was.value))
    ensures var cur := EvaluatedDevice(was, d, inp);
            && Placed(cur)
            && cur.id == d.id && cur.name == d.name && cur.provider == d.provider && cur.point == d.point
            && (cur.fenceState == Unknown <==> !Located(d))
            && (cur.fenceState == Inside <==>
                  Located(d) && exists k :: 0 <= k < |inp.fences| && inp.fences[k].contains(d.point.value))
            && (forall k :: 0 <= k < |inp.fences| && Located(d) && FirstHolding(d.point.value, inp.fences, k) ==>
                  cur.insideFence == inp.fences[k].id)
    ensures var cur := EvaluatedDevice(was, d, inp);
            && (SameStance(was, cur) && was.value.since.Some? && was.value.since.value != ZERO_TIME ==>
                  cur.since == was.value.since)
            && (!SameStance(was, cur) ==> cur.since == Some(inp.now))
            && cur.since.Some?
            && (cur.since.value <= inp.now ==>
                  cur.dwell * SECOND <= inp.now - cur.since.value < (cur.dwell + 1) * SECOND)
  {
    hide Key, FirstHolding, ValidFenceID;
    EvaluatedPlaced(was, d, inp);
    var cur := EvaluatedDevice(was, d, inp);
    KeyTells(was, cur);
    if Located(d) {
      var i := FirstFenceWins(d.point.value, inp.fences);
      if cur.fenceState == Inside {
        forall k | 0 <= k < |inp.fences| && FirstHolding(d.point.value, inp.fences, k) ensures k == i {
          OneFirst(d.point.value, inp.fences, k, i);
        }
      } else {
        NoFirst(d.point.value, inp.fences);
      }
    }
  }

  lemma OneFirst(p: Point, fences: seq<Fence>, k: nat, i: nat)
    requires FirstHolding(p, fences, k) && FirstHolding(p, fences, i)
    ensures k == i
  {
  }

  lemma NoFirst(p: Point, fences: seq<Fence>)
    requires forall i :: 0 <= i < |fences| ==> !fences[i].contains(p)
    ensures forall k: nat :: !FirstHolding(p, fences, k)
  {
  }

  lemma EvaluatedPlaced(was: Option<Device>, d: Device, inp: Input)
    requires ValidFences(inp.fences)
    ensures Placed(EvaluatedDevice(was, d, inp))
  {
    InsideFenceValid(d.point, inp.fences);
    if EvaluateFence(d.point, inp.fences).0 == Inside {
      ValidFenceIDFree(EvaluateFence(d.point, inp.fences).1);
    }
  }

  /** Two stances have one key exactly when they are the same; a device never seen counts as lost. */
  lemma KeyTells(was: Option<Device>, cur: Device)
    requires (was.Some? ==> Placed(was.value)) && Placed(cur)
    ensures PreviousKey(was) == KeyOf(cur) <==>
              if was.Some? then SameStance(was, cur) else cur.fenceState == Unknown
  {
    if PreviousKey(was) == KeyOf(cur) {
      SameKeySameStance(was, cur);
    }
  }

  // -------- Losing the position --------

  /** A device evaluated cycle after cycle, each time from what it was sent as. */
  function Followed(was: Device, sent: seq<(Device, Input)>): Device {
    if sent == [] then was
    else
      var (d, inp) := sent[|sent| - 1];
      EvaluatedDevice(Some(Followed(was, sent[..|sent| - 1])), d, inp)
  }

  /** However long it stays without a position, the fence it was last seen in is remembered. */
  lemma {:induction false} LastFenceRemembered(was: Device, sent: seq<(Device, Input)>)
    requires Placed(was) && was.insideFence != "" && sent != []
    requires forall i :: 0 <= i < |sent| ==> !Located(sent[i].0)
    ensures var cur := Followed(was, sent);
            cur.fenceState == Unknown && cur.insideFence == "" && cur.lastInsideFence == was.insideFence
  {
    var n := |sent| - 1;
    if n > 0 {
      LastFenceRemembered(was, sent[..n]);
    } else {
      assert Followed(was, sent[..n]) == was;
    }
  }

  /** Placed anywhere, it remembers where it is now, and nothing once it is outside. */
  lemma LastFenceIsPresent(was: Option<Device>, d: Device, inp: Input)
    requires Located(d)
    ensures EvaluatedDevice(was, d, inp).lastInsideFence == EvaluatedDevice(was, d, inp).insideFence
  {
  }

  // -------- Events --------

  /** A cycle logs a device exactly when its stance changed, and the event names both stances. */
  lemma EventTells(was: Option<Device>, d: Device, inp: Input)
    requires ValidFences(inp.fences) && (was.Some? ==> Placed(was.value))
    ensures var cur := EvaluatedDevice(was, d, inp);
            var tr := EventOf(was, d, inp.fences, inp.now);
            && (tr.Some? <==> if was.Some? then !SameStance(was, cur) else cur.fenceState != Unknown)
            && (tr.Some? ==>
                  && tr.value.at == inp.now && tr.value.deviceID == d.id && tr.value.deviceName == d.name
                  && ParseKey(tr.value.from)
                     == (if was.Some? then (was.value.fenceState, was.value.insideFence) else (Unknown, ""))
                  && ParseKey(tr.value.to) == (cur.fenceState, cur.insideFence))
  {
    EvaluatedPlaced(was, d, inp);
    var cur := EvaluatedDevice(was, d, inp);
    KeyTells(was, cur);
    PlacedReads(cur);
    if was.Some? {
      PlacedReads(was.value);
    } else {
      ParseKeyInvertsKey("", Unknown);
    }
    hide Key, ParseKey;
  }

  lemma PlacedReads(d: Device)
    requires Placed(d)
    ensures ParseKey(KeyOf(d)) == (d.fenceState, d.insideFence)
  {
    ParseKeyInvertsKey(d.insideFence, d.fenceState);
    if d.insideFence != "" {
      ValidFenceIDFree(d.insideFence);
    }
  }

  // -------- Routes --------

  /** The first route in list order that names the device. */
  predicate Assigned(routes: seq<Route>, id: string, k: nat) {
    k < |routes| && id in routes[k].deviceIDs && forall j :: 0 <= j < k ==> id !in routes[j].deviceIDs
  }

  lemma {:induction false} ForDeviceIs(routes: seq<Route>, id: string)
    ensures forall k: nat :: Assigned(routes, id, k) ==> ForDevice(routes, id) == Some(routes[k])
    ensures ForDevice(routes, id).None? <==> forall k :: 0 <= k < |routes| ==> id !in routes[k].deviceIDs
    ensures ForDevice(routes, id).Some? ==> exists k: nat :: Assigned(routes, id, k)
  {
    if routes != [] {
      ForDeviceIs(routes[1..], id);
      assert forall k :: 1 <= k < |routes| ==> routes[k] == routes[1..][k - 1];
      if id in routes[0].deviceIDs {
        assert Assigned(routes, id, 0);
      } else {
        forall k: nat | Assigned(routes, id, k) ensures k > 0 && Assigned(routes[1..], id, k - 1) {
        }
        if ForDevice(routes, id).Some? {
          var k: nat :| Assigned(routes[1..], id, k);
          assert Assigned(routes, id, k + 1);
        }
      }
    }
  }

  /** Off the route is farther from it than its corridor; without a route or a position there is no route state. */
  lemma RouteTells(was: Option<Device>, d: Device, inp: Input)
    ensures var cur := EvaluatedDevice(was, d, inp);
            && (forall k: nat :: Assigned(inp.routes, d.id, k) && d.point.Some? ==>
                  var m := inp.routes[k].distance(d.point.value);
                  && cur.routeID == inp.routes[k].id && cur.deviation == Some(m)
                  && (cur.routeState == OffRoute <==> m > inp.routes[k].corridor)
                  && (cur.routeState == OnRoute <==> m <= inp.routes[k].corridor))
            && (d.point.None? || (forall k :: 0 <= k < |inp.routes| ==> d.id !in inp.routes[k].deviceIDs) ==>
                  cur.routeID == "" && cur.routeState == Unassigned && cur.deviation == None)
  {
    ForDeviceIs(inp.routes, d.id);
    hide ForDevice, Evaluated;
    assert Evaluated(was, d, inp.fences, inp.now).id == d.id && Evaluated(was, d, inp.fences, inp.now).point == d.point by {
      EvaluatedKeepsIdentity(was, d, inp);
    }
  }

  lemma EvaluatedKeepsIdentity(was: Option<Device>, d: Device, inp: Input)
    ensures Evaluated(was, d, inp.fences, inp.now).id == d.id && Evaluated(was, d, inp.fences, inp.now).point == d.point
  {
  }
}
