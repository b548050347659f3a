/** What a cycle's sweep does, component by component and device by device. */
module SweepFacts {
  import opened Base
  import opened Transition
  import opened Fleet
  import opened ReplayHistory

  /** The devices a sweep evaluates, in fetch order. */
  function EvaluatedAll(prev: map<string, Device>, inp: Input, ds: seq<Device>): (r: seq<Device>)
    ensures |r| == |ds|
  {
    if ds == [] then []
    else
      var d := ds[|ds| - 1];
      EvaluatedAll(prev, inp, ds[..|ds| - 1]) + [EvaluatedDevice(Get(prev, d.id), d, inp)]
  }

  function EventsAll(prev: map<string, Device>, inp: Input, ds: seq<Device>): seq<Event> {
    if ds == [] then []
    else
      var d := ds[|ds| - 1];
      EventsAll(prev, inp, ds[..|ds| - 1]) + ToSeq(EventOf(Get(prev, d.id), d, inp.fences, inp.now))
  }

  function TrailAll(ds: seq<Device>, now: Time): seq<TrailEntry> {
    if ds == [] then [] else TrailAll(ds[..|ds| - 1], now) + TrailOf(ds[|ds| - 1], now)
  }

  lemma VisitParts(prev: map<string, Device>, inp: Input, d: Device, w: Work)
    ensures var v := Visit(prev, inp, d, w);
            var cur := EvaluatedDevice(Get(prev, d.id), d, inp);
            && v.devices == w.devices + [cur]
            && v.events == w.events + ToSeq(EventOf(Get(prev, d.id), d, inp.fences, inp.now))
            && v.trail == w.trail + TrailOf(cur, inp.now)
  {
    hide EvaluatedDevice, EventOf, OrdersOf;
  }

  lemma {:induction false} SweepParts(prev: map<string, Device>, inp: Input, ds: seq<Device>, w: Work)
    ensures var v := Sweep(prev, inp, ds, w);
            && v.devices == w.devices + EvaluatedAll(prev, inp, ds)
            && v.events == w.events + EventsAll(prev, inp, ds)
            && v.trail == w.trail + TrailAll(EvaluatedAll(prev, inp, ds), inp.now)
  {
    hide EvaluatedDevice, EventOf, Visit, TrailOf, ToSeq;
    if ds == [] {
    } else {
      var n := |ds| - 1;
      SweepParts(prev, inp, ds[..n], w);
      VisitParts(prev, inp, ds[n], Sweep(prev, inp, ds[..n], w));
      var cur := EvaluatedDevice(Get(prev, ds[n].id), ds[n], inp);
      var tr := EventOf(Get(prev, ds[n].id), ds[n], inp.fences, inp.now);
      assert EvaluatedAll(prev, inp, ds) == EvaluatedAll(prev, inp, ds[..n]) + [cur];
      var v := Sweep(prev, inp, ds[..n], w);
      assert v.events + ToSeq(tr) == w.events + (EventsAll(prev, inp, ds[..n]) + ToSeq(tr));
      assert EvaluatedAll(prev, inp, ds)[..n] == EvaluatedAll(prev, inp, ds[..n]);
      assert v.trail + TrailOf(cur, inp.now)
          == w.trail + (TrailAll(EvaluatedAll(prev, inp, ds[..n]), inp.now) + TrailOf(cur, inp.now));
    }
  }

  lemma EvaluatedID(before: Option<Device>, d: Device, inp: Input)
    ensures EvaluatedDevice(before, d, inp).id == d.id
    ensures EvaluatedDevice(before, d, inp).provider == d.provider
    ensures EvaluatedDevice(before, d, inp).point == d.point
  {
  }

  lemma {:induction false} EvaluatedAt(prev: map<string, Device>, inp: Input, ds: seq<Device>, i: nat)
    requires i < |ds|
    ensures EvaluatedAll(prev, inp, ds)[i] == EvaluatedDevice(Get(prev, ds[i].id), ds[i], inp)
  {
    hide EvaluatedDevice;
    if i < |ds| - 1 {
      EvaluatedAt(prev, inp, ds[..|ds| - 1], i);
    }
  }

  lemma EvaluatedIDs(prev: map<string, Device>, inp: Input, ds: seq<Device>)
    ensures forall i :: 0 <= i < |ds| ==> EvaluatedAll(prev, inp, ds)[i].id == ds[i].id
    ensures Unique(ds) ==> Unique(EvaluatedAll(prev, inp, ds))
  {
    hide EvaluatedDevice, EvaluatedAll;
    forall i | 0 <= i < |ds| ensures EvaluatedAll(prev, inp, ds)[i].id == ds[i].id {
      EvaluatedAt(prev, inp, ds, i);
      EvaluatedID(Get(prev, ds[i].id), ds[i], inp);
    }
  }

  // -------- Finding a device in a list --------

  lemma {:induction false} LookupIs(ds: seq<Device>, id: string)
    ensures Lookup(ds, id).Some? ==> Lookup(ds, id).value in ds && Lookup(ds, id).value.id == id
    ensures Lookup(ds, id).None? <==> forall i :: 0 <= i < |ds| ==> ds[i].id != id
    ensures Unique(ds) ==> forall i :: 0 <= i < |ds| && ds[i].id == id ==> Lookup(ds, id) == Some(ds[i])
  {
    if ds != [] {
      LookupIs(ds[..|ds| - 1], id);
    }
  }

  lemma {:induction false} LookupConcat(a: seq<Device>, b: seq<Device>, id: string)
    ensures Lookup(a + b, id) == if Lookup(b, id).Some? then Lookup(b, id) else Lookup(a, id)
  {
    if b == [] {
      assert a + b == a;
    } else {
      assert (a + b)[..|a + b| - 1] == a + b[..|b| - 1];
      LookupConcat(a, b[..|b| - 1], id);
    }
  }

  lemma LookupSingle(d: Device, id: string)
    ensures Lookup([d], id) == if d.id == id then Some(d) else None
  {
    var ds := [d];
    assert ds[..0] == [];
    assert Index(ds[..0]) == map[];
    assert Index(ds) == Index(ds[..0])[d.id := d];
  }

  lemma {:induction false} LookupEvaluated(prev: map<string, Device>, inp: Input, ds: seq<Device>, id: string)
    ensures var sent := Lookup(ds, id);
            Lookup(EvaluatedAll(prev, inp, ds), id)
            == if sent.Some? then Some(EvaluatedDevice(Get(prev, id), sent.value, inp)) else None
  {
    hide EvaluatedDevice;
    if ds != [] {
      var n := |ds| - 1;
      LookupEvaluated(prev, inp, ds[..n], id);
      EvaluatedID(Get(prev, ds[n].id), ds[n], inp);
      assert EvaluatedAll(prev, inp, ds)[..n] == EvaluatedAll(prev, inp, ds[..n]);
    }
  }

  lemma {:induction false} LookupStale(prev: seq<Device>, down: set<string>, seen: set<string>, id: string)
    requires Unique(prev)
    ensures var was := Lookup(prev, id);
            Lookup(Stale(prev, down, seen), id)
            == if was.Some? && was.value.provider in down && id !in seen then was else None
    ensures Unique(Stale(prev, down, seen))
  {
    if prev != [] {
      var n := |prev| - 1;
      LookupStale(prev[..n], down, seen, id);
      LookupStale(prev[..n], down, seen, prev[n].id);
      LookupIs(prev[..n], prev[n].id);
      LookupIs(prev[..n], id);
      var rest := Stale(prev[..n], down, seen);
      LookupIs(rest, prev[n].id);
      LookupSingle(prev[n], id);
      if prev[n].provider in down && prev[n].id !in seen {
        LookupConcat(rest, [prev[n]], id);
        assert Stale(prev, down, seen) == rest + [prev[n]];
      } else {
        assert Stale(prev, down, seen) == rest;
      }
    }
  }

  lemma UniqueConcat(a: seq<Device>, b: seq<Device>)
    requires Unique(a) && Unique(b)
    requires forall i, j :: 0 <= i < |a| && 0 <= j < |b| ==> a[i].id != b[j].id
    ensures Unique(a + b)
  {
  }

  function CycleEvaluated(s: State, inp: Input): seq<Device> {
    EvaluatedAll(Index(s.devices), inp, AllFetched(inp.outcomes))
  }

  /** The three stores after a cycle: evaluated devices and kept ones, and what was appended to the two logs. */
  lemma CycleStores(s: State, inp: Input)
    ensures var evaluated := CycleEvaluated(s, inp);
            var kept := Stale(s.devices, Down(inp.outcomes), IDs(evaluated));
            && Cycle(s, inp).devices == evaluated + kept
            && Cycle(s, inp).events == s.events + EventsAll(Index(s.devices), inp, AllFetched(inp.outcomes))
            && Cycle(s, inp).trail == s.trail + TrailAll(evaluated, inp.now)
  {
    hide Sweep, Index, Stale, IDs;
    SweepParts(Index(s.devices), inp, AllFetched(inp.outcomes), Begin(s));
    assert CycleWork(s, inp).devices == CycleEvaluated(s, inp);
  }

  lemma SentIDs(s: State, inp: Input, id: string)
    ensures id in IDs(CycleEvaluated(s, inp)) <==> Lookup(AllFetched(inp.outcomes), id).Some?
  {
    hide EvaluatedDevice;
    LookupEvaluated(Index(s.devices), inp, AllFetched(inp.outcomes), id);
    LookupIs(CycleEvaluated(s, inp), id);
  }

  lemma AfterCycleUnique(s: State, inp: Input)
    requires Unique(s.devices) && Unique(AllFetched(inp.outcomes))
    ensures Unique(Cycle(s, inp).devices)
  {
    hide EvaluatedDevice, Cycle, Index, Stale;
    CycleStores(s, inp);
    EvaluatedIDs(Index(s.devices), inp, AllFetched(inp.outcomes));
    var evaluated := CycleEvaluated(s, inp);
    var stale := Stale(s.devices, Down(inp.outcomes), IDs(evaluated));
    forall i, j | 0 <= i < |evaluated| && 0 <= j < |stale| ensures evaluated[i].id != stale[j].id {
      assert evaluated[i] in evaluated && evaluated[i].id in IDs(evaluated);
      LookupStale(s.devices, Down(inp.outcomes), IDs(evaluated), evaluated[i].id);
      LookupIs(stale, evaluated[i].id);
    }
    LookupStale(s.devices, Down(inp.outcomes), IDs(evaluated), "");
    UniqueConcat(evaluated, stale);
  }

  /** After a cycle a device is the evaluated one, or the old one kept over an outage, or gone. */
  lemma LookupAfterCycle(s: State, inp: Input, id: string)
    requires Unique(s.devices)
    ensures var was := Lookup(s.devices, id);
            var sent := Lookup(AllFetched(inp.outcomes), id);
            Lookup(Cycle(s, inp).devices, id)
            == if sent.Some? then Some(EvaluatedDevice(was, sent.value, inp))
               else if was.Some? && was.value.provider in Down(inp.outcomes) then was
               else None
  {
    hide EvaluatedDevice, Cycle, Index, Stale, IDs;
    CycleStores(s, inp);
    var evaluated := CycleEvaluated(s, inp);
    SentIDs(s, inp, id);
    LookupEvaluated(Index(s.devices), inp, AllFetched(inp.outcomes), id);
    LookupStale(s.devices, Down(inp.outcomes), IDs(evaluated), id);
    LookupConcat(evaluated, Stale(s.devices, Down(inp.outcomes), IDs(evaluated)), id);
  }

  // -------- The last event of a device after a sweep --------

  lemma EventsAllStamped(prev: map<string, Device>, inp: Input, ds: seq<Device>)
    ensures forall e :: e in EventsAll(prev, inp, ds) ==> e.at == inp.now
  {
  }

  lemma EventOfStamp(before: Option<Device>, d: Device, fences: seq<Fence>, at: Time)
    ensures var tr := EventOf(before, d, fences, at);
            tr.Some? ==> tr.value.deviceID == d.id && tr.value.at == at
  {
  }

  lemma LastAtToSeq(evs: seq<Event>, tr: Option<Event>, id: string, t: Time)
    requires tr.Some? ==> tr.value.at == t
    ensures LastAt(evs + ToSeq(tr), id, t) == if tr.Some? && tr.value.deviceID == id then tr else LastAt(evs, id, t)
  {
    var all := evs + ToSeq(tr);
    if tr.Some? {
      assert all[..|all| - 1] == evs;
    } else {
      assert all == evs;
    }
  }

  lemma {:induction false} LastAfterSweep(prev: map<string, Device>, inp: Input, ds: seq<Device>, evs: seq<Event>, id: string)
    requires Unique(ds)
    ensures var sent := Lookup(ds, id);
            LastAt(evs + EventsAll(prev, inp, ds), id, inp.now)
            == if sent.Some? && EventOf(Get(prev, id), sent.value, inp.fences, inp.now).Some?
               then EventOf(Get(prev, id), sent.value, inp.fences, inp.now)
               else LastAt(evs, id, inp.now)
  {
    hide EventOf, LastAt, ToSeq;
    if ds == [] {
      assert evs + [] == evs;
    } else {
      var n := |ds| - 1;
      LastAfterSweep(prev, inp, ds[..n], evs, id);
      LookupIs(ds[..n], id);
      var tr := EventOf(Get(prev, ds[n].id), ds[n], inp.fences, inp.now);
      EventOfStamp(Get(prev, ds[n].id), ds[n], inp.fences, inp.now);
      var before := evs + EventsAll(prev, inp, ds[..n]);
      assert evs + EventsAll(prev, inp, ds) == before + ToSeq(tr);
      LastAtToSeq(before, tr, id, inp.now);
    }
  }
}
