/**
  Historical replay refines the run that wrote the log: every usable trail point is placed with exactly the
  fence state, fence, stay start and dwell that the cycle gave the device, including devices dropped and seen
  again, provider outages and restarts.
*/
module HistoricalReplay {
  import opened Base
  import opened Keys
  import opened Transition
  import opened Fleet
  import opened ReplayHistory
  import opened SweepFacts

  /** A trail point together with the device as the cycle evaluated it there. */
  datatype Sighting = Sighting(entry: TrailEntry, device: Device)

  function SightingsOf(ds: seq<Device>, now: Time): seq<Sighting> {
    if ds == [] then []
    else
      var d := ds[|ds| - 1];
      SightingsOf(ds[..|ds| - 1], now)
      + (if d.point.Some? then [Sighting(TrailEntry(d.id, now, d.point.value), d)] else [])
  }

  function StepSightings(s: State, step: Step): seq<Sighting> {
    match step
    case Run(inp) => SightingsOf(CycleEvaluated(s, inp), inp.now)
    case Restart => []
  }

  /** Every sighting of a run, in trail order. */
  function Sightings(steps: seq<Step>): seq<Sighting> {
    if steps == [] then []
    else Sightings(steps[..|steps| - 1]) + StepSightings(After(steps[..|steps| - 1]), steps[|steps| - 1])
  }

  function Entries(ss: seq<Sighting>): seq<TrailEntry> {
    seq(|ss|, i requires 0 <= i < |ss| => ss[i].entry)
  }

  function UsableSightings(ss: seq<Sighting>): seq<Sighting> {
    if ss == [] then []
    else UsableSightings(ss[..|ss| - 1]) + (if Usable(ss[|ss| - 1].entry) then [ss[|ss| - 1]] else [])
  }

  /** What the cycle itself computed at this point. */
  function Truth(s: Sighting): Placement
    requires s.device.since.Some? && s.device.dwell >= 0
  {
    Placement(s.entry, s.device.fenceState, s.device.insideFence, s.device.since.value, s.device.dwell)
  }

  // -------- The invariant of a run --------

  /** The stored stance of a known device is dated by the device's last event. */
  predicate Anchored(evs: seq<Event>, d: Device, t: Time) {
    && d.since.Some? && ZERO_TIME < d.since.value <= t
    && (d.insideFence == "" || ValidFenceID(d.insideFence))
    && (d.fenceState != Unknown ==>
          var ev := LastAt(evs, d.id, t);
          ev.Some? && ev.value.to == KeyOf(d) && ev.value.at == d.since.value)
  }

  ghost predicate Consistent(s: State, clock: Time) {
    && Unique(s.devices)
    && Chronological(s.events)
    && (forall i :: 0 <= i < |s.events| ==> s.events[i].at <= clock)
    && (forall id :: Lookup(s.devices, id).Some? ==> Anchored(s.events, Lookup(s.devices, id).value, clock))
  }

  /** A sighting stays anchored in the log at its own instant. */
  predicate Grounded(evs: seq<Event>, s: Sighting) {
    && s.entry.deviceID == s.device.id
    && s.device.point == Some(s.entry.point)
    && (s.device.fenceState == Unknown <==> !s.entry.point.Valid())
    && Anchored(evs, s.device, s.entry.at)
    && s.device.dwell == DwellSeconds(s.device.since.value, s.entry.at)
  }

  lemma {:induction false} LastAtLater(evs: seq<Event>, id: string, t: Time, t': Time)
    requires forall i :: 0 <= i < |evs| ==> evs[i].at <= t
    requires t <= t'
    ensures LastAt(evs, id, t') == LastAt(evs, id, t)
  {
    if evs != [] {
      LastAtLater(evs[..|evs| - 1], id, t, t');
    }
  }

  lemma InsideFenceValid(point: Option<Point>, fences: seq<Fence>)
    requires ValidFences(fences)
    ensures EvaluateFence(point, fences).0 == Inside ==> ValidFenceID(EvaluateFence(point, fences).1)
  {
  }

  /** The key stayed the same only if the state did. */
  lemma SameKeySameStance(was: Option<Device>, cur: Device)
    requires was.Some? ==> was.value.insideFence == "" || ValidFenceID(was.value.insideFence)
    requires cur.insideFence == "" || ValidFenceID(cur.insideFence)
    requires PreviousKey(was) == KeyOf(cur)
    ensures cur.fenceState == (if was.Some? then was.value.fenceState else Unknown)
    ensures cur.insideFence == (if was.Some? then was.value.insideFence else "")
  {
    if was.Some? {
      KeyInjective(was.value.insideFence, was.value.fenceState, cur.insideFence, cur.fenceState);
    } else {
      KeyInjective("", Unknown, cur.insideFence, cur.fenceState);
    }
  }

  lemma EvaluatedFields(was: Option<Device>, d: Device, inp: Input)
    requires ValidFences(inp.fences)
    ensures var cur := EvaluatedDevice(was, d, inp);
            && cur.since == Some(StaySince(was, PreviousKey(was) == KeyOf(cur), inp.now))
            && (cur.insideFence == "" || ValidFenceID(cur.insideFence))
            && (cur.fenceState == Unknown <==> !HasFix(d.point))
            && cur.dwell == DwellSeconds(cur.since.value, inp.now)
    ensures EventOf(was, d, inp.fences, inp.now)
         == if PreviousKey(was) == KeyOf(EvaluatedDevice(was, d, inp)) then None
            else Some(Event(inp.now, d.id, d.name, PreviousKey(was), KeyOf(EvaluatedDevice(was, d, inp))))
  {
    InsideFenceValid(d.point, inp.fences);
  }

  /** The evaluated device is anchored in the log the cycle leaves behind. */
  lemma EvaluatedAnchored(evs: seq<Event>, was: Option<Device>, d: Device, inp: Input, clock: Time, after: Option<Event>)
    requires ZERO_TIME <= clock < inp.now && ValidFences(inp.fences)
    requires was.Some? ==> was.value.id == d.id && Anchored(evs, was.value, clock)
    requires forall i :: 0 <= i < |evs| ==> evs[i].at <= clock
    requires var tr := EventOf(was, d, inp.fences, inp.now);
             after == if tr.Some? then tr else LastAt(evs, d.id, inp.now)
    ensures var cur := EvaluatedDevice(was, d, inp);
            && cur.since.Some? && ZERO_TIME < cur.since.value <= inp.now
            && (cur.insideFence == "" || ValidFenceID(cur.insideFence))
            && (cur.fenceState == Unknown <==> !HasFix(d.point))
            && cur.dwell == DwellSeconds(cur.since.value, inp.now)
            && (cur.fenceState != Unknown ==> after.Some? && after.value.to == KeyOf(cur) && after.value.at == cur.since.value)
  {
    EvaluatedFields(was, d, inp);
    LastAtLater(evs, d.id, clock, inp.now);
    hide EvaluatedDevice, EventOf, Key, ValidFenceID;
    var cur := EvaluatedDevice(was, d, inp);
    if PreviousKey(was) == KeyOf(cur) {
      SameKeySameStance(was, cur);
    }
  }

  lemma ChronologicalAppend(evs: seq<Event>, more: seq<Event>, t: Time)
    requires Chronological(evs)
    requires forall i :: 0 <= i < |evs| ==> evs[i].at <= t
    requires forall i :: 0 <= i < |more| ==> more[i].at == t
    ensures Chronological(evs + more)
    ensures forall i :: 0 <= i < |evs + more| ==> (evs + more)[i].at <= t
  {
  }

  /** The last event of a device after a cycle, seen from the cycle's own clock. */
  lemma LastAfterCycle(s: State, inp: Input, id: string)
    requires Unique(AllFetched(inp.outcomes))
    ensures var sent := Lookup(AllFetched(inp.outcomes), id);
            var was := Lookup(s.devices, id);
            LastAt(Cycle(s, inp).events, id, inp.now)
            == if sent.Some? && EventOf(was, sent.value, inp.fences, inp.now).Some?
               then EventOf(was, sent.value, inp.fences, inp.now)
               else LastAt(s.events, id, inp.now)
  {
    hide Cycle, EventOf;
    CycleStores(s, inp);
    LastAfterSweep(Index(s.devices), inp, AllFetched(inp.outcomes), s.events, id);
  }

  /** What the cycle evaluated is anchored in the log it leaves, with the dwell read off its own clock. */
  lemma SentAfterCycle(s: State, inp: Input, clock: Time, id: string)
    requires Consistent(s, clock) && ZERO_TIME <= clock < inp.now
    requires Unique(AllFetched(inp.outcomes)) && ValidFences(inp.fences)
    requires Lookup(AllFetched(inp.outcomes), id).Some?
    ensures var sent := Lookup(AllFetched(inp.outcomes), id).value;
            var cur := EvaluatedDevice(Lookup(s.devices, id), sent, inp);
            && cur.id == id && cur.point == sent.point
            && Anchored(Cycle(s, inp).events, cur, inp.now)
            && (cur.fenceState == Unknown <==> !HasFix(cur.point))
            && cur.dwell == DwellSeconds(cur.since.value, inp.now)
  {
    hide Cycle, EventOf, EvaluatedDevice;
    var sent := Lookup(AllFetched(inp.outcomes), id).value;
    var was := Lookup(s.devices, id);
    LastAfterCycle(s, inp, id);
    LookupIs(s.devices, id);
    LookupIs(AllFetched(inp.outcomes), id);
    LastAtLater(s.events, id, clock, inp.now);
    EvaluatedID(was, sent, inp);
    EvaluatedAnchored(s.events, was, sent, inp, clock, LastAt(Cycle(s, inp).events, id, inp.now));
  }

  lemma DeviceAfterCycle(s: State, inp: Input, clock: Time, id: string)
    requires Consistent(s, clock) && ZERO_TIME <= clock < inp.now
    requires Unique(AllFetched(inp.outcomes)) && ValidFences(inp.fences)
    requires Lookup(Cycle(s, inp).devices, id).Some?
    ensures var now := Lookup(Cycle(s, inp).devices, id).value;
            now.id == id && Anchored(Cycle(s, inp).events, now, inp.now)
  {
    hide Cycle, EventOf, EvaluatedDevice;
    LookupAfterCycle(s, inp, id);
    LastAfterCycle(s, inp, id);
    LookupIs(s.devices, id);
    LastAtLater(s.events, id, clock, inp.now);
    if Lookup(AllFetched(inp.outcomes), id).Some? {
      SentAfterCycle(s, inp, clock, id);
    }
  }

  lemma ConsistentAfterCycle(s: State, inp: Input, clock: Time)
    requires Consistent(s, clock) && ZERO_TIME <= clock < inp.now
    requires Unique(AllFetched(inp.outcomes)) && ValidFences(inp.fences)
    ensures Consistent(Cycle(s, inp), inp.now)
  {
    hide Cycle, Anchored;
    AfterCycleUnique(s, inp);
    CycleStores(s, inp);
    EventsAllStamped(Index(s.devices), inp, AllFetched(inp.outcomes));
    ChronologicalAppend(s.events, EventsAll(Index(s.devices), inp, AllFetched(inp.outcomes)), inp.now);
    forall id | Lookup(Cycle(s, inp).devices, id).Some?
      ensures Anchored(Cycle(s, inp).events, Lookup(Cycle(s, inp).devices, id).value, inp.now)
    {
      DeviceAfterCycle(s, inp, clock, id);
    }
  }

  /** Later cycles append only later events, so an old sighting keeps its anchor. */
  lemma GroundedStays(s: State, inp: Input, clock: Time, x: Sighting)
    requires Grounded(s.events, x) && x.entry.at <= clock < inp.now
    ensures Grounded(Cycle(s, inp).events, x)
  {
    hide Cycle;
    CycleStores(s, inp);
    var more := EventsAll(Index(s.devices), inp, AllFetched(inp.outcomes));
    EventsAllStamped(Index(s.devices), inp, AllFetched(inp.outcomes));
    LastAtSkips(s.events, more, x.device.id, x.entry.at);
  }

  lemma SightingsOfIs(ds: seq<Device>, now: Time)
    ensures forall x :: x in SightingsOf(ds, now) ==>
              x.device in ds && x.device.point == Some(x.entry.point)
              && x.entry.deviceID == x.device.id && x.entry.at == now
    ensures Entries(SightingsOf(ds, now)) == TrailAll(ds, now)
  {
  }

  lemma NewSightingsGrounded(s: State, inp: Input, clock: Time)
    requires Consistent(s, clock) && ZERO_TIME <= clock < inp.now
    requires Unique(AllFetched(inp.outcomes)) && ValidFences(inp.fences)
    ensures forall x :: x in SightingsOf(CycleEvaluated(s, inp), inp.now) ==>
              Grounded(Cycle(s, inp).events, x) && x.entry.at == inp.now
  {
    hide Cycle, EvaluatedDevice;
    var ds := AllFetched(inp.outcomes);
    SightingsOfIs(CycleEvaluated(s, inp), inp.now);
    forall x | x in SightingsOf(CycleEvaluated(s, inp), inp.now) ensures Grounded(Cycle(s, inp).events, x) {
      var i :| 0 <= i < |ds| && x.device == CycleEvaluated(s, inp)[i];
      EvaluatedAt(Index(s.devices), inp, ds, i);
      LookupIs(ds, ds[i].id);
      SentAfterCycle(s, inp, clock, ds[i].id);
    }
  }

  lemma ClockPositive(steps: seq<Step>)
    requires WellFormed(steps)
    ensures ZERO_TIME <= Clock(steps)
  {
  }

  lemma {:induction false} RunInvariant(steps: seq<Step>)
    requires WellFormed(steps)
    ensures Consistent(After(steps), Clock(steps))
    ensures Entries(Sightings(steps)) == After(steps).trail
    ensures forall x :: x in Sightings(steps) ==> Grounded(After(steps).events, x) && x.entry.at <= Clock(steps)
  {
    if steps != [] {
      var n := |steps| - 1;
      RunInvariant(steps[..n]);
      ClockPositive(steps[..n]);
      if steps[n].Run? {
        RunInvariantCycle(steps);
      }
    }
  }

  lemma EntriesConcat(a: seq<Sighting>, b: seq<Sighting>)
    ensures Entries(a + b) == Entries(a) + Entries(b)
  {
  }

  lemma RunInvariantCycle(steps: seq<Step>)
    requires WellFormed(steps) && steps != [] && steps[|steps| - 1].Run?
    requires var before := steps[..|steps| - 1];
             && ZERO_TIME <= Clock(before)
             && Consistent(After(before), Clock(before))
             && Entries(Sightings(before)) == After(before).trail
             && forall x :: x in Sightings(before) ==> Grounded(After(before).events, x) && x.entry.at <= Clock(before)
    ensures Consistent(After(steps), Clock(steps))
    ensures Entries(Sightings(steps)) == After(steps).trail
    ensures forall x :: x in Sightings(steps) ==> Grounded(After(steps).events, x) && x.entry.at <= Clock(steps)
  {
    hide Cycle, Grounded, Consistent, SightingsOf, TrailAll, CycleEvaluated, Entries, EventsAll, Stale;
    var n := |steps| - 1;
    var s, inp := After(steps[..n]), steps[n].inp;
    assert After(steps) == Cycle(s, inp);
    ConsistentAfterCycle(s, inp, Clock(steps[..n]));
    CycleStores(s, inp);
    SightingsOfIs(CycleEvaluated(s, inp), inp.now);
    EntriesConcat(Sightings(steps[..n]), SightingsOf(CycleEvaluated(s, inp), inp.now));
    NewSightingsGrounded(s, inp, Clock(steps[..n]));
    forall x | x in Sightings(steps) ensures Grounded(Cycle(s, inp).events, x) && x.entry.at <= inp.now {
      if x in Sightings(steps[..n]) {
        GroundedStays(s, inp, Clock(steps[..n]), x);
      }
    }
  }

  // -------- The theorem --------

  lemma GroundedPlacedRight(evs: seq<Event>, x: Sighting)
    requires Grounded(evs, x) && Usable(x.entry)
    ensures HistoricalPlace(evs, x.entry) == Truth(x)
  {
    ParseKeyInvertsKey(x.device.insideFence, x.device.fenceState);
    if x.device.insideFence != "" {
      ValidFenceIDFree(x.device.insideFence);
    }
  }

  lemma UsableSightingsIs(ss: seq<Sighting>)
    ensures Entries(UsableSightings(ss)) == UsableOf(Entries(ss))
    ensures forall x :: x in UsableSightings(ss) ==> x in ss && Usable(x.entry)
  {
    if ss != [] {
      UsableSightingsIs(ss[..|ss| - 1]);
      assert Entries(ss)[..|ss| - 1] == Entries(ss[..|ss| - 1]);
    }
  }

  /** The log a well-formed run leaves is in time order, as the replayer relies on. */
  lemma LogChronological(steps: seq<Step>)
    requires WellFormed(steps)
    ensures Chronological(After(steps).events)
  {
    RunInvariant(steps);
  }

  lemma WindowAt(ss: seq<Sighting>, n: nat, k: nat)
    requires k < |LastN(Entries(ss), n)|
    ensures |LastN(ss, n)| == |LastN(Entries(ss), n)|
    ensures LastN(ss, n)[k] in ss && LastN(ss, n)[k].entry == LastN(Entries(ss), n)[k]
  {
    assert |Entries(ss)| == |ss|;
  }

  /** For every run and every window: point k of the replay is what the cycle computed at that point. */
  lemma HistoricalReplayIsExact(steps: seq<Step>, limit: int, k: nat)
    requires WellFormed(steps)
    requires k < |LastN(UsableOf(After(steps).trail), ReplayLimit(limit))|
    ensures var points := LastN(UsableOf(After(steps).trail), ReplayLimit(limit));
            var window := LastN(UsableSightings(Sightings(steps)), ReplayLimit(limit));
            && |window| == |points|
            && window[k].entry == points[k]
            && window[k].device.since.Some? && window[k].device.dwell >= 0
            && HistoricalPlace(After(steps).events, points[k]) == Truth(window[k])
    ensures var usable, points := UsableSightings(Sightings(steps)), LastN(UsableOf(After(steps).trail), ReplayLimit(limit));
            && |points| <= |usable| && points[k] == usable[|usable| - |points| + k].entry
  {
    NewestPoints(After(steps).trail, limit);
    hide WellFormed, After, Sightings, UsableSightings, UsableOf, HistoricalPlace, Consistent, LastAt;
    RunInvariant(steps);
    UsableSightingsIs(Sightings(steps));
    var all := UsableSightings(Sightings(steps));
    var window := LastN(all, ReplayLimit(limit));
    WindowAt(all, ReplayLimit(limit), k);
    hide LastN, Entries;
    GroundedPlacedRight(After(steps).events, window[k]);
  }

  /** The newest sighting of a run, if it can be replayed at all, is the last point of every window. */
  lemma NewestIsReplayed(steps: seq<Step>, limit: int)
    requires WellFormed(steps) && Sightings(steps) != []
    requires HandedOut(Sightings(steps)[|Sightings(steps)| - 1].entry)
    ensures var points := LastN(UsableOf(After(steps).trail), ReplayLimit(limit));
            points != [] && points[|points| - 1] == Sightings(steps)[|Sightings(steps)| - 1].entry
  {
    hide WellFormed, After, Sightings, LastN, UsableOf, Consistent;
    RunInvariant(steps);
    var trail, last := After(steps).trail, Sightings(steps)[|Sightings(steps)| - 1].entry;
    var n := |trail| - 1;
    assert trail == trail[..n] + [last];
    UsableConcat(trail[..n], [last]);
    UsableSingle(last);
    NewestPoints(trail, limit);
  }

  /** The two programs together: run the engine, replay its logs, compare point by point. */
  method ReplayOfRun(ghost steps: seq<Step>, stored: State, limit: int) returns (out: seq<Placement>)
    requires WellFormed(steps) && stored == After(steps)
    ensures var window := LastN(UsableSightings(Sightings(steps)), ReplayLimit(limit));
            && |out| == |window|
            && forall k :: 0 <= k < |out| ==>
                 window[k].device.since.Some? && window[k].device.dwell >= 0 && out[k] == Truth(window[k])
  {
    LogChronological(steps);
    out := Replay(false, limit, [], stored.events, stored.trail);
    ghost var points := LastN(UsableOf(stored.trail), ReplayLimit(limit));
    RunInvariant(steps);
    UsableSightingsIs(Sightings(steps));
    forall k | 0 <= k < |points|
      ensures var window := LastN(UsableSightings(Sightings(steps)), ReplayLimit(limit));
              && |window| == |points|
              && window[k].device.since.Some? && window[k].device.dwell >= 0
              && HistoricalPlace(stored.events, points[k]) == Truth(window[k])
    {
      HistoricalReplayIsExact(steps, limit, k);
    }
    assert |Entries(UsableSightings(Sightings(steps)))| == |UsableSightings(Sightings(steps))|;
  }
}
