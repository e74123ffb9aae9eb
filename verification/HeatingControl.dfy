/** The heating as a whole: the mode, and the sections that follow it.  The events are the calls that reach it. */
module HeatingControl {
  import opened Heating
  import opened HeatingSections

  /** The state of the heating.  The temperature for the economic mode is a real, but the sections get it as an
      integer. */
  datatype Control = Control(mode: int, eco: real, sections: seq<Section>)

  datatype Event =
    | SetMode(mode: int)
    | SetEco(temp: real)
    | SetAllQuery(temp: real)
    | SetAutoQuery(temp: real)
    | SetQuery(id: string, temp: real)
    | ProcessNamed(id: string)
    | Reading(sensor: string, temp: real)
    | Check(minute: int)
    | Deactivate(actor: string)

  /** The conversion of a real to an integer as in C, which rounds towards zero. */
  function Trunc(x: real): int {
    if x >= 0.0 then x.Floor else -(-x).Floor
  }

  function Each(s: seq<Section>, f: Section -> Section): (r: seq<Section>)
    ensures |r| == |s| && forall i :: 0 <= i < |s| ==> r[i] == f(s[i])
  {
    seq(|s|, i requires 0 <= i < |s| => f(s[i]))
  }

  /** What a reading does to a section; while it is tempering, only the reference temperature is noted. */
  function Read(s: Section, mode: int, eco: int, sensor: string, temp: real): Section {
    var k := KindOfSensor(s, sensor);
    if k == NoSensor then s
    else
      var s1 := if k == ReferenceSensor then s.(refTemp := temp) else s;
      if s1.temperingActive then s1 else Process(WithTemp(s1, temp, sensor), mode, eco, sensor)
  }

  function Tempered(s: Section, minute: int, mode: int): Section {
    s.(temperingActive := s.temperingActive || ((mode == MANUAL || mode == AUTO) && TemperingStarts(s, minute, mode)))
  }

  /** The first section of that name gets a new target. */
  function Retargeted(s: seq<Section>, id: string, temp: real): (r: seq<Section>)
    ensures |r| == |s| && forall i :: 0 <= i < |s| ==> r[i] == s[i] || r[i] == s[i].(query := Target(s[i], temp))
  {
    if s == [] then []
    else if s[0].id == id then [s[0].(query := Target(s[0], temp))] + s[1..]
    else [s[0]] + Retargeted(s[1..], id, temp)
  }

  /** The first section with the actor that does not heat is no longer tempering. */
  function Released(s: seq<Section>, actor: string): (r: seq<Section>)
    ensures |r| == |s| && forall i :: 0 <= i < |s| ==> r[i] == s[i] || r[i] == s[i].(temperingActive := false)
  {
    if s == [] then []
    else if Idle(s[0], actor) then [s[0].(temperingActive := false)] + s[1..]
    else [s[0]] + Released(s[1..], actor)
  }

  predicate Idle(s: Section, actor: string) {
    !s.heater && HasHeater(s, actor)
  }

  /** The state after an event. */
  function Next(c: Control, e: Event): Control {
    match e
    case SetMode(m) =>
      var mode := if m != -1 then m else c.mode;
      Control(mode, c.eco, Each(c.sections, (s: Section) => Process(s, mode, Trunc(c.eco), "")))
    case SetEco(temp) => c.(eco := temp)
    case SetAllQuery(temp) => c.(sections := Each(c.sections, (s: Section) => s.(query := Target(s, temp))))
    case SetAutoQuery(temp) =>
      if temp > 0.0 then c.(sections := Each(c.sections, (s: Section) => s.(autoQuery := Target(s, temp)))) else c
    case SetQuery(id, temp) => c.(sections := Retargeted(c.sections, id, temp))
    case ProcessNamed(id) =>
      c.(sections := Each(c.sections, (s: Section) => if s.id == id then Process(s, c.mode, Trunc(c.eco), "") else s))
    case Reading(sensor, temp) =>
      c.(sections := Each(c.sections, (s: Section) => Read(s, c.mode, Trunc(c.eco), sensor, temp)))
    case Check(minute) => c.(sections := Each(c.sections, (s: Section) => Tempered(s, minute, c.mode)))
    case Deactivate(actor) =>
      c.(sections := Released(c.sections, actor))
  }

  /** The state after a run of events. */
  function After(c: Control, events: seq<Event>): Control {
    if events == [] then c else Next(After(c, events[..|events| - 1]), events[|events| - 1])
  }

  // ---------------------------------------------------------------- invariants over all runs

  predicate AllFit(c: Control) {
    forall i :: 0 <= i < |c.sections| ==> Fits(c.sections[i], c.mode)
  }

  predicate AllSummed(c: Control) {
    forall i :: 0 <= i < |c.sections| ==> Summed(c.sections[i])
  }

  /** Only the zones, the mode and the flags matter. */
  lemma SameZones(s: Section, n: Section, mode: int)
    requires n.zones == s.zones && n.heater == s.heater && n.cooler == s.cooler
    ensures Fits(s, mode) ==> Fits(n, mode)
    ensures Summed(s) ==> Summed(n)
  {
  }

  lemma ReadFits(s: Section, mode: int, eco: int, sensor: string, temp: real)
    requires Fits(s, mode)
    ensures Fits(Read(s, mode, eco, sensor, temp), mode) && (Summed(s) ==> Summed(Read(s, mode, eco, sensor, temp)))
    ensures s.temperingActive ==> Read(s, mode, eco, sensor, temp).zones == s.zones
  {
    hide Fits, Summed, Process, WithTemp;
    var s1 := if KindOfSensor(s, sensor) == ReferenceSensor then s.(refTemp := temp) else s;
    SameZones(s, s1, mode);
    ReadingKeeps(s1, temp, sensor, mode);
    ProcessFits(WithTemp(s1, temp, sensor), mode, eco, sensor);
  }

  lemma NextFits(c: Control, e: Event, i: nat)
    requires AllFit(c) && i < |c.sections|
    ensures var n := Next(c, e);
            |n.sections| == |c.sections| && Fits(n.sections[i], n.mode)
            && (Summed(c.sections[i]) || e.SetMode? ==> Summed(n.sections[i]))
  {
    hide Fits, Summed, Process, Read;
    var s, n := c.sections[i], Next(c, e).sections[i];
    match e {
      case SetMode(m) => ProcessFits(s, if m != -1 then m else c.mode, Trunc(c.eco), "");
      case ProcessNamed(id) => ProcessFits(s, c.mode, Trunc(c.eco), "");
      case Reading(sensor, temp) => ReadFits(s, c.mode, Trunc(c.eco), sensor, temp);
      case _ => SameZones(s, n, c.mode);
    }
  }

  /** Heaters and coolers never work against each other: after every run of events from a state in line with its mode,
      no heater is on in cooling mode and no cooler in any other, in every zone of every section. */
  lemma {:induction false} AlwaysFits(c: Control, events: seq<Event>)
    requires AllFit(c)
    ensures AllFit(After(c, events))
    decreases |events|
  {
    if events != [] {
      var before, e := After(c, events[..|events| - 1]), events[|events| - 1];
      AlwaysFits(c, events[..|events| - 1]);
      hide Next, Fits;
      forall i | 0 <= i < |Next(before, e).sections| ensures Fits(Next(before, e).sections[i], Next(before, e).mode) {
        SectionCount(before, e);
        NextFits(before, e, i);
      }
    }
  }

  lemma SectionCount(c: Control, e: Event)
    ensures |Next(c, e).sections| == |c.sections|
  {
    hide Process, Read, Tempered;
  }

  /** A heating in which every zone is off, as it is when it starts, is in line with its mode; so the invariant holds
      over all its runs. */
  lemma FreshAlwaysFits(c: Control, events: seq<Event>)
    requires forall i, j :: 0 <= i < |c.sections| && 0 <= j < |c.sections[i].zones| ==>
               !c.sections[i].zones[j].heater && !c.sections[i].zones[j].cooler
    ensures AllFit(After(c, events))
  {
    AlwaysFits(c, events);
  }

  /** Whatever the zones did before, the choice of a mode brings every section into line with it. */
  lemma ModeFits(c: Control, mode: int)
    ensures AllFit(Next(c, SetMode(mode))) && AllSummed(Next(c, SetMode(mode)))
  {
    var n := Next(c, SetMode(mode));
    forall i | 0 <= i < |n.sections| ensures Fits(n.sections[i], n.mode) && Summed(n.sections[i]) {
      ProcessFits(c.sections[i], n.mode, Trunc(c.eco), "");
    }
    hide Fits, Summed, Process;
  }

  /** From the first choice of a mode on, whatever the state before, after every further run of events: the flags of
      each section say what its zones do, and they are never both set. */
  lemma FlagsTellTheTruth(c: Control, mode: int, events: seq<Event>)
    ensures var n := After(Next(c, SetMode(mode)), events);
            && AllFit(n) && AllSummed(n)
            && forall i :: 0 <= i < |n.sections| ==> !(n.sections[i].heater && n.sections[i].cooler)
  {
    hide Fits, Next;
    ModeFits(c, mode);
    var start := Next(c, SetMode(mode));
    AlwaysFits(start, events);
    SummedAfter(start, events);
    var n := After(start, events);
    forall i | 0 <= i < |n.sections| ensures !(n.sections[i].heater && n.sections[i].cooler) {
      assert Fits(n.sections[i], n.mode) && Summed(n.sections[i]);
      OneFlag(n.sections[i], n.mode);
    }
  }

  lemma OneFlag(s: Section, mode: int)
    requires Fits(s, mode) && Summed(s)
    ensures !(s.heater && s.cooler)
  {
  }

  /** Flags that have been summed up stay so. */
  lemma {:induction false} SummedAfter(c: Control, events: seq<Event>)
    requires AllFit(c) && AllSummed(c)
    ensures AllSummed(After(c, events))
    decreases |events|
  {
    hide Next, Fits, Summed;
    if events != [] {
      var before, e := After(c, events[..|events| - 1]), events[|events| - 1];
      SummedAfter(c, events[..|events| - 1]);
      AlwaysFits(c, events[..|events| - 1]);
      forall i | 0 <= i < |Next(before, e).sections| ensures Summed(Next(before, e).sections[i]) {
        SectionCount(before, e);
        NextFits(before, e, i);
      }
    }
  }

  // ---------------------------------------------------------------- readings over a whole run

  /** A reading makes the zones of its sensor take one step in the mode, and leaves the others alone. */
  lemma ReadingSteps(s: Section, mode: int, eco: int, sensor: string, temp: real, i: nat)
    requires !s.temperingActive && sensor != "" && i < |s.zones|
    ensures var n := Read(s, mode, eco, sensor, temp);
            && |n.zones| == |s.zones| && !n.temperingActive
            && n.query == s.query && n.autoQuery == s.autoQuery && n.threshold == s.threshold
            && n.zones[i] == (if s.zones[i].sensor == sensor
                              then ZoneStep(s.zones[i].(actual := temp), mode, eco, s.query, s.autoQuery, s.threshold)
                              else s.zones[i])
            && n.zones[i].sensor == s.zones[i].sensor
  {
    hide ZoneStep;
    StepSensor(s.zones[i].(actual := temp), mode, eco, s.query, s.autoQuery, s.threshold);
    if KindOfSensor(s, sensor) == NoSensor {
      assert s.zones[i].sensor != sensor;
    }
  }

  lemma StepSensor(z: Zone, mode: int, eco: int, query: real, auto: real, h: real)
    ensures ZoneStep(z, mode, eco, query, auto, h).sensor == z.sensor
  {
  }

  /** A section after a run of readings. */
  function ReadAll(s: Section, mode: int, eco: int, readings: seq<(string, real)>): Section {
    if readings == [] then s
    else
      var n := |readings| - 1;
      Read(ReadAll(s, mode, eco, readings[..n]), mode, eco, readings[n].0, readings[n].1)
  }

  /** The readings of one sensor. */
  function Own(readings: seq<(string, real)>, sensor: string): seq<real> {
    if readings == [] then []
    else
      var n := |readings| - 1;
      Own(readings[..n], sensor) + if readings[n].0 == sensor then [readings[n].1] else []
  }

  /** In every mode and over any readings of any sensors a zone is where the readings of its own sensor alone would have
      brought it. */
  lemma {:induction false} ZoneFollowsItsSensor(s: Section, mode: int, eco: int, readings: seq<(string, real)>, i: nat)
    requires !s.temperingActive && i < |s.zones|
    requires forall k :: 0 <= k < |readings| ==> readings[k].0 != ""
    ensures var n, z := ReadAll(s, mode, eco, readings), s.zones[i];
            && |n.zones| == |s.zones| && !n.temperingActive
            && n.query == s.query && n.autoQuery == s.autoQuery && n.threshold == s.threshold
            && n.zones[i].sensor == z.sensor
            && n.zones[i] == StepRun(z, Own(readings, z.sensor), mode, eco, s.query, s.autoQuery, s.threshold)
    decreases |readings|
  {
    hide Read, ZoneStep;
    if readings != [] {
      var n := |readings| - 1;
      ZoneFollowsItsSensor(s, mode, eco, readings[..n], i);
      ReadingSteps(ReadAll(s, mode, eco, readings[..n]), mode, eco, readings[n].0, readings[n].1, i);
      var z := s.zones[i];
      var r := Own(readings[..n], z.sensor);
      if readings[n].0 == z.sensor {
        assert Own(readings, z.sensor) == r + [readings[n].1];
        assert (r + [readings[n].1])[..|r|] == r;
      } else {
        assert Own(readings, z.sensor) == r;
      }
    }
  }

  /** The switching bound for a whole section: over any readings of any sensors, in manual or automatic mode, each of
      its heaters is switched on no more often than the readings of its own sensor pay for. */
  lemma SectionSwitchingBound(s: Section, mode: int, eco: int, readings: seq<(string, real)>, i: nat)
    requires mode !in {OFF, ECO, COOLING} && !s.temperingActive && i < |s.zones|
    requires forall k :: 0 <= k < |readings| ==> readings[k].0 != ""
    ensures var z, r, h := s.zones[i], Own(readings, s.zones[i].sensor), s.threshold;
            var q := TargetOf(mode, s.query, s.autoQuery);
            var k := SwitchedOn(z, r, q, h);
            && i < |ReadAll(s, mode, eco, readings).zones|
            && ReadAll(s, mode, eco, readings).zones[i] == Run(z, r, q, h)
            && (k >= 2 ==> Times(2 * k - 3, h) <= Variation(r))
  {
    hide Run, StepRun, ReadAll, SwitchedOn, Own, Times, Variation, TargetOf;
    var z, r := s.zones[i], Own(readings, s.zones[i].sensor);
    ZoneFollowsItsSensor(s, mode, eco, readings, i);
    StepRunHeats(z, r, mode, eco, s.query, s.autoQuery, s.threshold);
    SwitchingBound(z, r, TargetOf(mode, s.query, s.autoQuery), s.threshold);
  }

  /** The same for its coolers in cooling mode. */
  lemma SectionCoolingBound(s: Section, eco: int, readings: seq<(string, real)>, i: nat)
    requires !s.temperingActive && i < |s.zones| && forall k :: 0 <= k < |readings| ==> readings[k].0 != ""
    ensures var z, r, q, h := s.zones[i], Own(readings, s.zones[i].sensor), s.query, s.threshold;
            var k := CooledOn(z, r, q, h);
            && i < |ReadAll(s, COOLING, eco, readings).zones|
            && ReadAll(s, COOLING, eco, readings).zones[i] == CoolRun(z, r, q, h)
            && (k >= 2 ==> Times(2 * k - 3, h) <= Variation(r))
  {
    hide CoolRun, StepRun, ReadAll, CooledOn, Own, Times, Variation;
    var z, r := s.zones[i], Own(readings, s.zones[i].sensor);
    ZoneFollowsItsSensor(s, COOLING, eco, readings, i);
    StepRunCools(z, r, eco, s.query, s.autoQuery, s.threshold);
    CoolingBound(z, r, s.query, s.threshold);
  }

  /** What the temperatures decide: over any readings of any sensors, in every mode, the last reading of its own sensor
      decides for a zone. */
  lemma SectionDecides(s: Section, mode: int, eco: int, readings: seq<(string, real)>, i: nat)
    requires !s.temperingActive && i < |s.zones| && forall k :: 0 <= k < |readings| ==> readings[k].0 != ""
    requires Own(readings, s.zones[i].sensor) != []
    ensures i < |ReadAll(s, mode, eco, readings).zones|
    ensures var n, r := ReadAll(s, mode, eco, readings).zones[i], Own(readings, s.zones[i].sensor);
            n.actual == r[|r| - 1]
                && Decided(n, r[|r| - 1], mode, eco, s.query, s.autoQuery, s.threshold)
  {
    hide StepRun, ReadAll, Own, Decided;
    ZoneFollowsItsSensor(s, mode, eco, readings, i);
    LastReadingDecides(s.zones[i], Own(readings, s.zones[i].sensor), mode, eco, s.query, s.autoQuery, s.threshold);
  }

  // ---------------------------------------------------------------- off means off

  predicate AllOff(c: Control) {
    forall i, j :: 0 <= i < |c.sections| && 0 <= j < |c.sections[i].zones| ==>
      !c.sections[i].zones[j].heater && !c.sections[i].zones[j].cooler
  }

  predicate SectionOff(s: Section) {
    forall j :: 0 <= j < |s.zones| ==> !s.zones[j].heater && !s.zones[j].cooler
  }

  lemma ProcessOff(s: Section, eco: int, sensor: string)
    requires sensor == "" || SectionOff(s)
    ensures SectionOff(Process(s, OFF, eco, sensor))
  {
  }

  lemma ReadOff(s: Section, eco: int, sensor: string, temp: real)
    requires SectionOff(s)
    ensures SectionOff(Read(s, OFF, eco, sensor, temp))
  {
    hide Process;
    var s1 := if KindOfSensor(s, sensor) == ReferenceSensor then s.(refTemp := temp) else s;
    ProcessOff(WithTemp(s1, temp, sensor), eco, sensor);
  }

  /** No event but the choice of another mode. */
  predicate StaysOff(e: Event) {
    e.SetMode? ==> e.mode == OFF || e.mode == -1
  }

  lemma NextOff(c: Control, e: Event, i: nat)
    requires c.mode == OFF && StaysOff(e) && i < |c.sections| && SectionOff(c.sections[i])
    ensures |Next(c, e).sections| == |c.sections| && SectionOff(Next(c, e).sections[i]) && Next(c, e).mode == OFF
  {
    hide Process, Read, SectionOff;
    var s := c.sections[i];
    match e {
      case SetMode(_) => ProcessOff(s, Trunc(c.eco), "");
      case ProcessNamed(_) => ProcessOff(s, Trunc(c.eco), "");
      case Reading(sensor, temp) => ReadOff(s, Trunc(c.eco), sensor, temp);
      case _ => SameOff(s, Next(c, e).sections[i]);
    }
  }

  lemma SameOff(s: Section, n: Section)
    requires SectionOff(s) && n.zones == s.zones
    ensures SectionOff(n)
  {
  }

  /** From the choice of the mode OFF on, whatever the zones did before, every zone of every section stays off over
      every run of events up to the choice of another mode. */
  lemma {:induction false} OffMeansOff(c: Control, events: seq<Event>)
    requires forall k :: 0 <= k < |events| ==> StaysOff(events[k])
    ensures var n := After(Next(c, SetMode(OFF)), events);
            n.mode == OFF && AllOff(n)
    decreases |events|
  {
    hide Next, SectionOff, StaysOff;
    var start := Next(c, SetMode(OFF));
    if events == [] {
      NextShape(c, SetMode(OFF));
      forall i | 0 <= i < |start.sections| ensures SectionOff(start.sections[i]) {
        NextSection(c, SetMode(OFF), i);
        ProcessOff(c.sections[i], Trunc(c.eco), "");
      }
      SectionsOff(start);
    } else {
      var m := |events| - 1;
      OffMeansOff(c, events[..m]);
      var before := After(start, events[..m]);
      NextShape(before, events[m]);
      forall i | 0 <= i < |before.sections| ensures SectionOff(Next(before, events[m]).sections[i]) {
        OneOff(before, i);
        NextOff(before, events[m], i);
      }
      ModeOff(before, events[m]);
      SectionsOff(Next(before, events[m]));
    }
  }

  lemma ModeOff(c: Control, e: Event)
    requires c.mode == OFF && StaysOff(e)
    ensures Next(c, e).mode == OFF
  {
    hide Process, Read, Tempered;
  }

  lemma OneOff(c: Control, i: nat)
    requires AllOff(c) && i < |c.sections|
    ensures SectionOff(c.sections[i])
  {
  }

  lemma SectionsOff(c: Control)
    requires forall i :: 0 <= i < |c.sections| ==> SectionOff(c.sections[i])
    ensures AllOff(c)
  {
    forall i, j | 0 <= i < |c.sections| && 0 <= j < |c.sections[i].zones|
      ensures !c.sections[i].zones[j].heater && !c.sections[i].zones[j].cooler
    {
      assert SectionOff(c.sections[i]);
    }
  }

  // ---------------------------------------------------------------- what requests set

  /** The economic temperature that the sections get lies towards zero from the one that was set, by less than one. */
  lemma EcoTruncated(x: real)
    ensures x >= 0.0 ==> Trunc(x) as real <= x < Trunc(x) as real + 1.0
    ensures x <= 0.0 ==> Trunc(x) as real - 1.0 < x <= Trunc(x) as real
  {
  }

  /** A request for all sections sets their targets, or takes them back to their defaults if it is not above 0; a
      request for the automatic mode sets them only if it is above 0.  Nothing else changes. */
  lemma RequestsSet(c: Control, temp: real, i: nat)
    requires i < |c.sections|
    ensures var s, n := c.sections[i], Next(c, SetAllQuery(temp)).sections;
            |n| == |c.sections| && n[i] == s.(query := if temp > 0.0 then temp else s.defTemp)
    ensures var s, n := c.sections[i], Next(c, SetAutoQuery(temp)).sections;
            |n| == |c.sections| && n[i] == s.(autoQuery := if temp > 0.0 then temp else s.autoQuery)
  {
    NextSection(c, SetAllQuery(temp), i);
    NextSection(c, SetAutoQuery(temp), i);
  }

  /** A reading of the reference sensor is noted by the section whether or not it is tempering, and no other is. */
  lemma ReferenceNoted(s: Section, mode: int, eco: int, sensor: string, temp: real)
    ensures Read(s, mode, eco, sensor, temp).refTemp == if sensor == s.refSensor then temp else s.refTemp
  {
    hide ProcessedZones;
  }

  /** The end of a tempering: of the sections that do not heat and have the heater in one of their zones the first is no
      longer tempering, and nothing else changes. */
  lemma DeactivatedExactly(c: Control, actor: string, i: nat)
    requires i < |c.sections|
    ensures |Next(c, Deactivate(actor)).sections| == |c.sections|
    ensures var s, n := c.sections[i], Next(c, Deactivate(actor)).sections[i];
            n == if FirstIdle(c.sections, actor, i) then s.(temperingActive := false) else s
  {
    hide Idle;
    ReleasedAt(c.sections, actor, i);
  }

  predicate IdleWith(s: Section, actor: string) {
    !s.heater && exists z :: 0 <= z < |s.zones| && actor in s.zones[z].heaters
  }

  lemma IdleIs(s: Section, actor: string)
    ensures Idle(s, actor) <==> IdleWith(s, actor)
  {
    if IdleWith(s, actor) {
      var z :| 0 <= z < |s.zones| && actor in s.zones[z].heaters;
      var j :| 0 <= j < |s.zones[z].heaters| && s.zones[z].heaters[j] == actor;
    }
  }

  /** The first section that is idle with the heater. */
  predicate FirstIdle(s: seq<Section>, actor: string, i: nat)
    requires i < |s|
  {
    IdleWith(s[i], actor) && forall j :: 0 <= j < i ==> !IdleWith(s[j], actor)
  }

  lemma FirstIdleLater(s: seq<Section>, actor: string, i: nat)
    requires 0 < i < |s|
    ensures FirstIdle(s, actor, i) <==> !IdleWith(s[0], actor) && FirstIdle(s[1..], actor, i - 1)
  {
    hide IdleWith;
    var t := s[1..];
    if FirstIdle(s, actor, i) {
      forall j | 0 <= j < i - 1 ensures !IdleWith(t[j], actor) {
        assert t[j] == s[j + 1];
      }
    }
    if !IdleWith(s[0], actor) && FirstIdle(t, actor, i - 1) {
      forall j | 0 <= j < i ensures !IdleWith(s[j], actor) {
        assert j > 0 ==> s[j] == t[j - 1];
      }
    }
  }

  lemma {:induction false} ReleasedAt(s: seq<Section>, actor: string, i: nat)
    requires i < |s|
    ensures Released(s, actor)[i] == if FirstIdle(s, actor, i) then s[i].(temperingActive := false) else s[i]
    decreases i
  {
    hide Idle, IdleWith;
    IdleIs(s[0], actor);
    if i > 0 {
      FirstIdleLater(s, actor, i);
      if !Idle(s[0], actor) {
        hide FirstIdle;
        ReleasedAt(s[1..], actor, i - 1);
      }
    }
  }

  // ---------------------------------------------------------------- while a section is tempering

  /** An event that does not process sections whatever they do, and ends no tempering. */
  predicate Spares(e: Event) {
    !e.SetMode? && !e.ProcessNamed? && !e.Deactivate?
  }

  lemma NextSpares(c: Control, e: Event, i: nat)
    requires Spares(e) && i < |c.sections| && c.sections[i].temperingActive
    ensures |Next(c, e).sections| == |c.sections|
    ensures var s, n := c.sections[i], Next(c, e).sections[i]; n.temperingActive && n.zones == s.zones
  {
    hide Process;
  }

  /** While a section is tempering, no reading and no new target moves its zones, over every run up to a processed step
      or the end of the tempering. */
  lemma {:induction false} TemperingHolds(c: Control, events: seq<Event>, i: nat)
    requires i < |c.sections| && c.sections[i].temperingActive
    requires forall k :: 0 <= k < |events| ==> Spares(events[k])
    ensures |After(c, events).sections| == |c.sections|
    ensures var s, n := c.sections[i], After(c, events).sections[i]; n.temperingActive && n.zones == s.zones
    decreases |events|
  {
    hide Next, Spares;
    if events != [] {
      TemperingHolds(c, events[..|events| - 1], i);
      NextSpares(After(c, events[..|events| - 1]), events[|events| - 1], i);
    }
  }

  // ---------------------------------------------------------------- what the actors are told

  /** What the actors of a section are told at an event. */
  function ToldBy(c: Control, e: Event, s: Section): seq<Command> {
    match e
    case SetMode(m) => Commands(s, if m != -1 then m else c.mode, Trunc(c.eco), "", |s.zones|)
    case ProcessNamed(id) => if s.id == id then Commands(s, c.mode, Trunc(c.eco), "", |s.zones|) else []
    case Reading(sensor, temp) =>
      var k := KindOfSensor(s, sensor);
      var s1 := if k == ReferenceSensor then s.(refTemp := temp) else s;
      if k == NoSensor || s1.temperingActive then []
          else Commands(WithTemp(s1, temp, sensor), c.mode, Trunc(c.eco), sensor, |s.zones|)
    case _ => []
  }

  function Told(c: Control, e: Event, n: nat): seq<Command>
    requires n <= |c.sections|
  {
    if n == 0 then [] else Told(c, e, n - 1) + ToldBy(c, e, c.sections[n - 1])
  }

  lemma {:induction false} CommandsCover(s: Section, mode: int, eco: int, sensor: string, n: nat, i: nat)
    requires i < n <= |s.zones| && Concerns(s.zones[i], sensor)
    ensures forall c :: c in ZoneCommands(s.zones[i], ProcessedZones(s, mode, eco, sensor)[i], mode) ==>
            c in Commands(s, mode, eco, sensor, n)
    decreases n
  {
    hide ZoneCommands, ProcessedZones;
    if i < n - 1 {
      CommandsCover(s, mode, eco, sensor, n - 1, i);
    }
  }

  /** Whenever a processed step switches a zone, each of its actors is told. */
  lemma EveryChangeTold(s: Section, mode: int, eco: int, sensor: string, i: nat)
    requires i < |s.zones|
    ensures var z, n := s.zones[i], Process(s, mode, eco, sensor).zones[i];
            var told := Commands(s, mode, eco, sensor, |s.zones|);
            && (n.heater != z.heater ==> forall j :: 0 <= j < |z.heaters| ==>
                Command(z.heaters[j], Heater, n.heater) in told)
            && (n.cooler != z.cooler ==> forall j :: 0 <= j < |z.coolers| ==>
                Command(z.coolers[j], Cooler, n.cooler) in told)
  {
    if Concerns(s.zones[i], sensor) {
      CommandsCover(s, mode, eco, sensor, |s.zones|, i);
      CommandsTellStates(s.zones[i], mode, eco, s.query, s.autoQuery, s.threshold);
      hide ZoneStep, ZoneCommands, Commands;
    }
  }

  /** In every processed step the heaters of each zone concerned are told, or its coolers when cooling, and both when
      everything goes off, whether or not anything changes. */
  lemma AlwaysTold(s: Section, mode: int, eco: int, sensor: string, i: nat)
    requires i < |s.zones| && Concerns(s.zones[i], sensor)
    ensures var z, n := s.zones[i], Process(s, mode, eco, sensor).zones[i];
            var told := Commands(s, mode, eco, sensor, |s.zones|);
            && (mode != COOLING ==> forall j :: 0 <= j < |z.heaters| ==>
                Command(z.heaters[j], Heater, n.heater) in told)
            && (mode == COOLING || mode == OFF ==> forall j :: 0 <= j < |z.coolers| ==>
                Command(z.coolers[j], Cooler, n.cooler) in told)
  {
    hide ZoneStep, Commands, Tell;
    var z, n := s.zones[i], ProcessedZones(s, mode, eco, sensor)[i];
    CommandsCover(s, mode, eco, sensor, |s.zones|, i);
    OffSteps(z, eco, s.query, s.autoQuery, s.threshold);
    forall j | 0 <= j < |z.heaters| && mode != COOLING
      ensures Command(z.heaters[j], Heater, n.heater) in ZoneCommands(z, n, mode)
    {
      assert Tell(z.heaters, Heater, n.heater)[j] == Command(z.heaters[j], Heater, n.heater);
    }
    forall j | 0 <= j < |z.coolers| && (mode == COOLING || mode == OFF)
      ensures Command(z.coolers[j], Cooler, n.cooler) in ZoneCommands(z, n, mode)
    {
      assert Tell(z.coolers, Cooler, n.cooler)[j] == Command(z.coolers[j], Cooler, n.cooler);
    }
  }

  lemma OffSteps(z: Zone, eco: int, query: real, auto: real, h: real)
    ensures var n := ZoneStep(z, OFF, eco, query, auto, h); !n.heater && !n.cooler
  {
  }

  /** Whether a section starts tempering; a tempering time of -1 is taken for none. */
  predicate TemperingDue(s: Section, min: int, mode: int) {
    (mode == MANUAL || mode == AUTO) && TemperingStarts(s, min, mode) && s.temperingTime != -1
  }

  /** What the heaters of those of the first `n` sections are told that start tempering. */
  function Due(c: Control, min: int, n: nat): seq<Temper>
    requires n <= |c.sections|
  {
    if n == 0 then []
    else
      var s := c.sections[n - 1];
      Due(c, min, n - 1) + if TemperingDue(s, min, c.mode) then Tempers(s, |s.zones|) else []
  }

  /** In a minute exactly those heaters are told to temper whose zone is off, in a section that is due, and for the
      time of that section. */
  lemma {:induction false} DueExactly(c: Control, min: int, n: nat, t: Temper)
    requires n <= |c.sections|
    ensures t in Due(c, min, n)
       <==> exists i :: 0 <= i < n && TemperingDue(c.sections[i], min, c.mode) && Warmed(c.sections[i], t)
  {
    hide TemperingDue, Warmed;
    if n > 0 {
      DueExactly(c, min, n - 1, t);
      WarmedExactly(c.sections[n - 1], t);
    }
  }

  /** The heater belongs to a zone of the section that is off. */
  predicate Warmed(s: Section, t: Temper) {
    t.offDelay == s.temperingTime
    && exists j :: 0 <= j < |s.zones| && !s.zones[j].heater && t.ident in s.zones[j].heaters
  }

  lemma WarmedExactly(s: Section, t: Temper)
    ensures t in Tempers(s, |s.zones|) <==> Warmed(s, t)
  {
    TempersExactly(s, |s.zones|, t);
  }

  predicate AnyActive(s: seq<Section>) {
    exists i :: 0 <= i < |s| && (s[i].heater || s[i].cooler)
  }

  /** What the master switch and the master cooler are told. */
  function Master(c: Control, has: bool, switcher: string, cooler: string): seq<Command> {
    var on := AnyActive(c.sections);
    if !has then []
    else if c.mode == COOLING && cooler != "" then [Command(cooler, Cooler, on), Command(switcher, Heater, false)]
    else [Command(switcher, Heater, on)] + if cooler != "" then [Command(cooler, Cooler, false)] else []
  }

  // ---------------------------------------------------------------- the heating as it runs

  /** What an event makes of one section. */
  lemma NextSection(c: Control, e: Event, i: nat)
    requires i < |c.sections|
    ensures |Next(c, e).sections| == |c.sections| && Next(c, e).eco == (if e.SetEco? then e.temp else c.eco)
    ensures Next(c, e).mode == if e.SetMode? && e.mode != -1 then e.mode else c.mode
    ensures var s, n := c.sections[i], Next(c, e).sections[i];
            && (e.SetMode? ==> n == Process(s, if e.mode != -1 then e.mode else c.mode, Trunc(c.eco), ""))
            && (e.ProcessNamed? ==> n == if s.id == e.id then Process(s, c.mode, Trunc(c.eco), "") else s)
            && (e.Reading? ==> n == Read(s, c.mode, Trunc(c.eco), e.sensor, e.temp))
            && (e.SetAllQuery? ==> n == s.(query := Target(s, e.temp)))
            && (e.SetAutoQuery? && e.temp > 0.0 ==> n == s.(autoQuery := Target(s, e.temp)))
            && (e.Check? ==> n == Tempered(s, e.minute, c.mode))
  {
    hide Process, Read, Tempered, Target;
  }

  lemma NextShape(c: Control, e: Event)
    ensures |Next(c, e).sections| == |c.sections| && Next(c, e).eco == (if e.SetEco? then e.temp else c.eco)
    ensures Next(c, e).mode == if e.SetMode? && e.mode != -1 then e.mode else c.mode
  {
    hide Process, Read, Tempered, Target;
  }

  ghost function Views(s: seq<HeatingSection>): (r: seq<Section>)
    reads s
    ensures |r| == |s| && forall i :: 0 <= i < |s| ==> r[i] == s[i].View()
  {
    if s == [] then [] else Views(s[..|s| - 1]) + [s[|s| - 1].View()]
  }

  class HeatingSystem {
    const heatingSections: seq<HeatingSection>
    const hasMasterSwitch: bool
    const masterSwitchIdent: string
    const masterCoolerIdent: string
    var heatingMode: int
    var economyTemp: real

    /** The sections are different objects. */
    ghost predicate Valid() {
      forall i, j :: 0 <= i < j < |heatingSections| ==> heatingSections[i] != heatingSections[j]
    }

    constructor (sections: seq<HeatingSection>, ecoTemp: real, hasMaster: bool, masterSwitch: string,
                 masterCooler: string)
      requires forall i, j :: 0 <= i < j < |sections| ==> sections[i] != sections[j]
      ensures Valid() && View() == Control(OFF, ecoTemp, Views(sections)) && heatingSections == sections
    {
      heatingSections, economyTemp, heatingMode := sections, ecoTemp, OFF;
      hasMasterSwitch, masterSwitchIdent, masterCoolerIdent := hasMaster, masterSwitch, masterCooler;
    }

    ghost function View(): Control
      reads this, heatingSections
    {
      Control(heatingMode, economyTemp, Views(heatingSections))
    }

    /** The first `n` sections have become those of `after`, the others are still those of `before`. */
    ghost predicate Passed(before: seq<Section>, after: seq<Section>, n: nat)
      reads this, heatingSections
    {
      && n <= |heatingSections| == |before| == |after|
      && forall j :: 0 <= j < |heatingSections| ==> heatingSections[j].View() == if j < n then after[j] else before[j]
    }

    ghost predicate Still(c: Control)
      reads this
    {
      heatingMode == c.mode && economyTemp == c.eco
    }

    lemma AllPassed(before: seq<Section>, after: seq<Section>)
      requires Passed(before, after, |heatingSections|)
      ensures Views(heatingSections) == after
    {
    }

    lemma NonePassed(after: seq<Section>)
      requires |after| == |heatingSections|
      ensures Passed(Views(heatingSections), after, 0)
    {
    }

    method SetHeatingMode(mode: int) returns (res: seq<Command>)
      requires Valid()
      modifies this, heatingSections
      ensures View() == Next(old(View()), SetMode(mode)) && res == Told(old(View()), SetMode(mode), |heatingSections|)
    {
      hide Process, Commands, Passed, Valid, Next;
      ghost var c := View();
      ghost var n := Next(c, SetMode(mode));
      NextShape(c, SetMode(mode));
      if mode != -1 {
        heatingMode := mode;
      }
      res := [];
      var i := 0;
      NonePassed(n.sections);
      while i < |heatingSections|
        invariant i <= |heatingSections| && heatingMode == n.mode && economyTemp == c.eco
        invariant Passed(c.sections, n.sections, i) && res == Told(c, SetMode(mode), i)
      {
        NextSection(c, SetMode(mode), i);
        var tmp := ProcessOne(i, c.sections, n.sections);
        res := res + tmp;
        i := i + 1;
      }
      AllPassed(c.sections, n.sections);
    }

    /** The step of one section, over all its zones. */
    method ProcessOne(i: nat, ghost before: seq<Section>, ghost after: seq<Section>) returns (res: seq<Command>)
      requires Valid() && i < |heatingSections| && Passed(before, after, i)
      requires after[i] == Process(before[i], heatingMode, Trunc(economyTemp), "")
      modifies heatingSections[i]
      ensures Passed(before, after, i + 1)
      ensures res == Commands(before[i], heatingMode, Trunc(economyTemp), "", |before[i].zones|)
    {
      hide Process, Commands;
      res := heatingSections[i].ProcessSection(heatingMode, Trunc(economyTemp), "");
    }

    /** `process_section` of the heating: the sections of that name. */
    method ProcessSection(name: string) returns (res: seq<Command>)
      requires Valid()
      modifies heatingSections
      ensures View() == Next(old(View()), ProcessNamed(name))
              && res == Told(old(View()), ProcessNamed(name), |heatingSections|)
    {
      hide Process, Commands, Passed, Valid, Next;
      ghost var c := View();
      ghost var n := Next(c, ProcessNamed(name));
      NextShape(c, ProcessNamed(name));
      res := [];
      var i := 0;
      NonePassed(n.sections);
      while i < |heatingSections|
        invariant i <= |heatingSections| && Still(c)
        invariant Passed(c.sections, n.sections, i) && res == Told(c, ProcessNamed(name), i)
      {
        NextSection(c, ProcessNamed(name), i);
        var tmp := ProcessIfNamed(i, name, c.sections, n.sections);
        res := res + tmp;
        i := i + 1;
      }
      AllPassed(c.sections, n.sections);
    }

    method ProcessIfNamed(i: nat, name: string, ghost before: seq<Section>, ghost after: seq<Section>)
      returns (res: seq<Command>)
      requires Valid() && i < |heatingSections| && Passed(before, after, i)
      requires after[i] == if before[i].id == name then Process(before[i], heatingMode, Trunc(economyTemp), "")
               else before[i]
      modifies heatingSections[i]
      ensures Passed(before, after, i + 1)
      ensures res == if before[i].id == name
              then Commands(before[i], heatingMode, Trunc(economyTemp), "", |before[i].zones|) else []
    {
      hide Process, Commands;
      SamePassed(i, before, after);
      res := [];
      if name == heatingSections[i].ident {
        res := ProcessOne(i, before, after);
      }
    }

    lemma SamePassed(i: nat, before: seq<Section>, after: seq<Section>)
      requires i < |heatingSections| && Passed(before, after, i)
      ensures before[i] == heatingSections[i].View()
      ensures before[i] == after[i] ==> Passed(before, after, i + 1)
    {
    }

    /** `process_section_temp`: a sensor has reported a temperature. */
    method ProcessSectionTemp(sensor: string, temp: real) returns (res: seq<Command>)
      requires Valid()
      modifies heatingSections
      ensures View() == Next(old(View()), Reading(sensor, temp))
              && res == Told(old(View()), Reading(sensor, temp), |heatingSections|)
    {
      hide Process, Commands, WithTemp, KindOfSensor, Read, ToldBy, Passed, Valid, Next;
      ghost var c := View();
      ghost var n := Next(c, Reading(sensor, temp));
      NextShape(c, Reading(sensor, temp));
      res := [];
      var i := 0;
      NonePassed(n.sections);
      while i < |heatingSections|
        invariant i <= |heatingSections| && Still(c)
        invariant Passed(c.sections, n.sections, i) && res == Told(c, Reading(sensor, temp), i)
      {
        ToldReading(c, sensor, temp, i);
        NextSection(c, Reading(sensor, temp), i);
        var tmp := ReadOne(i, sensor, temp, c.sections, n.sections);
        res := res + tmp;
        i := i + 1;
      }
      AllPassed(c.sections, n.sections);
    }

    lemma ToldReading(c: Control, sensor: string, temp: real, i: nat)
      requires i < |c.sections|
      ensures ToldBy(c, Reading(sensor, temp), c.sections[i])
              == ToldBy(Control(c.mode, c.eco, []), Reading(sensor, temp), c.sections[i])
    {
      hide Commands, KindOfSensor, WithTemp;
    }

    method ReadOne(i: nat, sensor: string, temp: real, ghost before: seq<Section>, ghost after: seq<Section>)
      returns (res: seq<Command>)
      requires Valid() && i < |heatingSections| && Passed(before, after, i)
      requires after[i] == Read(before[i], heatingMode, Trunc(economyTemp), sensor, temp)
      modifies heatingSections[i]
      ensures Passed(before, after, i + 1)
      ensures res == ToldBy(Control(heatingMode, economyTemp, []), Reading(sensor, temp), before[i])
    {
      hide ToldBy, Read;
      res := ReadSection(heatingSections[i], sensor, temp);
    }

    method ReadSection(section: HeatingSection, sensor: string, temp: real) returns (res: seq<Command>)
      modifies section
      ensures section.View() == Read(old(section.View()), heatingMode, Trunc(economyTemp), sensor, temp)
      ensures res == ToldBy(Control(heatingMode, economyTemp, []), Reading(sensor, temp), old(section.View()))
    {
      hide Process, Commands, KindOfSensor;
      res := [];
      var state := section.HasSensor(sensor);
      if state != NoSensor {
        if state == ReferenceSensor {
          section.refTempValue := temp;
        }
        if !section.temperingActive {
          section.SetTemp4Section(temp, sensor);
          res := section.ProcessSection(heatingMode, Trunc(economyTemp), sensor);
        }
      }
    }

    method SetAllQueryTemp(temp: real)
      requires Valid()
      modifies heatingSections
      ensures View() == Next(old(View()), SetAllQuery(temp))
    {
      hide Passed, Valid, Next;
      ghost var c := View();
      ghost var n := Next(c, SetAllQuery(temp));
      NextShape(c, SetAllQuery(temp));
      var i := 0;
      NonePassed(n.sections);
      while i < |heatingSections|
        invariant i <= |heatingSections| && Still(c) && Passed(c.sections, n.sections, i)
      {
        NextSection(c, SetAllQuery(temp), i);
        SetOne(i, temp, c.sections, n.sections);
        i := i + 1;
      }
      AllPassed(c.sections, n.sections);
    }

    method SetOne(i: nat, temp: real, ghost before: seq<Section>, ghost after: seq<Section>)
      requires Valid() && i < |heatingSections| && Passed(before, after, i)
               && after[i] == before[i].(query := Target(before[i], temp))
      modifies heatingSections[i]
      ensures Passed(before, after, i + 1)
    {
      heatingSections[i].SetQueryTemp(temp);
    }

    method SetOneAuto(i: nat, temp: real, ghost before: seq<Section>, ghost after: seq<Section>)
      requires Valid() && i < |heatingSections| && Passed(before, after, i)
               && after[i] == before[i].(autoQuery := Target(before[i], temp))
      modifies heatingSections[i]
      ensures Passed(before, after, i + 1)
    {
      heatingSections[i].SetAutoQueryTemp(temp);
    }

    method SetAutoQueryTemp(temp: real)
      requires Valid()
      modifies heatingSections
      ensures View() == Next(old(View()), SetAutoQuery(temp))
    {
      hide Passed, Valid;
      if temp > 0.0 {
        ghost var c := View();
        ghost var n := Next(c, SetAutoQuery(temp));
        var i := 0;
        NonePassed(n.sections);
        while i < |heatingSections|
          invariant i <= |heatingSections| && Still(c) && Passed(c.sections, n.sections, i)
        {
          SetOneAuto(i, temp, c.sections, n.sections);
          i := i + 1;
        }
        AllPassed(c.sections, n.sections);
      }
    }

    /** `check_heating`, every minute: tempering starts where it is due, and the master switch follows the sections.
        The sections in `tempered` tell the heaters of their zones that are off to heat for a while. */
    method CheckHeating(min: int) returns (tempered: seq<Temper>, master: seq<Command>)
      requires Valid()
      modifies heatingSections
      ensures View() == Next(old(View()), Check(min))
      ensures tempered == Due(old(View()), min, |heatingSections|)
      ensures master == Master(View(), hasMasterSwitch, masterSwitchIdent, masterCoolerIdent)
    {
      hide Next, Due, Master;
      tempered := TemperAll(min);
      master := MasterCommands();
    }

    method TemperAll(min: int) returns (tempered: seq<Temper>)
      requires Valid()
      modifies heatingSections
      ensures View() == Next(old(View()), Check(min))
      ensures tempered == Due(old(View()), min, |heatingSections|)
    {
      hide TemperingDue, Tempered, Tempers, Passed, Valid, Next;
      ghost var c := View();
      ghost var n := Next(c, Check(min));
      NextShape(c, Check(min));
      tempered := [];
      var i := 0;
      NonePassed(n.sections);
      while i < |heatingSections|
        invariant i <= |heatingSections| && Still(c)
        invariant Passed(c.sections, n.sections, i) && tempered == Due(c, min, i)
      {
        NextSection(c, Check(min), i);
        var res := TemperOne(i, min, c.sections, n.sections);
        tempered := tempered + res;
        i := i + 1;
      }
      AllPassed(c.sections, n.sections);
    }

    method TemperOne(i: nat, min: int, ghost before: seq<Section>, ghost after: seq<Section>)
      returns (res: seq<Temper>)
      requires Valid() && i < |heatingSections| && Passed(before, after, i)
      requires after[i] == Tempered(before[i], min, heatingMode)
      modifies heatingSections[i]
      ensures Passed(before, after, i + 1)
      ensures res == if TemperingDue(before[i], min, heatingMode) then Tempers(before[i], |before[i].zones|) else []
    {
      hide TemperingStarts;
      res := [];
      if heatingMode == MANUAL || heatingMode == AUTO {
        var time := heatingSections[i].CheckTemperingStart(min, heatingMode);
        if time != -1 {
          res := heatingSections[i].GetTemperingData();
          TempersSame(before[i], heatingSections[i].View());
        }
      }
    }

    method MasterCommands() returns (master: seq<Command>)
      ensures master == Master(View(), hasMasterSwitch, masterSwitchIdent, masterCoolerIdent)
    {
      if !hasMasterSwitch {
        return [];
      }
      var on, i := false, 0;
      while i < |heatingSections| && !on
        invariant i <= |heatingSections|
        invariant on ==> AnyActive(View().sections)
        invariant !on ==> forall j :: 0 <= j < i ==> !View().sections[j].heater && !View().sections[j].cooler
      {
        if heatingSections[i].heaterState || heatingSections[i].coolerState {
          assert View().sections[i].heater || View().sections[i].cooler;
          on := true;
        }
        i := i + 1;
      }
      if heatingMode == COOLING && masterCoolerIdent != "" {
        return [Command(masterCoolerIdent, Cooler, on), Command(masterSwitchIdent, Heater, false)];
      }
      return [Command(masterSwitchIdent, Heater, on)] + if masterCoolerIdent != ""
          then [Command(masterCoolerIdent, Cooler, false)] else [];
    }

    /** `deactivate_tempering`: the first section that has the actor and does not heat. */
    method DeactivateTempering(actor: string) returns (found: bool)
      requires Valid()
      modifies heatingSections
      ensures View() == Next(old(View()), Deactivate(actor))
    {
      hide Idle, Released;
      var i := FindIdle(actor);
      ghost var c := View();
      assert c == old(View());
      ReleasedFirst(c.sections, i, actor);
      found := i < |heatingSections|;
      if found {
        ReleaseOne(i);
      }
    }

    method ReleaseOne(i: nat)
      requires Valid() && i < |heatingSections|
      modifies heatingSections[i]
      ensures Views(heatingSections)
              == old(Views(heatingSections))[i := old(heatingSections[i].View()).(temperingActive := false)]
    {
      heatingSections[i].temperingActive := false;
    }

    method FindIdle(actor: string) returns (i: nat)
      ensures i <= |heatingSections|
      ensures forall j :: 0 <= j < i ==> !Idle(View().sections[j], actor)
      ensures i < |heatingSections| ==> Idle(View().sections[i], actor)
    {
      hide HasHeater;
      i := 0;
      while i < |heatingSections|
        invariant i <= |heatingSections| && forall j :: 0 <= j < i ==> !Idle(View().sections[j], actor)
      {
        var has := heatingSections[i].FindHeater(actor);
        if !heatingSections[i].heaterState && has {
          return;
        }
        i := i + 1;
      }
    }
  }

  /** Whether tempering is active makes no difference to it. */
  lemma TempersSame(s: Section, n: Section)
    requires n.zones == s.zones && n.temperingTime == s.temperingTime
    ensures Tempers(n, |n.zones|) == Tempers(s, |s.zones|)
  {
    TempersUpTo(s, n, |s.zones|);
  }

  lemma {:induction false} TempersUpTo(s: Section, n: Section, k: nat)
    requires n.zones == s.zones && n.temperingTime == s.temperingTime && k <= |s.zones|
    ensures Tempers(n, k) == Tempers(s, k)
  {
    if k > 0 {
      TempersUpTo(s, n, k - 1);
    }
  }

  lemma {:induction false} ReleasedFirst(s: seq<Section>, i: nat, actor: string)
    requires i <= |s| && (forall j :: 0 <= j < i ==> !Idle(s[j], actor)) && (i < |s| ==> Idle(s[i], actor))
    ensures Released(s, actor) == if i < |s| then s[i := s[i].(temperingActive := false)] else s
    decreases i
  {
    hide Idle;
    if i > 0 {
      ReleasedFirst(s[1..], i - 1, actor);
    }
  }

  predicate SomeHeats(c: Control) {
    exists i :: 0 <= i < |c.sections| && AnyHeats(c.sections[i].zones)
  }

  predicate SomeCools(c: Control) {
    exists i :: 0 <= i < |c.sections| && AnyCools(c.sections[i].zones)
  }

  /** From the first choice of a mode on, after every further run of events: the master switch is told to be on if and
      only if some zone anywhere heats, and the master cooler if and only if some zone cools; without a master cooler
      the switch also serves for cooling.  So the two are never told to be on together. */
  lemma MasterFollowsZones(c: Control, mode: int, events: seq<Event>, switcher: string, cooler: string)
    ensures var n := After(Next(c, SetMode(mode)), events);
            var told := Master(n, true, switcher, cooler);
            && (Command(switcher, Heater, true) in told <==> SomeHeats(n) || (cooler == "" && SomeCools(n)))
            && (cooler != "" ==> (Command(cooler, Cooler, true) in told <==> SomeCools(n)))
            && !(Command(switcher, Heater, true) in told && Command(cooler, Cooler, true) in told)
  {
    hide After, Next;
    FlagsTellTheTruth(c, mode, events);
    var n := After(Next(c, SetMode(mode)), events);
    ActiveZones(n);
    hide Fits, Summed, SomeHeats, SomeCools, AnyActive;
  }

  /** In a state in line with its mode some section is active if and only if some zone heats, or cools in cooling
      mode. */
  lemma ActiveZones(c: Control)
    requires AllFit(c) && AllSummed(c)
    ensures AnyActive(c.sections) <==> SomeHeats(c) || SomeCools(c)
    ensures c.mode == COOLING ==> !SomeHeats(c)
    ensures c.mode != COOLING ==> !SomeCools(c)
  {
    forall i | 0 <= i < |c.sections|
      ensures c.sections[i].heater == AnyHeats(c.sections[i].zones)
      ensures c.sections[i].cooler == AnyCools(c.sections[i].zones)
      ensures if c.mode == COOLING then !AnyHeats(c.sections[i].zones) else !AnyCools(c.sections[i].zones)
    {
      assert Fits(c.sections[i], c.mode) && Summed(c.sections[i]);
    }
    hide AnyHeats, AnyCools, Fits, Summed;
  }
}
