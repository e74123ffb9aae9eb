/** A section of the heating: zones that share a target temperature. */
module HeatingSections {
  import opened Heating

  /** The state of a section.  `heater` and `cooler` say whether any of its zones heats or cools. */
  datatype Section = Section(id: string, refSensor: string, defTemp: real, threshold: real,
                             temperingEnabled: bool, temperingTime: int, temperingStart: int,
                             refTemp: real, query: real, autoQuery: real, temperingActive: bool,
                             heater: bool, cooler: bool, zones: seq<Zone>)

  datatype SensorKind = NoSensor | ReferenceSensor | ZoneSensor

  predicate Concerns(z: Zone, sensor: string) {
    sensor == "" || sensor == z.sensor
  }

  /** The zones after a processed step; with a sensor name only the zones of that sensor are processed. */
  function ProcessedZones(s: Section, mode: int, eco: int, sensor: string): (r: seq<Zone>)
    ensures |r| == |s.zones|
  {
    seq(|s.zones|, i requires 0 <= i < |s.zones| =>
      if Concerns(s.zones[i], sensor) then ZoneStep(s.zones[i], mode, eco, s.query, s.autoQuery, s.threshold)
          else s.zones[i])
  }

  predicate AnyHeats(zones: seq<Zone>) {
    exists i :: 0 <= i < |zones| && zones[i].heater
  }

  predicate AnyCools(zones: seq<Zone>) {
    exists i :: 0 <= i < |zones| && zones[i].cooler
  }

  lemma AnyNext(zones: seq<Zone>, i: nat)
    requires i < |zones|
    ensures AnyHeats(zones[..i + 1]) <==> AnyHeats(zones[..i]) || zones[i].heater
    ensures AnyCools(zones[..i + 1]) <==> AnyCools(zones[..i]) || zones[i].cooler
  {
    var a, b := zones[..i], zones[..i + 1];
    assert forall j :: 0 <= j < i ==> b[j] == a[j];
    assert b[i] == zones[i];
  }

  /** `process_section`. */
  function Process(s: Section, mode: int, eco: int, sensor: string): Section {
    var zones := ProcessedZones(s, mode, eco, sensor);
    s.(zones := zones, heater := AnyHeats(zones), cooler := AnyCools(zones))
  }

  /** What the actors of the first `n` zones are told. */
  function Commands(s: Section, mode: int, eco: int, sensor: string, n: nat): seq<Command>
    requires n <= |s.zones|
  {
    if n == 0 then []
    else
      Commands(s, mode, eco, sensor, n - 1)
      + if Concerns(s.zones[n - 1], sensor)
        then ZoneCommands(s.zones[n - 1], ProcessedZones(s, mode, eco, sensor)[n - 1], mode) else []
  }

  function KindOfSensor(s: Section, name: string): SensorKind {
    if s.refSensor == name then ReferenceSensor
    else if exists i :: 0 <= i < |s.zones| && s.zones[i].sensor == name then ZoneSensor
    else NoSensor
  }

  /** `set_temp4section`. */
  function WithTemp(s: Section, temp: real, sensor: string): Section {
    s.(refTemp := if sensor == s.refSensor then temp else s.refTemp,
       zones := seq(|s.zones|, i requires 0 <= i < |s.zones| =>
         if s.zones[i].sensor == sensor then s.zones[i].(actual := temp) else s.zones[i]))
  }

  /** The target temperature that a request for `temp` sets. */
  function Target(s: Section, temp: real): real {
    if temp <= 0.0 then s.defTemp else temp
  }

  /** Whether tempering starts at minute `min`. */
  predicate TemperingStarts(s: Section, min: int, mode: int) {
    && s.temperingEnabled && s.temperingTime != 0
    && (mode == MANUAL ==> s.refTemp <= s.query + THRESH_TEMPERING)
    && (mode == AUTO ==> s.refTemp <= s.autoQuery + THRESH_TEMPERING)
    && !s.heater
    && (if min >= 0 then min % OSC_PERIOD else min) == s.temperingStart
  }

  predicate HasHeater(s: Section, actor: string) {
    exists i, j :: 0 <= i < |s.zones| && 0 <= j < |s.zones[i].heaters| && s.zones[i].heaters[j] == actor
  }

  /** A heater is told to heat for a while. */
  datatype Temper = Temper(ident: string, offDelay: int)

  function TemperEach(heaters: seq<string>, time: int): (r: seq<Temper>)
    ensures |r| == |heaters| && forall i :: 0 <= i < |r| ==> r[i] == Temper(heaters[i], time)
  {
    seq(|heaters|, i requires 0 <= i < |heaters| => Temper(heaters[i], time))
  }

  /** What the heaters of the first `n` zones are told when the section starts tempering. */
  function Tempers(s: Section, n: nat): seq<Temper>
    requires n <= |s.zones|
  {
    if n == 0 then []
    else
      var z := s.zones[n - 1];
      Tempers(s, n - 1) + if z.heater then [] else TemperEach(z.heaters, s.temperingTime)
  }

  /** Exactly the heaters of the zones that are off are told, and for the tempering time of the section. */
  lemma {:induction false} TempersExactly(s: Section, n: nat, t: Temper)
    requires n <= |s.zones|
    ensures t in Tempers(s, n)
       <==> t.offDelay == s.temperingTime
            && exists i :: 0 <= i < n && !s.zones[i].heater && t.ident in s.zones[i].heaters
  {
    hide TemperEach;
    if n > 0 {
      TempersExactly(s, n - 1, t);
      EachTold(s.zones[n - 1].heaters, s.temperingTime, t);
    }
  }

  lemma EachTold(heaters: seq<string>, time: int, t: Temper)
    ensures t in TemperEach(heaters, time) <==> t.offDelay == time && t.ident in heaters
  {
    var each := TemperEach(heaters, time);
    if t in each {
      var i :| 0 <= i < |each| && each[i] == t;
      assert heaters[i] == t.ident;
    }
    if t.offDelay == time && t.ident in heaters {
      var i :| 0 <= i < |heaters| && heaters[i] == t.ident;
      assert each[i] == t;
    }
  }

  // ---------------------------------------------------------------- the section as it runs

  class HeatingSection {
    const ident: string
    const refSensorIdent: string
    const defTempValue: real
    const heatingThreshold: real
    const temperingEnabled: bool
    const temperingTime: int
    const temperingStart: int
    var refTempValue: real
    var queryTemp: real
    var autoQueryTemp: real
    var temperingActive: bool
    var heaterState: bool
    var coolerState: bool
    var heatingZones: seq<Zone>

    /** A new section; its two flags are not set before a step has been processed. */
    constructor (id: string, refSensor: string, defTemp: real, diff: real, enabled: bool, time: int, startTime: int,
                 zones: seq<Zone>, flags: (bool, bool))
      ensures View()
              == Section(id, refSensor, defTemp, diff, enabled, time, startTime, defTemp, defTemp, defTemp, false,
                                flags.0, flags.1, zones)
    {
      ident, refSensorIdent, defTempValue, heatingThreshold := id, refSensor, defTemp, diff;
      temperingEnabled, temperingTime, temperingStart := enabled, time, startTime;
      refTempValue, queryTemp, autoQueryTemp := defTemp, defTemp, defTemp;
      temperingActive := false;
      heaterState, coolerState := flags.0, flags.1;
      heatingZones := zones;
    }

    ghost function View(): Section
      reads this
    {
      Section(ident, refSensorIdent, defTempValue, heatingThreshold, temperingEnabled, temperingTime,
              temperingStart, refTempValue, queryTemp, autoQueryTemp, temperingActive,
              heaterState, coolerState, heatingZones)
    }

    method SetQueryTemp(temp: real)
      modifies `queryTemp
      ensures View() == old(View()).(query := Target(old(View()), temp))
    {
      queryTemp := if temp <= 0.0 then defTempValue else temp;
    }

    method SetAutoQueryTemp(temp: real)
      modifies `autoQueryTemp
      ensures View() == old(View()).(autoQuery := Target(old(View()), temp))
    {
      autoQueryTemp := if temp <= 0.0 then defTempValue else temp;
    }

    method SetTemp4Section(temp: real, sensor: string)
      modifies `refTempValue, `heatingZones
      ensures View() == WithTemp(old(View()), temp, sensor)
    {
      if sensor == refSensorIdent {
        refTempValue := temp;
      }
      var i := 0;
      while i < |heatingZones|
        invariant i <= |heatingZones| == |old(heatingZones)|
        invariant refTempValue == WithTemp(old(View()), temp, sensor).refTemp
        invariant forall j :: 0 <= j < |heatingZones| ==>
          heatingZones[j] == if j < i then WithTemp(old(View()), temp, sensor).zones[j] else old(heatingZones)[j]
      {
        if heatingZones[i].sensor == sensor {
          heatingZones := heatingZones[i := heatingZones[i].(actual := temp)];
        }
        i := i + 1;
      }
      assert heatingZones == WithTemp(old(View()), temp, sensor).zones;
    }

    method HasSensor(name: string) returns (k: SensorKind)
      ensures k == KindOfSensor(View(), name)
    {
      if refSensorIdent == name {
        return ReferenceSensor;
      }
      var i := 0;
      while i < |heatingZones|
        invariant i <= |heatingZones| && forall j :: 0 <= j < i ==> heatingZones[j].sensor != name
      {
        if heatingZones[i].sensor == name {
          return ZoneSensor;
        }
        i := i + 1;
      }
      return NoSensor;
    }

    method FindHeater(heater: string) returns (found: bool)
      ensures found == HasHeater(View(), heater)
    {
      var i := 0;
      while i < |heatingZones|
        invariant i <= |heatingZones| && forall j :: 0 <= j < i ==> heater !in heatingZones[j].heaters
      {
        if heater in heatingZones[i].heaters {
          var j :| 0 <= j < |heatingZones[i].heaters| && heatingZones[i].heaters[j] == heater;
          return true;
        }
        i := i + 1;
      }
      return false;
    }

    /** `process_section`: the zones one after the other, and then the two flags anew. */
    method ProcessSection(mode: int, ecoTemp: int, sensorName: string) returns (res: seq<Command>)
      modifies `heatingZones, `heaterState, `coolerState
      ensures View() == Process(old(View()), mode, ecoTemp, sensorName)
      ensures res == Commands(old(View()), mode, ecoTemp, sensorName, |old(heatingZones)|)
    {
      hide Commands, ProcessedZones, AnyHeats, AnyCools;
      res := ProcessZones(mode, ecoTemp, sensorName);
      SumUp();
    }

    method ProcessZones(mode: int, ecoTemp: int, sensorName: string) returns (res: seq<Command>)
      modifies `heatingZones
      ensures heatingZones == ProcessedZones(old(View()), mode, ecoTemp, sensorName)
      ensures res == Commands(old(View()), mode, ecoTemp, sensorName, |old(heatingZones)|)
    {
      hide ZoneCommands, ZoneStep;
      ghost var s := View();
      res := [];
      var i := 0;
      while i < |heatingZones|
        invariant i <= |heatingZones| == |s.zones|
        invariant forall j :: 0 <= j < |s.zones| ==>
          heatingZones[j] == if j < i then ProcessedZones(s, mode, ecoTemp, sensorName)[j] else s.zones[j]
        invariant res == Commands(s, mode, ecoTemp, sensorName, i)
      {
        if sensorName == "" || sensorName == heatingZones[i].sensor {
          var z := heatingZones[i];
          var n := StepZone(z, mode, ecoTemp);
          heatingZones := heatingZones[i := n];
          res := res + ZoneCommands(z, n, mode);
        }
        i := i + 1;
      }
      assert heatingZones == ProcessedZones(s, mode, ecoTemp, sensorName);
    }

    method SumUp()
      modifies `heaterState, `coolerState
      ensures heaterState == AnyHeats(heatingZones) && coolerState == AnyCools(heatingZones)
    {
      heaterState, coolerState := false, false;
      var i := 0;
      while i < |heatingZones|
        invariant i <= |heatingZones|
        invariant heaterState == AnyHeats(heatingZones[..i]) && coolerState == AnyCools(heatingZones[..i])
      {
        hide AnyHeats, AnyCools;
        AnyNext(heatingZones, i);
        if heatingZones[i].heater {
          heaterState := true;
        }
        if heatingZones[i].cooler {
          coolerState := true;
        }
        i := i + 1;
      }
      assert heatingZones[..i] == heatingZones;
    }

    /** One zone; the source changes it through its setters. */
    method StepZone(zone: Zone, mode: int, ecoTemp: int) returns (z: Zone)
      ensures z == ZoneStep(zone, mode, ecoTemp, queryTemp, autoQueryTemp, heatingThreshold)
    {
      z := zone;
      var on: bool;
      if mode == ECO {
        on := z.actual < ecoTemp as real;
        if z.cooler {
          z := z.(cooler := false);
        }
        z := z.(heater := on);
      } else if mode == COOLING {
        if z.direction == Down {
          if z.actual > queryTemp {
            on := true;
          } else {
            z := z.(direction := Up);
            on := false;
          }
        } else {
          if z.actual - heatingThreshold > queryTemp {
            on := true;
            z := z.(direction := Down);
          } else {
            on := false;
          }
        }
        z := z.(cooler := on);
        if z.heater {
          z := z.(heater := false);
        }
      } else if mode == OFF {
        z := z.(heater := false, cooler := false);
      } else {
        var target := if mode == AUTO then autoQueryTemp else queryTemp;
        if z.direction == Up {
          if z.actual < target {
            on := true;
          } else {
            z := z.(direction := Down);
            on := false;
          }
        } else {
          if z.actual + heatingThreshold < target {
            on := true;
            z := z.(direction := Up);
          } else {
            on := false;
          }
        }
        z := z.(heater := on);
        if z.cooler {
          z := z.(cooler := false);
        }
      }
    }

    /** `get_tempering_data`: every heater of the zones that are off. */
    method GetTemperingData() returns (res: seq<Temper>)
      ensures res == Tempers(View(), |heatingZones|)
    {
      res := [];
      var i := 0;
      while i < |heatingZones|
        invariant i <= |heatingZones| && res == Tempers(View(), i)
      {
        var zone := heatingZones[i];
        if !zone.heater {
          ghost var before, each := res, TemperEach(zone.heaters, temperingTime);
          var j := 0;
          while j < |zone.heaters|
            invariant j <= |zone.heaters| && res == before + each[..j]
          {
            assert each[..j + 1] == each[..j] + [each[j]];
            res := res + [Temper(zone.heaters[j], temperingTime)];
            j := j + 1;
          }
          assert each[..j] == each;
        }
        i := i + 1;
      }
    }

    /** `check_tempering_start`: the length of the tempering, or -1. */
    method CheckTemperingStart(minute: int, mode: int) returns (time: int)
      modifies `temperingActive
      ensures var s := old(View());
              && View() == s.(temperingActive := s.temperingActive || TemperingStarts(s, minute, mode))
              && time == if TemperingStarts(s, minute, mode) then s.temperingTime else -1
    {
      if !temperingEnabled || temperingTime == 0 {
        return -1;
      }
      if mode == MANUAL {
        if refTempValue > queryTemp + THRESH_TEMPERING {
          return -1;
        }
      }
      if mode == AUTO {
        if refTempValue > autoQueryTemp + THRESH_TEMPERING {
          return -1;
        }
      }
      var min := minute;
      while min >= OSC_PERIOD
        invariant if minute >= 0 then 0 <= min && min % OSC_PERIOD == minute % OSC_PERIOD else min == minute
        decreases min
      {
        min := min - OSC_PERIOD;
      }
      if heaterState {
        return -1;
      }
      if min == temperingStart {
        temperingActive := true;
        return temperingTime;
      }
      return -1;
    }

    /** `get_section_state`.  Once the flags have been summed up the answer speaks of the zones: "1" when some zone
        heats, "2" when none heats and some zone cools, "0" when none does either. */
    method GetSectionState() returns (r: string)
      ensures r == if View().heater then "1" else if View().cooler then "2" else "0"
      ensures var zones := View().zones;
              Summed(View()) ==>
                && (r == "1" <==> exists i :: 0 <= i < |zones| && zones[i].heater)
                && (r == "2" <==> (forall i :: 0 <= i < |zones| ==> !zones[i].heater)
                                  && exists i :: 0 <= i < |zones| && zones[i].cooler)
                && (r == "0" <==> forall i :: 0 <= i < |zones| ==> !zones[i].heater && !zones[i].cooler)
    {
      if heaterState {
        return "1";
      } else if coolerState {
        return "2";
      } else {
        return "0";
      }
    }
  }

  // ---------------------------------------------------------------- heating against cooling

  /** In cooling mode no heater is on, and in every other mode no cooler is. */
  predicate ZoneFits(z: Zone, mode: int) {
    if mode == COOLING then !z.heater else !z.cooler
  }

  predicate Fits(s: Section, mode: int) {
    forall i :: 0 <= i < |s.zones| ==> ZoneFits(s.zones[i], mode)
  }

  /** The flags of the section are the disjunctions of those of its zones. */
  predicate Summed(s: Section) {
    s.heater == AnyHeats(s.zones) && s.cooler == AnyCools(s.zones)
  }

  /** A processed step sums up the flags.  Over all zones it brings them into line with the mode, whatever they were
      before; over the zones of one sensor it keeps them in line.  So the two flags are never both set. */
  lemma ProcessFits(s: Section, mode: int, eco: int, sensor: string)
    requires sensor == "" || Fits(s, mode)
    ensures var n := Process(s, mode, eco, sensor);
            Fits(n, mode) && Summed(n) && !(n.heater && n.cooler)
  {
    var zones := ProcessedZones(s, mode, eco, sensor);
    forall i | 0 <= i < |zones| ensures ZoneFits(zones[i], mode) {
      assert sensor != "" ==> ZoneFits(s.zones[i], mode);
    }
  }

  /** In a processed step the temperature of each zone concerned decides, whatever the zone did before. */
  lemma ProcessDecides(s: Section, mode: int, eco: int, sensor: string, i: nat)
    requires i < |s.zones| && Concerns(s.zones[i], sensor)
    ensures Decided(Process(s, mode, eco, sensor).zones[i], s.zones[i].actual, mode, eco, s.query, s.autoQuery,
                    s.threshold)
  {
    hide Decided;
    var z := s.zones[i];
    LastReadingDecides(z, [z.actual], mode, eco, s.query, s.autoQuery, s.threshold);
    assert [z.actual][..0] == [];
    assert StepRun(z, [], mode, eco, s.query, s.autoQuery, s.threshold) == z;
    hide ZoneStep;
    assert z.(actual := z.actual) == z;
  }

  // ---------------------------------------------------------------- tempering

  /** The target of a section in a mode. */
  function SectionTarget(s: Section, mode: int): real {
    if mode == AUTO then s.autoQuery else s.query
  }

  /** In any thirty minutes tempering starts in exactly one, for a section that does not heat and whose reference lies
      no more than half a degree above the target, if it is set up for a minute of the half hour and a time; for any
      other section it never does. */
  lemma TemperingOnce(s: Section, mode: int, from: nat)
    requires mode == MANUAL || mode == AUTO
    ensures (exists m :: from <= m < from + 30 && TemperingStarts(s, m, mode))
       <==> s.temperingEnabled && s.temperingTime != 0 && !s.heater && 0 <= s.temperingStart < 30
            && s.refTemp <= SectionTarget(s, mode) + 0.5
    ensures forall m, n :: from <= m < n < from + 30 ==> !(TemperingStarts(s, m, mode) && TemperingStarts(s, n, mode))
  {
    if 0 <= s.temperingStart < 30 {
      var m := from + (s.temperingStart - from) % 30;
      assert m % 30 == s.temperingStart;
      assert TemperingStarts(s, m, mode)
        <==> s.temperingEnabled && s.temperingTime != 0 && !s.heater && s.refTemp <= SectionTarget(s, mode) + 0.5;
    }
  }

  /** A reading changes temperatures only. */
  lemma ReadingKeeps(s: Section, temp: real, sensor: string, mode: int)
    requires Fits(s, mode)
    ensures Fits(WithTemp(s, temp, sensor), mode)
  {
    forall i | 0 <= i < |s.zones| ensures ZoneFits(WithTemp(s, temp, sensor).zones[i], mode) {
      assert ZoneFits(s.zones[i], mode);
    }
  }
}
