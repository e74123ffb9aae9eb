/** The thermostat: zones with hysteresis, sections of zones, and the heating modes.  Temperatures are reals, and
    the states of heaters and coolers are on or off. */
module Heating {

  const OFF := 0
  const MANUAL := 1
  const ECO := 2
  const AUTO := 3
  const COOLING := 4
  const OSC_PERIOD := 30
  const THRESH_TEMPERING := 0.5

  datatype Direction = Up | Down

  /** A zone with its sensor and its actors. */
  datatype Zone = Zone(sensor: string, heaters: seq<string>, coolers: seq<string>, actual: real, direction: Direction,
                       heater: bool, cooler: bool)

  datatype ActorType = Heater | Cooler

  /** What an actor is told. */
  datatype Command = Command(ident: string, actor: ActorType, on: bool)

  // ---------------------------------------------------------------- one zone

  /** Heating towards `q`: once it is reached, heating starts again only when the temperature is more than `h` below. */
  function Heat(z: Zone, q: real, h: real): Zone {
    if z.direction == Up then
      if z.actual < q then z.(heater := true, cooler := false)
          else z.(direction := Down, heater := false, cooler := false)
    else
      if z.actual + h < q then z.(direction := Up, heater := true, cooler := false)
          else z.(heater := false, cooler := false)
  }

  /** Cooling down to `q` likewise. */
  function Cool(z: Zone, q: real, h: real): Zone {
    if z.direction == Down then
      if z.actual > q then z.(heater := false, cooler := true)
          else z.(direction := Up, heater := false, cooler := false)
    else
      if z.actual - h > q then z.(direction := Down, heater := false, cooler := true)
          else z.(heater := false, cooler := false)
  }

  /** One processed step of a zone. */
  function ZoneStep(z: Zone, mode: int, eco: int, query: real, auto: real, h: real): Zone {
    if mode == ECO then z.(heater := z.actual < eco as real, cooler := false)
    else if mode == COOLING then Cool(z, query, h)
    else if mode == OFF then z.(heater := false, cooler := false)
    else Heat(z, if mode == AUTO then auto else query, h)
  }

  function Tell(idents: seq<string>, actor: ActorType, on: bool): (r: seq<Command>)
    ensures |r| == |idents| && forall i :: 0 <= i < |r| ==> r[i] == Command(idents[i], actor, on)
  {
    seq(|idents|, i requires 0 <= i < |idents| => Command(idents[i], actor, on))
  }

  /** What the actors are told when zone `z` has become `n`. */
  function ZoneCommands(z: Zone, n: Zone, mode: int): seq<Command> {
    if mode == COOLING then
      Tell(z.coolers, Cooler, n.cooler) + if z.heater then Tell(z.heaters, Heater, false) else []
    else if mode == OFF then
      Tell(z.heaters, Heater, false) + Tell(z.coolers, Cooler, false)
    else
      Tell(z.heaters, Heater, n.heater) + if z.cooler then Tell(z.coolers, Cooler, false) else []
  }

  /** The actors are told the new state of their zone, and each of them is told when it changes. */
  lemma CommandsTellStates(z: Zone, mode: int, eco: int, query: real, auto: real, h: real)
    ensures var n := ZoneStep(z, mode, eco, query, auto, h);
            && (forall c :: c in ZoneCommands(z, n, mode) ==> c.on == if c.actor == Heater then n.heater else n.cooler)
            && (n.heater != z.heater ==> forall i :: 0 <= i < |z.heaters| ==>
                Command(z.heaters[i], Heater, n.heater) in ZoneCommands(z, n, mode))
            && (n.cooler != z.cooler ==> forall i :: 0 <= i < |z.coolers| ==>
                Command(z.coolers[i], Cooler, n.cooler) in ZoneCommands(z, n, mode))
  {
    var n := ZoneStep(z, mode, eco, query, auto, h);
    forall i | 0 <= i < |z.heaters| && n.heater != z.heater
      ensures Command(z.heaters[i], Heater, n.heater) in ZoneCommands(z, n, mode)
    {
      assert Tell(z.heaters, Heater, n.heater)[i] == Command(z.heaters[i], Heater, n.heater);
    }
    forall i | 0 <= i < |z.coolers| && n.cooler != z.cooler
      ensures Command(z.coolers[i], Cooler, n.cooler) in ZoneCommands(z, n, mode)
    {
      assert Tell(z.coolers, Cooler, n.cooler)[i] == Command(z.coolers[i], Cooler, n.cooler);
    }
  }

  // ---------------------------------------------------------------- a run of readings

  /** The zone after the readings `r`, heating towards `q`. */
  function Run(z: Zone, r: seq<real>, q: real, h: real): Zone {
    if r == [] then z else Heat(Run(z, r[..|r| - 1], q, h).(actual := r[|r| - 1]), q, h)
  }

  /** How often the heater has been switched on. */
  function SwitchedOn(z: Zone, r: seq<real>, q: real, h: real): nat {
    if r == [] then 0
    else SwitchedOn(z, r[..|r| - 1], q, h)
         + if !Run(z, r[..|r| - 1], q, h).heater && Run(z, r, q, h).heater then 1 else 0
  }

  function Distance(x: real, y: real): real {
    if x < y then y - x else x - y
  }

  /** The total variation of the readings. */
  function Variation(r: seq<real>): (v: real)
    ensures v >= 0.0
  {
    if |r| <= 1 then 0.0 else Variation(r[..|r| - 1]) + Distance(r[|r| - 2], r[|r| - 1])
  }

  /** After a processed step the direction says whether the heater is on. */
  predicate Settled(z: Zone) {
    z.heater <==> z.direction == Up
  }

  lemma RunSettled(z: Zone, r: seq<real>, q: real, h: real)
    requires r != []
    ensures Settled(Run(z, r, q, h)) && Run(z, r, q, h).actual == r[|r| - 1]
  {
  }

  function Times(n: int, h: real): real {
    n as real * h
  }

  lemma TimesNegative(n: int, h: real)
    requires n >= 0 && h < 0.0
    ensures Times(n, h) <= 0.0
  {
  }

  /** What the readings so far must have cost, `k` being the number of times the heater was switched on. */
  predicate Paid(on: bool, last: real, k: nat, v: real, q: real, h: real) {
    k >= 1 ==>
      if on then v >= Times(2 * k - 3, h) && v >= Times(2 * k - 3, h) + (last - q + h)
      else v >= Times(2 * k - 2, h) && v >= Times(2 * k - 2, h) + (q - last)
  }

  lemma PaidStep(z: Zone, next: real, k: nat, v: real, q: real, h: real)
    requires h >= 0.0 && v >= 0.0 && Settled(z) && Paid(z.heater, z.actual, k, v, q, h)
    ensures var n := Heat(z.(actual := next), q, h);
            Paid(n.heater, next, if !z.heater && n.heater then k + 1 else k, v + Distance(z.actual, next), q, h)
  {
    assert Times(-1, h) <= 0.0;
    hide Times;
    assert 2 * (k + 1) - 3 == 2 * k - 1 && 2 * k - 3 + 1 == 2 * k - 2 && 2 * k - 2 + 1 == 2 * k - 1;
    if k == 0 {
      TimesMinusOne(h);
    }
  }

  lemma TimesMinusOne(h: real)
    ensures Times(-1, h) == -h
  {
  }

  lemma {:induction false} RunPaid(z: Zone, r: seq<real>, q: real, h: real)
    requires h >= 0.0 && r != []
    ensures Paid(Run(z, r, q, h).heater, r[|r| - 1], SwitchedOn(z, r, q, h), Variation(r), q, h)
    decreases |r|
  {
    var n := |r| - 1;
    RunSettled(z, r, q, h);
    if n > 0 {
      RunPaid(z, r[..n], q, h);
      RunSettled(z, r[..n], q, h);
      PaidStep(Run(z, r[..n], q, h), r[n], SwitchedOn(z, r[..n], q, h), Variation(r[..n]), q, h);
      assert Variation(r) == Variation(r[..n]) + Distance(r[n - 1], r[n]);
    } else {
      assert r[..0] == [];
      assert SwitchedOn(z, r[..0], q, h) == 0 && Run(z, r[..0], q, h) == z;
    }
  }

  /** The switching bound.  In manual or automatic mode, whatever the zone was before and over any readings, a heater
      that was switched on `k` times has cost a variation of at least `2k - 3` thresholds. */
  lemma SwitchingBound(z: Zone, r: seq<real>, q: real, h: real)
    ensures var k := SwitchedOn(z, r, q, h);
            && (k >= 2 ==> Times(2 * k - 3, h) <= Variation(r))
            && (k >= 1 ==> Times(k - 1, h) <= Variation(r))
  {
    var k := SwitchedOn(z, r, q, h);
    if h < 0.0 {
      if k >= 2 {
        TimesNegative(2 * k - 3, h);
      }
      if k >= 1 {
        TimesNegative(k - 1, h);
      }
    } else if r != [] {
      RunPaid(z, r, q, h);
      if k >= 2 {
        TimesMore(k - 1, 2 * k - 3, h);
        hide Times;
      } else if k == 1 {
        assert Times(0, h) == 0.0;
      }
    }
  }

  lemma TimesMore(m: int, n: int, h: real)
    requires m <= n && h >= 0.0
    ensures Times(m, h) <= Times(n, h)
  {
    var d := (n - m) as real;
    assert n as real == m as real + d;
    assert d * h >= 0.0;
  }

  /** Readings that switch a heater on `k` times, each turn overshooting by `e` only. */
  function Saw(k: nat, q: real, h: real, e: real): (r: seq<real>)
    requires k > 0
    ensures r != [] && r[|r| - 1] == if k == 1 then q - e else q - h - e
  {
    if k == 1 then [q - e] else Saw(k - 1, q, h, e) + [q, q - h - e]
  }

  lemma TwoMore(z: Zone, r: seq<real>, x: real, y: real, q: real, h: real)
    requires r != []
    ensures var a, b := Run(z, r + [x], q, h), Run(z, r + [x, y], q, h);
            && a == Heat(Run(z, r, q, h).(actual := x), q, h) && b == Heat(a.(actual := y), q, h)
            && SwitchedOn(z, r + [x, y], q, h)
                == SwitchedOn(z, r, q, h) + (if !Run(z, r, q, h).heater && a.heater then 1 else 0)
                                                  + (if !a.heater && b.heater then 1 else 0)
  {
    var s, t := r + [x], r + [x, y];
    assert s[..|s| - 1] == r && t[..|t| - 1] == s;
    hide Heat;
  }

  /** The bound is sharp: for every number of switchings there are readings that cost no more than it, and as little
      as one likes for each turn. */
  lemma BoundSharp(z: Zone, k: nat, q: real, h: real, e: real)
    requires k > 0 && h >= 0.0 && e > 0.0 && z.direction == Up && !z.heater
    ensures SwitchedOn(z, Saw(k, q, h, e), q, h) == k
    ensures var n := Run(z, Saw(k, q, h, e), q, h); n.heater && n.direction == Up
    ensures k >= 2 ==> Variation(Saw(k, q, h, e)) == Times(2 * k - 3, h) + Times(2 * k - 2, e)
  {
    SawSwitches(z, k, q, h, e);
    if k >= 2 {
      SawVaries(k, q, h, e);
    }
  }

  lemma {:induction false} SawSwitches(z: Zone, k: nat, q: real, h: real, e: real)
    requires k > 0 && h >= 0.0 && e > 0.0 && z.direction == Up && !z.heater
    ensures SwitchedOn(z, Saw(k, q, h, e), q, h) == k
    ensures var n := Run(z, Saw(k, q, h, e), q, h); n.heater && n.direction == Up
    decreases k
  {
    if k == 1 {
      FirstTooth(z, q, h, e);
    } else {
      SawStep(k, q, h, e);
      hide Run, SwitchedOn, Variation, Heat, Saw;
      SawSwitches(z, k - 1, q, h, e);
      TwoMore(z, Saw(k - 1, q, h, e), q, q - h - e, q, h);
      ToothHeats(Run(z, Saw(k - 1, q, h, e), q, h), q, h, e);
    }
  }

  lemma {:induction false} SawVaries(k: nat, q: real, h: real, e: real)
    requires k >= 2 && h >= 0.0 && e > 0.0
    ensures Variation(Saw(k, q, h, e)) == Times(2 * k - 3, h) + Times(2 * k - 2, e)
    decreases k
  {
    SawStep(k, q, h, e);
    hide Variation, Saw, Times;
    if k >= 3 {
      SawVaries(k - 1, q, h, e);
    }
    VariesMore(Saw(k - 1, q, h, e), q, q - h - e);
    SawCosts(k, q, h, e);
  }

  lemma VariesMore(r: seq<real>, x: real, y: real)
    requires r != []
    ensures Variation(r + [x, y]) == Variation(r) + Distance(r[|r| - 1], x) + Distance(x, y)
  {
    hide Variation, Distance;
    VariesOnce(r, x);
    VariesOnce(r + [x], y);
    assert r + [x] + [y] == r + [x, y];
  }

  lemma VariesOnce(r: seq<real>, x: real)
    requires r != []
    ensures Variation(r + [x]) == Variation(r) + Distance(r[|r| - 1], x)
  {
    hide Distance;
    var s := r + [x];
    assert s[..|s| - 1] == r && s[|s| - 2] == r[|r| - 1] && s[|s| - 1] == x;
    assert Variation(s) == Variation(s[..|s| - 1]) + Distance(s[|s| - 2], s[|s| - 1]);
  }

  lemma SawStep(k: nat, q: real, h: real, e: real)
    requires k >= 2
    ensures Saw(k, q, h, e) == Saw(k - 1, q, h, e) + [q, q - h - e]
  {
  }

  /** One tooth: the target switches the heater off, and the next reading switches it on again. */
  lemma ToothHeats(z: Zone, q: real, h: real, e: real)
    requires h >= 0.0 && e > 0.0 && z.direction == Up
    ensures var a := Heat(z.(actual := q), q, h);
            var b := Heat(a.(actual := q - h - e), q, h);
            !a.heater && b.heater && b.direction == Up
  {
  }

  /** The cost of one more tooth. */
  lemma SawCosts(k: nat, q: real, h: real, e: real)
    requires k >= 2 && h >= 0.0 && e > 0.0
    requires k >= 3 ==> Variation(Saw(k - 1, q, h, e)) == Times(2 * k - 5, h) + Times(2 * k - 4, e)
    ensures Variation(Saw(k - 1, q, h, e)) + Distance(if k == 2 then q - e else q - h - e, q) + Distance(q, q - h - e)
         == Times(2 * k - 3, h) + Times(2 * k - 2, e)
  {
    hide Saw, Variation, Times;
    SawCost(k, h, e);
    if k == 2 {
      SawShort(q, h, e);
    }
  }

  lemma FirstTooth(z: Zone, q: real, h: real, e: real)
    requires e > 0.0 && z.direction == Up && !z.heater
    ensures SwitchedOn(z, [q - e], q, h) == 1
    ensures var n := Run(z, [q - e], q, h); n.heater && n.direction == Up
  {
    var r := [q - e];
    assert r[..0] == [];
    assert Run(z, r, q, h) == Heat(z.(actual := q - e), q, h);
  }

  lemma SawShort(q: real, h: real, e: real)
    ensures Variation(Saw(1, q, h, e)) == 0.0
  {
  }

  lemma SawCost(k: nat, h: real, e: real)
    requires k >= 2
    ensures Times(1, h) + Times(2, e) == h + e + e
    ensures Times(2 * k - 3, h) + Times(2 * k - 2, e) == Times(2 * k - 5, h) + Times(2 * k - 4, e) + h + e + h + e
  {
    assert Times(0, h) == 0.0 && Times(0, e) == 0.0;
    hide Times;
  }

  /** The dead band: a reading leaves every settled heater as it is exactly when it lies below the target by no more
      than the threshold. */
  lemma DeadBand(x: real, q: real, h: real)
    ensures (forall z: Zone :: Settled(z) ==> Heat(z.(actual := x), q, h).heater == z.heater) <==> q - h <= x < q
  {
    var on := Zone("", [], [], 0.0, Up, true, false);
    var off := Zone("", [], [], 0.0, Down, false, false);
    assert Settled(on) && Settled(off);
    if forall z: Zone :: Settled(z) ==> Heat(z.(actual := x), q, h).heater == z.heater {
      assert Heat(on.(actual := x), q, h).heater && !Heat(off.(actual := x), q, h).heater;
    }
  }

  /** Readings inside the dead band never change the heater after the first processed step. */
  lemma {:induction false} NeverSwitches(z: Zone, first: real, r: seq<real>, q: real, h: real)
    requires forall i :: 0 <= i < |r| ==> q - h <= r[i] < q
    ensures Run(z, [first] + r, q, h).heater == Run(z, [first], q, h).heater
    decreases |r|
  {
    if r == [] {
      assert [first] + r == [first];
    } else {
      var n := |r| - 1;
      NeverSwitches(z, first, r[..n], q, h);
      assert ([first] + r)[..n + 1] == [first] + r[..n];
      RunSettled(z, [first] + r[..n], q, h);
      DeadBand(r[n], q, h);
      hide Heat;
      HeatIs(z, [first] + r, q, h);
    }
  }

  lemma HeatIs(z: Zone, r: seq<real>, q: real, h: real)
    requires r != []
    ensures Run(z, r, q, h) == Heat(Run(z, r[..|r| - 1], q, h).(actual := r[|r| - 1]), q, h)
  {
    hide Heat;
  }

  // ---------------------------------------------------------------- cooling is heating upside down

  function Turned(d: Direction): Direction {
    if d == Up then Down else Up
  }

  /** The zone with temperatures counted downwards, and with heaters for coolers. */
  function Mirror(z: Zone): Zone {
    z.(actual := -z.actual, direction := Turned(z.direction), heater := z.cooler, cooler := z.heater)
  }

  lemma CoolMirrors(z: Zone, x: real, q: real, h: real)
    ensures Mirror(Cool(z.(actual := x), q, h)) == Heat(Mirror(z).(actual := -x), -q, h)
  {
  }

  /** The zone after the readings `r`, cooling down to `q`. */
  function CoolRun(z: Zone, r: seq<real>, q: real, h: real): Zone {
    if r == [] then z else Cool(CoolRun(z, r[..|r| - 1], q, h).(actual := r[|r| - 1]), q, h)
  }

  /** How often the cooler has been switched on. */
  function CooledOn(z: Zone, r: seq<real>, q: real, h: real): nat {
    if r == [] then 0
    else CooledOn(z, r[..|r| - 1], q, h)
         + if !CoolRun(z, r[..|r| - 1], q, h).cooler && CoolRun(z, r, q, h).cooler then 1 else 0
  }

  function Negated(r: seq<real>): (n: seq<real>)
    ensures |n| == |r| && forall i :: 0 <= i < |r| ==> n[i] == -r[i]
  {
    seq(|r|, i requires 0 <= i < |r| => -r[i])
  }

  lemma {:induction false} RunMirrors(z: Zone, r: seq<real>, q: real, h: real)
    ensures Mirror(CoolRun(z, r, q, h)) == Run(Mirror(z), Negated(r), -q, h)
    ensures CooledOn(z, r, q, h) == SwitchedOn(Mirror(z), Negated(r), -q, h)
    decreases |r|
  {
    hide Heat, Cool;
    if r != [] {
      var n := |r| - 1;
      assert Negated(r)[..n] == Negated(r[..n]);
      RunMirrors(z, r[..n], q, h);
      CoolMirrors(CoolRun(z, r[..n], q, h), r[n], q, h);
    }
  }

  lemma {:induction false} VariationMirrors(r: seq<real>)
    ensures Variation(Negated(r)) == Variation(r)
    decreases |r|
  {
    if |r| > 1 {
      assert Negated(r)[..|r| - 1] == Negated(r[..|r| - 1]);
      VariationMirrors(r[..|r| - 1]);
    }
  }

  /** The switching bound for coolers. */
  lemma CoolingBound(z: Zone, r: seq<real>, q: real, h: real)
    ensures var k := CooledOn(z, r, q, h);
            && (k >= 2 ==> Times(2 * k - 3, h) <= Variation(r))
            && (k >= 1 ==> Times(k - 1, h) <= Variation(r))
  {
    hide CooledOn, SwitchedOn, Variation, Times, Mirror;
    RunMirrors(z, r, q, h);
    VariationMirrors(r);
    SwitchingBound(Mirror(z), Negated(r), -q, h);
  }

  // ---------------------------------------------------------------- what the temperatures decide

  /** After a processed step of cooling the direction says whether the cooler is on. */
  predicate CoolSettled(z: Zone) {
    z.cooler <==> z.direction == Down
  }

  /** The target in a mode. */
  function TargetOf(mode: int, query: real, auto: real): real {
    if mode == AUTO then auto else query
  }

  /** The zone after readings of its sensor in a mode. */
  function StepRun(z: Zone, r: seq<real>, mode: int, eco: int, query: real, auto: real, h: real): Zone {
    if r == [] then z
    else ZoneStep(StepRun(z, r[..|r| - 1], mode, eco, query, auto, h).(actual := r[|r| - 1]), mode, eco, query, auto, h)
  }

  lemma {:induction false} StepRunHeats(z: Zone, r: seq<real>, mode: int, eco: int, query: real, auto: real, h: real)
    requires mode !in {OFF, ECO, COOLING}
    ensures StepRun(z, r, mode, eco, query, auto, h) == Run(z, r, TargetOf(mode, query, auto), h)
    decreases |r|
  {
    hide Heat, Cool;
    if r != [] {
      StepRunHeats(z, r[..|r| - 1], mode, eco, query, auto, h);
    }
  }

  lemma {:induction false} StepRunCools(z: Zone, r: seq<real>, eco: int, query: real, auto: real, h: real)
    ensures StepRun(z, r, COOLING, eco, query, auto, h) == CoolRun(z, r, query, h)
    decreases |r|
  {
    hide Heat, Cool;
    if r != [] {
      StepRunCools(z, r[..|r| - 1], eco, query, auto, h);
    }
  }

  /** What a temperature decides for a processed zone.  Off means off.  In economic mode the heater is on exactly below
      the economic temperature.  When heating, it is on below the target by more than the threshold and off from the
      target on; when cooling, the cooler is on above the target by more than the threshold and off up to the target. */
  predicate Decided(n: Zone, x: real, mode: int, eco: int, query: real, auto: real, h: real) {
    var q := TargetOf(mode, query, auto);
    if mode == OFF then !n.heater && !n.cooler
    else if mode == ECO then (n.heater <==> x < eco as real) && !n.cooler
    else if mode == COOLING then
      !n.heater && (x > q && x > q + h ==> n.cooler) && (x <= q && x <= q + h ==> !n.cooler)
    else
      !n.cooler && (x < q && x < q - h ==> n.heater) && (x >= q && x >= q - h ==> !n.heater)
  }

  /** In between, heaters and coolers stay as they are. */
  predicate Undecided(z: Zone, n: Zone, x: real, mode: int, query: real, auto: real, h: real) {
    var q := TargetOf(mode, query, auto);
    && (mode == COOLING && q < x <= q + h ==> n.cooler == z.cooler)
    && (mode !in {OFF, ECO, COOLING} && q - h <= x < q ==> n.heater == z.heater)
  }

  /** The last reading of a sensor decides, whatever the zone and the readings before; in between, the reading before
      does. */
  lemma LastReadingDecides(z: Zone, r: seq<real>, mode: int, eco: int, query: real, auto: real, h: real)
    requires r != []
    ensures var n, x := StepRun(z, r, mode, eco, query, auto, h), r[|r| - 1];
            var before := StepRun(z, r[..|r| - 1], mode, eco, query, auto, h);
            && n.actual == x && Decided(n, x, mode, eco, query, auto, h)
            && (|r| > 1 ==> Undecided(before, n, x, mode, query, auto, h))
  {
    var m := |r| - 1;
    if m > 0 {
      StepSettles(StepRun(z, r[..m - 1], mode, eco, query, auto, h).(actual := r[m - 1]), mode, eco, query, auto, h);
      assert r[..m][..m - 1] == r[..m - 1];
    }
  }

  lemma StepSettles(z: Zone, mode: int, eco: int, query: real, auto: real, h: real)
    ensures var n := ZoneStep(z, mode, eco, query, auto, h);
            && (mode == COOLING ==> CoolSettled(n))
            && (mode !in {OFF, ECO, COOLING} ==> Settled(n))
  {
  }
}
