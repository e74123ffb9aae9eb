/** The alarm: zones that are armed and disarmed from the user interface, countdowns that run once a second, and motion
    sensors.  Times are seconds; a pointer to a zone is its number. */
module Security {
  import opened Wrappers

  /** The state of a zone: its status is 0 (off), 1 (armed) or 2 (alarm), and its countdown is -1 when none runs. */
  datatype Zone = Zone(ident: string, waitTime: int, sensors: seq<string>, repeatedAction: bool, repeatTriggers: int,
                       status: int, countdown: int, lastCheck: int, nextRepeat: int, repeatedCounter: int)

  // ---------------------------------------------------------------- one zone

  /** `set_sec_status`. */
  function WithStatus(z: Zone, status: int, now: int): Zone {
    var z1 := if status == 0 then z.(repeatedCounter := 0, lastCheck := now - 1000) else z;
    z1.(status := status, countdown := -1)
  }

  /** `decrease_counter`: a countdown that does not run stays at -1, and a finished one at 0. */
  function Decreased(z: Zone): Zone {
    if z.countdown > 0 then z.(countdown := z.countdown - 1) else z
  }

  /** `has_sensor` from sensor number `i` on: the second motion within a minute counts. */
  function Sensed(z: Zone, sensor: string, now: int, i: nat): (Zone, bool)
    requires i <= |z.sensors|
    decreases |z.sensors| - i
  {
    if i == |z.sensors| || z.status !in {1, 2} then (z, false)
    else if z.sensors[i] == sensor then
      if z.lastCheck + 60 > now then (z, true) else Sensed(z.(lastCheck := now), sensor, now, i + 1)
    else Sensed(z, sensor, now, i + 1)
  }

  /** `repeat_action`. */
  function Repeated(z: Zone, now: int): (Zone, bool) {
    if !z.repeatedAction || z.nextRepeat > now then (z, false)
    else if z.repeatTriggers == 0 then (z, true)
    else if z.repeatedCounter > z.repeatTriggers then (z, false)
    else (z.(repeatedCounter := z.repeatedCounter + 1), true)
  }

  /** `disable_repead` for each actor that has a timer of its own: the last of them decides. */
  function Paused(z: Zone, timers: seq<int>, now: int): (r: Zone)
    ensures r == z.(nextRepeat := r.nextRepeat)
  {
    if timers == [] then z
    else
      var z1 := Paused(z, timers[..|timers| - 1], now);
      if timers[|timers| - 1] != 0 then z1.(nextRepeat := now + timers[|timers| - 1]) else z1
  }

  /** A motion during the alarm: if it repeats the action, the timers of the actors set the pause. */
  function Reported(z: Zone, now: int, timers: seq<int>): (r: Zone)
    ensures r == z.(nextRepeat := r.nextRepeat, repeatedCounter := r.repeatedCounter)
  {
    var (z1, repeats) := Repeated(z, now);
    if repeats then Paused(z1, timers, now) else z1
  }

  class SecurityZone {
    const zoneIdent: string
    const waitSeconds: int
    const sensorIdents: seq<string>
    const repeatsAction: bool
    const maxTriggers: int
    var secStatus: int
    var countdownCounter: int
    var lastCheckTime: int
    var nextRepeatTime: int
    var repeatCount: int

    constructor (ident: string, waitTime: int, sensors: seq<string>, repeated: bool, triggers: int, now: int)
      ensures View() == Zone(ident, waitTime, sensors, repeated, triggers, 0, -1, now - 1000, now, 0)
    {
      zoneIdent, waitSeconds, sensorIdents := ident, waitTime, sensors;
      repeatsAction, maxTriggers := repeated, triggers;
      secStatus, countdownCounter := 0, -1;
      lastCheckTime, nextRepeatTime, repeatCount := now - 1000, now, 0;
    }

    ghost function View(): Zone
      reads this
    {
      Zone(zoneIdent, waitSeconds, sensorIdents, repeatsAction, maxTriggers,
           secStatus, countdownCounter, lastCheckTime, nextRepeatTime, repeatCount)
    }

    method SetSecStatus(status: int, now: int)
      modifies this
      ensures View() == WithStatus(old(View()), status, now)
    {
      secStatus := status;
      if secStatus == 0 {
        repeatCount := 0;
        lastCheckTime := now - 1000;
      }
      countdownCounter := -1;
    }

    method InitCountdown() returns (r: int)
      modifies `countdownCounter
      ensures View() == old(View()).(countdown := old(View()).waitTime) && r == View().countdown
    {
      countdownCounter := waitSeconds;
      r := countdownCounter;
    }

    method DecreaseCounter() returns (r: int)
      modifies `countdownCounter
      ensures View() == Decreased(old(View())) && r == View().countdown
    {
      if countdownCounter > 0 {
        countdownCounter := countdownCounter - 1;
      }
      r := countdownCounter;
    }

    method HasSensor(sensor: string, now: int) returns (found: bool)
      modifies `lastCheckTime
      ensures (View(), found) == Sensed(old(View()), sensor, now, 0)
    {
      ghost var z := View();
      if secStatus == 1 || secStatus == 2 {
        var i := 0;
        while i < |sensorIdents|
          invariant i <= |sensorIdents| == |View().sensors| && secStatus in {1, 2}
          invariant Sensed(z, sensor, now, 0) == Sensed(View(), sensor, now, i)
        {
          if sensorIdents[i] == sensor {
            if lastCheckTime + 60 > now {
              return true;
            }
            lastCheckTime := now;
          }
          i := i + 1;
        }
      }
      return false;
    }

    method RepeatAction(now: int) returns (r: bool)
      modifies `repeatCount
      ensures (View(), r) == Repeated(old(View()), now)
    {
      if repeatsAction {
        if nextRepeatTime > now {
          return false;
        }
        if maxTriggers == 0 {
          return true;
        } else {
          if repeatCount > maxTriggers {
            return false;
          } else {
            repeatCount := repeatCount + 1;
            return true;
          }
        }
      } else {
        return false;
      }
    }

    method DisableRepeat(sec: int, now: int)
      modifies `nextRepeatTime
      ensures View() == old(View()).(nextRepeat := now + sec)
    {
      nextRepeatTime := now + sec;
    }
  }

  // ---------------------------------------------------------------- all zones

  /** The zones and the list of running countdowns, in which a zone may stand more than once. */
  datatype Desk = Desk(zones: seq<Zone>, running: seq<nat>)

  predicate InRange(d: Desk) {
    forall i :: 0 <= i < |d.running| ==> d.running[i] < |d.zones|
  }

  /** One second of a countdown: the zone after it, and whether its countdown is over. */
  function Second(z: Zone, now: int): (Zone, bool) {
    var z1 := Decreased(z);
    if z1.countdown == 0 && z1.status == 0 then (WithStatus(z1, 1, now), true)
    else if z1.countdown == 0 && z1.status != 2 then (WithStatus(z1, 2, now), true)
    else (z1, false)
  }

  /** One pass over the rest of the running countdowns: behind one that is over, the next one misses its turn. */
  function Pass(zones: seq<Zone>, rest: seq<nat>, now: int): (r: Desk)
    requires forall i :: 0 <= i < |rest| ==> rest[i] < |zones|
    ensures |r.zones| == |zones| && InRange(r)
    decreases |rest|
  {
    if rest == [] then Desk(zones, [])
    else
      var (z, over) := Second(zones[rest[0]], now);
      var next := zones[rest[0] := z];
      if !over then
        var p := Pass(next, rest[1..], now);
        Desk(p.zones, [rest[0]] + p.running)
      else if |rest| == 1 then Desk(next, [])
      else
        var p := Pass(next, rest[2..], now);
        Desk(p.zones, [rest[1]] + p.running)
  }

  /** `chech_pir` from zone number `k` on: the first zone in which the motion counts. */
  function Checked(zones: seq<Zone>, sensor: string, now: int, k: nat): (r: (seq<Zone>, Option<nat>))
    requires k <= |zones|
    ensures |r.0| == |zones| && (r.1.Some? ==> k <= r.1.value < |zones|)
    decreases |zones| - k
  {
    if k == |zones| then (zones, None)
    else
      var (z, found) := Sensed(zones[k], sensor, now, 0);
      var next := zones[k := z];
      if found then (next, Some(k)) else Checked(next, sensor, now, k + 1)
  }

  /** `find_zone`. */
  function Find(zones: seq<Zone>, ident: string, k: nat): (r: Option<nat>)
    requires k <= |zones|
    ensures r.Some? ==> k <= r.value < |zones| && zones[r.value].ident == ident
    decreases |zones| - k
  {
    if k == |zones| then None else if zones[k].ident == ident then Some(k) else Find(zones, ident, k + 1)
  }

  /** `erase_running_secur`: only the first countdown of that name goes. */
  function ErasedFirst(zones: seq<Zone>, running: seq<nat>, ident: string): (r: seq<nat>)
    requires forall i :: 0 <= i < |running| ==> running[i] < |zones|
    ensures forall i :: 0 <= i < |r| ==> r[i] < |zones|
  {
    if running == [] then [] else if zones[running[0]].ident == ident then running[1..]
    else [running[0]] + ErasedFirst(zones, running[1..], ident)
  }

  /** A motion comes with the timers of the actors that would be told. */
  datatype Event =
    | Tick(now: int)
    | Motion(sensor: string, now: int, pir: bool, timers: seq<int>)
    | Arm(ident: string)
    | Disarm(ident: string, now: int)

  /** What follows when the motion counts in zone `k`. */
  function Alerted(d: Desk, k: nat, now: int, pir: bool, timers: seq<int>): (r: Desk)
    requires k < |d.zones| && InRange(d)
    ensures |r.zones| == |d.zones| && InRange(r)
  {
    var z := d.zones[k];
    if z.status == 1 && (!pir || z.countdown in {0, -1}) then
      Desk(d.zones[k := z.(countdown := z.waitTime)], d.running + [k])
    else if z.status == 2 then d.(zones := d.zones[k := Reported(z, now, timers)])
    else d
  }

  function Next(d: Desk, e: Event): (r: Desk)
    requires InRange(d)
    ensures |r.zones| == |d.zones| && InRange(r)
  {
    match e
    case Tick(now) => Pass(d.zones, d.running, now)
    case Motion(sensor, now, pir, timers) =>
      var (zones, k) := Checked(d.zones, sensor, now, 0);
      var d1 := d.(zones := zones);
      if k.None? then d1 else Alerted(d1, k.value, now, pir, timers)
    case Arm(ident) =>
      var k := Find(d.zones, ident, 0);
      if k.None? || d.zones[k.value].status != 0 then d
      else Desk(d.zones[k.value := d.zones[k.value].(countdown := d.zones[k.value].waitTime)], d.running + [k.value])
    case Disarm(ident, now) =>
      var k := Find(d.zones, ident, 0);
      if k.None? then d
      else
        var zones := d.zones[k.value := WithStatus(d.zones[k.value], 0, now)];
        Desk(zones, ErasedFirst(zones, d.running, zones[k.value].ident))
  }

  function After(d: Desk, events: seq<Event>): (r: Desk)
    requires InRange(d)
    ensures |r.zones| == |d.zones| && InRange(r)
  {
    if events == [] then d else Next(After(d, events[..|events| - 1]), events[|events| - 1])
  }

  // ---------------------------------------------------------------- what a second does to a zone

  /** How often a zone stands in the list. */
  function Occurs(r: seq<nat>, k: nat): nat {
    if r == [] then 0 else (if r[0] == k then 1 else 0) + Occurs(r[1..], k)
  }

  /** What `m` turns of the countdown may do to a zone: count down by no more than `m`, or, if the countdown ends, bring
      the zone one status further; a zone without a countdown stays as it is. */
  predicate Moved(z: Zone, n: Zone, m: nat) {
    && n == z.(status := n.status, countdown := n.countdown)
    && (z.countdown < 0 ==> n == z)
    && if n.status == z.status then n.countdown <= z.countdown <= n.countdown + m
       else
         && n.countdown == -1 && 0 <= z.countdown <= m && m > 0 && z.status != 2
         && n.status == if z.status == 0 then 1 else 2
  }

  lemma SecondMoves(z: Zone, now: int)
    ensures Moved(z, Second(z, now).0, 1)
    ensures Second(z, now).1 <==> Second(z, now).0.status != z.status
    ensures Second(z, now).1 ==> Second(z, now).0.countdown == -1
  {
  }

  lemma MovedTwice(z: Zone, y: Zone, n: Zone, m: nat)
    requires Moved(z, y, 1) && Moved(y, n, m)
    ensures Moved(z, n, m + 1)
  {
  }

  lemma MovedMore(z: Zone, n: Zone, m: nat, l: nat)
    requires Moved(z, n, m) && m <= l
    ensures Moved(z, n, l)
  {
  }

  lemma {:induction false} PassMoves(zones: seq<Zone>, rest: seq<nat>, now: int, k: nat)
    requires (forall i :: 0 <= i < |rest| ==> rest[i] < |zones|) && k < |zones|
    ensures Moved(zones[k], Pass(zones, rest, now).zones[k], Occurs(rest, k))
    decreases |rest|
  {
    hide Second, Moved;
    if rest == [] {
      Unmoved(zones[k]);
    } else {
      var (z, over) := Second(zones[rest[0]], now);
      SecondMoves(zones[rest[0]], now);
      var next := zones[rest[0] := z];
      if !over {
        PassMoves(next, rest[1..], now, k);
        Stepped(zones, rest, now, k, Pass(next, rest[1..], now).zones[k], Occurs(rest[1..], k));
      } else if |rest| == 1 {
        Unmoved(next[k]);
        Stepped(zones, rest, now, k, next[k], 0);
      } else {
        PassMoves(next, rest[2..], now, k);
        assert rest[1..][1..] == rest[2..];
        assert Occurs(rest[2..], k) <= Occurs(rest[1..], k);
        MovedMore(next[k], Pass(next, rest[2..], now).zones[k], Occurs(rest[2..], k), Occurs(rest[1..], k));
        Stepped(zones, rest, now, k, Pass(next, rest[2..], now).zones[k], Occurs(rest[1..], k));
      }
    }
  }

  lemma Unmoved(z: Zone)
    ensures Moved(z, z, 0)
  {
  }

  lemma Stepped(zones: seq<Zone>, rest: seq<nat>, now: int, k: nat, n: Zone, m: nat)
    requires rest != [] && rest[0] < |zones| && k < |zones| && m == Occurs(rest[1..], k)
    requires Moved(zones[rest[0] := Second(zones[rest[0]], now).0][k], n, m)
    ensures Moved(zones[k], n, Occurs(rest, k))
  {
    hide Second, Moved;
    if rest[0] == k {
      SecondMoves(zones[k], now);
      MovedTwice(zones[k], Second(zones[k], now).0, n, m);
    }
  }

  // ---------------------------------------------------------------- what an event does to a zone

  predicate Known(z: Zone) {
    z.status in {0, 1, 2}
  }

  /** A motion changes nothing of a zone but the time of the last check, and of a zone that is off nothing at all; and
      it counts only where its sensor belongs. */
  lemma {:induction false} SensedKeeps(z: Zone, sensor: string, now: int, i: nat)
    requires i <= |z.sensors|
    ensures var (n, found) := Sensed(z, sensor, now, i);
            && n == z.(lastCheck := n.lastCheck)
            && (z.status !in {1, 2} ==> n == z && !found) && (found ==> sensor in z.sensors)
    decreases |z.sensors| - i
  {
    if i < |z.sensors| && z.status in {1, 2} {
      if z.sensors[i] == sensor {
        if z.lastCheck + 60 <= now {
          SensedKeeps(z.(lastCheck := now), sensor, now, i + 1);
        }
      } else {
        SensedKeeps(z, sensor, now, i + 1);
      }
    }
  }

  lemma {:induction false} CheckedKeeps(zones: seq<Zone>, sensor: string, now: int, j: nat, k: nat)
    requires j <= |zones| && k < |zones|
    ensures var (n, found) := Checked(zones, sensor, now, j);
            && n[k] == zones[k].(lastCheck := n[k].lastCheck)
            && (j <= k && found == Some(k) ==> sensor in zones[k].sensors)
            && (zones[k].status !in {1, 2} ==> n[k] == zones[k] && (j <= k ==> found != Some(k)))
    decreases |zones| - j
  {
    hide Sensed;
    if j < |zones| {
      SensedKeeps(zones[j], sensor, now, 0);
      var (z, found) := Sensed(zones[j], sensor, now, 0);
      if !found {
        CheckedKeeps(zones[j := z], sensor, now, j + 1, k);
        if j == k && Checked(zones[j := z], sensor, now, j + 1).1.Some? {
          assert Checked(zones[j := z], sensor, now, j + 1).1.value > k;
        }
      }
    }
  }

  /** The name of a zone and its sensors never change. */
  lemma NextIdent(d: Desk, e: Event, k: nat)
    requires InRange(d) && k < |d.zones|
    ensures Next(d, e).zones[k].ident == d.zones[k].ident && Next(d, e).zones[k].sensors == d.zones[k].sensors
  {
    hide Pass, Checked, Moved;
    match e {
      case Tick(now) =>
        PassMoves(d.zones, d.running, now, k);
        MovedIdent(d.zones[k], Next(d, e).zones[k], Occurs(d.running, k));
      case Motion(sensor, now, pir, timers) => CheckedKeeps(d.zones, sensor, now, 0, k);
      case _ =>
    }
  }

  lemma MovedIdent(z: Zone, n: Zone, m: nat)
    requires Moved(z, n, m)
    ensures n.ident == z.ident && n.sensors == z.sensors
  {
  }

  /** Which changes of status there are.  A zone goes off only when it is disarmed by its name; it becomes armed only
      from off, and raises the alarm only from armed, both at the end of a countdown. */
  lemma StatusChanges(d: Desk, e: Event, k: nat)
    requires InRange(d) && k < |d.zones| && Known(d.zones[k])
    ensures var z, n := d.zones[k], Next(d, e).zones[k];
            && Known(n)
            && (n.status == 0 && z.status != 0 ==> e.Disarm? && e.ident == z.ident)
            && (n.status == 1 && z.status != 1 ==> e.Tick? && z.status == 0 && 0 <= z.countdown <= Occurs(d.running, k))
            && (n.status == 2 && z.status != 2 ==> e.Tick? && z.status == 1 && 0 <= z.countdown <= Occurs(d.running, k))
  {
    hide Pass, Checked;
    match e {
      case Tick(now) => PassMoves(d.zones, d.running, now, k);
      case Motion(sensor, now, pir, timers) => CheckedKeeps(d.zones, sensor, now, 0, k);
      case _ =>
    }
  }

  // ---------------------------------------------------------------- a disarmed zone stays off

  /** Off, with no countdown running; a pointer to it may still stand in the list. */
  predicate Quiet(z: Zone) {
    z.status == 0 && z.countdown == -1
  }

  /** What a request to disarm does: the zone is off and as new, no other zone changes, and one of its entries, if it
      has any, leaves the list. */
  lemma DisarmQuiets(d: Desk, ident: string, now: int, k: nat)
    requires InRange(d) && Find(d.zones, ident, 0) == Some(k)
    ensures var z, n := d.zones[k], Next(d, Disarm(ident, now));
            && Quiet(n.zones[k])
            && n.zones == d.zones[k := z.(status := 0, countdown := -1, repeatedCounter := 0, lastCheck := now - 1000)]
  {
  }

  /** And if no other zone has its name, exactly one of its entries leaves the list, if it has any, and no other entry
      does. */
  lemma DisarmErases(d: Desk, ident: string, now: int, k: nat, j: nat)
    requires InRange(d) && Find(d.zones, ident, 0) == Some(k)
    requires forall i :: 0 <= i < |d.zones| && i != k ==> d.zones[i].ident != ident
    ensures Occurs(Next(d, Disarm(ident, now)).running, j)
         == Occurs(d.running, j) - if j == k && Occurs(d.running, k) > 0 then 1 else 0
  {
    hide ErasedFirst, Occurs, Pass, Checked;
    var zones := d.zones[k := WithStatus(d.zones[k], 0, now)];
    OneErased(zones, d.running, k, j);
  }

  lemma {:induction false} OneErased(zones: seq<Zone>, r: seq<nat>, k: nat, j: nat)
    requires (forall i :: 0 <= i < |r| ==> r[i] < |zones|) && k < |zones|
    requires forall i :: 0 <= i < |zones| && i != k ==> zones[i].ident != zones[k].ident
    ensures Occurs(ErasedFirst(zones, r, zones[k].ident), j)
         == Occurs(r, j) - if j == k && Occurs(r, k) > 0 then 1 else 0
    decreases |r|
  {
    if r != [] && r[0] != k {
      OneErased(zones, r[1..], k, j);
      PutFirst(r[0], ErasedFirst(zones, r[1..], zones[k].ident), j);
    }
  }

  lemma StaysQuiet(d: Desk, e: Event, k: nat)
    requires InRange(d) && k < |d.zones| && Quiet(d.zones[k]) && e != Arm(d.zones[k].ident)
    ensures Quiet(Next(d, e).zones[k])
  {
    hide Pass, Checked;
    match e {
      case Tick(now) => PassMoves(d.zones, d.running, now, k);
      case Motion(sensor, now, pir, timers) => CheckedKeeps(d.zones, sensor, now, 0, k);
      case _ =>
    }
  }

  predicate NeverArms(events: seq<Event>, ident: string) {
    forall i :: 0 <= i < |events| ==> events[i] != Arm(ident)
  }

  lemma {:induction false} QuietUntilArmed(d: Desk, events: seq<Event>, k: nat)
    requires InRange(d) && k < |d.zones| && Quiet(d.zones[k]) && NeverArms(events, d.zones[k].ident)
    ensures var n := After(d, events).zones[k];
            Quiet(n) && n.ident == d.zones[k].ident && n.sensors == d.zones[k].sensors
    decreases |events|
  {
    hide Next, Quiet;
    if events != [] {
      var n := |events| - 1;
      QuietUntilArmed(d, events[..n], k);
      StaysQuiet(After(d, events[..n]), events[n], k);
      NextIdent(After(d, events[..n]), events[n], k);
    }
  }

  /** Whatever went on before: once a zone has been disarmed, no number of seconds and motions, and no request for
      another zone, moves it off status 0 before it is armed by its name again, even when a pointer to it is still
      running. */
  lemma DisarmIsStable(d: Desk, ident: string, now: int, events: seq<Event>, k: nat)
    requires InRange(d) && Find(d.zones, ident, 0) == Some(k) && NeverArms(events, ident)
    ensures var n := After(Next(d, Disarm(ident, now)), events).zones[k];
            n.status == 0 && n.countdown == -1 && n.ident == ident
  {
    hide Next, After;
    DisarmQuiets(d, ident, now, k);
    NextIdent(d, Disarm(ident, now), k);
    QuietUntilArmed(Next(d, Disarm(ident, now)), events, k);
  }

  // ---------------------------------------------------------------- the alarm needs arming, and then a motion

  /** Off, or armed with no countdown running. */
  predicate Calm(z: Zone) {
    z.status == 0 || (z.status == 1 && z.countdown == -1)
  }

  /** A motion that a sensor of the zone reports. */
  predicate Alerts(e: Event, z: Zone) {
    e.Motion? && e.sensor in z.sensors
  }

  lemma StaysCalm(d: Desk, e: Event, k: nat)
    requires InRange(d) && k < |d.zones| && Calm(d.zones[k]) && !Alerts(e, d.zones[k])
    ensures Calm(Next(d, e).zones[k])
  {
    hide Pass, Checked;
    match e {
      case Tick(now) => PassMoves(d.zones, d.running, now, k);
      case Motion(sensor, now, pir, timers) => CheckedKeeps(d.zones, sensor, now, 0, k);
      case _ =>
    }
  }

  lemma {:induction false} CalmWithoutMotion(d: Desk, events: seq<Event>, k: nat)
    requires InRange(d) && k < |d.zones| && Calm(d.zones[k])
    requires forall i :: 0 <= i < |events| ==> !Alerts(events[i], d.zones[k])
    ensures Calm(After(d, events).zones[k]) && After(d, events).zones[k].sensors == d.zones[k].sensors
    decreases |events|
  {
    hide Next, Calm;
    if events != [] {
      var n := |events| - 1;
      CalmWithoutMotion(d, events[..n], k);
      StaysCalm(After(d, events[..n]), events[n], k);
      NextIdent(After(d, events[..n]), events[n], k);
    }
  }

  lemma {:induction false} AfterConcat(d: Desk, a: seq<Event>, b: seq<Event>)
    requires InRange(d)
    ensures After(d, a + b) == After(After(d, a), b)
    decreases |b|
  {
    hide Next;
    if b == [] {
      assert a + b == a;
    } else {
      assert (a + b)[..|a + b| - 1] == a + b[..|b| - 1];
      AfterConcat(d, a, b[..|b| - 1]);
    }
  }

  /** Over every run: if a zone that was off raises the alarm, then wherever the run is cut, it was armed by its name
      before the cut or a sensor of its own reported a motion behind it.  So there was a request, and a motion in the
      zone after it. */
  lemma AlarmNeedsArmingThenMotion(d: Desk, a: seq<Event>, b: seq<Event>, k: nat)
    requires InRange(d) && k < |d.zones| && Quiet(d.zones[k]) && After(d, a + b).zones[k].status == 2
    ensures !NeverArms(a, d.zones[k].ident)
            || exists i :: 0 <= i < |b| && b[i].Motion? && b[i].sensor in d.zones[k].sensors
  {
    hide After;
    if NeverArms(a, d.zones[k].ident) && forall i :: 0 <= i < |b| ==> !Alerts(b[i], d.zones[k]) {
      AfterConcat(d, a, b);
      QuietUntilArmed(d, a, k);
      CalmWithoutMotion(After(d, a), b, k);
    }
  }

  // ---------------------------------------------------------------- the alarm needs two motions within a minute

  /** How often a sensor stands in the list of a zone, from place `i` on. */
  function Listed(sensors: seq<string>, sensor: string, i: nat): nat
    requires i <= |sensors|
    decreases |sensors| - i
  {
    if i == |sensors| then 0 else (if sensors[i] == sensor then 1 else 0) + Listed(sensors, sensor, i + 1)
  }

  /** Exactly when a motion counts: its sensor belongs to the zone, and the last motion is less than a minute old or the
      sensor stands in the list of the zone twice. */
  lemma {:induction false} SensedExactly(z: Zone, sensor: string, now: int, i: nat)
    requires i <= |z.sensors| && z.status in {1, 2}
    ensures var (n, found) := Sensed(z, sensor, now, i);
            var l, recent := Listed(z.sensors, sensor, i), z.lastCheck + 60 > now;
            && (found <==> l > 0 && (recent || l > 1))
            && n == z.(lastCheck := if l > 0 && !recent then now else z.lastCheck)
    decreases |z.sensors| - i
  {
    if i < |z.sensors| {
      if z.sensors[i] != sensor {
        SensedExactly(z, sensor, now, i + 1);
      } else if z.lastCheck + 60 <= now {
        SensedExactly(z.(lastCheck := now), sensor, now, i + 1);
      }
    }
  }

  lemma {:induction false} ListedIn(sensors: seq<string>, sensor: string, i: nat)
    requires i <= |sensors| && Listed(sensors, sensor, i) > 0
    ensures sensor in sensors
    decreases |sensors| - i
  {
    if sensors[i] != sensor {
      ListedIn(sensors, sensor, i + 1);
    }
  }

  /** A zone is asked about a motion, or one in front of it has taken it. */
  lemma {:induction false} CheckedAt(zones: seq<Zone>, sensor: string, now: int, j: nat, k: nat)
    requires j <= k < |zones|
    ensures var (n, f), (z, found) := Checked(zones, sensor, now, j), Sensed(zones[k], sensor, now, 0);
            if f.Some? && f.value < k then n[k] == zones[k]
            else n[k] == z && (f == Some(k) <==> found)
    decreases k - j
  {
    hide Sensed;
    var (z, found) := Sensed(zones[j], sensor, now, 0);
    if !found {
      if j < k {
        CheckedAt(zones[j := z], sensor, now, j + 1, k);
      } else {
        CheckedBehind(zones[j := z], sensor, now, j + 1, k);
      }
    }
  }

  lemma {:induction false} CheckedBehind(zones: seq<Zone>, sensor: string, now: int, j: nat, k: nat)
    requires k < j <= |zones|
    ensures Checked(zones, sensor, now, j).0[k] == zones[k]
    decreases |zones| - j
  {
    hide Sensed;
    if j < |zones| {
      CheckedBehind(zones[j := Sensed(zones[j], sensor, now, 0).0], sensor, now, j + 1, k);
    }
  }

  predicate Timed(e: Event) {
    !e.Arm?
  }

  predicate InOrder(events: seq<Event>) {
    forall i, j :: 0 <= i < j < |events| && Timed(events[i]) && Timed(events[j]) ==> events[i].now <= events[j].now
  }

  /** A minute and more after the last check of a zone. */
  predicate Later(lastCheck: int, events: seq<Event>) {
    forall i :: 0 <= i < |events| && Timed(events[i]) ==> lastCheck + 60 <= events[i].now
  }

  /** Motion number `j` of a zone is the second within a minute, or its sensor stands in the list of the zone twice. */
  predicate Counts(events: seq<Event>, j: nat, z: Zone)
    requires j < |events|
  {
    Alerts(events[j], z)
    && (Listed(z.sensors, events[j].sensor, 0) > 1
        || exists i :: 0 <= i < j && Alerts(events[i], z) && events[j].now < events[i].now + 60)
  }

  /** Where the time of the last check comes from. */
  predicate CheckFrom(l: int, events: seq<Event>, z: Zone) {
    l == z.lastCheck || exists i :: 0 <= i < |events| && ChecksAt(events[i], l, z)
  }

  predicate ChecksAt(e: Event, l: int, z: Zone) {
    (Alerts(e, z) && l == e.now) || (e.Disarm? && l == e.now - 1000)
  }

  lemma CheckFromMore(l: int, events: seq<Event>, n: nat, z: Zone)
    requires n <= |events| && CheckFrom(l, events[..n], z)
    ensures CheckFrom(l, events, z)
  {
    if l != z.lastCheck {
      var i :| 0 <= i < n && ChecksAt(events[..n][i], l, z);
      assert ChecksAt(events[i], l, z);
    }
  }

  /** What an event does to the time of the last check. */
  lemma NextCheck(d: Desk, e: Event, k: nat)
    requires InRange(d) && k < |d.zones|
    ensures var z, l := d.zones[k], Next(d, e).zones[k].lastCheck;
            l == z.lastCheck || ChecksAt(e, l, z)
    ensures d.zones[k].status == 0 && !e.Disarm? ==> Next(d, e).zones[k].lastCheck == d.zones[k].lastCheck
  {
    hide Pass, Checked, Listed, Sensed;
    match e {
      case Tick(now) => PassMoves(d.zones, d.running, now, k);
      case Motion(sensor, now, pir, timers) =>
        CheckedKeeps(d.zones, sensor, now, 0, k);
        CheckedAt(d.zones, sensor, now, 0, k);
        if d.zones[k].status in {1, 2} {
          SensedExactly(d.zones[k], sensor, now, 0);
          if Listed(d.zones[k].sensors, sensor, 0) > 0 {
            ListedIn(d.zones[k].sensors, sensor, 0);
          }
        } else {
          SensedKeeps(d.zones[k], sensor, now, 0);
        }
      case _ =>
    }
  }

  /** A calm zone stays calm unless the motion counts. */
  lemma CalmOrCounts(d: Desk, e: Event, k: nat)
    requires InRange(d) && k < |d.zones| && Calm(d.zones[k])
    ensures Calm(Next(d, e).zones[k])
            || (Alerts(e, d.zones[k])
                && (Listed(d.zones[k].sensors, e.sensor, 0) > 1 || d.zones[k].lastCheck + 60 > e.now))
  {
    hide Pass, Checked, Listed, Sensed;
    if Alerts(e, d.zones[k]) {
      CheckedKeeps(d.zones, e.sensor, e.now, 0, k);
      CheckedAt(d.zones, e.sensor, e.now, 0, k);
      if d.zones[k].status in {1, 2} {
        SensedExactly(d.zones[k], e.sensor, e.now, 0);
      } else {
        SensedKeeps(d.zones[k], e.sensor, e.now, 0);
      }
    } else {
      StaysCalm(d, e, k);
    }
  }

  /** A motion that comes less than a minute after the last check comes less than a minute after a motion. */
  lemma RecentMotion(l: int, events: seq<Event>, j: nat, z: Zone)
    requires j < |events| && InOrder(events) && Later(z.lastCheck, events) && Alerts(events[j], z)
    requires CheckFrom(l, events[..j], z) && l + 60 > events[j].now
    ensures Counts(events, j, z)
  {
    hide Listed;
    assert l != z.lastCheck;
    var i :| 0 <= i < j && ChecksAt(events[..j][i], l, z);
    assert events[..j][i] == events[i] && events[i].now <= events[j].now;
  }

  lemma {:induction false} CalmUntilTwo(d: Desk, events: seq<Event>, k: nat)
    requires InRange(d) && k < |d.zones| && Calm(d.zones[k]) && InOrder(events) && Later(d.zones[k].lastCheck, events)
    requires forall j :: 0 <= j < |events| ==> !Counts(events, j, d.zones[k])
    ensures var z, n := d.zones[k], After(d, events).zones[k];
            Calm(n) && n.sensors == z.sensors && CheckFrom(n.lastCheck, events, z)
    decreases |events|
  {
    hide Next, Calm, Counts, InOrder, Later, CheckFrom, Listed;
    if events == [] {
      Unchecked(d.zones[k], events);
    } else {
      var m := |events| - 1;
      var c, z := After(d, events[..m]), d.zones[k];
      ShorterRun(events, m, z);
      CalmUntilTwo(d, events[..m], k);
      NextIdent(c, events[m], k);
      NextCheck(c, events[m], k);
      CalmOrCounts(c, events[m], k);
      if !Calm(Next(c, events[m]).zones[k]) {
        if Listed(z.sensors, events[m].sensor, 0) > 1 {
          assert Counts(events, m, z) by { TwiceCounts(events, m, z); }
        } else {
          RecentMotion(c.zones[k].lastCheck, events, m, z);
        }
      }
      CheckStep(c.zones[k].lastCheck, Next(c, events[m]).zones[k].lastCheck, events, z, c.zones[k]);
    }
  }

  lemma TwiceCounts(events: seq<Event>, j: nat, z: Zone)
    requires j < |events| && Alerts(events[j], z) && Listed(z.sensors, events[j].sensor, 0) > 1
    ensures Counts(events, j, z)
  {
  }

  lemma Unchecked(z: Zone, events: seq<Event>)
    ensures CheckFrom(z.lastCheck, events, z)
  {
  }

  lemma CheckStep(l: int, n: int, events: seq<Event>, z: Zone, c: Zone)
    requires events != [] && CheckFrom(l, events[..|events| - 1], z) && c.sensors == z.sensors
    requires n == l || ChecksAt(events[|events| - 1], n, c)
    ensures CheckFrom(n, events, z)
  {
    if n == l {
      CheckFromMore(l, events, |events| - 1, z);
    } else {
      assert ChecksAt(events[|events| - 1], n, z);
    }
  }

  lemma ShorterRun(events: seq<Event>, m: nat, z: Zone)
    requires m <= |events| && InOrder(events) && Later(z.lastCheck, events)
    ensures InOrder(events[..m]) && Later(z.lastCheck, events[..m])
    ensures forall j :: 0 <= j < m ==> (Counts(events[..m], j, z) ==> Counts(events, j, z))
  {
    hide Listed;
    forall j | 0 <= j < m && Counts(events[..m], j, z) ensures Counts(events, j, z) {
      if Listed(z.sensors, events[j].sensor, 0) <= 1 {
        var i :| 0 <= i < j && Alerts(events[..m][i], z) && events[..m][j].now < events[..m][i].now + 60;
        assert Alerts(events[i], z);
      }
    }
  }

  /** While a zone is off, only a request to disarm a zone sets its last check, and far back. */
  lemma {:induction false} QuietChecks(d: Desk, events: seq<Event>, k: nat)
    requires InRange(d) && k < |d.zones| && Quiet(d.zones[k]) && NeverArms(events, d.zones[k].ident)
    ensures var l := After(d, events).zones[k].lastCheck;
            l == d.zones[k].lastCheck || exists i :: 0 <= i < |events| && events[i].Disarm? && l == events[i].now - 1000
    decreases |events|
  {
    hide Next, Quiet;
    if events != [] {
      var m := |events| - 1;
      QuietChecks(d, events[..m], k);
      QuietUntilArmed(d, events[..m], k);
      NextCheck(After(d, events[..m]), events[m], k);
      QuietIsOff(After(d, events[..m]).zones[k]);
      var l := After(d, events[..m]).zones[k].lastCheck;
      if l != d.zones[k].lastCheck {
        var i :| 0 <= i < m && events[..m][i].Disarm? && l == events[..m][i].now - 1000;
        assert events[i].Disarm?;
      }
    }
  }

  lemma QuietIsOff(z: Zone)
    requires Quiet(z)
    ensures z.status == 0 && Calm(z)
  {
  }

  lemma LaterStill(l: int, a: seq<Event>, b: seq<Event>, z: Zone)
    requires InOrder(a + b) && Later(z.lastCheck, a + b)
    requires l == z.lastCheck || exists i :: 0 <= i < |a| && a[i].Disarm? && l == a[i].now - 1000
    ensures InOrder(b) && Later(l, b)
  {
    forall j | 0 <= j < |b| ensures b[j] == (a + b)[|a| + j] {
    }
    if l != z.lastCheck {
      var i :| 0 <= i < |a| && a[i].Disarm? && l == a[i].now - 1000;
      assert (a + b)[i] == a[i];
    }
  }

  /** Over every run in order of time that begins a minute or more after the last check of a zone that is off: if the
      zone raises the alarm, then wherever the run is cut, it was armed by its name before the cut, or behind the cut a
      motion of its own sensors counted: the second within a minute, or that of a sensor that is listed twice. */
  lemma AlarmNeedsTwoMotions(d: Desk, a: seq<Event>, b: seq<Event>, k: nat)
    requires InRange(d) && k < |d.zones| && Quiet(d.zones[k]) && After(d, a + b).zones[k].status == 2
    requires InOrder(a + b) && Later(d.zones[k].lastCheck, a + b)
    ensures !NeverArms(a, d.zones[k].ident) || exists j :: 0 <= j < |b| && Counts(b, j, d.zones[k])
  {
    hide After, InOrder, Later, Counts;
    if NeverArms(a, d.zones[k].ident) && forall j :: 0 <= j < |b| ==> !Counts(b, j, d.zones[k]) {
      AfterConcat(d, a, b);
      QuietUntilArmed(d, a, k);
      QuietChecks(d, a, k);
      var c := After(d, a);
      LaterStill(c.zones[k].lastCheck, a, b, d.zones[k]);
      SameCounts(b, d.zones[k], c.zones[k]);
      CalmUntilTwo(c, b, k);
    }
  }

  lemma SameCounts(events: seq<Event>, z: Zone, c: Zone)
    requires z.sensors == c.sensors
    ensures forall j :: 0 <= j < |events| ==> Counts(events, j, z) == Counts(events, j, c)
  {
    hide Listed;
    assert forall e :: Alerts(e, z) == Alerts(e, c);
  }

  // ---------------------------------------------------------------- a motion is taken

  /** The motion counts in the zone. */
  predicate Takes(z: Zone, sensor: string, now: int) {
    z.status in {1, 2} && Listed(z.sensors, sensor, 0) > 0
    && (z.lastCheck + 60 > now || Listed(z.sensors, sensor, 0) > 1)
  }

  lemma SensedTakes(z: Zone, sensor: string, now: int)
    ensures Sensed(z, sensor, now, 0).1 <==> Takes(z, sensor, now)
  {
    hide Sensed, Listed;
    SensedKeeps(z, sensor, now, 0);
    if z.status in {1, 2} {
      SensedExactly(z, sensor, now, 0);
    }
  }

  /** The first zone in which the motion counts takes it. */
  lemma {:induction false} CheckedFirst(zones: seq<Zone>, sensor: string, now: int, j: nat, k: nat)
    requires j <= k < |zones|
    ensures Checked(zones, sensor, now, j).1 == Some(k)
       <==> Takes(zones[k], sensor, now) && forall i :: j <= i < k ==> !Takes(zones[i], sensor, now)
    decreases k - j
  {
    hide Sensed, Takes;
    SensedTakes(zones[j], sensor, now);
    var (z, found) := Sensed(zones[j], sensor, now, 0);
    if !found && j < k {
      CheckedFirst(zones[j := z], sensor, now, j + 1, k);
      forall i | j < i < k ensures Takes(zones[j := z][i], sensor, now) == Takes(zones[i], sensor, now) {
      }
    }
  }

  predicate TakesFirst(d: Desk, sensor: string, now: int, k: nat)
    requires k < |d.zones|
  {
    Takes(d.zones[k], sensor, now) && forall i :: 0 <= i < k ==> !Takes(d.zones[i], sensor, now)
  }

  /** A motion that counts in an armed zone starts the countdown of the zone anew and puts it at the end of the list;
      but a motion detector leaves a countdown alone that is running. */
  lemma MotionStarts(d: Desk, sensor: string, now: int, pir: bool, timers: seq<int>, k: nat)
    requires InRange(d) && k < |d.zones| && d.zones[k].status == 1 && TakesFirst(d, sensor, now, k)
    ensures var z, n := d.zones[k], Next(d, Motion(sensor, now, pir, timers));
            var starts := !pir || z.countdown in {0, -1};
            && n.running == (if starts then d.running + [k] else d.running)
            && n.zones[k] == z.(countdown := if starts then z.waitTime else z.countdown,
                                lastCheck := n.zones[k].lastCheck)
  {
    hide Checked, Takes;
    CheckedFirst(d.zones, sensor, now, 0, k);
    CheckedKeeps(d.zones, sensor, now, 0, k);
  }

  /** The zone has nothing to do with the sensor, or is off. */
  predicate Deaf(z: Zone, sensor: string) {
    z.status !in {1, 2} || sensor !in z.sensors
  }

  lemma DeafSenses(z: Zone, sensor: string, now: int)
    requires Deaf(z, sensor)
    ensures Sensed(z, sensor, now, 0) == (z, false)
  {
    hide Sensed, Listed;
    SensedKeeps(z, sensor, now, 0);
    if z.status in {1, 2} {
      SensedExactly(z, sensor, now, 0);
      if Listed(z.sensors, sensor, 0) > 0 {
        ListedIn(z.sensors, sensor, 0);
      }
    }
  }

  lemma {:induction false} AllDeaf(zones: seq<Zone>, sensor: string, now: int, j: nat)
    requires j <= |zones| && forall i :: j <= i < |zones| ==> Deaf(zones[i], sensor)
    ensures Checked(zones, sensor, now, j) == (zones, None)
    decreases |zones| - j
  {
    hide Sensed, Deaf;
    if j < |zones| {
      DeafSenses(zones[j], sensor, now);
      assert zones[j := zones[j]] == zones;
      AllDeaf(zones, sensor, now, j + 1);
    }
  }

  /** A motion that concerns one zone only. */
  lemma {:induction false} CheckedAlone(zones: seq<Zone>, sensor: string, now: int, j: nat, k: nat)
    requires j <= k < |zones| && forall i :: 0 <= i < |zones| && i != k ==> Deaf(zones[i], sensor)
    ensures var (z, found) := Sensed(zones[k], sensor, now, 0);
            Checked(zones, sensor, now, j) == (zones[k := z], if found then Some(k) else None)
    decreases k - j
  {
    hide Sensed, Deaf;
    if j < k {
      DeafSenses(zones[j], sensor, now);
      assert zones[j := zones[j]] == zones;
      CheckedAlone(zones, sensor, now, j + 1, k);
    } else {
      AllDeaf(zones[k := Sensed(zones[k], sensor, now, 0).0], sensor, now, k + 1);
    }
  }

  lemma FirstMotion(d: Desk, sensor: string, now: int, pir: bool, timers: seq<int>, k: nat)
    requires k < |d.zones| && d.running == [] && d.zones[k].status == 1
    requires forall i :: 0 <= i < |d.zones| && i != k ==> Deaf(d.zones[i], sensor)
    requires Listed(d.zones[k].sensors, sensor, 0) == 1 && d.zones[k].lastCheck + 60 <= now
    ensures Next(d, Motion(sensor, now, pir, timers)) == Desk(d.zones[k := d.zones[k].(lastCheck := now)], [])
  {
    hide Checked, Sensed, Listed, Deaf, Pass;
    CheckedAlone(d.zones, sensor, now, 0, k);
    SensedExactly(d.zones[k], sensor, now, 0);
  }

  lemma SecondMotion(d: Desk, sensor: string, now: int, pir: bool, timers: seq<int>, k: nat)
    requires k < |d.zones| && d.running == [] && d.zones[k].status == 1 && d.zones[k].countdown == -1
    requires forall i :: 0 <= i < |d.zones| && i != k ==> Deaf(d.zones[i], sensor)
    requires Listed(d.zones[k].sensors, sensor, 0) > 0 && d.zones[k].lastCheck + 60 > now
    ensures Next(d, Motion(sensor, now, pir, timers))
         == Desk(d.zones[k := d.zones[k].(countdown := d.zones[k].waitTime)], [k])
  {
    hide Checked, Sensed, Listed, Deaf, Pass;
    CheckedAlone(d.zones, sensor, now, 0, k);
    SensedExactly(d.zones[k], sensor, now, 0);
    assert d.zones[k := d.zones[k]] == d.zones;
  }

  // ---------------------------------------------------------------- the action of an alarm is repeated now and then

  /** Whether an event repeats the action of a zone. */
  predicate Repeats(d: Desk, e: Event, k: nat)
    requires k < |d.zones|
  {
    e.Motion?
    && var (zones, f) := Checked(d.zones, e.sensor, e.now, 0);
       f == Some(k) && zones[k].status == 2 && Repeated(zones[k], e.now).1
  }

  function Repetitions(d: Desk, events: seq<Event>, k: nat): nat
    requires InRange(d) && k < |d.zones|
  {
    if events == [] then 0
    else
      var m := |events| - 1;
      Repetitions(d, events[..m], k) + if Repeats(After(d, events[..m]), events[m], k) then 1 else 0
  }

  lemma RepeatStep(d: Desk, e: Event, k: nat)
    requires InRange(d) && k < |d.zones|
    ensures var z, n := d.zones[k], Next(d, e).zones[k];
            && n.ident == z.ident && n.repeatTriggers == z.repeatTriggers
            && (!Repeats(d, e, k) ==> n.nextRepeat == z.nextRepeat)
            && (Repeats(d, e, k) ==> z.nextRepeat <= e.now && n.nextRepeat == Paused(z, e.timers, e.now).nextRepeat)
            && (z.repeatTriggers != 0 && Repeats(d, e, k) ==> z.repeatedCounter <= z.repeatTriggers)
            && (z.repeatTriggers != 0 && !(e.Disarm? && e.ident == z.ident) ==>
                  n.repeatedCounter == z.repeatedCounter + if Repeats(d, e, k) then 1 else 0)
  {
    hide Pass, Checked, Paused;
    match e {
      case Tick(now) => PassMoves(d.zones, d.running, now, k);
      case Motion(sensor, now, pir, timers) =>
        CheckedKeeps(d.zones, sensor, now, 0, k);
        var z := Checked(d.zones, sensor, now, 0).0[k];
        PausedAlike(d.zones[k], z, timers, now);
        PausedAlike(d.zones[k], Repeated(z, now).0, timers, now);
      case _ =>
    }
  }

  /** When the action is repeated: exactly when a motion that counts is taken by a zone in alarm that repeats its
      action, the pause is over, and the limit, if there is one, is not exceeded. */
  lemma RepeatsExactly(d: Desk, e: Event, k: nat)
    requires k < |d.zones| && e.Motion?
    ensures var z := d.zones[k];
            var ready := z.status == 2 && z.repeatedAction && z.nextRepeat <= e.now;
            var within := z.repeatTriggers == 0 || z.repeatedCounter <= z.repeatTriggers;
            Repeats(d, e, k) <==> TakesFirst(d, e.sensor, e.now, k) && ready && within
  {
    hide Checked, Takes;
    CheckedFirst(d.zones, e.sensor, e.now, 0, k);
    CheckedKeeps(d.zones, e.sensor, e.now, 0, k);
  }

  lemma {:induction false} PausedAlike(z: Zone, y: Zone, timers: seq<int>, now: int)
    requires z.nextRepeat == y.nextRepeat
    ensures Paused(z, timers, now).nextRepeat == Paused(y, timers, now).nextRepeat
    decreases |timers|
  {
    if timers != [] {
      PausedAlike(z, y, timers[..|timers| - 1], now);
    }
  }

  lemma {:induction false} PausedLast(z: Zone, a: seq<int>, t: int, zeros: seq<int>, now: int)
    requires t != 0 && forall i :: 0 <= i < |zeros| ==> zeros[i] == 0
    ensures Paused(z, a + [t] + zeros, now).nextRepeat == now + t
    decreases |zeros|
  {
    var timers := a + [t] + zeros;
    if zeros != [] {
      var m := |zeros| - 1;
      assert timers[..|timers| - 1] == a + [t] + zeros[..m] && timers[|timers| - 1] == zeros[m];
      PausedLast(z, a, t, zeros[..m], now);
    } else {
      assert timers[|timers| - 1] == t;
    }
  }

  /** Between two requests to disarm it, a zone with a limit repeats its action at most one time more than the limit,
      and the counter tells how often. */
  lemma {:induction false} RepetitionsCounted(d: Desk, events: seq<Event>, k: nat)
    requires InRange(d) && k < |d.zones| && d.zones[k].repeatTriggers > 0
    requires d.zones[k].repeatedCounter <= d.zones[k].repeatTriggers + 1
    requires forall i :: 0 <= i < |events| ==> !(events[i].Disarm? && events[i].ident == d.zones[k].ident)
    ensures var z, n := d.zones[k], After(d, events).zones[k];
            && n.ident == z.ident && n.repeatTriggers == z.repeatTriggers
            && n.repeatedCounter == z.repeatedCounter + Repetitions(d, events, k) <= z.repeatTriggers + 1
    decreases |events|
  {
    hide Next, Repeats, Paused;
    if events != [] {
      var m := |events| - 1;
      RepetitionsCounted(d, events[..m], k);
      RepeatStep(After(d, events[..m]), events[m], k);
    }
  }

  lemma {:induction false} NoneWhilePaused(d: Desk, events: seq<Event>, k: nat)
    requires InRange(d) && k < |d.zones|
    requires forall i :: 0 <= i < |events| && events[i].Motion? ==> events[i].now < d.zones[k].nextRepeat
    ensures Repetitions(d, events, k) == 0 && After(d, events).zones[k].nextRepeat == d.zones[k].nextRepeat
    decreases |events|
  {
    hide Next, Repeats, Paused;
    if events != [] {
      var m := |events| - 1;
      NoneWhilePaused(d, events[..m], k);
      RepeatStep(After(d, events[..m]), events[m], k);
      if Repeats(After(d, events[..m]), events[m], k) {
        RepeatMoves(After(d, events[..m]), events[m], k);
      }
    }
  }

  lemma RepeatMoves(d: Desk, e: Event, k: nat)
    requires k < |d.zones| && Repeats(d, e, k)
    ensures e.Motion?
  {
  }

  /** After a repetition the timer of the last actor that has one sets the pause: over every run, nothing that happens
      before it is over, arming and disarming included, repeats the action again. */
  lemma PauseHolds(d: Desk, e: Event, a: seq<int>, t: int, zeros: seq<int>, events: seq<Event>, k: nat)
    requires InRange(d) && k < |d.zones| && Repeats(d, e, k) && e.Motion? && e.timers == a + [t] + zeros
    requires t != 0 && forall i :: 0 <= i < |zeros| ==> zeros[i] == 0
    requires forall i :: 0 <= i < |events| && events[i].Motion? ==> events[i].now < e.now + t
    ensures Repetitions(Next(d, e), events, k) == 0
  {
    hide Next, Repeats, Paused, Repetitions;
    RepeatStep(d, e, k);
    PausedLast(d.zones[k], a, t, zeros, e.now);
    NoneWhilePaused(Next(d, e), events, k);
  }

  // ---------------------------------------------------------------- how long a countdown takes

  /** How many entries of a zone a pass reaches: behind a countdown that ends, one entry misses its turn. */
  function Turns(zones: seq<Zone>, rest: seq<nat>, now: int, k: nat): (n: nat)
    requires forall i :: 0 <= i < |rest| ==> rest[i] < |zones|
    decreases |rest|
  {
    if rest == [] then 0
    else
      var (z, over) := Second(zones[rest[0]], now);
      var next := zones[rest[0] := z];
      (if rest[0] == k then 1 else 0)
      + if !over then Turns(next, rest[1..], now, k)
        else if |rest| == 1 then 0 else Turns(next, rest[2..], now, k)
  }

  lemma {:induction false} TurnsOccur(zones: seq<Zone>, rest: seq<nat>, now: int, k: nat)
    requires forall i :: 0 <= i < |rest| ==> rest[i] < |zones|
    ensures Turns(zones, rest, now, k) <= Occurs(rest, k)
    decreases |rest|
  {
    hide Second;
    if rest != [] {
      var (z, over) := Second(zones[rest[0]], now);
      var next := zones[rest[0] := z];
      if !over {
        TurnsOccur(next, rest[1..], now, k);
      } else if |rest| > 1 {
        TurnsOccur(next, rest[2..], now, k);
        assert rest[1..][1..] == rest[2..];
      }
    }
  }

  lemma SecondCounts(z: Zone, now: int)
    requires z.countdown > 1
    ensures Second(z, now) == (z.(countdown := z.countdown - 1), false)
  {
  }

  /** Each entry that is reached takes a second off the countdown. */
  lemma {:induction false} TurnsCount(zones: seq<Zone>, rest: seq<nat>, now: int, k: nat)
    requires (forall i :: 0 <= i < |rest| ==> rest[i] < |zones|) && k < |zones|
    requires zones[k].countdown > Occurs(rest, k)
    ensures Pass(zones, rest, now).zones[k]
         == zones[k].(countdown := zones[k].countdown - Turns(zones, rest, now, k))
    decreases |rest|
  {
    hide Second;
    if rest != [] {
      var (z, over) := Second(zones[rest[0]], now);
      var next := zones[rest[0] := z];
      if rest[0] == k {
        SecondCounts(zones[k], now);
      }
      if !over {
        TurnsCount(next, rest[1..], now, k);
      } else if |rest| > 1 {
        assert rest[1..][1..] == rest[2..];
        TurnsCount(next, rest[2..], now, k);
      }
    }
  }

  /** `m` turns do not end the countdown of the zone. */
  predicate Lasts(z: Zone, m: nat) {
    z.countdown < 0 || z.countdown > m || z.status == 2
  }

  lemma SecondLasts(z: Zone, now: int, m: nat)
    requires Lasts(z, m + 1)
    ensures !Second(z, now).1 && Lasts(Second(z, now).0, m)
  {
  }

  /** If no countdown ends, every entry is reached. */
  lemma {:induction false} AllReached(zones: seq<Zone>, rest: seq<nat>, now: int, k: nat)
    requires forall i :: 0 <= i < |rest| ==> rest[i] < |zones|
    requires forall j :: 0 <= j < |zones| ==> Lasts(zones[j], Occurs(rest, j))
    ensures Turns(zones, rest, now, k) == Occurs(rest, k) && Pass(zones, rest, now).running == rest
    decreases |rest|
  {
    hide Second, Lasts;
    if rest != [] {
      var r := rest[0];
      assert Lasts(zones[r], Occurs(rest[1..], r) + 1);
      SecondLasts(zones[r], now, Occurs(rest[1..], r));
      var next := zones[r := Second(zones[r], now).0];
      forall j | 0 <= j < |next| ensures Lasts(next[j], Occurs(rest[1..], j)) {
        assert Lasts(zones[j], Occurs(rest, j));
      }
      AllReached(next, rest[1..], now, k);
    }
  }

  /** What a second takes off a countdown that does not end in it: one for each entry of its zone in the list that the
      pass reaches. */
  lemma CountdownSpeed(d: Desk, now: int, k: nat)
    requires InRange(d) && k < |d.zones| && d.zones[k].countdown > Occurs(d.running, k)
    ensures var t := Turns(d.zones, d.running, now, k);
            t <= Occurs(d.running, k)
            && Next(d, Tick(now)).zones[k] == d.zones[k].(countdown := d.zones[k].countdown - t)
  {
    hide Pass;
    TurnsCount(d.zones, d.running, now, k);
    TurnsOccur(d.zones, d.running, now, k);
  }

  /** While no countdown ends, a countdown keeps time if and only if its zone stands in the list once; it runs as many
      times faster as the zone stands there more often. */
  lemma KeepsTimeExactly(d: Desk, now: int, k: nat)
    requires InRange(d) && k < |d.zones| && d.zones[k].countdown > Occurs(d.running, k)
    requires forall j :: 0 <= j < |d.zones| ==> Lasts(d.zones[j], Occurs(d.running, j))
    ensures var z, n := d.zones[k], Next(d, Tick(now)).zones[k];
            n.countdown == z.countdown - Occurs(d.running, k)
            && (n.countdown == z.countdown - 1 <==> Occurs(d.running, k) == 1)
  {
    hide Pass;
    CountdownSpeed(d, now, k);
    AllReached(d.zones, d.running, now, k);
  }

  /** The input that shows it: a zone that is asked for twice while it is off loses two seconds in the first one. */
  lemma ArmedTwice(z: Zone, now: int)
    requires z.status == 0 && z.waitTime > 2
    ensures var once := After(Desk([z], []), [Arm(z.ident), Tick(now)]);
            once.zones[0].status == 0 && once.zones[0].countdown == z.waitTime - 1
    ensures var twice := After(Desk([z], []), [Arm(z.ident), Arm(z.ident), Tick(now)]);
            twice.zones[0].status == 0 && twice.zones[0].countdown == z.waitTime - 2 && twice.running == [0, 0]
  {
    var arm, tick := Arm(z.ident), Tick(now);
    var c := z.(countdown := z.waitTime);
    ArmedRuns(z, arm, tick);
    assert Occurs([0], 0) == 1 && Occurs([0, 0], 0) == 2 by {
      assert [0, 0][1..] == [0] && [0][1..] == [];
    }
    hide After, Next, Occurs;
    CountdownSpeed(Desk([c], [0]), now, 0);
    CountdownSpeed(Desk([c], [0, 0]), now, 0);
    AllReached([c], [0], now, 0);
    AllReached([c], [0, 0], now, 0);
    assert Next(Desk([c], [0, 0]), tick) == Pass([c], [0, 0], now) by {
      TickPasses(Desk([c], [0, 0]), now);
    }
  }

  lemma TickPasses(d: Desk, now: int)
    requires InRange(d)
    ensures Next(d, Tick(now)) == Pass(d.zones, d.running, now)
  {
    hide Pass;
  }

  lemma ArmedRuns(z: Zone, arm: Event, tick: Event)
    requires z.status == 0 && arm == Arm(z.ident)
    ensures var c := z.(countdown := z.waitTime);
            && After(Desk([z], []), [arm, tick]) == Next(Desk([c], [0]), tick)
            && After(Desk([z], []), [arm, arm, tick]) == Next(Desk([c], [0, 0]), tick)
  {
    hide After, Next;
    var d, c := Desk([z], []), z.(countdown := z.waitTime);
    ArmStep(z, []);
    ArmStep(c, [0]);
    assert [] + [0] == [0] && [0] + [0] == [0, 0];
    AfterTwo(d, arm, tick);
    AfterTwo(d, arm, arm);
    AfterStep(d, [arm, arm], tick);
    assert [arm, arm] + [tick] == [arm, arm, tick];
  }

  lemma AfterTwo(d: Desk, e: Event, f: Event)
    requires InRange(d)
    ensures After(d, [e, f]) == Next(Next(d, e), f)
  {
    hide After, Next;
    AfterNothing(d);
    AfterStep(d, [], e);
    AfterStep(d, [e], f);
    assert [] + [e] == [e] && [e] + [f] == [e, f];
  }

  lemma ArmStep(z: Zone, running: seq<nat>)
    requires z.status == 0 && InRange(Desk([z], running))
    ensures Next(Desk([z], running), Arm(z.ident)) == Desk([z.(countdown := z.waitTime)], running + [0])
  {
    hide Pass, Checked;
  }

  lemma AfterNothing(d: Desk)
    requires InRange(d)
    ensures After(d, []) == d
  {
  }

  lemma AfterStep(d: Desk, events: seq<Event>, e: Event)
    requires InRange(d)
    ensures After(d, events + [e]) == Next(After(d, events), e)
  {
    hide Next;
    assert (events + [e])[..|events|] == events;
  }

  /** The desk after `n` seconds of a zone that runs by itself. */
  function Alone(d: Desk, k: nat, n: nat): (r: Desk)
    requires k < |d.zones| && n <= d.zones[k].countdown
    ensures InRange(r)
  {
    var z := d.zones[k];
    if n < z.countdown then Desk(d.zones[k := z.(countdown := z.countdown - n)], [k])
    else Desk(d.zones[k := z.(status := z.status + 1, countdown := -1)], [])
  }

  lemma AloneNext(d: Desk, k: nat, n: nat, now: int)
    requires k < |d.zones| && n < d.zones[k].countdown && d.zones[k].status in {0, 1}
    ensures Next(Alone(d, k, n), Tick(now)) == Alone(d, k, n + 1)
  {
    hide Next;
    var c := Alone(d, k, n);
    AloneSecond(c, k, now);
    var x, z := c.zones[k], d.zones[k];
    assert c.zones[k := x.(countdown := x.countdown - 1)] == d.zones[k := z.(countdown := z.countdown - n - 1)];
    assert n + 1 == z.countdown ==>
           c.zones[k := x.(status := x.status + 1, countdown := -1)]
           == d.zones[k := z.(status := z.status + 1, countdown := -1)];
  }

  /** A zone that runs by itself takes exactly the seconds its countdown says to come to its next status, and nothing
      else changes. */
  lemma {:induction false} AloneOnTime(d: Desk, times: seq<int>, k: nat)
    requires InRange(d) && k < |d.zones| && d.running == [k] && |times| <= d.zones[k].countdown
    requires d.zones[k].status in {0, 1} && d.zones[k].countdown > 0
    ensures After(d, Ticks(times)) == Alone(d, k, |times|)
    decreases |times|
  {
    if times == [] {
      AfterNothing(d);
      assert Ticks(times) == [] && d.zones[k := d.zones[k].(countdown := d.zones[k].countdown)] == d.zones;
    } else {
      hide After, Next, Ticks, Alone;
      TicksStep(d, times);
      AloneOnTime(d, times[..|times| - 1], k);
      AloneNext(d, k, |times| - 1, times[|times| - 1]);
    }
  }

  lemma AloneSecond(d: Desk, k: nat, now: int)
    requires k < |d.zones| && d.running == [k] && d.zones[k].status in {0, 1} && d.zones[k].countdown > 0
    ensures var z := d.zones[k];
            Next(d, Tick(now))
            == if z.countdown > 1 then Desk(d.zones[k := z.(countdown := z.countdown - 1)], [k])
               else Desk(d.zones[k := z.(status := z.status + 1, countdown := -1)], [])
  {
    hide Pass, Next, Second;
    TickPasses(d, now);
    AlonePasses(d.zones, k, now);
    LastSecond(d.zones[k], now);
  }

  /** The alarm comes: a zone that is asked for by its name while nothing runs, after the seconds of its countdown two
      motions of its sensors within a minute, which concern no other zone, and its countdown again, and the zone is in
      alarm. */
  lemma AlarmComes(d: Desk, ident: string, k: nat, t1: seq<int>, first: Event, second: Event, t2: seq<int>)
    requires Find(d.zones, ident, 0) == Some(k) && Quiet(d.zones[k]) && d.running == []
    requires d.zones[k].waitTime > 0 && |t1| == |t2| == d.zones[k].waitTime
    requires first.Motion? && second.Motion? && forall i :: 0 <= i < |d.zones| && i != k ==>
               Deaf(d.zones[i], first.sensor) && Deaf(d.zones[i], second.sensor)
    requires Listed(d.zones[k].sensors, first.sensor, 0) == 1 && Listed(d.zones[k].sensors, second.sensor, 0) > 0
    requires d.zones[k].lastCheck + 60 <= first.now && second.now < first.now + 60
    ensures var z := d.zones[k];
            After(d, [Arm(ident)] + Ticks(t1) + [first, second] + Ticks(t2))
            == Desk(d.zones[k := z.(status := 2, countdown := -1, lastCheck := first.now)], [])
  {
    hide After, Next, Ticks, Listed, Deaf, Find, Alone;
    var z := d.zones[k];
    var d1, d2 := At(d, k, 0, z.waitTime, z.lastCheck), At(d, k, 1, -1, z.lastCheck);
    var d3, d4 := At(d, k, 1, -1, first.now), At(d, k, 1, z.waitTime, first.now);
    ArmedOnce(d, ident, k);
    AloneOnTime(d1, t1, k);
    AloneOver(d, k, 0, z.lastCheck);
    FirstMotion(d2, first.sensor, first.now, first.pir, first.timers, k);
    SecondMotion(d3, second.sensor, second.now, second.pir, second.timers, k);
    AtAgain(d, k, z.lastCheck, first.now);
    AloneOnTime(d4, t2, k);
    AloneOver(d, k, 1, first.now);
    AfterAll(d, Arm(ident), Ticks(t1), first, second, Ticks(t2));
  }

  /** The desk with one zone moved on, and in the list exactly if a countdown runs. */
  function At(d: Desk, k: nat, status: int, countdown: int, lastCheck: int): Desk
    requires k < |d.zones|
  {
    Desk(d.zones[k := d.zones[k].(status := status, countdown := countdown, lastCheck := lastCheck)],
         if countdown < 0 then [] else [k])
  }

  lemma AloneOver(d: Desk, k: nat, status: int, lastCheck: int)
    requires k < |d.zones| && d.zones[k].waitTime > 0
    ensures Alone(At(d, k, status, d.zones[k].waitTime, lastCheck), k, d.zones[k].waitTime)
         == At(d, k, status + 1, -1, lastCheck)
  {
  }

  lemma AtAgain(d: Desk, k: nat, a: int, b: int)
    requires k < |d.zones| && d.zones[k].waitTime >= 0
    ensures var c, e := At(d, k, 1, -1, a), At(d, k, 1, -1, b);
            && Desk(c.zones[k := c.zones[k].(lastCheck := b)], []) == e
            && Desk(e.zones[k := e.zones[k].(countdown := e.zones[k].waitTime)], [k])
               == At(d, k, 1, d.zones[k].waitTime, b)
  {
  }

  lemma AfterAll(d: Desk, arm: Event, a: seq<Event>, first: Event, second: Event, b: seq<Event>)
    requires InRange(d)
    ensures After(d, [arm] + a + [first, second] + b)
         == After(Next(Next(After(Next(d, arm), a), first), second), b)
  {
    hide After, Next;
    AfterNothing(d);
    AfterStep(d, [], arm);
    assert [] + [arm] == [arm];
    AfterConcat(d, [arm], a);
    AfterTwo(After(d, [arm] + a), first, second);
    AfterConcat(d, [arm] + a, [first, second]);
    AfterConcat(d, [arm] + a + [first, second], b);
  }

  lemma ArmedOnce(d: Desk, ident: string, k: nat)
    requires Find(d.zones, ident, 0) == Some(k) && d.zones[k].status == 0 && d.running == []
    ensures Next(d, Arm(ident)) == Desk(d.zones[k := d.zones[k].(countdown := d.zones[k].waitTime)], [k])
  {
    hide Find, Pass, Checked;
  }

  lemma LastSecond(z: Zone, now: int)
    requires z.status in {0, 1} && z.countdown > 0
    ensures z.countdown > 1 ==> Second(z, now) == (z.(countdown := z.countdown - 1), false)
    ensures z.countdown == 1 ==> Second(z, now) == (z.(status := z.status + 1, countdown := -1), true)
  {
  }

  lemma AlonePasses(zones: seq<Zone>, k: nat, now: int)
    requires k < |zones|
    ensures var (z, over) := Second(zones[k], now);
            Pass(zones, [k], now) == Desk(zones[k := z], if over then [] else [k])
  {
    assert [k][1..] == [];
  }

  function Ticks(times: seq<int>): (r: seq<Event>)
    ensures |r| == |times|
  {
    seq(|times|, i requires 0 <= i < |times| => Tick(times[i]))
  }

  lemma TicksStep(d: Desk, times: seq<int>)
    requires InRange(d) && times != []
    ensures After(d, Ticks(times)) == Next(After(d, Ticks(times[..|times| - 1])), Tick(times[|times| - 1]))
  {
    hide Next;
    assert Ticks(times)[..|times| - 1] == Ticks(times[..|times| - 1]);
  }

  // ---------------------------------------------------------------- how far a countdown may lag

  /** The place of the first entry of a zone. */
  function Place(r: seq<nat>, k: nat): nat {
    if r == [] || r[0] == k then 0 else 1 + Place(r[1..], k)
  }

  lemma {:induction false} PassKeepsEntries(zones: seq<Zone>, rest: seq<nat>, now: int, k: nat)
    requires (forall i :: 0 <= i < |rest| ==> rest[i] < |zones|) && k < |zones|
    requires zones[k].countdown > Occurs(rest, k)
    ensures Occurs(Pass(zones, rest, now).running, k) == Occurs(rest, k)
    decreases |rest|
  {
    hide Second;
    if rest != [] {
      var (z, over) := Second(zones[rest[0]], now);
      var next := zones[rest[0] := z];
      if rest[0] == k {
        SecondCounts(zones[k], now);
      }
      if !over {
        PassKeepsEntries(next, rest[1..], now, k);
        PutFirst(rest[0], Pass(next, rest[1..], now).running, k);
      } else if |rest| > 1 {
        assert rest[1..][1..] == rest[2..];
        PassKeepsEntries(next, rest[2..], now, k);
        PutFirst(rest[1], Pass(next, rest[2..], now).running, k);
      }
    }
  }

  lemma PutFirst(j: nat, r: seq<nat>, k: nat)
    ensures Occurs([j] + r, k) == (if j == k then 1 else 0) + Occurs(r, k)
    ensures Place([j] + r, k) == if j == k then 0 else 1 + Place(r, k)
  {
    assert ([j] + r)[1..] == r;
  }

  /** A zone that misses its turn moves forward in the list, and none moves back. */
  lemma {:induction false} PassMovesForward(zones: seq<Zone>, rest: seq<nat>, now: int, k: nat)
    requires (forall i :: 0 <= i < |rest| ==> rest[i] < |zones|) && k < |zones|
    requires zones[k].countdown > Occurs(rest, k) > 0
    ensures Place(Pass(zones, rest, now).running, k) + (if Turns(zones, rest, now, k) == 0 then 1 else 0)
         <= Place(rest, k)
    decreases |rest|
  {
    hide Second;
    var (z, over) := Second(zones[rest[0]], now);
    var next := zones[rest[0] := z];
    if rest[0] == k {
      SecondCounts(zones[k], now);
      PutFirst(k, Pass(next, rest[1..], now).running, k);
    } else if !over {
      PassMovesForward(next, rest[1..], now, k);
      PutFirst(rest[0], Pass(next, rest[1..], now).running, k);
    } else {
      assert |rest| > 1 && rest[1..][1..] == rest[2..];
      PutFirst(rest[1], Pass(next, rest[2..], now).running, k);
      if rest[1] != k {
        PassMovesForward(next, rest[2..], now, k);
      }
    }
  }

  lemma {:induction false} PutLast(r: seq<nat>, j: nat, k: nat)
    requires j != k
    ensures Occurs(r + [j], k) == Occurs(r, k) && (Occurs(r, k) > 0 ==> Place(r + [j], k) == Place(r, k))
    decreases |r|
  {
    if r == [] {
      assert [j][1..] == [] && r + [j] == [j];
    } else {
      assert (r + [j])[1..] == r[1..] + [j];
      PutLast(r[1..], j, k);
    }
  }

  lemma {:induction false} ErasedOther(zones: seq<Zone>, r: seq<nat>, ident: string, k: nat)
    requires (forall i :: 0 <= i < |r| ==> r[i] < |zones|) && k < |zones| && zones[k].ident != ident
    ensures Occurs(ErasedFirst(zones, r, ident), k) == Occurs(r, k)
    ensures Place(ErasedFirst(zones, r, ident), k) <= Place(r, k)
    decreases |r|
  {
    if r != [] && zones[r[0]].ident != ident {
      ErasedOther(zones, r[1..], ident, k);
      PutFirst(r[0], ErasedFirst(zones, r[1..], ident), k);
    }
  }

  /** An event that is not about the zone: no request with its name, and no motion of a sensor of its own. */
  predicate Elsewhere(e: Event, z: Zone) {
    match e
    case Tick(_) => true
    case Motion(sensor, _, _, _) => sensor !in z.sensors
    case Arm(ident) => ident != z.ident
    case Disarm(ident, _) => ident != z.ident
  }

  function TicksIn(events: seq<Event>): nat {
    if events == [] then 0
    else TicksIn(events[..|events| - 1]) + if events[|events| - 1].Tick? then 1 else 0
  }

  lemma {:induction false} MotionElsewhere(zones: seq<Zone>, sensor: string, now: int, k: nat)
    requires k < |zones| && sensor !in zones[k].sensors
    ensures var (n, f) := Checked(zones, sensor, now, 0);
            n[k].ident == zones[k].ident && n[k].countdown == zones[k].countdown && f != Some(k)
  {
    hide Checked;
    CheckedKeeps(zones, sensor, now, 0, k);
  }

  /** One event that is not about the zone, for a countdown that does not end in it. */
  lemma LagStep(d: Desk, e: Event, k: nat)
    requires InRange(d) && k < |d.zones| && Occurs(d.running, k) > 0 && Elsewhere(e, d.zones[k])
    requires e.Tick? ==> d.zones[k].countdown > Occurs(d.running, k)
    ensures var m, n := Occurs(d.running, k), Next(d, e);
            && Occurs(n.running, k) == m
            && var loss := d.zones[k].countdown - n.zones[k].countdown;
               var p, q := Place(d.running, k), Place(n.running, k);
               if e.Tick? then 0 <= loss <= m && q <= p && (loss == 0 ==> q < p) else loss == 0 && q <= p
  {
    hide Pass, Checked, Occurs, Place, ErasedFirst, Turns;
    match e {
      case Tick(now) =>
        CountdownSpeed(d, now, k);
        PassKeepsEntries(d.zones, d.running, now, k);
        PassMovesForward(d.zones, d.running, now, k);
        TickPasses(d, now);
      case Motion(sensor, now, pir, timers) =>
        MotionElsewhere(d.zones, sensor, now, k);
        var f := Checked(d.zones, sensor, now, 0).1;
        if f.Some? {
          PutLast(d.running, f.value, k);
        }
      case Arm(ident) =>
        var f := Find(d.zones, ident, 0);
        if f.Some? {
          PutLast(d.running, f.value, k);
        }
      case Disarm(ident, now) =>
        var f := Find(d.zones, ident, 0);
        if f.Some? {
          ErasedOther(d.zones[f.value := WithStatus(d.zones[f.value], 0, now)], d.running, ident, k);
        }
    }
  }

  /** Over every run that is not about a zone: in each second its countdown loses at most one for each of its entries in
      the list, and it lags behind by no more seconds than there were entries in front of its first one. */
  lemma {:induction false} CountdownLags(d: Desk, events: seq<Event>, k: nat)
    requires InRange(d) && k < |d.zones| && Occurs(d.running, k) > 0
    requires d.zones[k].countdown > Occurs(d.running, k) * TicksIn(events)
    requires forall i :: 0 <= i < |events| ==> Elsewhere(events[i], d.zones[k])
    ensures var m, t, n := Occurs(d.running, k), TicksIn(events), After(d, events);
            var loss := d.zones[k].countdown - n.zones[k].countdown;
            && Occurs(n.running, k) == m
            && t - (Place(d.running, k) - Place(n.running, k)) <= loss <= m * t
    decreases |events|
  {
    hide Next, Occurs, Place, Elsewhere;
    if events != [] {
      var i := |events| - 1;
      var m, t := Occurs(d.running, k), TicksIn(events[..i]);
      assert m * TicksIn(events) == if events[i].Tick? then m * t + m else m * t;
      CountdownLags(d, events[..i], k);
      var c := After(d, events[..i]);
      NextIdents(d, events[..i], k);
      SameElsewhere(events[i], d.zones[k], c.zones[k]);
      LagStep(c, events[i], k);
    }
  }

  /** The input that reaches the bound: behind a countdown that ends, the next one misses the second. */
  lemma TurnMissed(z: Zone, y: Zone, now: int)
    requires z.status == 0 && z.countdown == 1
    ensures Next(Desk([z, y], [0, 1]), Tick(now)) == Desk([WithStatus(z.(countdown := 0), 1, now), y], [1])
  {
  }

  lemma SameElsewhere(e: Event, z: Zone, c: Zone)
    requires z.ident == c.ident && z.sensors == c.sensors
    ensures Elsewhere(e, z) == Elsewhere(e, c)
  {
  }

  lemma {:induction false} NextIdents(d: Desk, events: seq<Event>, k: nat)
    requires InRange(d) && k < |d.zones|
    ensures var z, n := d.zones[k], After(d, events).zones[k]; n.ident == z.ident && n.sensors == z.sensors
    decreases |events|
  {
    hide Next;
    if events != [] {
      NextIdents(d, events[..|events| - 1], k);
      NextIdent(After(d, events[..|events| - 1]), events[|events| - 1], k);
    }
  }

  // ---------------------------------------------------------------- the code as it runs

  ghost function Views(s: seq<SecurityZone>): (r: seq<Zone>)
    reads s
    ensures |r| == |s| && forall i :: 0 <= i < |s| ==> r[i] == s[i].View()
  {
    if s == [] then [] else Views(s[..|s| - 1]) + [s[|s| - 1].View()]
  }

  class AlarmDesk {
    const securityZones: seq<SecurityZone>
    var runningZones: seq<nat>

    /** The zones are different objects, and the pointers point to zones. */
    ghost predicate Valid()
      reads this
    {
      && (forall i, j :: 0 <= i < j < |securityZones| ==> securityZones[i] != securityZones[j])
      && (forall i :: 0 <= i < |runningZones| ==> runningZones[i] < |securityZones|)
    }

    constructor (zones: seq<SecurityZone>)
      requires forall i, j :: 0 <= i < j < |zones| ==> zones[i] != zones[j]
      ensures Valid() && securityZones == zones && View() == Desk(Views(zones), [])
    {
      securityZones, runningZones := zones, [];
    }

    ghost function View(): Desk
      reads this, securityZones
    {
      Desk(Views(securityZones), runningZones)
    }

    /** One zone has changed. */
    twostate lemma OneChanged(k: nat)
      requires Valid() && k < |securityZones|
      requires forall j :: 0 <= j < |securityZones| && j != k ==> unchanged(securityZones[j])
      ensures Views(securityZones) == old(Views(securityZones))[k := securityZones[k].View()]
    {
    }

    /** One second for one running countdown. */
    method CountDown(k: nat, now: int) returns (eraseZone: bool)
      requires Valid() && k < |securityZones|
      modifies securityZones[k]
      ensures Valid() && (securityZones[k].View(), eraseZone) == Second(old(securityZones[k].View()), now)
      ensures Views(securityZones) == old(Views(securityZones))[k := securityZones[k].View()]
    {
      eraseZone := false;
      var zone := securityZones[k];
      var state := zone.DecreaseCounter();
      if state == 0 {
        if zone.secStatus == 0 {
          zone.SetSecStatus(1, now);
          eraseZone := true;
        } else {
          if zone.secStatus != 2 {
            zone.SetSecStatus(2, now);
            eraseZone := true;
          }
        }
      }
      OneChanged(k);
    }

    /** One turn of the loop over the running countdowns. */
    method Turn(i: nat, now: int) returns (stop: bool)
      requires Valid() && i < |runningZones|
      modifies this, securityZones[runningZones[i]]
      ensures Valid()
      ensures var d, k := old(View()), old(runningZones)[i];
              var (z, over) := Second(d.zones[k], now);
              && Views(securityZones) == d.zones[k := z] && stop == (over && i == |d.running| - 1)
              && runningZones == if over then d.running[..i] + d.running[i + 1..] else d.running
    {
      hide Second;
      stop := false;
      var eraseZone := CountDown(runningZones[i], now);
      if eraseZone {
        if i != |runningZones| - 1 {
          runningZones := runningZones[..i] + runningZones[i + 1..];
        } else {
          runningZones := runningZones[..i] + runningZones[i + 1..];
          stop := true;
        }
      }
    }

    /** `process_running_zone`, once a second. */
    method ProcessRunningZone(now: int)
      requires Valid()
      modifies this, securityZones
      ensures Valid() && View() == Next(old(View()), Tick(now))
    {
      hide Second, Pass, Views;
      ghost var whole := Pass(Views(securityZones), runningZones, now);
      var i := 0;
      assert runningZones[0..] == runningZones && runningZones[..0] == [];
      assert [] + whole.running == whole.running;
      while i < |runningZones|
        invariant i <= |runningZones| && Valid()
        invariant whole == Ahead(Views(securityZones), runningZones, i, now)
        decreases |runningZones| - i
      {
        TurnPasses(Views(securityZones), runningZones, i, now);
        var stop := Turn(i, now);
        if stop {
          break;
        }
        i := i + 1;
      }
      NothingAhead(Views(securityZones), runningZones, now);
    }

    /** `chech_pir`. */
    method CheckPir(sensor: string, now: int) returns (k: Option<nat>)
      requires Valid()
      modifies securityZones
      ensures Valid() && (Views(securityZones), k) == Checked(old(Views(securityZones)), sensor, now, 0)
    {
      hide Sensed, Views;
      ghost var whole := Checked(Views(securityZones), sensor, now, 0);
      var i := 0;
      while i < |securityZones|
        invariant i <= |securityZones| && Checked(Views(securityZones), sensor, now, i) == whole
      {
        var found := SenseOne(i, sensor, now);
        if found {
          return Some(i);
        }
        i := i + 1;
      }
      return None;
    }

    method SenseOne(i: nat, sensor: string, now: int) returns (found: bool)
      requires Valid() && i < |securityZones|
      modifies securityZones[i]
      ensures Valid() && (securityZones[i].View(), found) == Sensed(old(securityZones[i].View()), sensor, now, 0)
      ensures Views(securityZones) == old(Views(securityZones))[i := securityZones[i].View()]
    {
      found := securityZones[i].HasSensor(sensor, now);
      OneChanged(i);
    }

    /** The security part of a message from a sensor; `pir` tells the two kinds of sensors apart. */
    method SensorReport(sensor: string, now: int, pir: bool, timers: seq<int>)
      requires Valid()
      modifies this, securityZones
      ensures Valid() && View() == Next(old(View()), Motion(sensor, now, pir, timers))
    {
      hide Checked;
      var k := CheckPir(sensor, now);
      if k.Some? {
        Alert(k.value, now, pir, timers);
      }
    }

    method Alert(k: nat, now: int, pir: bool, timers: seq<int>)
      requires Valid() && k < |securityZones|
      modifies `runningZones, securityZones[k]
      ensures Valid() && View() == Alerted(old(View()), k, now, pir, timers)
    {
      hide Reported;
      var zone := securityZones[k];
      ghost var z := zone.View();
      if zone.secStatus == 1 && (!pir || zone.countdownCounter == 0 || zone.countdownCounter == -1) {
        var _ := zone.InitCountdown();
        runningZones := runningZones + [k];
      }
      if zone.secStatus == 2 {
        RepeatAlarm(zone, now, timers);
      }
      OneChanged(k);
      assert Views(securityZones) == old(Views(securityZones))[k := zone.View()];
      assert old(Views(securityZones))[k := z] == old(Views(securityZones));
    }

    /** The action of an alarm zone once more, for all its actors. */
    method RepeatAlarm(zone: SecurityZone, now: int, timers: seq<int>)
      modifies zone
      ensures zone.View() == Reported(old(zone.View()), now, timers)
    {
      hide Repeated;
      var repeats := zone.RepeatAction(now);
      if repeats {
        ghost var z := zone.View();
        assert timers[..|timers|] == timers;
        for i := 0 to |timers|
          invariant zone.View() == Paused(z, timers[..i], now)
        {
          assert timers[..i + 1][..i] == timers[..i];
          if timers[i] != 0 {
            zone.DisableRepeat(timers[i], now);
          }
        }
      }
    }

    method FindZone(ident: string) returns (k: Option<nat>)
      ensures k == Find(Views(securityZones), ident, 0)
    {
      var i := 0;
      while i < |securityZones|
        invariant i <= |securityZones| && Find(Views(securityZones), ident, i) == Find(Views(securityZones), ident, 0)
      {
        if securityZones[i].zoneIdent == ident {
          return Some(i);
        }
        i := i + 1;
      }
      return None;
    }

    /** A request to arm a zone. */
    method ArmRequest(ident: string)
      requires Valid()
      modifies this, securityZones
      ensures Valid() && View() == Next(old(View()), Arm(ident))
    {
      hide Find;
      var k := FindZone(ident);
      if k.Some? && securityZones[k.value].secStatus == 0 {
        runningZones := runningZones + [k.value];
        var _ := securityZones[k.value].InitCountdown();
        OneChanged(k.value);
      }
    }

    /** A request to disarm it. */
    method DisarmRequest(ident: string, now: int)
      requires Valid()
      modifies this, securityZones
      ensures Valid() && View() == Next(old(View()), Disarm(ident, now))
    {
      hide Find, WithStatus, ErasedFirst;
      var k := FindZone(ident);
      if k.Some? {
        SetStatusAt(k.value, 0, now);
        EraseRunningSecur(securityZones[k.value].zoneIdent);
      }
    }

    method SetStatusAt(k: nat, status: int, now: int)
      requires Valid() && k < |securityZones|
      modifies securityZones[k]
      ensures Valid()
              && Views(securityZones)
              == old(Views(securityZones))[k := WithStatus(old(securityZones[k].View()), status, now)]
    {
      hide WithStatus;
      securityZones[k].SetSecStatus(status, now);
      OneChanged(k);
    }

    /** `erase_running_secur`. */
    method EraseRunningSecur(id: string)
      requires Valid()
      modifies `runningZones
      ensures Valid() && runningZones == ErasedFirst(Views(securityZones), old(runningZones), id)
    {
      var i := FirstRunning(id);
      FirstErased(Views(securityZones), runningZones, i, id);
      if i < |runningZones| {
        runningZones := runningZones[..i] + runningZones[i + 1..];
      }
    }

    method FirstRunning(id: string) returns (i: nat)
      requires Valid()
      ensures i <= |runningZones| && forall j :: 0 <= j < i ==> securityZones[runningZones[j]].zoneIdent != id
      ensures i < |runningZones| ==> securityZones[runningZones[i]].zoneIdent == id
    {
      i := 0;
      while i < |runningZones|
        invariant i <= |runningZones| && forall j :: 0 <= j < i ==> securityZones[runningZones[j]].zoneIdent != id
      {
        if securityZones[runningZones[i]].zoneIdent == id {
          return;
        }
        i := i + 1;
      }
    }
  }

  lemma {:induction false} FirstErased(zones: seq<Zone>, r: seq<nat>, i: nat, ident: string)
    requires i <= |r| && (forall j :: 0 <= j < |r| ==> r[j] < |zones|) && forall j :: 0 <= j < i ==>
             zones[r[j]].ident != ident
    requires i < |r| ==> zones[r[i]].ident == ident
    ensures ErasedFirst(zones, r, ident) == if i < |r| then r[..i] + r[i + 1..] else r
    decreases i
  {
    if i > 0 {
      FirstErased(zones, r[1..], i - 1, ident);
      if i < |r| {
        assert r[..i] + r[i + 1..] == [r[0]] + (r[1..][..i - 1] + r[1..][i..]);
      }
    }
  }

  /** The pass over the rest, behind what has been passed. */
  ghost function Ahead(zones: seq<Zone>, r: seq<nat>, i: nat, now: int): Desk
    requires i <= |r| && forall j :: 0 <= j < |r| ==> r[j] < |zones|
  {
    var p := Pass(zones, r[i..], now);
    Desk(p.zones, r[..i] + p.running)
  }

  lemma NothingAhead(zones: seq<Zone>, r: seq<nat>, now: int)
    requires forall j :: 0 <= j < |r| ==> r[j] < |zones|
    ensures Ahead(zones, r, |r|, now) == Desk(zones, r)
  {
    assert r[|r|..] == [] && r[..|r|] + [] == r;
  }

  /** What one turn at position `i` does to the pass over the rest. */
  lemma TurnPasses(zones: seq<Zone>, r: seq<nat>, i: nat, now: int)
    requires i < |r| && forall j :: 0 <= j < |r| ==> r[j] < |zones|
    ensures var (z, over) := Second(zones[r[i]], now);
            var next, n := zones[r[i] := z], if over then r[..i] + r[i + 1..] else r;
            && (over && i == |r| - 1 ==> Ahead(zones, r, i, now) == Desk(next, n))
            && (!(over && i == |r| - 1) ==> Ahead(zones, r, i, now) == Ahead(next, n, i + 1, now))
  {
    hide Second;
    var (z, over) := Second(zones[r[i]], now);
    assert r[i..][0] == r[i] && r[i..][1..] == r[i + 1..];
    if !over {
      assert r[..i + 1] == r[..i] + [r[i]];
      var p := Pass(zones[r[i] := z], r[i + 1..], now);
      assert r[..i] + ([r[i]] + p.running) == r[..i + 1] + p.running;
    } else if i < |r| - 1 {
      var n := r[..i] + r[i + 1..];
      assert n[i + 1..] == r[i..][2..] && n[..i + 1] == r[..i] + [r[i..][1]];
      var p := Pass(zones[r[i] := z], n[i + 1..], now);
      assert r[..i] + ([r[i..][1]] + p.running) == n[..i + 1] + p.running;
    } else {
      assert r[..i] + r[i + 1..] == r[..i] && r[..i] + [] == r[..i];
    }
  }
}
