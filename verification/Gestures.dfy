/** Button gestures.  A press starts a tracker, ticks make it count, and a long press, a release or a second press
    ends it; the rules that fire are kept in a log. */
module Gestures {
  import opened Wrappers

  const SHORT_PIN_RULE := 50
  const DOUBLE_PIN_THRESHOLD := 80
  const LONG_PIN_RULE := 300

  /** What kinds of rules a pin has: the answers of `check_input`. */
  datatype Inputs = Inputs(normal: bool, shutter: bool, long: bool, double: bool)

  datatype RuleKind = Normal | Short | Long | Multi

  /** A call of `process_rule`; `active` is false for the rule at the end of a press. */
  datatype Fired = Fired(pin: nat, pushed: nat, kind: RuleKind, active: bool)

  datatype Tracker = Tracker(pin: nat, counter: nat, shortActive: bool, inactive: nat)

  function New(pin: nat): Tracker {
    Tracker(pin, 0, false, 0)
  }

  // ---------------------------------------------------------------- one tracker by itself

  /** One tick for a tracker: whether it goes on, and what fires. */
  function Count(t: Tracker, i: Inputs): (Option<Tracker>, seq<Fired>) {
    var t1 := t.(counter := t.counter + 1);
    if t1.inactive == 0 && t1.counter > SHORT_PIN_RULE && i.shutter && t1.counter == SHORT_PIN_RULE + 1 then
      (Some(t1.(shortActive := true)), [Fired(t.pin, 1, Short, true)])
    else if t1.inactive == 0 && t1.counter > SHORT_PIN_RULE && !i.shutter && !i.long then
      (None, [Fired(t.pin, 1, Short, true)])
    else if t1.inactive == 1 && t1.counter > DOUBLE_PIN_THRESHOLD then
      (None, [Fired(t.pin, 1, Normal, true)])
    else if t1.counter > LONG_PIN_RULE then
      (None, [Fired(t.pin, 1, Long, true)])
    else
      (Some(t1), [])
  }

  /** A release: the press is told by its length, or a second press is waited for, or there was none. */
  function Released(t: Tracker, i: Inputs): (Option<Tracker>, seq<Fired>) {
    if !i.double || t.shortActive then
      (None, if t.counter <= SHORT_PIN_RULE then [Fired(t.pin, 1, Normal, true)]
             else if t.counter < LONG_PIN_RULE then [Fired(t.pin, 1, Short, false)]
             else [Fired(t.pin, 1, Long, true)])
    else if t.counter < DOUBLE_PIN_THRESHOLD then (Some(t.(inactive := t.inactive + 1)), [])
    else (None, [])
  }

  datatype Step = Skipped | Counted | Press | Release

  /** The tracker of a pin, if there is one, after a step. */
  function PinStep(o: Option<Tracker>, s: Step, pin: nat, i: Inputs): (Option<Tracker>, seq<Fired>) {
    match s
    case Skipped => (o, [])
    case Counted => if o.Some? then Count(o.value, i) else (o, [])
    case Release => if o.Some? then Released(o.value, i) else (o, [])
    case Press =>
      if o.Some? then (None, [Fired(pin, 2, Multi, true)])
      else if i.normal then (None, [Fired(pin, 1, Normal, true)])
      else (Some(New(pin)), [])
  }

  /** What holds of every tracker between ticks. */
  predicate Sound(t: Tracker, i: Inputs) {
    && t.counter <= LONG_PIN_RULE
    && (t.inactive == 0 && !i.shutter && !i.long ==> t.counter <= SHORT_PIN_RULE)
    && (t.inactive == 1 ==> t.counter <= DOUBLE_PIN_THRESHOLD)
    && (t.shortActive ==> i.shutter && t.counter > SHORT_PIN_RULE)
    && (!i.double ==> t.inactive == 0)
  }

  lemma StepSound(o: Option<Tracker>, s: Step, pin: nat, i: Inputs)
    requires o.Some? ==> Sound(o.value, i) && o.value.pin == pin
    ensures var r := PinStep(o, s, pin, i).0; r.Some? ==> Sound(r.value, i) && r.value.pin == pin
  {
  }

  // ---------------------------------------------------------------- the life of a tracker

  /** How the life of a tracker ended: by which step, and what the tracker was like in front of it. */
  datatype Life = Life(alive: Option<Tracker>, fired: seq<Fired>, end: Step, last: Tracker, used: nat)

  /** The life of a tracker over the steps of its pin, up to its end. */
  function Live(t: Tracker, steps: seq<Step>, i: Inputs): (l: Life)
    ensures l.used <= |steps|
    decreases |steps|
  {
    if steps == [] then Life(Some(t), [], Skipped, t, 0)
    else
      var (o, fired) := PinStep(Some(t), steps[0], t.pin, i);
      if o.None? then Life(None, fired, steps[0], t, 1)
      else
        var rest := Live(o.value, steps[1..], i);
        rest.(fired := fired + rest.fired, used := rest.used + 1)
  }

  /** The tracker of a pin and its rules over any number of steps, with as many trackers one after the other as it
      takes. */
  function PinRun(o: Option<Tracker>, steps: seq<Step>, pin: nat, i: Inputs): (Option<Tracker>, seq<Fired>) {
    if steps == [] then (o, [])
    else
      var n := |steps| - 1;
      var before := PinRun(o, steps[..n], pin, i);
      var last := PinStep(before.0, steps[n], pin, i);
      (last.0, before.1 + last.1)
  }

  lemma {:induction false} PinRunFirst(o: Option<Tracker>, steps: seq<Step>, pin: nat, i: Inputs)
    requires steps != []
    ensures var first := PinStep(o, steps[0], pin, i);
            var rest := PinRun(first.0, steps[1..], pin, i);
            PinRun(o, steps, pin, i) == (rest.0, first.1 + rest.1)
    decreases |steps|
  {
    hide PinStep;
    var n := |steps| - 1;
    if n > 0 {
      PinRunFirst(o, steps[..n], pin, i);
      assert steps[..n][1..] == steps[1..][..n - 1];
      var first := PinStep(o, steps[0], pin, i);
      var middle := PinRun(first.0, steps[1..][..n - 1], pin, i);
      var last := PinStep(middle.0, steps[n], pin, i);
      assert first.1 + middle.1 + last.1 == first.1 + (middle.1 + last.1);
    } else {
      var first := PinStep(o, steps[0], pin, i);
      assert steps[..0] == [] && steps[1..] == [];
      assert [] + first.1 == first.1 == first.1 + [];
      assert PinRun(o, [], pin, i) == (o, []);
    }
  }

  /** The life of a tracker is what the run of its pin does up to its end. */
  lemma {:induction false} LifeIsRun(t: Tracker, steps: seq<Step>, i: Inputs)
    requires Sound(t, i)
    ensures var l := Live(t, steps, i);
            PinRun(Some(t), steps[..l.used], t.pin, i) == (l.alive, l.fired) && (l.alive.Some? ==> l.used == |steps|)
    decreases |steps|
  {
    var l := Live(t, steps, i);
    if steps != [] {
      var (o, fired) := PinStep(Some(t), steps[0], t.pin, i);
      StepSound(Some(t), steps[0], t.pin, i);
      PinRunFirst(Some(t), steps[..l.used], t.pin, i);
      hide PinStep;
      if o.Some? {
        LifeIsRun(o.value, steps[1..], i);
        assert steps[..l.used][1..] == steps[1..][..l.used - 1];
      } else {
        assert steps[..1][1..] == [];
        assert PinRun(o, [], t.pin, i) == (o, []) && fired + [] == fired;
      }
    }
  }

  /** The rule that a press is told by, if the pin has no rule for double presses. */
  function Verdict(pin: nat, i: Inputs, end: Step, count: nat): Fired {
    if end == Press then Fired(pin, 2, Multi, true)
    else if end == Counted then Fired(pin, 1, if i.long then Long else Short, true)
    else if count <= SHORT_PIN_RULE then Fired(pin, 1, Normal, true)
    else if count < LONG_PIN_RULE then Fired(pin, 1, Short, false)
    else Fired(pin, 1, Long, true)
  }

  /** A tracker of a pin that is not for shutters fires at most one rule in its life, and none before its end.  Without
      a rule for double presses it fires exactly one at its end: the length of the press decides which. */
  lemma {:induction false} OneRule(t: Tracker, steps: seq<Step>, i: Inputs)
    requires Sound(t, i) && !i.shutter
    ensures var l := Live(t, steps, i);
            && |l.fired| <= 1 && (l.alive.Some? ==> l.fired == []) && l.last.counter <= LONG_PIN_RULE
            && (!i.double && l.alive.None? ==> l.fired == [Verdict(t.pin, i, l.end, l.last.counter)])
            && (!i.double && l.alive.None? && l.end == Counted ==>
                  l.last.counter == if i.long then LONG_PIN_RULE else SHORT_PIN_RULE)
            && (!i.double && !i.long ==> l.last.counter <= SHORT_PIN_RULE)
    decreases |steps|
  {
    if steps != [] {
      var (o, fired) := PinStep(Some(t), steps[0], t.pin, i);
      StepSound(Some(t), steps[0], t.pin, i);
      if o.Some? {
        OneRule(o.value, steps[1..], i);
      }
    }
  }

  /** A tracker that has fired the rule of a shutter stays one that has. */
  lemma {:induction false} ActiveStays(t: Tracker, steps: seq<Step>, i: Inputs)
    requires t.shortActive
    ensures Live(t, steps, i).last.shortActive
    decreases |steps|
  {
    if steps != [] {
      var o := PinStep(Some(t), steps[0], t.pin, i).0;
      if o.Some? {
        ActiveStays(o.value, steps[1..], i);
      }
    }
  }

  /** Exactly the presses of a pin with a rule for double presses that are released once the time for a second press is
      over fire nothing at all, unless the pin is for shutters and has fired its first rule already. */
  lemma {:induction false} SilentExactly(t: Tracker, steps: seq<Step>, i: Inputs)
    requires Sound(t, i) && Live(t, steps, i).alive.None?
    ensures var l := Live(t, steps, i);
            var late := l.last.counter >= DOUBLE_PIN_THRESHOLD && !l.last.shortActive;
            l.fired == [] <==> i.double && l.end == Release && late
    decreases |steps|
  {
    if steps != [] {
      var (o, fired) := PinStep(Some(t), steps[0], t.pin, i);
      StepSound(Some(t), steps[0], t.pin, i);
      if o.Some? {
        assert fired != [] ==> o.value.shortActive;
        if fired != [] {
          ActiveStays(o.value, steps[1..], i);
        }
        SilentExactly(o.value, steps[1..], i);
      }
    }
  }

  // ---------------------------------------------------------------- which rule a press is told by

  /** How often a step occurs. */
  function Tally(steps: seq<Step>, x: Step): nat {
    if steps == [] then 0 else (if steps[0] == x then 1 else 0) + Tally(steps[1..], x)
  }

  /** A button for shutters that has been held for `n` ticks and not been released yet has fired its first rule. */
  predicate FirstFired(i: Inputs, n: nat, releases: nat) {
    i.shutter && releases == 0 && n > SHORT_PIN_RULE
  }

  /** The rules of a whole press, by what happened to the button: for how many ticks it was counted, how often it was
      released in that time, and what ended it. */
  function PressRules(pin: nat, i: Inputs, end: Step, n: nat, releases: nat): seq<Fired> {
    (if FirstFired(i, n, releases) then [Fired(pin, 1, Short, true)] else [])
    + match end
      case Press => [Fired(pin, 2, Multi, true)]
      case Release =>
        if i.double && !FirstFired(i, n, releases) then []
        else if n <= SHORT_PIN_RULE then [Fired(pin, 1, Normal, true)]
        else if n < LONG_PIN_RULE then [Fired(pin, 1, Short, false)]
        else [Fired(pin, 1, Long, true)]
      case _ =>
        if releases == 1 then [Fired(pin, 1, Normal, true)]
        else if releases == 0 && !i.shutter && !i.long then [Fired(pin, 1, Short, true)]
        else [Fired(pin, 1, Long, true)]
  }

  /** When a press can end: a release ends it unless a second press is waited for, which is so for releases before tick
      80; and a tick ends it when the time for that, for a short press or for a long one is over. */
  predicate PressEnds(i: Inputs, end: Step, n: nat, releases: nat) {
    match end
    case Press => true
    case Release => !i.double || FirstFired(i, n, releases) || n >= DOUBLE_PIN_THRESHOLD
    case _ =>
      n == if releases == 1 then DOUBLE_PIN_THRESHOLD
           else if releases == 0 && !i.shutter && !i.long then SHORT_PIN_RULE else LONG_PIN_RULE
  }

  /** The mark of a tracker says whether its first rule has fired. */
  predicate Marked(t: Tracker, i: Inputs) {
    t.shortActive <==> FirstFired(i, t.counter, t.inactive)
  }

  lemma TallyFirst(x: Step, steps: seq<Step>, y: Step)
    ensures Tally([x] + steps, y) == (if x == y then 1 else 0) + Tally(steps, y)
  {
    assert ([x] + steps)[1..] == steps;
  }

  /** One step that a tracker survives. */
  lemma StepTally(t: Tracker, x: Step, i: Inputs)
    requires Sound(t, i) && Marked(t, i) && x != Skipped
    ensures var (o, fired) := PinStep(Some(t), x, t.pin, i);
            if o.Some? then
              && Sound(o.value, i) && Marked(o.value, i) && o.value.pin == t.pin && x != Press
              && o.value.counter == t.counter + (if x == Counted then 1 else 0)
              && o.value.inactive == t.inactive + (if x == Release then 1 else 0)
              && fired == if o.value.shortActive && !t.shortActive then [Fired(t.pin, 1, Short, true)] else []
            else
              && PressEnds(i, x, t.counter, t.inactive)
              && PressRules(t.pin, i, x, t.counter, t.inactive) == Before(t) + fired
  {
  }

  /** The rule that a tracker with a mark has fired before. */
  function Before(t: Tracker): seq<Fired> {
    if t.shortActive then [Fired(t.pin, 1, Short, true)] else []
  }

  /** The steps `b` in front of the end have no press among them, and with them the rules are those of the press. */
  predicate Told(t: Tracker, i: Inputs, b: seq<Step>, end: Step, fired: seq<Fired>) {
    var n, r := t.counter + Tally(b, Counted), t.inactive + Tally(b, Release);
    Press !in b && PressEnds(i, end, n, r) && PressRules(t.pin, i, end, n, r) == Before(t) + fired
  }

  lemma ToldMore(t: Tracker, n: Tracker, i: Inputs, x: Step, fired: seq<Fired>, b: seq<Step>, end: Step,
                 rest: seq<Fired>)
    requires Told(n, i, b, end, rest) && n.pin == t.pin && x != Press && (t.shortActive ==> n.shortActive)
    requires n.counter == t.counter + (if x == Counted then 1 else 0)
    requires n.inactive == t.inactive + (if x == Release then 1 else 0)
    requires fired == if n.shortActive && !t.shortActive then [Fired(t.pin, 1, Short, true)] else []
    ensures Told(t, i, [x] + b, end, fired + rest)
  {
    hide PressRules, PressEnds, Tally;
    TallyFirst(x, b, Counted);
    TallyFirst(x, b, Release);
    assert Before(n) == Before(t) + fired;
    assert Before(n) + rest == Before(t) + (fired + rest);
  }

  lemma ToldAtOnce(t: Tracker, i: Inputs, end: Step, fired: seq<Fired>)
    requires PressEnds(i, end, t.counter, t.inactive)
    requires PressRules(t.pin, i, end, t.counter, t.inactive) == Before(t) + fired
    ensures Told(t, i, [], end, fired)
  {
  }

  /** What has happened to the button up to the end of its tracker. */
  lemma {:induction false} LifeTold(t: Tracker, steps: seq<Step>, i: Inputs)
    requires Sound(t, i) && Marked(t, i) && Skipped !in steps && Live(t, steps, i).alive.None?
    ensures var l := Live(t, steps, i);
            l.used > 0 && l.end == steps[l.used - 1] && Told(t, i, steps[..l.used - 1], l.end, l.fired)
    decreases |steps|
  {
    if steps != [] {
      StepTally(t, steps[0], i);
      var (o, fired) := PinStep(Some(t), steps[0], t.pin, i);
      if o.Some? {
        StillMarked(t, o.value, i, steps[0]);
        hide PinStep, Sound, Marked, PressRules, PressEnds, Told;
        LifeTold(o.value, steps[1..], i);
        var rest := Live(o.value, steps[1..], i);
        ToldMore(t, o.value, i, steps[0], fired, steps[1..][..rest.used - 1], rest.end, rest.fired);
        assert steps[..rest.used] == [steps[0]] + steps[1..][..rest.used - 1];
      } else {
        hide PinStep, Sound, Marked, PressRules, PressEnds, Told;
        ToldAtOnce(t, i, steps[0], fired);
        assert steps[..0] == [];
      }
    }
  }

  /** A mark is never taken back. */
  lemma StillMarked(t: Tracker, n: Tracker, i: Inputs, x: Step)
    requires PinStep(Some(t), x, t.pin, i).0 == Some(n)
    ensures t.shortActive ==> n.shortActive
  {
  }

  /** Which rules a press fires, for every button, whatever happens to it: they depend only on for how many ticks it was
      counted, how often it was released in that time, and what ended it.  So with a rule for double presses it is
      Normal when one release in time is followed by no second press, and Multi when one comes; and a button for
      shutters fires Short when it has been held for 51 ticks, and Short or Long once more when it is released. */
  lemma PressTold(pin: nat, steps: seq<Step>, i: Inputs)
    requires Live(New(pin), steps, i).alive.None? && Skipped !in steps
    ensures var l := Live(New(pin), steps, i);
            l.used > 0
            && var b := steps[..l.used - 1];
               var n, r := Tally(b, Counted), Tally(b, Release);
               && Press !in b && l.end == steps[l.used - 1] && PressEnds(i, l.end, n, r)
               && l.fired == PressRules(pin, i, l.end, n, r)
  {
    hide Live, PressEnds, PressRules;
    LifeTold(New(pin), steps, i);
    assert [] + Live(New(pin), steps, i).fired == Live(New(pin), steps, i).fired;
  }

  function Counts(n: nat): seq<Step> {
    seq(n, _ => Counted)
  }

  /** For how many ticks a button can be held, or waited for, before something happens. */
  function Limit(i: Inputs, released: bool): nat {
    if released then DOUBLE_PIN_THRESHOLD else if i.long && !i.shutter then LONG_PIN_RULE else SHORT_PIN_RULE
  }

  lemma LiveOn(t: Tracker, x: Step, rest: seq<Step>, i: Inputs, n: Tracker)
    requires PinStep(Some(t), x, t.pin, i) == (Some(n), [])
    ensures var l := Live(n, rest, i); Live(t, [x] + rest, i) == l.(used := l.used + 1)
  {
    hide PinStep;
    var l := Live(n, rest, i);
    assert ([x] + rest)[1..] == rest && [] + l.fired == l.fired;
  }

  lemma LiveOver(t: Tracker, x: Step, i: Inputs, fired: seq<Fired>)
    requires PinStep(Some(t), x, t.pin, i) == (None, fired)
    ensures Live(t, [x], i) == Life(None, fired, x, t, 1)
  {
    hide PinStep;
  }

  lemma {:induction false} CountedOn(t: Tracker, n: nat, rest: seq<Step>, i: Inputs)
    requires t.inactive <= 1 && !t.shortActive && t.counter + n <= Limit(i, t.inactive == 1)
    ensures var l := Live(t.(counter := t.counter + n), rest, i);
            Live(t, Counts(n) + rest, i) == l.(used := l.used + n)
    decreases n
  {
    hide Live;
    var steps := Counts(n) + rest;
    if n > 0 {
      var next := t.(counter := t.counter + 1);
      assert steps == [Counted] + (Counts(n - 1) + rest);
      LiveOn(t, Counted, Counts(n - 1) + rest, i, next);
      CountedOn(next, n - 1, rest, i);
    } else {
      assert steps == rest;
    }
  }

  /** A button that is held: after 51 ticks it fires Short, and goes on if it is for shutters; with a rule for long
      presses and none for shutters it fires Long after 301. */
  lemma HeldDown(pin: nat, i: Inputs)
    ensures var l := Live(New(pin), Counts(Limit(i, false)) + [Counted], i);
            && (i.shutter ==> l.alive.Some? && l.fired == [Fired(pin, 1, Short, true)] && l.used == 51)
            && (!i.shutter && !i.long ==> l.alive.None? && l.fired == [Fired(pin, 1, Short, true)] && l.used == 51)
            && (!i.shutter && i.long ==> l.alive.None? && l.fired == [Fired(pin, 1, Long, true)] && l.used == 301)
  {
    var t := New(pin).(counter := Limit(i, false));
    CountedOn(New(pin), Limit(i, false), [Counted], i);
    assert [Counted][1..] == [];
    assert Live(t, [Counted], i).fired == PinStep(Some(t), Counted, pin, i).1 + [];
  }

  /** The tracker behind the first release waits for a second press. */
  lemma Waits(pin: nat, i: Inputs, n: nat, m: nat, end: Step)
    requires i.double && n < DOUBLE_PIN_THRESHOLD && n <= Limit(i, false) && n + m <= DOUBLE_PIN_THRESHOLD
    ensures var l := Live(Tracker(pin, n + m, false, 1), [end], i);
            Live(New(pin), Counts(n) + ([Release] + (Counts(m) + [end])), i) == l.(used := l.used + n + 1 + m)
  {
    hide Live, Counts;
    var t, waiting := New(pin).(counter := n), Tracker(pin, n, false, 1);
    var rest := Counts(m) + [end];
    CountedOn(New(pin), n, [Release] + rest, i);
    LiveOn(t, Release, rest, i, waiting);
    CountedOn(waiting, m, [end], i);
  }

  /** A button with a rule for double presses, released in time: Normal when no second press comes up to tick 81. */
  lemma ReleasedOnce(pin: nat, i: Inputs, n: nat)
    requires i.double && n < DOUBLE_PIN_THRESHOLD && n <= Limit(i, false)
    ensures var l := Live(New(pin), Counts(n) + ([Release] + (Counts(80 - n) + [Counted])), i);
            l.alive.None? && l.fired == [Fired(pin, 1, Normal, true)] && l.used == 82
  {
    hide Live, Counts;
    Waits(pin, i, n, 80 - n, Counted);
    LiveOver(Tracker(pin, 80, false, 1), Counted, i, [Fired(pin, 1, Normal, true)]);
  }

  /** And Multi when one comes up to then. */
  lemma PressedTwice(pin: nat, i: Inputs, n: nat, m: nat)
    requires i.double && n < DOUBLE_PIN_THRESHOLD && n <= Limit(i, false) && n + m <= DOUBLE_PIN_THRESHOLD
    ensures var l := Live(New(pin), Counts(n) + ([Release] + (Counts(m) + [Press])), i);
            l.alive.None? && l.fired == [Fired(pin, 2, Multi, true)]
  {
    hide Live, Counts;
    Waits(pin, i, n, m, Press);
    LiveOver(Tracker(pin, n + m, false, 1), Press, i, [Fired(pin, 2, Multi, true)]);
  }

  /** A button with rules for double and for long presses, held for longer than a second press may take but not long
      enough: such presses do happen. */
  lemma {:induction false} HeldInVain(t: Tracker, n: nat)
    requires t.inactive == 0 && !t.shortActive && DOUBLE_PIN_THRESHOLD <= t.counter + n <= LONG_PIN_RULE
    ensures var l := Live(t, Counts(n) + [Release], Inputs(false, false, true, true));
            l.alive.None? && l.fired == []
    decreases n
  {
    var steps := Counts(n) + [Release];
    if n > 0 {
      assert steps[0] == Counted && steps[1..] == Counts(n - 1) + [Release];
      HeldInVain(t.(counter := t.counter + 1), n - 1);
    } else {
      assert steps == [Release];
    }
  }

  // ---------------------------------------------------------------- all trackers

  predicate Distinct(r: seq<Tracker>) {
    forall a, b :: 0 <= a < b < |r| ==> r[a].pin != r[b].pin
  }

  predicate AllSound(r: seq<Tracker>, pins: seq<Inputs>) {
    forall k :: 0 <= k < |r| ==> r[k].pin < |pins| && Sound(r[k], pins[r[k].pin])
  }

  /** One pass over the trackers: behind a tracker that ends, the next one misses the tick. */
  function Pass(r: seq<Tracker>, pins: seq<Inputs>): (seq<Tracker>, seq<Fired>)
    requires forall k :: 0 <= k < |r| ==> r[k].pin < |pins|
  {
    if r == [] then ([], [])
    else
      var (o, fired) := Count(r[0], pins[r[0].pin]);
      if o.Some? then
        var rest := Pass(r[1..], pins);
        ([o.value] + rest.0, fired + rest.1)
      else if |r| == 1 then ([], fired)
      else
        var rest := Pass(r[2..], pins);
        ([r[1]] + rest.0, fired + rest.1)
  }

  /** The tracker of a pin. */
  function Lookup(r: seq<Tracker>, pin: nat): Option<Tracker> {
    if r == [] then None else if r[0].pin == pin then Some(r[0]) else Lookup(r[1..], pin)
  }

  /** Without the first tracker of a pin. */
  function Without(r: seq<Tracker>, pin: nat): seq<Tracker> {
    if r == [] then [] else if r[0].pin == pin then r[1..] else [r[0]] + Without(r[1..], pin)
  }

  /** The first tracker of a pin replaced. */
  function Replaced(r: seq<Tracker>, t: Tracker): seq<Tracker> {
    if r == [] then [] else if r[0].pin == t.pin then [t] + r[1..] else [r[0]] + Replaced(r[1..], t)
  }

  datatype Event = Tick | Pressed(pin: nat) | ReleasedPin(pin: nat)

  predicate Allowed(e: Event, pins: seq<Inputs>) {
    e.Tick? || e.pin < |pins|
  }

  /** The trackers after an event, and what fires. */
  function Next(r: seq<Tracker>, e: Event, pins: seq<Inputs>): (seq<Tracker>, seq<Fired>)
    requires AllSound(r, pins) && Allowed(e, pins)
  {
    match e
    case Tick => Pass(r, pins)
    case Pressed(pin) =>
      var (o, fired) := PinStep(Lookup(r, pin), Press, pin, pins[pin]);
      (if o.Some? then r + [o.value] else Without(r, pin), fired)
    case ReleasedPin(pin) =>
      var (o, fired) := PinStep(Lookup(r, pin), Release, pin, pins[pin]);
      (if o.Some? then Replaced(r, o.value) else Without(r, pin), fired)
  }

  /** A press of a button with a rule of its own kind fires at once, and no tracker is started; a press of any other
      button that has no tracker starts one at the end, with nothing counted, and fires nothing. */
  lemma PressStarts(r: seq<Tracker>, pin: nat, pins: seq<Inputs>)
    requires AllSound(r, pins) && pin < |pins| && Lookup(r, pin).None?
    ensures Next(r, Pressed(pin), pins)
         == if pins[pin].normal then (r, [Fired(pin, 1, Normal, true)]) else (r + [Tracker(pin, 0, false, 0)], [])
  {
    hide Sound;
    WithoutNone(r, pin);
  }

  lemma {:induction false} WithoutNone(r: seq<Tracker>, pin: nat)
    requires Lookup(r, pin).None?
    ensures Without(r, pin) == r
    decreases |r|
  {
    if r != [] {
      WithoutNone(r[1..], pin);
    }
  }

  // ---------------------------------------------------------------- the trackers keep out of each other's way

  /** The rules that fire for a pin. */
  function Of(fired: seq<Fired>, pin: nat): seq<Fired> {
    if fired == [] then []
    else Of(fired[..|fired| - 1], pin) + if fired[|fired| - 1].pin == pin then [fired[|fired| - 1]] else []
  }

  lemma {:induction false} OfConcat(a: seq<Fired>, b: seq<Fired>, pin: nat)
    ensures Of(a + b, pin) == Of(a, pin) + Of(b, pin)
    decreases |b|
  {
    if b == [] {
      assert a + b == a;
    } else {
      assert (a + b)[..|a + b| - 1] == a + b[..|b| - 1];
      OfConcat(a, b[..|b| - 1], pin);
    }
  }

  lemma OfOwn(fired: seq<Fired>, pin: nat, p: nat)
    requires |fired| <= 1 && forall k :: 0 <= k < |fired| ==> fired[k].pin == pin
    ensures Of(fired, p) == if pin == p then fired else []
  {
    if fired != [] {
      assert fired[..0] == [];
    }
  }

  lemma CountOwn(t: Tracker, i: Inputs)
    ensures var (o, fired) := Count(t, i);
            |fired| <= 1 && (forall k :: 0 <= k < |fired| ==> fired[k].pin == t.pin)
                && (o.Some? ==> o.value.pin == t.pin)
  {
  }

  /** Whether the tracker of a pin is counted in the pass. */
  predicate Reached(r: seq<Tracker>, pin: nat, pins: seq<Inputs>)
    requires forall k :: 0 <= k < |r| ==> r[k].pin < |pins|
  {
    r != []
    && (r[0].pin == pin
        || if Count(r[0], pins[r[0].pin]).0.Some? then Reached(r[1..], pin, pins)
           else |r| > 1 && r[1].pin != pin && Reached(r[2..], pin, pins))
  }

  lemma {:induction false} LookupAbsent(r: seq<Tracker>, pin: nat)
    ensures Lookup(r, pin).None? <==> forall k :: 0 <= k < |r| ==> r[k].pin != pin
    ensures Lookup(r, pin).Some? ==> Lookup(r, pin).value.pin == pin && Lookup(r, pin).value in r
  {
    if r != [] {
      LookupAbsent(r[1..], pin);
    }
  }

  lemma {:induction false} PassPins(r: seq<Tracker>, pins: seq<Inputs>, pin: nat)
    requires AllSound(r, pins) && forall k :: 0 <= k < |r| ==> r[k].pin != pin
    ensures forall k :: 0 <= k < |Pass(r, pins).0| ==> Pass(r, pins).0[k].pin != pin
    ensures Of(Pass(r, pins).1, pin) == []
    decreases |r|
  {
    hide Count, Sound, Of, Pass;
    PassNothing(pins, pin);
    if r != [] {
      CountOwn(r[0], pins[r[0].pin]);
      var (o, fired) := Count(r[0], pins[r[0].pin]);
      OfOwn(fired, r[0].pin, pin);
      PassUnfold(r, pins);
      if o.Some? {
        PassPins(r[1..], pins, pin);
        OfConcat(fired, Pass(r[1..], pins).1, pin);
      } else if |r| > 1 {
        PassPins(r[2..], pins, pin);
        OfConcat(fired, Pass(r[2..], pins).1, pin);
      }
    }
  }

  lemma PassNothing(pins: seq<Inputs>, pin: nat)
    ensures Pass([], pins) == ([], []) && Of([], pin) == []
  {
  }

  lemma LookupSecond(r: seq<Tracker>, pin: nat)
    requires |r| > 1 && r[0].pin != pin && r[1].pin != pin
    ensures Lookup(r, pin) == Lookup(r[2..], pin)
  {
    assert r[1..][1..] == r[2..];
    assert Lookup(r[1..], pin) == Lookup(r[2..], pin);
  }

  /** A tracker of another pin in front makes no difference. */
  lemma OtherInFront(t: Tracker, fired: seq<Fired>, rest: (seq<Tracker>, seq<Fired>), pin: nat)
    requires t.pin != pin && Of(fired, pin) == []
    ensures (Lookup([t] + rest.0, pin), Of(fired + rest.1, pin)) == (Lookup(rest.0, pin), Of(rest.1, pin))
  {
    OfConcat(fired, rest.1, pin);
    assert [] + Of(rest.1, pin) == Of(rest.1, pin);
  }

  /** How many trackers directly in front of number `n` end in this tick, if they are counted. */
  function EndingRun(r: seq<Tracker>, pins: seq<Inputs>, n: nat): (l: nat)
    requires n <= |r| && forall k :: 0 <= k < |r| ==> r[k].pin < |pins|
    ensures l <= n
  {
    if n == 0 || Count(r[n - 1], pins[r[n - 1].pin]).0.Some? then 0 else 1 + EndingRun(r, pins, n - 1)
  }

  /** Without the first `j` trackers the run is as long, unless it begins among them. */
  lemma {:induction false} EndingBehind(r: seq<Tracker>, pins: seq<Inputs>, n: nat, j: nat)
    requires j <= n <= |r| && forall k :: 0 <= k < |r| ==> r[k].pin < |pins|
    ensures var l := EndingRun(r[j..], pins, n - j);
            EndingRun(r, pins, n) == if l < n - j then l else n - j + EndingRun(r, pins, j)
    decreases n
  {
    hide Count;
    if n > j {
      EndingBehind(r, pins, n - 1, j);
    }
  }

  /** The tracker of a pin is counted if and only if the run of trackers directly in front of it that end in this tick
      is even: each that ends makes the pass miss the next one. */
  lemma {:induction false} ReachedExactly(r: seq<Tracker>, pins: seq<Inputs>, pin: nat)
    requires (forall k :: 0 <= k < |r| ==> r[k].pin < |pins|) && Index(r, pin) < |r|
    ensures Reached(r, pin, pins) <==> EndingRun(r, pins, Index(r, pin)) % 2 == 0
    decreases |r|
  {
    hide Count, Reached;
    var n := Index(r, pin);
    ReachedUnfold(r, pins, pin);
    if r[0].pin != pin {
      hide Index;
      EndingFirst(r, pins);
      hide EndingRun;
      if Count(r[0], pins[r[0].pin]).0.Some? {
        ReachedExactly(r[1..], pins, pin);
        EndingBehind(r, pins, n, 1);
      } else if r[1].pin != pin {
        ReachedExactly(r[2..], pins, pin);
        EndingBehind(r, pins, n, 2);
      }
    }
  }

  lemma ReachedUnfold(r: seq<Tracker>, pins: seq<Inputs>, pin: nat)
    requires (forall k :: 0 <= k < |r| ==> r[k].pin < |pins|) && Index(r, pin) < |r|
    ensures r[0].pin == pin ==> Index(r, pin) == 0 && Reached(r, pin, pins)
    ensures r[0].pin != pin ==> |r| > 1 && Index(r, pin) == 1 + Index(r[1..], pin)
    ensures r[0].pin != pin && Count(r[0], pins[r[0].pin]).0.Some? ==>
            Reached(r, pin, pins) == Reached(r[1..], pin, pins)
    ensures r[0].pin != pin && Count(r[0], pins[r[0].pin]).0.None? && r[1].pin == pin ==>
            Index(r, pin) == 1 && !Reached(r, pin, pins)
    ensures r[0].pin != pin && Count(r[0], pins[r[0].pin]).0.None? && r[1].pin != pin ==>
            Index(r, pin) == 2 + Index(r[2..], pin) && Reached(r, pin, pins) == Reached(r[2..], pin, pins)
  {
    hide Count;
    if |r| > 1 {
      assert r[1..][1..] == r[2..];
    }
  }

  /** The run in front of the first three trackers. */
  lemma EndingFirst(r: seq<Tracker>, pins: seq<Inputs>)
    requires |r| > 1 && forall k :: 0 <= k < |r| ==> r[k].pin < |pins|
    ensures var a, b := Count(r[0], pins[r[0].pin]).0, Count(r[1], pins[r[1].pin]).0;
            && EndingRun(r, pins, 0) == 0
            && EndingRun(r, pins, 1) == (if a.Some? then 0 else 1)
            && (a.None? ==> EndingRun(r, pins, 2) == if b.Some? then 0 else 2)
  {
    hide Count;
  }

  /** The input for a missed tick: two buttons held for as long, and the tick that ends the first press is not counted
      for the second. */
  lemma SecondMissed(i: Inputs)
    requires !i.shutter && !i.long
    ensures var r, pins := [Tracker(0, SHORT_PIN_RULE, false, 0), Tracker(1, SHORT_PIN_RULE, false, 0)], [i, i];
            && Reached(r, 0, pins) && !Reached(r, 1, pins)
            && Pass(r, pins) == ([r[1]], [Fired(0, 1, Short, true)])
  {
    var r, pins := [Tracker(0, SHORT_PIN_RULE, false, 0), Tracker(1, SHORT_PIN_RULE, false, 0)], [i, i];
    var first := Count(r[0], i);
    assert first == (None, [Fired(0, 1, Short, true)]);
    assert pins[r[0].pin] == i && r[2..] == [];
    assert Pass(r[2..], pins) == ([], []);
    assert [r[1]] + [] == [r[1]] && first.1 + [] == first.1;
  }

  /** In a pass the tracker of a pin does what it would do alone: it is counted, or the tick misses it. */
  lemma {:induction false} PassProjects(r: seq<Tracker>, pins: seq<Inputs>, pin: nat)
    requires AllSound(r, pins) && Distinct(r) && pin < |pins|
    ensures var (n, fired) := Pass(r, pins);
            (Lookup(n, pin), Of(fired, pin))
            == PinStep(Lookup(r, pin), if Reached(r, pin, pins) then Counted else Skipped, pin, pins[pin])
    decreases |r|
  {
    hide Count, Sound;
    if r != [] {
      CountOwn(r[0], pins[r[0].pin]);
      var (o, fired) := Count(r[0], pins[r[0].pin]);
      OfOwn(fired, r[0].pin, pin);
      if r[0].pin == pin {
        OwnProjects(r, pins, pin);
      } else if o.None? && |r| > 1 && r[1].pin == pin {
        MissedProjects(r, pins, pin);
      } else if o.Some? {
        OtherInFront(o.value, fired, Pass(r[1..], pins), pin);
        PassProjects(r[1..], pins, pin);
        hide Of, PinStep;
      } else if |r| > 1 {
        OtherInFront(r[1], fired, Pass(r[2..], pins), pin);
        PassProjects(r[2..], pins, pin);
        LookupSecond(r, pin);
        hide Of, PinStep;
      }
    }
  }

  /** The pin's own tracker is the next one. */
  lemma OwnProjects(r: seq<Tracker>, pins: seq<Inputs>, pin: nat)
    requires AllSound(r, pins) && Distinct(r) && pin < |pins| && r != [] && r[0].pin == pin
    ensures var (n, fired) := Pass(r, pins);
            (Lookup(n, pin), Of(fired, pin)) == PinStep(Lookup(r, pin), Counted, pin, pins[pin])
  {
    hide Count, Sound, Pass, Of, Reached;
    CountOwn(r[0], pins[r[0].pin]);
    var (o, fired) := Count(r[0], pins[r[0].pin]);
    OfOwn(fired, r[0].pin, pin);
    PassUnfold(r, pins);
    if o.Some? {
      PassPins(r[1..], pins, pin);
      OwnInFront(o.value, fired, Pass(r[1..], pins), pin);
    } else if |r| > 1 {
      PassPins(r[2..], pins, pin);
      AbsentBehind(r[1], fired, Pass(r[2..], pins), pin);
    }
  }

  lemma PassUnfold(r: seq<Tracker>, pins: seq<Inputs>)
    requires AllSound(r, pins) && r != []
    ensures var (o, fired) := Count(r[0], pins[r[0].pin]);
            && (o.Some? ==> Pass(r, pins) == ([o.value] + Pass(r[1..], pins).0, fired + Pass(r[1..], pins).1))
            && (o.None? && |r| == 1 ==> Pass(r, pins) == ([], fired))
            && (o.None? && |r| > 1 ==> Pass(r, pins) == ([r[1]] + Pass(r[2..], pins).0, fired + Pass(r[2..], pins).1))
  {
    hide Count, Sound;
  }

  lemma OwnInFront(t: Tracker, fired: seq<Fired>, rest: (seq<Tracker>, seq<Fired>), pin: nat)
    requires t.pin == pin && Of(rest.1, pin) == []
    ensures (Lookup([t] + rest.0, pin), Of(fired + rest.1, pin)) == (Some(t), Of(fired, pin))
  {
    OfConcat(fired, rest.1, pin);
    assert Of(fired, pin) + [] == Of(fired, pin);
  }

  lemma AbsentBehind(t: Tracker, fired: seq<Fired>, rest: (seq<Tracker>, seq<Fired>), pin: nat)
    requires t.pin != pin && Of(rest.1, pin) == [] && forall k :: 0 <= k < |rest.0| ==> rest.0[k].pin != pin
    ensures (Lookup([t] + rest.0, pin), Of(fired + rest.1, pin)) == (None, Of(fired, pin))
  {
    LookupAbsent(rest.0, pin);
    OfConcat(fired, rest.1, pin);
    assert Of(fired, pin) + [] == Of(fired, pin);
  }

  /** It stands behind one that ends, and the tick misses it. */
  lemma MissedProjects(r: seq<Tracker>, pins: seq<Inputs>, pin: nat)
    requires AllSound(r, pins) && Distinct(r) && pin < |pins| && |r| > 1
    requires r[0].pin != pin && Count(r[0], pins[r[0].pin]).0.None? && r[1].pin == pin
    ensures var (n, fired) := Pass(r, pins);
            Lookup(n, pin) == Lookup(r, pin) && Of(fired, pin) == [] && !Reached(r, pin, pins)
  {
    hide Count, Sound;
    CountOwn(r[0], pins[r[0].pin]);
    var fired := Count(r[0], pins[r[0].pin]).1;
    OfOwn(fired, r[0].pin, pin);
    PassPins(r[2..], pins, pin);
    OwnInFront(r[1], fired, Pass(r[2..], pins), pin);
    hide Of;
  }

  lemma {:induction false} PassKeeps(r: seq<Tracker>, pins: seq<Inputs>)
    requires AllSound(r, pins) && Distinct(r)
    ensures AllSound(Pass(r, pins).0, pins) && Distinct(Pass(r, pins).0) && |Pass(r, pins).0| <= |r|
    decreases |r|
  {
    hide Count;
    if r != [] {
      var i := pins[r[0].pin];
      CountOwn(r[0], i);
      CountSound(r[0], i);
      var o := Count(r[0], i).0;
      if o.Some? {
        PassKeeps(r[1..], pins);
        PassPins(r[1..], pins, r[0].pin);
      } else if |r| > 1 {
        PassKeeps(r[2..], pins);
        PassPins(r[2..], pins, r[1].pin);
      }
    }
  }

  lemma CountSound(t: Tracker, i: Inputs)
    requires Sound(t, i)
    ensures Count(t, i).0.Some? ==> Sound(Count(t, i).0.value, i)
  {
    StepSound(Some(t), Counted, t.pin, i);
  }

  /** The step that an event is for a pin. */
  function StepOf(r: seq<Tracker>, e: Event, pin: nat, pins: seq<Inputs>): Step
    requires AllSound(r, pins)
  {
    match e
    case Tick => if Reached(r, pin, pins) then Counted else Skipped
    case Pressed(p) => if p == pin then Press else Skipped
    case ReleasedPin(p) => if p == pin then Release else Skipped
  }

  lemma {:induction false} LookupAppend(r: seq<Tracker>, t: Tracker, pin: nat)
    ensures Lookup(r + [t], pin) == if Lookup(r, pin).Some? then Lookup(r, pin) else if t.pin == pin then Some(t)
            else None
  {
    if r != [] {
      assert (r + [t])[1..] == r[1..] + [t];
      LookupAppend(r[1..], t, pin);
    } else {
      assert r + [t] == [t];
    }
  }

  lemma {:induction false} LookupWithout(r: seq<Tracker>, p: nat, pin: nat)
    requires Distinct(r)
    ensures Lookup(Without(r, p), pin) == if p == pin then None else Lookup(r, pin)
  {
    if r != [] {
      if r[0].pin == p {
        LookupAbsent(r[1..], p);
      } else {
        LookupWithout(r[1..], p, pin);
      }
    }
  }

  lemma {:induction false} WithoutPart(r: seq<Tracker>, p: nat)
    requires Distinct(r)
    ensures forall k :: 0 <= k < |Without(r, p)| ==> Without(r, p)[k] in r
    ensures Distinct(Without(r, p))
  {
    if r != [] && r[0].pin != p {
      WithoutPart(r[1..], p);
      var w := Without(r[1..], p);
      forall k | 0 <= k < |w| ensures w[k].pin != r[0].pin && w[k] in r {
        assert w[k] in r[1..];
      }
    }
  }

  lemma {:induction false} LookupReplaced(r: seq<Tracker>, t: Tracker, pin: nat)
    requires Lookup(r, t.pin).Some?
    ensures Lookup(Replaced(r, t), pin) == if t.pin == pin then Some(t) else Lookup(r, pin)
    ensures |Replaced(r, t)| == |r| && forall k :: 0 <= k < |r| ==> Replaced(r, t)[k].pin == r[k].pin
    ensures forall k :: 0 <= k < |r| ==> Replaced(r, t)[k] == t || Replaced(r, t)[k] == r[k]
  {
    if r[0].pin != t.pin {
      LookupReplaced(r[1..], t, pin);
    }
  }

  /** No event ever breaks what holds of the trackers: there is at most one for a pin, and each count is in bounds. */
  lemma NextKeeps(r: seq<Tracker>, e: Event, pins: seq<Inputs>)
    requires AllSound(r, pins) && Distinct(r) && Allowed(e, pins)
    ensures AllSound(Next(r, e, pins).0, pins) && Distinct(Next(r, e, pins).0)
  {
    hide Sound, PinStep;
    match e {
      case Tick => PassKeeps(r, pins);
      case Pressed(p) =>
        LookupAbsent(r, p);
        StepSound(Lookup(r, p), Press, p, pins[p]);
        PressAdds(Lookup(r, p), p, pins[p]);
        var o := PinStep(Lookup(r, p), Press, p, pins[p]).0;
        if o.Some? {
          AppendKeeps(r, o.value, pins);
        } else {
          WithoutKeeps(r, p, pins);
        }
      case ReleasedPin(p) =>
        LookupAbsent(r, p);
        StepSound(Lookup(r, p), Release, p, pins[p]);
        ReleaseKeeps(Lookup(r, p), p, pins[p]);
        var o := PinStep(Lookup(r, p), Release, p, pins[p]).0;
        if o.Some? {
          ReplacedKeeps(r, o.value, pins);
        } else {
          WithoutKeeps(r, p, pins);
        }
    }
  }

  lemma AppendKeeps(r: seq<Tracker>, t: Tracker, pins: seq<Inputs>)
    requires AllSound(r, pins) && Distinct(r) && t.pin < |pins| && Sound(t, pins[t.pin])
    requires forall k :: 0 <= k < |r| ==> r[k].pin != t.pin
    ensures AllSound(r + [t], pins) && Distinct(r + [t])
  {
    hide Sound;
  }

  lemma WithoutKeeps(r: seq<Tracker>, p: nat, pins: seq<Inputs>)
    requires AllSound(r, pins) && Distinct(r)
    ensures AllSound(Without(r, p), pins) && Distinct(Without(r, p))
  {
    hide Sound, Without;
    WithoutPart(r, p);
  }

  lemma ReplacedKeeps(r: seq<Tracker>, t: Tracker, pins: seq<Inputs>)
    requires AllSound(r, pins) && Distinct(r) && t.pin < |pins| && Sound(t, pins[t.pin]) && Lookup(r, t.pin).Some?
    ensures AllSound(Replaced(r, t), pins) && Distinct(Replaced(r, t))
  {
    hide Sound, Replaced, Lookup;
    LookupReplaced(r, t, t.pin);
  }

  lemma PressAdds(o: Option<Tracker>, pin: nat, i: Inputs)
    ensures PinStep(o, Press, pin, i).0.Some? ==> o.None?
    ensures o.None? ==> PinStep(o, Press, pin, i).0 in {None, Some(New(pin))}
  {
  }

  lemma ReleaseKeeps(o: Option<Tracker>, pin: nat, i: Inputs)
    ensures PinStep(o, Release, pin, i).0.Some? ==> o.Some?
  {
  }

  lemma RulesOwn(o: Option<Tracker>, s: Step, pin: nat, i: Inputs, p: nat)
    requires o.Some? ==> o.value.pin == pin
    ensures Of(PinStep(o, s, pin, i).1, p) == if p == pin then PinStep(o, s, pin, i).1 else []
  {
    var fired := PinStep(o, s, pin, i).1;
    OfOwn(fired, pin, p);
  }

  /** Every event does to the tracker of a pin, and fires for it, what the step it is for that pin does alone. */
  lemma NextProjects(r: seq<Tracker>, e: Event, pins: seq<Inputs>, pin: nat)
    requires AllSound(r, pins) && Distinct(r) && Allowed(e, pins) && pin < |pins|
    ensures var (n, fired) := Next(r, e, pins);
            (Lookup(n, pin), Of(fired, pin)) == PinStep(Lookup(r, pin), StepOf(r, e, pin, pins), pin, pins[pin])
  {
    hide Sound, AllSound, Distinct, Of, Without, Replaced;
    match e {
      case Tick => PassProjects(r, pins, pin);
      case Pressed(p) =>
        LookupAbsent(r, p);
        LookupWithout(r, p, pin);
        RulesOwn(Lookup(r, p), Press, p, pins[p], pin);
        PressAdds(Lookup(r, p), p, pins[p]);
        if PinStep(Lookup(r, p), Press, p, pins[p]).0.Some? {
          LookupAppend(r, New(p), pin);
        }
      case ReleasedPin(p) =>
        LookupAbsent(r, p);
        LookupWithout(r, p, pin);
        RulesOwn(Lookup(r, p), Release, p, pins[p], pin);
        ReleaseKeeps(Lookup(r, p), p, pins[p]);
        var o := PinStep(Lookup(r, p), Release, p, pins[p]).0;
        if o.Some? {
          assert o.value.pin == p;
          LookupReplaced(r, o.value, pin);
        }
    }
  }

  // ---------------------------------------------------------------- over all runs

  predicate AllAllowed(events: seq<Event>, pins: seq<Inputs>) {
    forall k :: 0 <= k < |events| ==> Allowed(events[k], pins)
  }

  /** The trackers after a run of events, and all that fired. */
  function After(r: seq<Tracker>, events: seq<Event>, pins: seq<Inputs>): (n: (seq<Tracker>, seq<Fired>))
    requires AllSound(r, pins) && Distinct(r) && AllAllowed(events, pins)
    ensures AllSound(n.0, pins) && Distinct(n.0)
  {
    if events == [] then (r, [])
    else
      var k := |events| - 1;
      var before := After(r, events[..k], pins);
      NextKeeps(before.0, events[k], pins);
      var last := Next(before.0, events[k], pins);
      (last.0, before.1 + last.1)
  }

  function StepsOf(r: seq<Tracker>, events: seq<Event>, pins: seq<Inputs>, pin: nat): (s: seq<Step>)
    requires AllSound(r, pins) && Distinct(r) && AllAllowed(events, pins)
    ensures |s| == |events|
  {
    if events == [] then []
    else
      var k := |events| - 1;
      StepsOf(r, events[..k], pins, pin) + [StepOf(After(r, events[..k], pins).0, events[k], pin, pins)]
  }

  /** Over every run of events the tracker of a pin and its rules are those of the pin alone. */
  lemma {:induction false} RunProjects(r: seq<Tracker>, events: seq<Event>, pins: seq<Inputs>, pin: nat)
    requires AllSound(r, pins) && Distinct(r) && AllAllowed(events, pins) && pin < |pins|
    ensures var (n, fired) := After(r, events, pins);
            (Lookup(n, pin), Of(fired, pin)) == PinRun(Lookup(r, pin), StepsOf(r, events, pins, pin), pin, pins[pin])
    decreases |events|
  {
    hide AllSound, Distinct, PinStep, Next, StepOf;
    if events != [] {
      var k := |events| - 1;
      RunProjects(r, events[..k], pins, pin);
      var before := After(r, events[..k], pins);
      NextProjects(before.0, events[k], pins, pin);
      NextKeeps(before.0, events[k], pins);
      OfConcat(before.1, Next(before.0, events[k], pins).1, pin);
      var s := StepsOf(r, events[..k], pins, pin);
      assert StepsOf(r, events, pins, pin)[..k] == s;
    } else {
      assert Of([], pin) == [];
    }
  }

  // ---------------------------------------------------------------- how far a count may lag behind

  /** How many trackers stand in front of the one of a pin. */
  function Index(r: seq<Tracker>, pin: nat): nat {
    if r == [] || r[0].pin == pin then 0 else 1 + Index(r[1..], pin)
  }

  /** A tick that a tracker misses brings it one place forward. */
  lemma {:induction false} MissMovesForward(r: seq<Tracker>, pins: seq<Inputs>, pin: nat)
    requires AllSound(r, pins) && Distinct(r) && pin < |pins| && Lookup(r, pin).Some?
             && Lookup(Pass(r, pins).0, pin).Some?
    ensures Index(Pass(r, pins).0, pin) + (if Reached(r, pin, pins) then 0 else 1) <= Index(r, pin)
    decreases |r|
  {
    hide Count, Sound;
    CountOwn(r[0], pins[r[0].pin]);
    if r[0].pin != pin {
      var o := Count(r[0], pins[r[0].pin]).0;
      if o.Some? {
        var n := Pass(r[1..], pins).0;
        assert ([o.value] + n)[1..] == n;
        MissMovesForward(r[1..], pins, pin);
      } else if |r| > 1 {
        var n := Pass(r[2..], pins).0;
        assert ([r[1]] + n)[1..] == n;
        assert r[1..][1..] == r[2..];
        if r[1].pin != pin {
          MissMovesForward(r[2..], pins, pin);
        }
      }
    } else if Count(r[0], pins[r[0].pin]).0.None? && |r| > 1 {
      PassPins(r[2..], pins, pin);
      LookupAbsent(Pass(r[2..], pins).0, pin);
    }
  }

  function Ticks(events: seq<Event>): nat {
    if events == [] then 0 else Ticks(events[..|events| - 1]) + if events[|events| - 1] == Tick then 1 else 0
  }

  lemma {:induction false} WithoutIndex(r: seq<Tracker>, p: nat, pin: nat)
    requires p != pin && Lookup(r, pin).Some?
    ensures Index(Without(r, p), pin) <= Index(r, pin)
  {
    if r[0].pin != p && r[0].pin != pin {
      WithoutIndex(r[1..], p, pin);
    } else if r[0].pin == p {
      assert Index(r, pin) == 1 + Index(r[1..], pin);
    }
  }

  lemma {:induction false} ReplacedIndex(r: seq<Tracker>, t: Tracker, pin: nat)
    ensures Index(Replaced(r, t), pin) == Index(r, pin)
  {
    if r != [] && r[0].pin != t.pin {
      ReplacedIndex(r[1..], t, pin);
    }
  }

  lemma {:induction false} AppendIndex(r: seq<Tracker>, t: Tracker, pin: nat)
    requires Lookup(r, pin).Some?
    ensures Index(r + [t], pin) == Index(r, pin)
  {
    assert (r + [t])[1..] == r[1..] + [t];
    if r[0].pin != pin {
      AppendIndex(r[1..], t, pin);
    }
  }

  lemma IndexNext(r: seq<Tracker>, e: Event, pins: seq<Inputs>, pin: nat)
    requires AllSound(r, pins) && Distinct(r) && Allowed(e, pins) && pin < |pins| && e != Pressed(pin)
    requires Lookup(Next(r, e, pins).0, pin).Some?
    ensures Lookup(r, pin).Some?
    ensures var n, t, c := Next(r, e, pins).0, Lookup(r, pin).value.counter,
            Lookup(Next(r, e, pins).0, pin).value.counter;
            && Index(n, pin) + (if e == Tick then 1 else 0) + t <= Index(r, pin) + c
            && t <= c <= t + if e == Tick then 1 else 0
  {
    hide Sound, AllSound, Distinct, Next;
    NextProjects(r, e, pins, pin);
    IndexStep(r, e, pins, pin);
  }

  lemma IndexStep(r: seq<Tracker>, e: Event, pins: seq<Inputs>, pin: nat)
    requires AllSound(r, pins) && Distinct(r) && Allowed(e, pins) && pin < |pins| && e != Pressed(pin)
    requires Lookup(Next(r, e, pins).0, pin).Some? && Lookup(r, pin).Some?
    ensures Index(Next(r, e, pins).0, pin)
            + (if StepOf(r, e, pin, pins) == Counted || e != Tick then 0 else 1) <= Index(r, pin)
  {
    hide Sound, AllSound, Distinct, PinStep;
    match e {
      case Tick => MissMovesForward(r, pins, pin);
      case Pressed(p) =>
        var o := PinStep(Lookup(r, p), Press, p, pins[p]).0;
        if o.Some? {
          AppendIndex(r, o.value, pin);
        } else {
          WithoutIndex(r, p, pin);
        }
      case ReleasedPin(p) =>
        LookupAbsent(r, p);
        LookupWithout(r, p, pin);
        var o := PinStep(Lookup(r, p), Release, p, pins[p]).0;
        if o.Some? {
          ReplacedIndex(r, o.value, pin);
        } else if p != pin {
          WithoutIndex(r, p, pin);
        }
    }
  }

  /** The lengths of presses are measured well: the count of a tracker lags behind the ticks by no more than the number
      of trackers that were in front of it, over every run in which it lives. */
  lemma {:induction false} CountLags(r: seq<Tracker>, events: seq<Event>, pins: seq<Inputs>, pin: nat)
    requires AllSound(r, pins) && Distinct(r) && AllAllowed(events, pins) && pin < |pins|
    requires (forall k :: 0 <= k < |events| ==> events[k] != Pressed(pin))
             && Lookup(After(r, events, pins).0, pin).Some?
    ensures Lookup(r, pin).Some?
    ensures var t, c := Lookup(r, pin).value.counter, Lookup(After(r, events, pins).0, pin).value.counter;
            && Index(After(r, events, pins).0, pin) + t + Ticks(events) <= Index(r, pin) + c
            && c <= t + Ticks(events)
    decreases |events|
  {
    hide AllSound, Distinct, Next;
    if events != [] {
      var k := |events| - 1;
      var before := After(r, events[..k], pins);
      IndexNext(before.0, events[k], pins, pin);
      CountLags(r, events[..k], pins, pin);
    }
  }

  // ---------------------------------------------------------------- the code as it runs

  function Erased<T>(s: seq<T>, i: nat): seq<T>
    requires i < |s|
  {
    s[..i] + s[i + 1..]
  }

  lemma {:induction false} AtIndex(r: seq<Tracker>, i: nat, t: Tracker)
    requires i < |r| && r[i].pin == t.pin && forall k :: 0 <= k < i ==> r[k].pin != t.pin
    ensures Lookup(r, t.pin) == Some(r[i]) && Without(r, t.pin) == Erased(r, i) && Replaced(r, t) == r[i := t]
    decreases i
  {
    if i > 0 {
      AtIndex(r[1..], i - 1, t);
      assert Erased(r, i) == [r[0]] + Erased(r[1..], i - 1);
      assert r[i := t] == [r[0]] + r[1..][i - 1 := t];
    }
  }

  lemma {:induction false} NoIndex(r: seq<Tracker>, pin: nat)
    requires forall k :: 0 <= k < |r| ==> r[k].pin != pin
    ensures Lookup(r, pin) == None && Without(r, pin) == r
  {
    if r != [] {
      NoIndex(r[1..], pin);
    }
  }

  class RuleChecker {
    const pinInputs: seq<Inputs>
    var ruleChecker: seq<Tracker>
    ghost var log: seq<Fired>

    ghost predicate Valid()
      reads this
    {
      AllSound(ruleChecker, pinInputs) && Distinct(ruleChecker)
    }

    constructor (pins: seq<Inputs>)
      ensures Valid() && pinInputs == pins && ruleChecker == [] && log == []
    {
      pinInputs, ruleChecker, log := pins, [], [];
    }

    /** `process_rule`: only that it was called, and how, is kept here. */
    method ProcessRule(pin: nat, pushed: nat, kind: RuleKind, active: bool)
      modifies `log
      ensures log == old(log) + [Fired(pin, pushed, kind, active)]
    {
      log := log + [Fired(pin, pushed, kind, active)];
    }

    /** One turn of the loop of `check_running_rules`.  Behind an erased tracker the code goes on with the tracker that
        has taken its place, but it never finds anything to do for it. */
    method Turn(i: nat) returns (stop: bool)
      requires i < |ruleChecker| && ruleChecker[i].pin < |pinInputs|
      requires Sound(ruleChecker[i], pinInputs[ruleChecker[i].pin])
      requires forall k :: 0 <= k < |ruleChecker| ==> ruleChecker[k].pin < |pinInputs|
      modifies this
      ensures var r, n := old(ruleChecker), ruleChecker;
              var (o, fired) := Count(r[i], pinInputs[r[i].pin]);
              && log == old(log) + fired
              && if o.Some? then n == r[i := o.value] && !stop else n == Erased(r, i) && stop == (i == |r| - 1)
    {
      ruleChecker := ruleChecker[i := ruleChecker[i].(counter := ruleChecker[i].counter + 1)];
      var counter := ruleChecker[i].counter;
      if counter > SHORT_PIN_RULE && ruleChecker[i].inactive == 0 {
        if pinInputs[ruleChecker[i].pin].shutter {
          if counter == SHORT_PIN_RULE + 1 {
            ruleChecker := ruleChecker[i := ruleChecker[i].(shortActive := true)];
            ProcessRule(ruleChecker[i].pin, 1, Short, true);
          }
        } else {
          if !pinInputs[ruleChecker[i].pin].long {
            ProcessRule(ruleChecker[i].pin, 1, Short, true);
            if i != |ruleChecker| - 1 {
              ruleChecker := Erased(ruleChecker, i);
            } else {
              ruleChecker := Erased(ruleChecker, i);
              return true;
            }
          }
        }
      }
      if counter > DOUBLE_PIN_THRESHOLD && ruleChecker[i].inactive == 1 {
        ProcessRule(ruleChecker[i].pin, 1, Normal, true);
        if i != |ruleChecker| - 1 {
          ruleChecker := Erased(ruleChecker, i);
        } else {
          ruleChecker := Erased(ruleChecker, i);
          return true;
        }
      }
      if counter > LONG_PIN_RULE {
        ProcessRule(ruleChecker[i].pin, 1, Long, true);
        if i != |ruleChecker| - 1 {
          ruleChecker := Erased(ruleChecker, i);
        } else {
          ruleChecker := Erased(ruleChecker, i);
          return true;
        }
      }
      return false;
    }

    /** `check_running_rules`, once a tick. */
    method CheckRunningRules()
      requires Valid()
      modifies this
      ensures Valid()
      ensures (ruleChecker, log)
              == (Next(old(ruleChecker), Tick, pinInputs).0, old(log) + Next(old(ruleChecker), Tick, pinInputs).1)
    {
      hide Count, Sound, Pass;
      ghost var r := ruleChecker;
      ghost var whole := Pass(r, pinInputs);
      PassKeeps(r, pinInputs);
      assert r[0..] == r && r[..0] == [];
      var i := 0;
      while i < |ruleChecker|
        invariant i <= |ruleChecker|
        invariant AllSound(ruleChecker[i..], pinInputs) && forall k :: 0 <= k < i ==> ruleChecker[k].pin < |pinInputs|
        invariant ruleChecker[..i] + Pass(ruleChecker[i..], pinInputs).0 == whole.0
        invariant log + Pass(ruleChecker[i..], pinInputs).1 == old(log) + whole.1
        decreases |ruleChecker| - i
      {
        ghost var before, done := ruleChecker, log;
        TurnPasses(before, i, pinInputs);
        assert before[i..][0] == before[i];
        forall k | 0 <= k < |before| ensures before[k].pin < |pinInputs| {
          assert k >= i ==> before[i..][k - i] == before[k];
        }
        CountOwn(before[i], pinInputs[before[i].pin]);
        ghost var fired := Count(before[i], pinInputs[before[i].pin]).1;
        var stop := Turn(i);
        if stop {
          assert before[..i] + [] == before[..i];
          break;
        }
        assert done + (fired + Pass(ruleChecker[i + 1..], pinInputs).1)
               == log + Pass(ruleChecker[i + 1..], pinInputs).1;
        i := i + 1;
      }
      NothingPasses(pinInputs);
      if i == |ruleChecker| {
        assert ruleChecker[..i] + [] == ruleChecker && ruleChecker[i..] == [];
        assert log + [] == log;
      }
    }

    /** A press of a button whose pin is `pin`. */
    method ProcessPress(pin: nat)
      requires Valid() && pin < |pinInputs|
      modifies this
      ensures Valid()
      ensures (ruleChecker, log)
           == (Next(old(ruleChecker), Pressed(pin), pinInputs).0,
               old(log) + Next(old(ruleChecker), Pressed(pin), pinInputs).1)
    {
      hide Sound;
      ghost var r := ruleChecker;
      NextKeeps(r, Pressed(pin), pinInputs);
      var addNew, i := true, 0;
      while i < |ruleChecker|
        invariant 0 <= i && AllSound(ruleChecker, pinInputs)
        invariant addNew ==> i <= |r| && ruleChecker == r && log == old(log)
        invariant addNew ==> forall k :: 0 <= k < i ==> r[k].pin != pin
        invariant !addNew ==>
                  Lookup(r, pin).Some? && ruleChecker == Without(r, pin)
                  && log == old(log) + [Fired(pin, 2, Multi, true)]
        invariant !addNew ==> forall k :: 0 <= k < |ruleChecker| ==> ruleChecker[k].pin != pin
        decreases |ruleChecker| - i
      {
        if ruleChecker[i].pin == pin {
          AtIndex(r, i, r[i]);
          addNew := false;
          ProcessRule(pin, 2, Multi, true);
          if i != |ruleChecker| - 1 {
            ruleChecker := Erased(ruleChecker, i);
          } else {
            ruleChecker := Erased(ruleChecker, i);
            break;
          }
        }
        i := i + 1;
      }
      assert old(log) + [] == old(log);
      if addNew {
        NoIndex(r, pin);
        if pinInputs[pin].normal {
          ProcessRule(pin, 1, Normal, true);
        } else {
          ruleChecker := ruleChecker + [Tracker(pin, 0, false, 0)];
        }
      }
    }

    /** What a release does to the tracker at position `i`; the loop is left behind the last one. */
    method ReleaseTurn(i: nat, pin: nat) returns (stop: bool)
      requires i < |ruleChecker| && ruleChecker[i].pin == pin < |pinInputs|
      modifies this
      ensures var r, n := old(ruleChecker), ruleChecker;
              var (o, fired) := Released(r[i], pinInputs[pin]);
              && log == old(log) + fired
              && if o.Some? then n == r[i := o.value] && !stop else n == Erased(r, i) && stop == (i == |r| - 1)
    {
      if !pinInputs[pin].double || ruleChecker[i].shortActive {
        var counter := ruleChecker[i].counter;
        if counter <= SHORT_PIN_RULE {
          ProcessRule(pin, 1, Normal, true);
        } else if counter > SHORT_PIN_RULE && counter < LONG_PIN_RULE {
          ProcessRule(pin, 1, Short, false);
        } else {
          ProcessRule(pin, 1, Long, true);
        }
        if i != |ruleChecker| - 1 {
          ruleChecker := Erased(ruleChecker, i);
        } else {
          ruleChecker := Erased(ruleChecker, i);
          return true;
        }
      } else {
        if ruleChecker[i].counter < DOUBLE_PIN_THRESHOLD {
          ruleChecker := ruleChecker[i := ruleChecker[i].(inactive := ruleChecker[i].inactive + 1)];
        } else {
          if i != |ruleChecker| - 1 {
            ruleChecker := Erased(ruleChecker, i);
          } else {
            ruleChecker := Erased(ruleChecker, i);
            return true;
          }
        }
      }
      return false;
    }

    /** A release of that button. */
    method ProcessRelease(pin: nat)
      requires Valid() && pin < |pinInputs|
      modifies this
      ensures Valid()
      ensures (ruleChecker, log)
           == (Next(old(ruleChecker), ReleasedPin(pin), pinInputs).0,
               old(log) + Next(old(ruleChecker), ReleasedPin(pin), pinInputs).1)
    {
      hide Sound, Next, Released;
      ghost var r := ruleChecker;
      ghost var n := Next(r, ReleasedPin(pin), pinInputs);
      NextKeeps(r, ReleasedPin(pin), pinInputs);
      var i := 0;
      ghost var found := false;
      while i < |ruleChecker|
        invariant 0 <= i
        invariant !found ==> i <= |r| && ruleChecker == r && log == old(log)
        invariant !found ==> forall k :: 0 <= k < i ==> r[k].pin != pin
        invariant found ==> ruleChecker == n.0 && log == old(log) + n.1
        invariant found ==> forall k :: i <= k < |ruleChecker| ==> ruleChecker[k].pin != pin
        decreases |ruleChecker| - i
      {
        if ruleChecker[i].pin == pin {
          found := true;
          ReleaseNext(r, i, pin, pinInputs);
          var stop := ReleaseTurn(i, pin);
          if stop {
            break;
          }
        }
        i := i + 1;
      }
      assert old(log) + [] == old(log);
      if !found {
        ReleaseNothing(r, pin, pinInputs);
      }
    }
  }

  lemma ReleaseNext(r: seq<Tracker>, i: nat, pin: nat, pins: seq<Inputs>)
    requires AllSound(r, pins) && Distinct(r) && i < |r| && r[i].pin == pin < |pins|
    ensures var (o, fired) := Released(r[i], pins[pin]);
            var n := if o.Some? then r[i := o.value] else Erased(r, i);
            && Next(r, ReleasedPin(pin), pins) == (n, fired)
            && forall k :: (if o.Some? then i + 1 else i) <= k < |n| ==> n[k].pin != pin
  {
    hide Sound;
    AtIndex(r, i, r[i].(inactive := r[i].inactive + 1));
  }

  lemma ReleaseNothing(r: seq<Tracker>, pin: nat, pins: seq<Inputs>)
    requires AllSound(r, pins) && pin < |pins| && forall k :: 0 <= k < |r| ==> r[k].pin != pin
    ensures Next(r, ReleasedPin(pin), pins) == (r, [])
  {
    hide Sound;
    NoIndex(r, pin);
  }

  lemma NothingPasses(pins: seq<Inputs>)
    ensures Pass([], pins) == ([], [])
  {
  }

  /** What one turn at position `i` does to the pass over the rest. */
  lemma TurnPasses(r: seq<Tracker>, i: nat, pins: seq<Inputs>)
    requires i < |r| && AllSound(r[i..], pins)
    ensures r[i].pin < |pins| && Sound(r[i], pins[r[i].pin])
    ensures var (o, fired) := Count(r[i], pins[r[i].pin]);
            var all := Pass(r[i..], pins);
            && (o.Some? ==>
                  var n := r[i := o.value];
                  AllSound(n[i + 1..], pins)
                  && r[..i] + all.0 == n[..i + 1] + Pass(n[i + 1..], pins).0
                      && all.1 == fired + Pass(n[i + 1..], pins).1)
            && (o.None? && i < |r| - 1 ==>
                  var n := Erased(r, i);
                  AllSound(n[i + 1..], pins)
                  && r[..i] + all.0 == n[..i + 1] + Pass(n[i + 1..], pins).0
                      && all.1 == fired + Pass(n[i + 1..], pins).1)
            && (o.None? && i == |r| - 1 ==> all == ([], fired) && r[..i] == Erased(r, i))
  {
    hide Count, Sound, Pass;
    assert r[i..][0] == r[i];
    PassUnfold(r[i..], pins);
    var (o, fired) := Count(r[i], pins[r[i].pin]);
    if o.Some? {
      ReplacedRest(r, i, o.value);
      PrefixPlus(r[..i], o.value, Pass(r[i..][1..], pins).0);
    } else if i < |r| - 1 {
      ErasedRest(r, i);
      PrefixPlus(r[..i], r[i..][1], Pass(r[i..][2..], pins).0);
    }
  }

  lemma ReplacedRest(r: seq<Tracker>, i: nat, t: Tracker)
    requires i < |r|
    ensures r[i := t][i + 1..] == r[i..][1..] && r[i := t][..i + 1] == r[..i] + [t]
  {
  }

  lemma ErasedRest(r: seq<Tracker>, i: nat)
    requires i < |r| - 1
    ensures Erased(r, i)[i + 1..] == r[i..][2..] && Erased(r, i)[..i + 1] == r[..i] + [r[i..][1]]
  {
  }

  lemma PrefixPlus(a: seq<Tracker>, t: Tracker, b: seq<Tracker>)
    ensures a + ([t] + b) == a + [t] + b
  {
  }
}
