/** What particular runs of the balancer do: a quiet system settles on the
    baseline and stays there, and pipes too small for all tokens lose some. */
module JobserverRuns {
  import opened Outcomes
  import opened Jobserver

  // ---- quiet ticks ----

  /** Low or unreadable pressure. */
  predicate Low(c: Config, reading: Option<real>) {
    reading.None? || reading.value < c.releaseAt
  }

  /** `k` controller steps from `s` to `t`, none of them starting a tick. */
  ghost predicate Inside(c: Config, reading: Option<real>, s: State, t: State, k: nat)
    requires Valid(c)
    decreases k
  {
    if k == 0 then s == t
    else !s.pc.SenseMerge? && Inside(c, reading, Control(c, s, reading), t, k - 1)
  }

  ghost predicate Leads(c: Config, reading: Option<real>, s: State, t: State)
    requires Valid(c)
  {
    exists k :: Inside(c, reading, s, t, k)
  }

  /** Exactly one tick without any consumer step. */
  ghost predicate OneTick(c: Config, reading: Option<real>, s: State, t: State)
    requires Valid(c)
  {
    s.pc.SenseMerge? && t.pc.SenseMerge? && Leads(c, reading, Control(c, s, reading), t)
  }

  lemma {:induction false} InsideTrans(c: Config, reading: Option<real>, s: State, m: State, t: State, j: nat, k: nat)
    requires Valid(c) && Inside(c, reading, s, m, j) && Inside(c, reading, m, t, k)
    ensures Inside(c, reading, s, t, j + k)
    decreases j
  {
    if j == 0 {
    } else {
      InsideTrans(c, reading, Control(c, s, reading), m, t, j - 1, k);
    }
  }

  lemma LeadsTrans(c: Config, reading: Option<real>, s: State, m: State, t: State)
    requires Valid(c) && Leads(c, reading, s, m) && Leads(c, reading, m, t)
    ensures Leads(c, reading, s, t)
  {
    var j :| Inside(c, reading, s, m, j);
    var k :| Inside(c, reading, m, t, k);
    InsideTrans(c, reading, s, m, t, j, k);
  }

  lemma LeadsOne(c: Config, reading: Option<real>, s: State)
    requires Valid(c) && !s.pc.SenseMerge?
    ensures Leads(c, reading, s, Control(c, s, reading))
  {
    assert Inside(c, reading, Control(c, s, reading), Control(c, s, reading), 0);
    assert Inside(c, reading, s, Control(c, s, reading), 1);
  }

  function Moved(s: State, direction: Direction, n: nat): State
    requires n <= (if direction.TaskToMerge? then s.task else s.merge)
  {
    if direction.TaskToMerge? then s.(task := s.task - n, merge := s.merge + n)
    else s.(merge := s.merge - n, task := s.task + n)
  }

  /** An undisturbed burst moves what was asked for, token by token. */
  lemma {:induction false} BurstLeads(c: Config, reading: Option<real>, s: State, direction: Direction, n: nat)
    requires Valid(c) && s.pc == TakeOne(direction, n)
    requires n <= (if direction.TaskToMerge? then s.task else s.merge)
    requires n + (if direction.TaskToMerge? then s.merge else s.task) <= c.capacity
    ensures Leads(c, reading, s, Moved(s, direction, n).(pc := Sleep))
    decreases n
  {
    LeadsOne(c, reading, s);
    if n == 0 {
    } else {
      var inHand := Control(c, s, reading);
      LeadsOne(c, reading, inHand);
      var given := Control(c, inHand, reading);
      LeadsTrans(c, reading, s, inHand, given);
      BurstLeads(c, reading, given, direction, n - 1);
      LeadsTrans(c, reading, s, given, Moved(given, direction, n - 1).(pc := Sleep));
    }
  }

  predicate Calm(c: Config, s: State)
    requires Valid(c)
  {
    Inv(c, s) && c.capacity >= c.tokens && !s.stopping
  }

  /** No consumer holds a token. */
  predicate Quiet(c: Config, s: State)
    requires Valid(c)
  {
    Calm(c, s) && s.heldMerge == 0 == s.heldTask
  }

  /** The pressure stage of a quiet tick: the reservoir goes back. */
  function Released(c: Config, s: State, reading: Option<real>): State {
    s.(heldBack := 0, task := s.task + s.heldBack, avg10 := if c.pressureOff then s.avg10 else reading)
  }

  lemma StageLeads(c: Config, reading: Option<real>, s: State)
    requires Valid(c) && Calm(c, s) && Low(c, reading) && s.pc == SenseTask(s.merge)
    ensures Leads(c, reading, s, Released(c, s, reading).(pc := Choose(s.merge, s.task + s.heldBack)))
  {
    LeadsOne(c, reading, s);
    if !c.pressureOff {
      var a := Control(c, s, reading);
      LeadsOne(c, reading, a);
      var b := Control(c, a, reading);
      LeadsTrans(c, reading, s, a, b);
      if s.heldBack > 0 {
        RefillLeads(c, reading, b);
        LeadsTrans(c, reading, s, b, b.(task := s.task + s.heldBack, heldBack := 0, pc := Resense(s.merge)));
      }
      var r := Released(c, s, reading).(pc := Resense(s.merge));
      LeadsOne(c, reading, r);
      LeadsTrans(c, reading, s, r, Control(c, r, reading));
    }
  }

  lemma RefillLeads(c: Config, reading: Option<real>, s: State)
    requires Valid(c) && s.pc.Refill? && s.pc.count == s.heldBack && s.task + s.heldBack <= c.capacity
    ensures Leads(c, reading, s, s.(task := s.task + s.heldBack, heldBack := 0, pc := Resense(s.pc.freeMerge)))
  {
    LeadsOne(c, reading, s);
    var a := Control(c, s, reading);
    LeadsOne(c, reading, a);
    LeadsTrans(c, reading, s, a, Control(c, a, reading));
  }

  /** What a quiet tick amounts to. */
  function Settled(c: Config, s: State, reading: Option<real>): State
    requires Valid(c)
  {
    var r := Released(c, s, reading).(idleTicks := s.idleTicks + 1, pc := SenseMerge);
    if s.idleTicks + 1 >= c.idleReset then r.(merge := MergeBaseline(c), task := TaskBaseline(c)) else r
  }

  /** The second half of a quiet tick: decide, move, sleep. */
  lemma ChoiceLeads(c: Config, reading: Option<real>, s: State)
    requires Valid(c) && s.pc == Choose(s.merge, s.task) && s.heldBack == 0 && c.capacity >= c.tokens
    requires s.merge + s.task == c.tokens && Low(c, s.avg10)
    ensures var next := s.(idleTicks := s.idleTicks + 1, pc := Sleep);
            Leads(c, reading, s, if s.idleTicks + 1 >= c.idleReset
                                 then next.(merge := MergeBaseline(c), task := TaskBaseline(c)) else next)
  {
    LeadsOne(c, reading, s);
    var d := Control(c, s, reading);
    if d.pc.TakeOne? {
      BurstLeads(c, reading, d, d.pc.direction, d.pc.left);
      LeadsTrans(c, reading, s, d, Moved(d, d.pc.direction, d.pc.left).(pc := Sleep));
    }
  }

  /** A quiet tick with low pressure runs to its end and has that effect. */
  lemma QuietTick(c: Config, s: State, reading: Option<real>)
    requires Valid(c) && Quiet(c, s) && Low(c, reading) && s.pc.SenseMerge?
    ensures OneTick(c, reading, s, Settled(c, s, reading))
    ensures Quiet(c, Settled(c, s, reading))
  {
    var a := Control(c, s, reading);
    StageLeads(c, reading, a);
    var b := Released(c, s, reading).(pc := Choose(s.merge, s.task + s.heldBack));
    ChoiceLeads(c, reading, b);
    var d := Settled(c, s, reading).(pc := Sleep);
    LeadsTrans(c, reading, a, b, d);
    LeadsOne(c, reading, d);
    LeadsTrans(c, reading, a, d, Settled(c, s, reading));
  }

  // ---- ticks under pressure ----

  lemma {:induction false} GrabLeads(c: Config, reading: Option<real>, s: State)
    requires Valid(c) && s.pc.Grab? && s.pc.wanted <= s.task
    ensures Leads(c, reading, s, s.(task := s.task - s.pc.wanted, heldBack := s.heldBack + s.pc.absorbed + s.pc.wanted,
                                    pc := Resense(s.pc.freeMerge)))
    decreases s.task
  {
    LeadsOne(c, reading, s);
    if s.pc.wanted == 0 {
    } else {
      var next := Control(c, s, reading);
      GrabLeads(c, reading, next);
      LeadsTrans(c, reading, s, next,
                 next.(task := s.task - s.pc.wanted, heldBack := s.heldBack + s.pc.absorbed + s.pc.wanted,
                       pc := Resense(s.pc.freeMerge)));
    }
  }

  /** At the hold threshold an undisturbed stage absorbs every free task token
      the reservoir has room for; between the thresholds it moves nothing. */
  lemma PressureStage(c: Config, s: State, reading: real)
    requires Valid(c) && Reserved(c, s) && s.pc.ReadPressure? && s.pc.freeTask == s.task && reading >= c.releaseAt
    ensures var room := c.maxHeld - s.heldBack;
            var n := if reading < c.holdAt then 0 else if s.task < room then s.task else room;
            Leads(c, Some(reading), s, s.(avg10 := Some(reading), task := s.task - n, heldBack := s.heldBack + n,
                                          pc := Resense(s.pc.freeMerge)))
  {
    LeadsOne(c, Some(reading), s);
    var a := Control(c, s, Some(reading));
    if a.pc.Grab? {
      GrabLeads(c, Some(reading), a);
      LeadsTrans(c, Some(reading), s, a,
                 a.(task := a.task - a.pc.wanted, heldBack := a.heldBack + a.pc.absorbed + a.pc.wanted,
                    pc := Resense(a.pc.freeMerge)));
    }
  }

  // ---- busy ticks ----

  /** What an undisturbed tick makes of the pools while consumers hold tokens:
      a dry merge pool gets every free task token, a dry task pool gets all of
      the merge pool but epsilon. */
  function Served(c: Config, s: State): State {
    if s.merge == 0 && s.task > 0 then s.(merge := s.task, task := 0)
    else if s.task == 0 && s.merge > c.epsilon then s.(merge := c.epsilon, task := s.merge - c.epsilon)
    else s
  }

  lemma ServedLeads(c: Config, reading: Option<real>, s: State)
    requires Valid(c) && s.pc == Choose(s.merge, s.task) && s.heldBack == 0 && c.capacity >= c.tokens
    requires s.merge + s.task < c.tokens && Low(c, s.avg10)
    ensures Leads(c, reading, s, Served(c, s).(idleTicks := 0, pc := Sleep))
  {
    LeadsOne(c, reading, s);
    var d := Control(c, s, reading);
    if d.pc.TakeOne? {
      BurstLeads(c, reading, d, d.pc.direction, d.pc.left);
      LeadsTrans(c, reading, s, d, Moved(d, d.pc.direction, d.pc.left).(pc := Sleep));
    }
  }

  /** A tick with low pressure in which consumers hold tokens but stay still
      empties the reservoir and serves the side that is dry. */
  lemma BusyTick(c: Config, s: State, reading: Option<real>)
    requires Valid(c) && Calm(c, s) && Low(c, reading) && s.pc.SenseMerge? && s.heldMerge + s.heldTask > 0
    ensures OneTick(c, reading, s, Served(c, Released(c, s, reading)).(idleTicks := 0))
  {
    var a := Control(c, s, reading);
    StageLeads(c, reading, a);
    var b := Released(c, s, reading).(pc := Choose(s.merge, s.task + s.heldBack));
    ServedLeads(c, reading, b);
    var d := Served(c, Released(c, s, reading)).(idleTicks := 0, pc := Sleep);
    LeadsTrans(c, reading, a, b, d);
    LeadsOne(c, reading, d);
    LeadsTrans(c, reading, a, d, d.(pc := SenseMerge));
  }

  // ---- whole ticks under pressure ----

  /** Task tokens the pressure stage absorbs. */
  function Absorbed(c: Config, s: State, reading: real): int {
    var room := c.maxHeld - s.heldBack;
    if reading < c.holdAt then 0 else if s.task < room then s.task else room
  }

  /** The pools after the stage. */
  function Held(c: Config, s: State, reading: real): State
    requires s.heldBack <= c.maxHeld
  {
    var n := Absorbed(c, s, reading);
    s.(avg10 := Some(reading), task := s.task - n, heldBack := s.heldBack + n)
  }

  /** What an undisturbed tick under pressure leaves. Time counts as idle when all
      tokens are free or held back. Nothing leaves the merge pool: a dry one gets
      every task token left, and when nothing is held back at the end of the idle
      window it gets what is above the task baseline; otherwise the pools stay as
      the stage left them. */
  function Pressed(c: Config, s: State, reading: real): State
    requires Valid(c) && s.heldBack <= c.maxHeld
  {
    var h := Held(c, s, reading);
    var idle := if h.merge + h.task + h.heldBack == c.tokens then s.idleTicks + 1 else 0;
    var t := h.(idleTicks := idle);
    if h.merge + h.task == c.tokens then
      if idle >= c.idleReset && h.task > TaskBaseline(c) then
        t.(merge := MergeBaseline(c), task := TaskBaseline(c))
      else t
    else if h.merge == 0 then t.(merge := h.task, task := 0)
    else t
  }

  lemma PressedChoice(c: Config, reading: Option<real>, s: State)
    requires Valid(c) && s.pc == Choose(s.merge, s.task) && c.capacity >= c.tokens
    requires s.merge + s.task + s.heldBack <= c.tokens && PressureRead(c, s)
    ensures var idle := if s.merge + s.task + s.heldBack == c.tokens then s.idleTicks + 1 else 0;
            var t := s.(idleTicks := idle, pc := Sleep);
            Leads(c, reading, s,
                  if s.merge + s.task == c.tokens then
                    if idle >= c.idleReset && s.task > TaskBaseline(c) then
                      t.(merge := MergeBaseline(c), task := TaskBaseline(c))
                    else t
                  else if s.merge == 0 then t.(merge := s.task, task := 0)
                  else t)
  {
    LeadsOne(c, reading, s);
    var d := Control(c, s, reading);
    if d.pc.TakeOne? {
      BurstLeads(c, reading, d, d.pc.direction, d.pc.left);
      LeadsTrans(c, reading, s, d, Moved(d, d.pc.direction, d.pc.left).(pc := Sleep));
    }
  }

  lemma HeldLeads(c: Config, s: State, reading: real)
    requires Valid(c) && Calm(c, s) && !c.pressureOff && reading >= c.releaseAt && s.pc == SenseTask(s.merge)
    ensures var h := Held(c, s, reading);
            Leads(c, Some(reading), s, h.(pc := Choose(h.merge, h.task)))
  {
    var a := Control(c, s, Some(reading));
    LeadsOne(c, Some(reading), s);
    ControlReserves(c, s, Some(reading));
    PressureStage(c, a, reading);
    var b := Held(c, s, reading).(pc := Resense(s.merge));
    LeadsTrans(c, Some(reading), s, a, b);
    LeadsOne(c, Some(reading), b);
    LeadsTrans(c, Some(reading), s, b, Control(c, b, Some(reading)));
  }

  /** A whole tick at or above the release threshold, from its sense on, with the
      consumers still. */
  lemma PressedTick(c: Config, s: State, reading: real)
    requires Valid(c) && Calm(c, s) && !c.pressureOff && reading >= c.releaseAt && s.pc.SenseMerge?
    ensures OneTick(c, Some(reading), s, Pressed(c, s, reading))
    ensures MergeSide(Pressed(c, s, reading)) >= MergeSide(s)
    ensures var t := Pressed(c, s, reading); t.merge == 0 ==> s.merge == 0 && (t.task == 0 || t.task == c.tokens)
  {
    var a := Control(c, s, Some(reading));
    HeldLeads(c, a, reading);
    var h := Held(c, s, reading);
    var b := h.(pc := Choose(h.merge, h.task));
    PressedChoice(c, Some(reading), b);
    var d := Pressed(c, s, reading).(pc := Sleep);
    LeadsTrans(c, Some(reading), a, b, d);
    LeadsOne(c, Some(reading), d);
    LeadsTrans(c, Some(reading), a, d, d.(pc := SenseMerge));
  }

  /** With the stage switched off the reading makes no difference. */
  lemma OffIgnoresPressure(c: Config, s: State, one: Option<real>, other: Option<real>)
    requires Valid(c) && Reserved(c, s) && c.pressureOff
    ensures Control(c, s, one) == Control(c, s, other)
  {
  }

  /** Consecutive ticks, one reading each, without consumers. */
  ghost predicate Ticks(c: Config, s: State, readings: seq<Option<real>>, t: State)
    requires Valid(c)
    decreases |readings|
  {
    if readings == [] then s == t
    else exists m :: OneTick(c, readings[0], s, m) && Ticks(c, m, readings[1..], t)
  }

  predicate AtBaseline(c: Config, s: State)
    requires Valid(c)
  {
    s.merge == MergeBaseline(c) && s.task == TaskBaseline(c) && s.heldBack == 0
  }

  ghost predicate AllLow(c: Config, readings: seq<Option<real>>) {
    forall i :: 0 <= i < |readings| ==> Low(c, readings[i])
  }

  /** From any quiet tick boundary `idleReset - idleTicks` more ticks restore
      the baseline with an empty reservoir. */
  lemma {:induction false} QuietTicksSettle(c: Config, s: State, readings: seq<Option<real>>) returns (t: State)
    requires Valid(c) && Quiet(c, s) && s.pc.SenseMerge? && AllLow(c, readings)
    ensures Ticks(c, s, readings, t) && Quiet(c, t) && t.pc.SenseMerge?
    ensures readings != [] && s.idleTicks + |readings| >= c.idleReset ==> AtBaseline(c, t)
    decreases |readings|
  {
    if readings == [] {
      t := s;
    } else {
      var m := Settled(c, s, readings[0]);
      QuietTick(c, s, readings[0]);
      t := QuietTicksSettle(c, m, readings[1..]);
    }
  }

  // ---- the tick in progress ----

  /** How far the controller is from the end of its tick: the stage, and the
      operations left in its loop. */
  function Stage(pc: Pc): nat {
    match pc
    case SenseMerge => 0
    case Sleep => 1
    case TakeOne(_, _) => 2
    case GiveOne(_, _, _) => 2
    case Choose(_, _) => 3
    case Resense(_) => 4
    case Refilled(_, _) => 5
    case Refill(_, _) => 6
    case Grab(_, _, _) => 7
    case ReadPressure(_, _) => 8
    case SenseTask(_) => 9
    case SeedTask => 1
    case SeedMerge => 2
    case Exited => 0
    case Crashed => 0
  }

  function Left(pc: Pc): nat {
    match pc
    case Grab(_, wanted, _) => wanted
    case TakeOne(_, left) => 2 * left + 1
    case GiveOne(_, left, _) => 2 * left
    case _ => 0
  }

  lemma ControlKeepsCalm(c: Config, s: State, reading: Option<real>)
    requires Valid(c) && Calm(c, s)
    ensures var t := Control(c, s, reading); Calm(c, t) && t.heldMerge == s.heldMerge && t.heldTask == s.heldTask
  {
    assert Takes(c, s, ControllerStep(reading), Control(c, s, reading));
    NextKeepsInv(c, s, Control(c, s, reading));
  }

  lemma ControlAdvances(c: Config, s: State, reading: Option<real>)
    requires Valid(c) && Calm(c, s) && !s.pc.SenseMerge?
    ensures var t := Control(c, s, reading);
            Stage(t.pc) < Stage(s.pc) || (Stage(t.pc) == Stage(s.pc) && Left(t.pc) < Left(s.pc))
  {
    if s.pc.GiveOne? {
      assert s.merge + s.task + 1 <= c.tokens;
    }
  }

  /** Whatever the counts it carries, a tick in progress ends: left alone, the
      controller comes to sense again, with the same tokens held. */
  lemma {:induction false} TickEnds(c: Config, s: State, reading: Option<real>) returns (t: State)
    requires Valid(c) && Calm(c, s)
    ensures Leads(c, reading, s, t) && t.pc.SenseMerge? && Calm(c, t)
    ensures t.heldMerge == s.heldMerge && t.heldTask == s.heldTask
    decreases Stage(s.pc), Left(s.pc)
  {
    if s.pc.SenseMerge? {
      t := s;
      assert Inside(c, reading, s, t, 0);
    } else {
      ControlKeepsCalm(c, s, reading);
      ControlAdvances(c, s, reading);
      t := TickEnds(c, Control(c, s, reading), reading);
      LeadsOne(c, reading, s);
      LeadsTrans(c, reading, s, Control(c, s, reading), t);
    }
  }

  /** From any reachable state that is not shutting down: once no consumer holds
      or takes tokens and pressure stays low, the tick in progress ends and
      `idleReset` ticks later the pools are at the baseline. */
  lemma QuietConverges(c: Config, s: State, reading: Option<real>, readings: seq<Option<real>>)
    returns (m: State, t: State)
    requires Valid(c) && c.capacity >= c.tokens && Reachable(c, s) && !s.stopping
    requires s.heldMerge == 0 == s.heldTask && AllLow(c, readings) && |readings| == c.idleReset
    ensures Leads(c, reading, s, m) && m.pc.SenseMerge?
    ensures Ticks(c, m, readings, t) && Resting(c, t)
  {
    ReachableInv(c, s);
    m := TickEnds(c, s, reading);
    t := QuietTicksSettle(c, m, readings);
  }

  /** At the baseline, between any two operations of a quiet tick. */
  predicate Resting(c: Config, s: State)
    requires Valid(c)
  {
    && AtBaseline(c, s) && s.heldMerge == 0 == s.heldTask && !s.stopping
    && (c.pressureOff ==> s.avg10.None?)
    && match s.pc
       case SenseMerge => true
       case SenseTask(fm) => fm == s.merge
       case ReadPressure(fm, ft) => fm == s.merge && ft == s.task && !c.pressureOff
       case Resense(fm) => fm == s.merge && Low(c, s.avg10)
       case Choose(fm, ft) => fm == s.merge && ft == s.task && Low(c, s.avg10)
       case Sleep => true
       case _ => false
  }

  /** ... and there it stays: no step moves a token again ... */
  lemma RestingStays(c: Config, s: State, reading: Option<real>)
    requires Valid(c) && Resting(c, s) && Low(c, reading)
    ensures Resting(c, Control(c, s, reading))
  {
  }

  ghost predicate QuietStep(c: Config, s: State, t: State)
    requires Valid(c)
  {
    exists reading :: Low(c, reading) && t == Control(c, s, reading)
  }

  /** ... over any number of them. */
  lemma {:induction false} RestingForever(c: Config, run: seq<State>, n: nat)
    requires Valid(c) && n < |run| && Resting(c, run[0])
    requires forall i :: 0 < i < |run| ==> QuietStep(c, run[i - 1], run[i])
    ensures Resting(c, run[n])
  {
    if n == 0 {
    } else {
      RestingForever(c, run, n - 1);
      assert QuietStep(c, run[n - 1], run[n]);
      var reading :| Low(c, reading) && run[n] == Control(c, run[n - 1], reading);
      RestingStays(c, run[n - 1], reading);
    }
  }

  // ---- pipes that cannot hold all tokens ----

  lemma ReachNext(c: Config, s: State, step: Step, t: State)
    requires Valid(c) && Reachable(c, s) && Takes(c, s, step, t)
    ensures Reachable(c, t)
  {
    var run :| IsRun(c, run) && run[0] == Start() && run[|run| - 1] == s;
    var longer := run + [t];
    forall i: nat | i + 1 < |longer| ensures StepAt(c, longer, i) {
      if i + 1 < |run| {
        assert StepAt(c, run, i);
      }
    }
    assert longer[0] == run[0] && longer[|longer| - 1] == t;
    assert IsRun(c, longer);
  }

  lemma ReachControl(c: Config, s: State)
    requires Valid(c) && Reachable(c, s)
    ensures Reachable(c, Control(c, s, None))
  {
    ReachNext(c, s, ControllerStep(None), Control(c, s, None));
  }

  lemma {:induction false} TakeAllMerge(c: Config, s: State)
    requires Valid(c) && Reachable(c, s)
    ensures Reachable(c, s.(merge := 0, heldMerge := s.heldMerge + s.merge))
    decreases s.merge
  {
    if s.merge == 0 {
    } else {
      ReachNext(c, s, EventStep(TakesMerge), After(c, s, TakesMerge));
      TakeAllMerge(c, After(c, s, TakesMerge));
    }
  }

  lemma {:induction false} ReturnAllMerge(c: Config, s: State)
    requires Valid(c) && Reachable(c, s) && s.merge + s.heldMerge <= c.capacity
    ensures Reachable(c, s.(merge := s.merge + s.heldMerge, heldMerge := 0))
    decreases s.heldMerge
  {
    if s.heldMerge == 0 {
    } else {
      ReachNext(c, s, EventStep(ReturnsMerge), After(c, s, ReturnsMerge));
      ReturnAllMerge(c, After(c, s, ReturnsMerge));
    }
  }

  /** Shutting down in the middle of a burst, the controller goes on reading
      tokens and drops each one that finds the pipe full. */
  lemma {:induction false} StoppingBurst(c: Config, s: State) returns (t: State)
    requires Valid(c) && Reachable(c, s) && s.stopping && s.merge <= c.capacity
    requires s.pc == TakeOne(TaskToMerge, s.task)
    ensures Reachable(c, t)
    ensures t.lost == s.lost + if s.merge + s.task > c.capacity then s.merge + s.task - c.capacity else 0
    decreases s.task
  {
    if s.task == 0 {
      t := s;
    } else {
      var inHand := Control(c, s, None);
      ReachControl(c, s);
      ReachControl(c, inHand);
      t := StoppingBurst(c, Control(c, inHand, None));
    }
  }

  /** A reachable state about to burst all task tokens into merge while every
      merge token is out. */
  lemma MergeDemanded(c: Config) returns (s: State)
    requires Valid(c) && c.tokens >= 2 && Seedable(c)
    ensures Reachable(c, s) && s.pc == TakeOne(TaskToMerge, s.task) && s.task == TaskBaseline(c)
    ensures s.merge == 0 && s.heldMerge == MergeBaseline(c) && s.lost == 0
  {
    var run := [Start()];
    assert IsRun(c, run) && run[0] == Start() && run[|run| - 1] == Start();
    s := Start();
    ReachControl(c, s);
    s := Control(c, s, None);
    ReachControl(c, s);
    s := Control(c, s, None);
    TakeAllMerge(c, s);
    s := s.(merge := 0, heldMerge := s.heldMerge + s.merge);
    s := DemandedChoice(c, s);
  }

  /** The tick that finds merge 0-free and task spare. */
  lemma DemandedChoice(c: Config, s: State) returns (t: State)
    requires Valid(c) && Reachable(c, s) && s.pc.SenseMerge? && !s.stopping
    requires s.merge == 0 && 0 < s.task < c.tokens && s.heldBack == 0
    ensures Reachable(c, t) && t.pc == TakeOne(TaskToMerge, t.task)
    ensures t.task == s.task && t.merge == 0 && t.heldMerge == s.heldMerge && t.lost == s.lost
  {
    ReachControl(c, s);
    t := Control(c, s, None);
    ReachControl(c, t);
    t := Control(c, t, None);
    if !c.pressureOff {
      ReachControl(c, t);
      t := Control(c, t, None);
      ReachControl(c, t);
      t := Control(c, t, None);
    }
    ReachControl(c, t);
    t := Control(c, t, None);
  }

  /** Pipes that hold the seeded pools but not all tokens: consumers that
      return between the sense and the burst, and a shutdown, cost every token
      that does not fit, not just one. */
  lemma ShutdownDiscards(c: Config) returns (t: State)
    requires Valid(c) && Seedable(c) && c.capacity < c.tokens
    ensures Reachable(c, t) && t.lost == c.tokens - c.capacity
  {
    var s := MergeDemanded(c);
    ReturnAllMerge(c, s);
    s := s.(merge := s.merge + s.heldMerge, heldMerge := 0);
    ReachNext(c, s, EventStep(Stops), After(c, s, Stops));
    t := StoppingBurst(c, After(c, s, Stops));
  }

  /** For every bound: no run loses more than `n` tokens exactly when all but
      `n` fit into one pipe, or the pipes cannot even be seeded. */
  lemma LossIff(c: Config, n: nat)
    requires Valid(c)
    ensures (forall s :: Reachable(c, s) ==> s.lost <= n) <==> c.capacity + n >= c.tokens || !Seedable(c)
  {
    if c.capacity + n >= c.tokens || !Seedable(c) {
      forall s | Reachable(c, s)
        ensures s.lost <= n
      {
        if Seedable(c) {
          ReachableLossBound(c, s);
        } else {
          var run :| IsRun(c, run) && run[0] == Start() && run[|run| - 1] == s;
          UnseedableRun(c, run, |run| - 1);
        }
      }
    } else {
      var t := ShutdownDiscards(c);
    }
  }

  /** What the shutdown exit allows for: at most one token lost. */
  lemma AtMostOneLostIff(c: Config)
    requires Valid(c) && Seedable(c)
    ensures (forall s :: Reachable(c, s) ==> s.lost <= 1) <==> c.capacity >= c.tokens - 1
  {
    LossIff(c, 1);
  }

  /** No run loses a token exactly when one pipe can hold all of them. */
  lemma LosslessIff(c: Config)
    requires Valid(c) && Seedable(c)
    ensures (forall s :: Reachable(c, s) ==> s.lost == 0) <==> c.capacity >= c.tokens
  {
    LossIff(c, 0);
    assert forall s: State :: s.lost <= 0 <==> s.lost == 0;
  }
}
