/** The dual-FIFO jobserver balancer as a transition system. The controller
    takes one pipe operation per step; between any two of its steps consumers
    may take a token from a pool or return one to the pool it came from. */
module Jobserver {
  import opened Outcomes

  datatype Config = Config(
    tokens: nat, capacity: nat, holdAt: real, releaseAt: real, epsilon: nat,
    idleReset: nat, maxHeld: nat, pressureOff: bool)

  /** What start-up checks before the loop begins. */
  predicate Valid(c: Config) {
    c.tokens >= 1 && c.epsilon >= 1 && c.idleReset >= 1 && c.releaseAt < c.holdAt
  }

  function TaskBaseline(c: Config): nat {
    if c.tokens / 4 > 1 then c.tokens / 4 else 1
  }

  function MergeBaseline(c: Config): nat
    requires Valid(c)
  {
    c.tokens - TaskBaseline(c)
  }

  // ---- policy ----

  datatype Pressure = Nothing | Hold(count: nat) | Release(count: nat)

  function PressureDecide(avg10: Option<real>, holdAt: real, releaseAt: real, freeTask: nat, heldBack: nat,
                          maxHeld: nat): Pressure {
    if avg10.None? || avg10.value < releaseAt then
      if heldBack > 0 then Release(heldBack) else Nothing
    else if avg10.value >= holdAt then
      var headroom := maxHeld as int - heldBack;
      var count := if freeTask < headroom then freeTask as int else headroom;
      if count > 0 then Hold(count) else Nothing
    else Nothing
  }

  predicate SuppressGiveback(avg10: Option<real>, releaseAt: real, heldBack: nat) {
    (avg10.Some? && avg10.value >= releaseAt) || heldBack > 0
  }

  datatype Direction = MergeToTask | TaskToMerge

  datatype Action = Stay | Move(direction: Direction, count: nat)

  function Decide(freeMerge: nat, freeTask: nat, tokens: nat, mergeBase: nat, taskBase: nat, epsilon: nat,
                  idleTicks: nat, idleReset: nat): Action
    requires mergeBase + taskBase == tokens
  {
    if freeMerge + freeTask == tokens then
      if idleTicks >= idleReset then
        if freeMerge > mergeBase then Move(MergeToTask, freeMerge - mergeBase)
        else if freeTask > taskBase then Move(TaskToMerge, freeTask - taskBase)
        else Stay
      else Stay
    else if freeMerge == 0 && freeTask > 0 then Move(TaskToMerge, freeTask)
    else if freeTask == 0 && freeMerge > epsilon then Move(MergeToTask, freeMerge - epsilon)
    else Stay
  }

  // ---- states and steps ----

  /** Where the controller is, with the locals that are live there. */
  datatype Pc =
    | SeedMerge
    | SeedTask
    | SenseMerge
    | SenseTask(freeMerge: nat)
    | ReadPressure(freeMerge: nat, freeTask: nat)
    | Grab(freeMerge: nat, wanted: nat, absorbed: nat)
    | Refill(freeMerge: nat, count: nat)
    | Refilled(freeMerge: nat, count: nat)
    | Resense(freeMerge: nat)
    | Choose(freeMerge: nat, freeTask: nat)
    | TakeOne(direction: Direction, left: nat)
    | GiveOne(direction: Direction, left: nat, tries: nat)
    | Sleep
    | Exited
    | Crashed

  datatype State = State(
    merge: nat, task: nat, heldMerge: nat, heldTask: nat, heldBack: nat,
    idleTicks: nat, avg10: Option<real>, stopping: bool, lost: nat, pc: Pc)

  const WRITE_RETRY_MAX := 1000

  function Start(): State {
    State(0, 0, 0, 0, 0, 0, None, false, 0, SeedMerge)
  }

  function DecideAt(c: Config, s: State, freeMerge: nat, freeTask: nat): State
    requires Valid(c)
  {
    var idle := if freeMerge + freeTask + s.heldBack == c.tokens then s.idleTicks + 1 else 0;
    var action := Decide(freeMerge, freeTask, c.tokens, MergeBaseline(c), TaskBaseline(c), c.epsilon,
                         idle, c.idleReset);
    var next :=
      match action
      case Stay => Sleep
      case Move(direction, count) =>
        if direction.MergeToTask? && SuppressGiveback(s.avg10, c.releaseAt, s.heldBack) then Sleep
        else TakeOne(direction, count);
    s.(idleTicks := idle, pc := next)
  }

  function PressureAt(c: Config, s: State, freeMerge: nat, freeTask: nat, reading: Option<real>): State {
    var next :=
      match PressureDecide(reading, c.holdAt, c.releaseAt, freeTask, s.heldBack, c.maxHeld)
      case Hold(count) => Grab(freeMerge, count, 0)
      case Release(count) => Refill(freeMerge, count)
      case Nothing => Resense(freeMerge);
    s.(avg10 := reading, pc := next)
  }

  function TakeAt(s: State, direction: Direction, left: nat): State {
    var donor := if direction.TaskToMerge? then s.task else s.merge;
    if left == 0 || donor == 0 then s.(pc := Sleep)
    else if direction.TaskToMerge? then s.(task := s.task - 1, pc := GiveOne(direction, left, 0))
    else s.(merge := s.merge - 1, pc := GiveOne(direction, left, 0))
  }

  function GiveAt(c: Config, s: State, direction: Direction, left: nat, tries: nat): State {
    var recipient := if direction.TaskToMerge? then s.merge else s.task;
    var rest := if left > 0 then left - 1 else 0;
    if recipient < c.capacity then
      if direction.TaskToMerge? then s.(merge := s.merge + 1, pc := TakeOne(direction, rest))
      else s.(task := s.task + 1, pc := TakeOne(direction, rest))
    else if s.stopping || tries + 1 >= WRITE_RETRY_MAX then
      s.(lost := s.lost + 1, pc := TakeOne(direction, rest))
    else s.(pc := GiveOne(direction, left, tries + 1))
  }

  /** The controller's next step; `reading` is what the pressure file says. */
  function Control(c: Config, s: State, reading: Option<real>): State
    requires Valid(c)
  {
    match s.pc
    case SeedMerge =>
      if s.merge + MergeBaseline(c) <= c.capacity then s.(merge := s.merge + MergeBaseline(c), pc := SeedTask)
      else s.(pc := Crashed)
    case SeedTask =>
      if s.task + TaskBaseline(c) <= c.capacity then s.(task := s.task + TaskBaseline(c), pc := SenseMerge)
      else s.(pc := Crashed)
    case SenseMerge => s.(pc := if s.stopping then Exited else SenseTask(s.merge))
    case SenseTask(fm) => s.(pc := if c.pressureOff then Choose(fm, s.task) else ReadPressure(fm, s.task))
    case ReadPressure(fm, ft) => PressureAt(c, s, fm, ft, reading)
    case Grab(fm, wanted, absorbed) =>
      if wanted > 0 && s.task > 0 then s.(task := s.task - 1, pc := Grab(fm, wanted - 1, absorbed + 1))
      else s.(heldBack := s.heldBack + absorbed, pc := Resense(fm))
    case Refill(fm, count) =>
      if s.task + count <= c.capacity then s.(task := s.task + count, pc := Refilled(fm, count))
      else s.(pc := Crashed)
    case Refilled(fm, count) =>
      s.(heldBack := if count <= s.heldBack then s.heldBack - count else 0, pc := Resense(fm))
    case Resense(fm) => s.(pc := Choose(fm, s.task))
    case Choose(fm, ft) => DecideAt(c, s, fm, ft)
    case TakeOne(direction, left) => TakeAt(s, direction, left)
    case GiveOne(direction, left, tries) => GiveAt(c, s, direction, left, tries)
    case Sleep => s.(pc := SenseMerge)
    case Exited => s
    case Crashed => s
  }

  datatype Event = TakesMerge | ReturnsMerge | TakesTask | ReturnsTask | Stops

  /** What happens around the controller. A client returns a token to the pool
      it took it from, and its write waits for room. */
  predicate Enabled(c: Config, s: State, e: Event) {
    match e
    case TakesMerge => s.merge > 0
    case ReturnsMerge => s.heldMerge > 0 && s.merge < c.capacity
    case TakesTask => s.task > 0
    case ReturnsTask => s.heldTask > 0 && s.task < c.capacity
    case Stops => true
  }

  function After(c: Config, s: State, e: Event): State
    requires Enabled(c, s, e)
  {
    match e
    case TakesMerge => s.(merge := s.merge - 1, heldMerge := s.heldMerge + 1)
    case ReturnsMerge => s.(merge := s.merge + 1, heldMerge := s.heldMerge - 1)
    case TakesTask => s.(task := s.task - 1, heldTask := s.heldTask + 1)
    case ReturnsTask => s.(task := s.task + 1, heldTask := s.heldTask - 1)
    case Stops => s.(stopping := true)
  }

  datatype Step = ControllerStep(reading: Option<real>) | EventStep(event: Event)

  predicate Takes(c: Config, s: State, step: Step, t: State)
    requires Valid(c)
  {
    match step
    case ControllerStep(reading) => t == Control(c, s, reading)
    case EventStep(e) => Enabled(c, s, e) && t == After(c, s, e)
  }

  ghost predicate Next(c: Config, s: State, t: State)
    requires Valid(c)
  {
    exists step :: Takes(c, s, step, t)
  }

  ghost predicate StepAt(c: Config, run: seq<State>, i: nat)
    requires Valid(c) && i + 1 < |run|
  {
    Next(c, run[i], run[i + 1])
  }

  ghost predicate IsRun(c: Config, run: seq<State>)
    requires Valid(c)
  {
    |run| > 0 && forall i: nat {:trigger StepAt(c, run, i)} :: i + 1 < |run| ==> StepAt(c, run, i)
  }

  ghost predicate Reachable(c: Config, s: State)
    requires Valid(c)
  {
    exists run :: IsRun(c, run) && run[0] == Start() && run[|run| - 1] == s
  }

  // ---- conservation ----

  /** Tokens that are in no pool, no consumer and no counter: not yet seeded,
      absorbed but not yet counted, counted twice (negative), or in hand. */
  function InFlight(c: Config, pc: Pc): int
    requires Valid(c)
  {
    match pc
    case SeedMerge => c.tokens
    case SeedTask => TaskBaseline(c)
    case Grab(_, _, absorbed) => absorbed
    case Refilled(_, count) => 0 - count
    case GiveOne(_, _, _) => 1
    case _ => 0
  }

  /** Every token is somewhere, or was dropped by a full recipient pipe. */
  predicate Conserved(c: Config, s: State)
    requires Valid(c)
  {
    s.pc.Crashed? ||
    s.merge + s.task + s.heldMerge + s.heldTask + s.heldBack + s.lost + InFlight(c, s.pc) == c.tokens
  }

  predicate PressureRead(c: Config, s: State) {
    s.avg10.Some? && s.avg10.value >= c.releaseAt
  }

  /** The reservoir: never above its limit, emptied before the stage ends when
      pressure is low, and used only when the stage is on. A token in hand
      belongs to a burst that still has it to give, and only a stopping
      controller exits. */
  predicate Reserved(c: Config, s: State) {
    && s.heldBack <= c.maxHeld
    && (c.pressureOff ==> s.heldBack == 0 && s.avg10.None?)
    && match s.pc
       case Grab(_, wanted, absorbed) =>
         PressureRead(c, s) && s.heldBack + absorbed + wanted <= c.maxHeld && !c.pressureOff
       case Refill(_, count) => count == s.heldBack && !c.pressureOff
       case Refilled(_, count) => count == s.heldBack && !c.pressureOff
       case ReadPressure(_, _) => !c.pressureOff
       case Crashed => true
       case Exited => s.stopping && (s.heldBack > 0 ==> PressureRead(c, s))
       case GiveOne(_, left, _) => left > 0 && (s.heldBack > 0 ==> PressureRead(c, s))
       case _ => s.heldBack > 0 ==> PressureRead(c, s)
  }

  /** With pipes that can hold all tokens nothing is ever dropped. */
  predicate Lossless(s: State) {
    s.lost == 0 && !s.pc.Crashed? && (s.pc.GiveOne? ==> s.pc.tries == 0)
  }

  predicate Inv(c: Config, s: State)
    requires Valid(c)
  {
    Conserved(c, s) && Reserved(c, s) && (c.capacity >= c.tokens ==> Lossless(s))
  }

  lemma TransferConserves(c: Config, s: State)
    requires Valid(c) && Conserved(c, s)
    ensures s.pc.TakeOne? ==> Conserved(c, TakeAt(s, s.pc.direction, s.pc.left))
    ensures s.pc.GiveOne? ==> Conserved(c, GiveAt(c, s, s.pc.direction, s.pc.left, s.pc.tries))
  {
  }

  lemma DecisionConserves(c: Config, s: State, reading: Option<real>)
    requires Valid(c) && Conserved(c, s)
    ensures s.pc.Choose? ==> Conserved(c, DecideAt(c, s, s.pc.freeMerge, s.pc.freeTask))
    ensures s.pc.ReadPressure? ==> Conserved(c, PressureAt(c, s, s.pc.freeMerge, s.pc.freeTask, reading))
  {
  }

  lemma ControlConserves(c: Config, s: State, reading: Option<real>)
    requires Valid(c) && Conserved(c, s) && Reserved(c, s)
    ensures Conserved(c, Control(c, s, reading))
  {
    TransferConserves(c, s);
    DecisionConserves(c, s, reading);
  }

  lemma ControlReserves(c: Config, s: State, reading: Option<real>)
    requires Valid(c) && Reserved(c, s)
    ensures Reserved(c, Control(c, s, reading))
  {
  }

  /** A recipient always has room for the token in hand: all the others fit
      into the tokens that remain. */
  lemma ControlLossless(c: Config, s: State, reading: Option<real>)
    requires Valid(c) && Conserved(c, s) && Reserved(c, s) && Lossless(s) && c.capacity >= c.tokens
    ensures Lossless(Control(c, s, reading))
  {
  }

  lemma EventKeepsInv(c: Config, s: State, e: Event)
    requires Valid(c) && Inv(c, s) && Enabled(c, s, e)
    ensures Inv(c, After(c, s, e))
  {
  }

  lemma NextKeepsInv(c: Config, s: State, t: State)
    requires Valid(c) && Inv(c, s) && Next(c, s, t)
    ensures Inv(c, t)
  {
    var step :| Takes(c, s, step, t);
    match step
    case ControllerStep(reading) =>
      ControlConserves(c, s, reading);
      ControlReserves(c, s, reading);
      if c.capacity >= c.tokens { ControlLossless(c, s, reading); }
    case EventStep(e) => EventKeepsInv(c, s, e);
  }

  lemma {:induction false} RunKeepsInv(c: Config, run: seq<State>, i: nat)
    requires Valid(c) && IsRun(c, run) && Inv(c, run[0]) && i < |run|
    ensures Inv(c, run[i])
  {
    if i == 0 {
    } else {
      RunKeepsInv(c, run, i - 1);
      assert StepAt(c, run, i - 1);
      NextKeepsInv(c, run[i - 1], run[i]);
    }
  }

  /** A token is dropped only when a pipe is full, so what is lost fits beside
      one full pipe. */
  predicate LossBounded(c: Config, s: State) {
    s.lost == 0 || s.lost + c.capacity <= c.tokens
  }

  lemma GiveKeepsLossBound(c: Config, s: State)
    requires Valid(c) && Conserved(c, s) && LossBounded(c, s) && s.pc.GiveOne?
    ensures LossBounded(c, GiveAt(c, s, s.pc.direction, s.pc.left, s.pc.tries))
  {
  }

  lemma OnlyGivingLoses(c: Config, s: State, reading: Option<real>)
    requires Valid(c) && !s.pc.GiveOne?
    ensures Control(c, s, reading).lost == s.lost
  {
  }

  lemma NextKeepsLossBound(c: Config, s: State, t: State)
    requires Valid(c) && Conserved(c, s) && LossBounded(c, s) && Next(c, s, t)
    ensures LossBounded(c, t)
  {
    var step :| Takes(c, s, step, t);
    match step
    case ControllerStep(reading) =>
      if s.pc.GiveOne? {
        GiveKeepsLossBound(c, s);
      } else {
        OnlyGivingLoses(c, s, reading);
      }
    case EventStep(e) =>
  }

  lemma {:induction false} RunKeepsLossBound(c: Config, run: seq<State>, i: nat)
    requires Valid(c) && IsRun(c, run) && run[0] == Start() && i < |run|
    ensures LossBounded(c, run[i])
  {
    if i == 0 {
    } else {
      RunKeepsLossBound(c, run, i - 1);
      RunKeepsInv(c, run, i - 1);
      assert StepAt(c, run, i - 1);
      NextKeepsLossBound(c, run[i - 1], run[i]);
    }
  }

  /** In every run, at most the tokens that do not fit into one pipe are lost. */
  lemma ReachableLossBound(c: Config, s: State)
    requires Valid(c) && Reachable(c, s)
    ensures LossBounded(c, s)
  {
    var run :| IsRun(c, run) && run[0] == Start() && run[|run| - 1] == s;
    RunKeepsLossBound(c, run, |run| - 1);
  }

  /** The pipes can take the pools they are seeded with. */
  predicate Seedable(c: Config)
    requires Valid(c)
  {
    MergeBaseline(c) <= c.capacity && TaskBaseline(c) <= c.capacity
  }

  /** Otherwise seeding crashes and nothing is ever moved. */
  predicate Unseeded(s: State) {
    s.lost == 0 && (s.pc.SeedMerge? || s.pc.SeedTask? || s.pc.Crashed?)
  }

  lemma {:induction false} UnseedableRun(c: Config, run: seq<State>, i: nat)
    requires Valid(c) && !Seedable(c) && IsRun(c, run) && run[0] == Start() && i < |run|
    ensures Unseeded(run[i]) && (run[i].pc.SeedTask? ==> TaskBaseline(c) > c.capacity)
  {
    if i == 0 {
    } else {
      UnseedableRun(c, run, i - 1);
      assert StepAt(c, run, i - 1);
      var step :| Takes(c, run[i - 1], step, run[i]);
    }
  }

  /** In every reachable state the tokens add up and the reservoir is within
      its limit; once pipes can hold all tokens, no write ever finds its pipe
      full, none is retried, and neither lossy exit nor crash is reached. */
  lemma ReachableInv(c: Config, s: State)
    requires Valid(c) && Reachable(c, s)
    ensures Inv(c, s)
  {
    var run :| IsRun(c, run) && run[0] == Start() && run[|run| - 1] == s;
    RunKeepsInv(c, run, |run| - 1);
  }

  // ---- the merge side under demand or pressure ----

  function MergeSide(s: State): nat {
    s.merge + s.heldMerge
  }

  predicate GivingBack(s: State) {
    (s.pc.TakeOne? || s.pc.GiveOne?) && s.pc.direction.MergeToTask?
  }

  /** A tick about to decide has sensed merge 0-free or read real pressure. */
  predicate Guarded(c: Config, s: State) {
    s.pc.Choose? ==> s.pc.freeMerge == 0 || PressureRead(c, s)
  }

  lemma GuardedChoice(c: Config, s: State)
    requires Valid(c) && s.pc.Choose? && Guarded(c, s)
    ensures !GivingBack(DecideAt(c, s, s.pc.freeMerge, s.pc.freeTask))
  {
  }

  lemma GuardedControl(c: Config, s: State, reading: Option<real>)
    requires Valid(c) && Guarded(c, s) && !GivingBack(s)
    ensures !GivingBack(Control(c, s, reading)) && MergeSide(s) <= MergeSide(Control(c, s, reading))
  {
    if s.pc.Choose? {
      GuardedChoice(c, s);
    }
  }

  lemma GuardedStep(c: Config, s: State, t: State)
    requires Valid(c) && Next(c, s, t) && Guarded(c, s) && !GivingBack(s)
    ensures !GivingBack(t) && MergeSide(s) <= MergeSide(t)
  {
    var step :| Takes(c, s, step, t);
    if step.ControllerStep? {
      GuardedControl(c, s, step.reading);
    }
  }

  /** Over any stretch of such ticks, whatever consumers do in between, the
      merge side never shrinks. */
  lemma {:induction false} MergeSideNeverShrinks(c: Config, run: seq<State>, i: nat, j: nat)
    requires Valid(c) && IsRun(c, run) && i <= j < |run| && run[i].pc.SenseMerge?
    requires forall k :: i <= k < j ==> Guarded(c, run[k])
    ensures MergeSide(run[i]) <= MergeSide(run[j]) && !GivingBack(run[j])
    decreases j
  {
    if i == j {
    } else {
      MergeSideNeverShrinks(c, run, i, j - 1);
      assert StepAt(c, run, j - 1);
      GuardedStep(c, run[j - 1], run[j]);
    }
  }

  /** Nothing is given back while tokens are held back, or pressure is read; the
      first condition implies the second wherever the controller decides. */
  lemma GivebackBlocked(c: Config, s: State, freeMerge: nat, freeTask: nat)
    requires Valid(c)
    ensures s.heldBack > 0 || PressureRead(c, s) ==> !GivingBack(DecideAt(c, s, freeMerge, freeTask))
    ensures Reachable(c, s) && s.pc.Choose? && s.heldBack > 0 ==> PressureRead(c, s)
  {
    if Reachable(c, s) {
      ReachableInv(c, s);
    }
  }

  /** The baseline favours merge exactly from three tokens on, and the task pool
      is a quarter of the tokens. */
  lemma MergeFavouredIff(c: Config)
    requires Valid(c)
    ensures MergeBaseline(c) > TaskBaseline(c) <==> c.tokens >= 3
    ensures MergeBaseline(c) + TaskBaseline(c) == c.tokens && TaskBaseline(c) >= 1
    ensures c.tokens >= 4 ==> 4 * TaskBaseline(c) <= c.tokens < 4 * (TaskBaseline(c) + 1)
  {
  }
}
