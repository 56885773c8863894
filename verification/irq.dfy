/** The interrupt-mask bracket formed by `it7260_ts_isr` and
    `it7260_ts_poscheck`. The handler masks the line and schedules the poll
    task; the poll task unmasks it. The interrupt controller and the work
    queue are modelled by two values per device: the line's disable depth
    and whether the delayed work is queued. Everything is a sequential state
    transition; there are no threads. */
module IrqBracket {
  import opened Frame
  import opened Poll

  /** What an interrupt handler returns to the interrupt core. */
  datatype IrqReturn = IrqNone | IrqHandled

  /** The device's line and work item. `depth` counts the disables not yet
      matched by an enable (the line delivers interrupts only at depth 0);
      `workPending` is true while the delayed poll is queued. */
  datatype IrqState = IrqState(depth: nat, workPending: bool)

  /** A freshly registered line: unmasked, nothing queued. */
  const Idle := IrqState(0, false)

  /** `disable_irq_nosync`: one more disable, without waiting. */
  function DisableIrqNosync(s: IrqState): (t: IrqState)
    ensures t.depth > s.depth && t.workPending == s.workPending
  {
    IrqState(s.depth + 1, s.workPending)
  }

  /** `enable_irq`: undoes one disable. At depth 0 the kernel warns of an
      unbalanced enable and leaves the line as it is. */
  function EnableIrq(s: IrqState): (t: IrqState)
    ensures t.workPending == s.workPending
    ensures s.depth > 0 ==> t.depth + 1 == s.depth
    ensures s.depth == 0 ==> t == s
  {
    if s.depth == 0 then s else IrqState(s.depth - 1, s.workPending)
  }

  /** `enable_irq` called `n` times in a row. */
  function EnableIrqTimes(s: IrqState, n: nat): (t: IrqState)
    ensures t.workPending == s.workPending
    ensures t.depth == if n <= s.depth then s.depth - n else 0
    decreases n
  {
    if n == 0 then s else EnableIrqTimes(EnableIrq(s), n - 1)
  }

  /** `schedule_delayed_work`: queues the poll task; a task already queued
      stays queued once. */
  function ScheduleDelayedWork(s: IrqState): (t: IrqState)
    ensures t.workPending && t.depth == s.depth
  {
    IrqState(s.depth, true)
  }

  /** `it7260_ts_isr`: mask the line without waiting, queue the poll task
      after its debounce delay, and report the interrupt as handled. */
  function Isr(s: IrqState): (r: (IrqState, IrqReturn))
    ensures r.1 == IrqHandled
    ensures r.0.workPending
    ensures r.0.depth == s.depth + 1
  {
    (ScheduleDelayedWork(DisableIrqNosync(s)), IrqHandled)
  }

  /** The work queue running the poll task: the work item leaves the queue,
      the task reads, reports and unmasks the line as many times as the task
      calls `enable_irq`. */
  function RunPoll(s: IrqState, received: int, buf: RawFrame): (r: (IrqState, seq<Event>))
    ensures !r.0.workPending
    ensures r.1 == PosCheck(received, buf).events
    ensures s.depth > 0 ==> r.0.depth == s.depth - 1
  {
    var out := PosCheck(received, buf);
    (EnableIrqTimes(IrqState(s.depth, false), out.irqEnables), out.events)
  }

  /** The handler followed by the poll task returns the line to the depth it
      had before the interrupt, whether the read succeeded or failed, and
      leaves no work queued. */
  lemma IsrThenPollBalanced(s: IrqState, received: int, buf: RawFrame)
    ensures RunPoll(Isr(s).0, received, buf).0 == IrqState(s.depth, false)
  {
  }

  /** What the poll task does to the line and the queue, which is the same
      whatever it read. */
  function PollEffect(s: IrqState): IrqState
  {
    EnableIrq(IrqState(s.depth, false))
  }

  /** The poll task's effect on the line does not depend on the read: a
      failed read unmasks the line just as a touch frame does. */
  lemma RunPollIgnoresRead(s: IrqState, received: int, buf: RawFrame)
    ensures RunPoll(s, received, buf).0 == PollEffect(s)
  {
  }

  /** What can happen to one device next: the line fires, or the queued
      poll task runs. What the task reads does not matter here
      (`RunPollIgnoresRead`). */
  datatype Step = Fire | Work

  /** A masked level-triggered line does not invoke its handler, and the work
      queue runs only a queued task. */
  predicate CanStep(s: IrqState, step: Step)
  {
    match step
    case Fire => s.depth == 0
    case Work => s.workPending
  }

  function Apply(s: IrqState, step: Step): IrqState
  {
    match step
    case Fire => Isr(s).0
    case Work => PollEffect(s)
  }

  /** A history of one device: steps in the order they happen. */
  datatype History = Done | Then(step: Step, rest: History)

  /** Every step of `h` can happen in turn, starting from `s`. */
  predicate Feasible(s: IrqState, h: History)
    decreases h
  {
    match h
    case Done => true
    case Then(step, rest) => CanStep(s, step) && Feasible(Apply(s, step), rest)
  }

  function Run(s: IrqState, h: History): IrqState
    decreases h
  {
    match h
    case Done => s
    case Then(step, rest) => Run(Apply(s, step), rest)
  }

  /** How many interrupts a history takes. */
  function Fires(h: History): nat
  {
    match h
    case Done => 0
    case Then(step, rest) => (if step.Fire? then 1 else 0) + Fires(rest)
  }

  /** How many polls a history runs. */
  function Works(h: History): nat
  {
    match h
    case Done => 0
    case Then(step, rest) => (if step.Work? then 1 else 0) + Works(rest)
  }

  /** The bracket: the line is masked exactly while a poll task is queued,
      and never more than once. In such a state the handler cannot run
      while a poll is outstanding, so at most one poll task per device is
      ever queued or running. */
  predicate Bracketed(s: IrqState)
  {
    s.depth <= 1 && (s.depth == 1 <==> s.workPending)
  }

  /** One step that can happen keeps the bracket, and moves the depth by
      one in the step's direction. */
  lemma StepKeepsBracket(s: IrqState, step: Step)
    requires Bracketed(s) && CanStep(s, step)
    ensures Bracketed(Apply(s, step))
    ensures step.Fire? ==> Apply(s, step).depth == s.depth + 1
    ensures step.Work? ==> Apply(s, step).depth + 1 == s.depth
  {
  }

  /** The bracket holds after every feasible history of interrupts and
      polls, and the line's depth counts the interrupts whose poll has not
      yet run. */
  lemma {:induction false} BracketKept(s: IrqState, h: History)
    requires Bracketed(s) && Feasible(s, h)
    ensures Bracketed(Run(s, h))
    ensures Run(s, h).depth + Works(h) == s.depth + Fires(h)
    decreases h
  {
    match h
    case Done =>
    case Then(step, rest) =>
      StepKeepsBracket(s, step);
      BracketKept(Apply(s, step), rest);
  }

  /** From a freshly registered line, any feasible history leaves at most
      one unmatched interrupt, and none once every fired interrupt has had
      its poll. */
  lemma BracketFromIdle(h: History)
    requires Feasible(Idle, h)
    ensures Works(h) <= Fires(h) <= Works(h) + 1
    ensures Fires(h) == Works(h) ==> Run(Idle, h) == Idle
  {
    BracketKept(Idle, h);
  }

  /** The guard is what keeps the bracket: without it, a second interrupt
      before the poll leaves the line masked twice and the one poll task
      cannot unmask it. */
  lemma DoubleFireUnbalances()
    ensures !Feasible(Idle, Then(Fire, Then(Fire, Done)))
    ensures Run(Idle, Then(Fire, Then(Fire, Then(Work, Done)))).depth == 1
  {
  }
}
