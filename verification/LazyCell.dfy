/**
 The lazily initialised cell of SolrNet.Tests/Utils/Lazy.cs as a transition system: any number of
 threads read `Value`, every access to a shared field is a step of its own, and the scheduler and the
 factory are arbitrary. The factory may return any value, throw anything, or read the cell again
 before it ends.
 */
module LazyCell {
  import opened Options

  /** The type of the value: nothing is known about it. */
  type T(==, !new)

  datatype Mode = NoLock | PublicationOnly | ExecutionAndPublication

  /** `Reentrancy` is the InvalidOperationException that the cell itself creates. */
  datatype Exn = Reentrancy | FactoryError(code: int)

  datatype Outcome = Returned(value: T) | Threw(exn: Exn)

  /** Where a read of `Value` stands, named after the access to a shared field that it performs next. */
  datatype Pc =
    | TestInited                           // the getter: if (inited)
    | ReadFast                             // the getter: return value
    | TestException                        // the getter: if (exception != null)
    | ReadException                        // the getter: throw exception
    | Fetch                                // init_factory = factory, and the test for null
    | Clear                                // factory = null, then the call of init_factory
    | Run                                  // inside the factory
    | Raise                                // exception = new InvalidOperationException
    | Catch(exn: Exn)                      // exception = ex
    | Lock(v: T, made: bool)               // PublicationOnly: waiting for the monitor with a value
    | Retest(v: T, made: bool)             // PublicationOnly: if (inited), under the monitor
    | Acquire                              // ExecutionAndPublication: waiting for the monitor
    | Check                                // ExecutionAndPublication: if (inited), under the monitor
    | Reread                               // return value, under the monitor
    | Store(v: T)                          // value = v
    | Publish                              // inited = true
    | Forget                               // PublicationOnly: factory = null
    | Unlock(pending: Option<Outcome>)  // leaving the lock statement
    | ReadFinal                            // the last line of InitValue: return value
    | Done(outcome: Outcome)

  /**
   A thread inside a read has `nest` suspended factory calls below the current read: a read is started
   only by an idle thread or by a running factory, so every suspended frame is a factory call.
   */
  datatype Thread = Idle | Busy(nest: nat, pc: Pc)

  datatype Answer = Answer(tid: nat, outcome: Outcome)

  /** What has happened so far; no step depends on it, except that `initial` is default(T). */
  datatype Log = Log(
    initial: T,
    starts: nat,           // factory calls started
    produced: seq<T>,      // values returned by factory calls
    thrown: seq<Exn>,      // exceptions thrown by factory calls
    published: seq<T>,     // values written to the field `value`
    answers: seq<Answer>,  // how each finished read ended
    reentered: bool)       // some factory call read the cell

  /** The fields of the cell and its monitor, with the log of the run. */
  datatype Cell = Cell(
    mode: Mode,
    hasFactory: bool,
    inited: bool,
    exception: Option<Exn>,
    value: T,
    owner: Option<nat>,
    depth: nat,
    log: Log)

  datatype State = State(cell: Cell, threads: seq<Thread>)

  datatype Choice = Call | Go | FactoryReturns(v: T) | FactoryThrows(exn: Exn) | FactoryReads

  datatype Action = Action(tid: nat, choice: Choice)

  datatype Move = Move(cell: Cell, thread: Thread)

  function NewCell(mode: Mode, initial: T): Cell {
    Cell(mode, true, false, None, initial, None, 0, Log(initial, 0, [], [], [], [], false))
  }

  function Init(mode: Mode, threadCount: nat, initial: T): State {
    State(NewCell(mode, initial), seq(threadCount, _ => Idle))
  }

  /** One step. An action that is not possible, such as taking a held monitor, leaves the state as it is. */
  function Step(s: State, a: Action): State {
    if a.tid >= |s.threads| then s else
    var m := Act(s.cell, a.tid, s.threads[a.tid], a.choice);
    State(m.cell, s.threads[a.tid := m.thread])
  }

  function Exec(s: State, sched: seq<Action>): State
    decreases |sched|
  {
    if sched == [] then s else Step(Exec(s, sched[..|sched| - 1]), sched[|sched| - 1])
  }

  /** The state after the next action of a schedule that is being written out. */
  lemma Then(s: State, sched: seq<Action>, a: Action)
    ensures Exec(s, sched + [a]) == Step(Exec(s, sched), a)
  {
    assert (sched + [a])[..|sched|] == sched;
  }

  function Act(c: Cell, t: nat, th: Thread, choice: Choice): Move {
    match th
    case Idle => Move(c, if choice.Call? then Busy(0, TestInited) else Idle)
    case Busy(nest, pc) =>
      if pc.Done? then Deliver(c, t, nest, pc.outcome)
      else if pc.Run? then Factory(c, nest, choice)
      else if choice.Go? then Advance(c, t, nest, pc)
      else Move(c, th)
  }

  /** A finished read goes back to the idle thread or to the factory call that started it. */
  function Deliver(c: Cell, t: nat, nest: nat, o: Outcome): Move {
    Move(c.(log := c.log.(answers := c.log.answers + [Answer(t, o)])), if nest == 0 then Idle else Busy(nest - 1, Run))
  }

  function Factory(c: Cell, nest: nat, choice: Choice): Move {
    match choice
    case FactoryReturns(v) =>
      Move(c.(log := c.log.(produced := c.log.produced + [v])),
           Busy(nest, if c.mode.PublicationOnly? then Lock(v, true) else Store(v)))
    case FactoryThrows(e) =>
      Move(c.(log := c.log.(thrown := c.log.thrown + [e])),
           Busy(nest, if c.mode.PublicationOnly? then Done(Threw(e)) else Catch(e)))
    case FactoryReads => Move(c.(log := c.log.(reentered := true)), Busy(nest + 1, TestInited))
    case _ => Move(c, Busy(nest, Run))
  }

  predicate CanLock(c: Cell, t: nat) {
    c.owner == None || c.owner == Some(t)
  }

  function Locked(c: Cell, t: nat): Cell {
    c.(owner := Some(t), depth := c.depth + 1)
  }

  function Unlocked(c: Cell): Cell {
    if c.depth <= 1 then c.(owner := None, depth := 0) else c.(depth := c.depth - 1)
  }

  /** Throwing out of InitValue passes the end of the lock statement where there is one. */
  function Leave(mode: Mode, o: Outcome): Pc {
    if mode.ExecutionAndPublication? then Unlock(Some(o)) else Done(o)
  }

  /** The step of a read that is neither inside the factory nor finished. */
  function Advance(c: Cell, t: nat, nest: nat, pc: Pc): Move
    requires !pc.Run? && !pc.Done?
  {
    match pc
    case TestInited => Move(c, Busy(nest, if c.inited then ReadFast else TestException))
    case ReadFast => Move(c, Busy(nest, Done(Returned(c.value))))
    case TestException =>
      Move(c, Busy(nest, if c.exception.Some? then ReadException
                         else if c.mode.ExecutionAndPublication? then Acquire else Fetch))
    case ReadException =>
      Move(c, Busy(nest, Done(Threw(if c.exception.Some? then c.exception.value else Reentrancy))))
    case Fetch =>
      if !c.mode.PublicationOnly? then Move(c, Busy(nest, if c.hasFactory then Clear else Raise))
      else if c.hasFactory then Move(c.(log := c.log.(starts := c.log.starts + 1)), Busy(nest, Run))
      else Move(c, Busy(nest, Lock(c.log.initial, false)))
    case Clear => Move(c.(hasFactory := false, log := c.log.(starts := c.log.starts + 1)), Busy(nest, Run))
    case Raise =>
      Move(c.(exception := Some(Reentrancy)), Busy(nest, Leave(c.mode, Threw(Reentrancy))))
    case Catch(e) => Move(c.(exception := Some(e)), Busy(nest, Leave(c.mode, Threw(e))))
    case Lock(v, made) =>
      if CanLock(c, t) then Move(Locked(c, t), Busy(nest, Retest(v, made))) else Move(c, Busy(nest, pc))
    case Retest(v, made) => Move(c, Busy(nest, if c.inited then Reread else Store(v)))
    case Acquire => if CanLock(c, t) then Move(Locked(c, t), Busy(nest, Check)) else Move(c, Busy(nest, pc))
    case Check => Move(c, Busy(nest, if c.inited then Reread else Fetch))
    case Reread => Move(c, Busy(nest, Unlock(Some(Returned(c.value)))))
    case Store(v) => Move(c.(value := v, log := c.log.(published := c.log.published + [v])), Busy(nest, Publish))
    case Publish =>
      Move(c.(inited := true),
           Busy(nest, if c.mode.NoLock? then ReadFinal
                      else if c.mode.PublicationOnly? then Forget else Unlock(None)))
    case Forget => Move(c.(hasFactory := false), Busy(nest, Unlock(None)))
    case Unlock(pending) =>
      Move(Unlocked(c), Busy(nest, if pending.Some? then Done(pending.value) else ReadFinal))
    case ReadFinal => Move(c, Busy(nest, Done(Returned(c.value))))
  }
}
