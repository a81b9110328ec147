/**
 The class of SolrNet.Tests/Utils/Lazy.cs as its code runs on one thread, with a factory that may read the
 cell again where that ends. Every access to a field is matched by a step of the transition system, so the
 life of an object is a run of that system and has all its properties.
 */
module LazyObject {
  import opened Options
  import opened LazyCell
  import opened LazySafety
  import opened LazyTheorems

  /** A factory body: it returns, throws, or reads the cell and goes on, with an exception swallowed. */
  datatype Script = Return(v: T) | Throw(exn: Exn) | Read(onValue: Script, onError: Script)

  // ----- What the fields are after a read, and what it answers -----

  datatype Fields = Fields(factory: Option<Script>, inited: bool, value: T, exception: Option<Exn>)

  datatype Answered = Answered(outcome: Outcome, fields: Fields)

  /** A read that finds no factory to run. */
  function ReadWithout(f: Fields): Answered {
    if f.inited then Answered(Returned(f.value), f)
    else if f.exception.Some? then Answered(Threw(f.exception.value), f)
    else Answered(Threw(Reentrancy), f.(exception := Some(Reentrancy)))
  }

  /** A factory body, which runs with the factory field empty. */
  function RunBody(body: Script, f: Fields): Answered {
    match body
    case Return(v) => Answered(Returned(v), f)
    case Throw(e) => Answered(Threw(e), f)
    case Read(onValue, onError) =>
      var r := ReadWithout(f);
      RunBody(if r.outcome.Returned? then onValue else onError, r.fields)
  }

  /** The part that NoLock and ExecutionAndPublication share. */
  function Initialised(f: Fields): Answered {
    if f.factory.None? then Answered(Threw(Reentrancy), f.(exception := Some(Reentrancy))) else
    var r := RunBody(f.factory.value, f.(factory := None));
    Answered(r.outcome, if r.outcome.Returned? then r.fields.(value := r.outcome.value, inited := true)
                        else r.fields.(exception := Some(r.outcome.exn)))
  }

  /** PublicationOnly, under the lock. */
  function Shared(v: T, f: Fields): Answered {
    if f.inited then Answered(Returned(f.value), f)
    else Answered(Returned(v), f.(value := v, inited := true, factory := None))
  }

  /** PublicationOnly, with a factory that does not read the cell. */
  function Produced(initial: T, f: Fields): Answered {
    match f.factory
    case None => Shared(initial, f)
    case Some(Return(v)) => Shared(v, f)
    case Some(Throw(e)) => Answered(Threw(e), f)
    case Some(Read(_, _)) => Answered(Threw(Reentrancy), f)
  }

  function InitOf(mode: Mode, initial: T, f: Fields): Answered {
    if mode.PublicationOnly? then Produced(initial, f)
    else if mode.ExecutionAndPublication? && f.inited then Answered(Returned(f.value), f)
    else Initialised(f)
  }

  function ReadOf(mode: Mode, initial: T, f: Fields): Answered {
    if f.inited then Answered(Returned(f.value), f)
    else if f.exception.Some? then Answered(Threw(f.exception.value), f)
    else InitOf(mode, initial, f)
  }

  /** What a factory is meant to give: it returns, throws, or goes on as it does after a failed read. */
  function Meaning(body: Script): Outcome {
    match body
    case Return(v) => Returned(v)
    case Throw(e) => Threw(e)
    case Read(_, onError) => Meaning(onError)
  }

  /** The fields of a cell with factory `body` before it has been read, or after the factory has ended. */
  ghost predicate Promises(body: Script, mode: Mode, initial: T, f: Fields) {
    f == Fields(Some(body), false, initial, None) || f == Ended(body, mode, initial)
  }

  /** The fields after a first read. */
  function Ended(body: Script, mode: Mode, initial: T): Fields {
    match Meaning(body)
    case Returned(v) => Fields(None, true, v, if body.Read? then Some(Reentrancy) else None)
    case Threw(e) =>
      if mode.PublicationOnly? then Fields(Some(body), false, initial, None) else Fields(None, false, initial, Some(e))
  }

  lemma {:induction false} BodyMeans(body: Script, f: Fields)
    requires !f.inited && f.factory.None? && (f.exception == None || f.exception == Some(Reentrancy))
    ensures RunBody(body, f) ==
              Answered(Meaning(body), if body.Read? then f.(exception := Some(Reentrancy)) else f)
  {
    if body.Read? {
      BodyMeans(body.onError, ReadWithout(f).fields);
    }
  }

  /**
   In every mode the first read of a new cell answers what its factory is meant to give, and so does every
   later one: the value, the kept exception, or in PublicationOnly the factory's exception again.
   */
  lemma ReadMeans(body: Script, mode: Mode, initial: T, f: Fields)
    requires mode.PublicationOnly? ==> !body.Read?
    requires Promises(body, mode, initial, f)
    ensures ReadOf(mode, initial, f) == Answered(Meaning(body), Ended(body, mode, initial))
  {
    if f.factory.Some? && !mode.PublicationOnly? {
      BodyMeans(body, f.(factory := None));
    }
  }

  /** With the factory field empty outside PublicationOnly, a read is one that finds no factory. */
  lemma ReadInside(mode: Mode, initial: T, f: Fields)
    requires f.factory.None? && !mode.PublicationOnly?
    ensures ReadOf(mode, initial, f) == ReadWithout(f)
  {
  }

  lemma {:induction false} BodyKeepsFactory(body: Script, f: Fields)
    ensures RunBody(body, f).fields.factory == f.factory
  {
    if body.Read? {
      var r := ReadWithout(f);
      BodyKeepsFactory(if r.outcome.Returned? then body.onValue else body.onError, r.fields);
    }
  }

  lemma FactoryKept(mode: Mode, initial: T, f: Fields)
    ensures ReadOf(mode, initial, f).fields.factory == f.factory || ReadOf(mode, initial, f).fields.factory.None?
  {
    if f.factory.Some? {
      BodyKeepsFactory(f.factory.value, f.(factory := None));
    }
  }

  /** Any number of reads of a new cell, in any mode: all of them answer what the factory is meant to give. */
  method ReadMany(body: Script, mode: Mode, initial: T, count: nat) returns (answers: seq<Outcome>)
    requires mode.PublicationOnly? ==> !body.Read?
    ensures |answers| == count && forall i :: 0 <= i < count ==> answers[i] == Meaning(body)
  {
    var cell := new Lazy(body, mode, initial);
    answers := [];
    for i := 0 to count
      invariant fresh(cell) && cell.Ready(Idle) && cell.script == body && cell.mode == mode && cell.initial == initial
      invariant Promises(body, mode, initial, cell.Now())
      invariant |answers| == i && forall k :: 0 <= k < i ==> answers[k] == Meaning(body)
    {
      var o := cell.Value(Idle);
      answers := answers + [o];
    }
  }

  class Lazy {
    var exception: Option<Exn>
    var factory: Option<Script>
    var inited: bool
    var value: T
    const mode: Mode
    const initial: T              // default(T)
    ghost const script: Script    // the factory given to the constructor
    ghost var trace: seq<Action>  // the steps taken so far
    ghost var run: State          // the state they lead to

    function Now(): Fields
      reads this
    {
      Fields(factory, inited, value, exception)
    }

    /** The fields are those of the cell that the trace leads to; the thread stands at `th`. */
    ghost predicate Stands(th: Thread, depth: nat)
      reads this
    {
      && run == Exec(Init(mode, 1, initial), trace)
      && run.threads == [th]
      && run.cell.mode == mode
      && run.cell.exception == exception
      && run.cell.hasFactory == factory.Some?
      && run.cell.inited == inited
      && run.cell.value == value
      && run.cell.depth == depth
      && run.cell.owner == if depth > 0 then Some(0) else None
    }

    /** A read can start: none is going on, or the innermost one is inside the factory. */
    ghost predicate Ready(th: Thread)
      reads this
    {
      Stands(th, Depth(th)) && Ends() && (th.Busy? ==> th.pc.Run? && factory.None? && !mode.PublicationOnly?)
    }

    /** In PublicationOnly a factory that reads the cell on its only thread never ends. */
    ghost predicate Ends()
      reads this
    {
      mode.PublicationOnly? && factory.Some? ==> !factory.value.Read?
    }

    /** How often a thread that is idle or inside the factory holds the monitor. */
    ghost function Depth(th: Thread): nat {
      if !mode.ExecutionAndPublication? || th.Idle? then 0 else th.nest + 1
    }

    ghost function Level(th: Thread): nat {
      if th.Idle? then 0 else th.nest + 1
    }

    constructor (body: Script, mode: Mode, initial: T)
      requires mode.PublicationOnly? ==> !body.Read?
      ensures Ready(Idle) && this.mode == mode && this.initial == initial && trace == []
      ensures script == body && Now() == Fields(Some(body), false, initial, None)
    {
      this.exception := None;
      this.factory := Some(body);
      this.inited := false;
      this.value := initial;
      this.mode := mode;
      this.initial := initial;
      this.script := body;
      this.trace := [];
      this.run := Init(mode, 1, initial);
    }

    /**
     Over the whole life of an object, with whatever the factory does: all reads that return agree with the
     fields; outside PublicationOnly there is one factory call at most, and a value and an exception are both
     kept only after a swallowed read; in PublicationOnly the value is one that a factory call returned, and
     no exception is kept.
     */
    lemma Guarantees(th: Thread)
      requires Ready(th)
      ensures forall a :: a in run.cell.log.answers && a.outcome.Returned? ==> inited && a.outcome.value == value
      ensures !mode.PublicationOnly? ==>
                && run.cell.log.starts <= 1 && |run.cell.log.produced| <= run.cell.log.starts
                && (inited ==> run.cell.log.produced == [value])
                && (inited && exception.Some? ==> run.cell.log.reentered)
      ensures mode.PublicationOnly? ==>
                && (inited ==> value in run.cell.log.produced && run.cell.log.published == [value])
                && exception == None && (factory.None? ==> inited)
    {
      if mode.PublicationOnly? {
        PubRuns(1, initial, trace);
      } else {
        RunRuns(mode, 1, initial, trace);
      }
    }

    /** One more step of the transition system, with the outcome that `Act` computes. */
    ghost method Take(choice: Choice, m: Move)
      requires run == Exec(Init(mode, 1, initial), trace)
      requires |run.threads| == 1 && m == Act(run.cell, 0, run.threads[0], choice)
      modifies this`trace, this`run
      ensures old(trace) <= trace && run == Exec(Init(mode, 1, initial), trace)
      ensures run == State(m.cell, [m.thread])
    {
      Then(Init(mode, 1, initial), trace, Action(0, choice));
      trace := trace + [Action(0, choice)];
      run := Step(run, Action(0, choice));
    }

    /**
     The getter: it continues the run, adds its answer as the last one, and leaves the thread where it was.
     A read made by the factory finds the factory field empty, and that is what ends the recursion. Every read
     from outside answers what the factory is meant to give.
     */
    method Value(ghost th: Thread) returns (o: Outcome)
      requires Ready(th)
      modifies this
      ensures Ready(th) && old(trace) <= trace
      ensures run.cell.log.answers != [] && run.cell.log.answers[|run.cell.log.answers| - 1] == Answer(0, o)
      ensures Answered(o, Now()) == ReadOf(mode, initial, old(Now()))
      ensures th.Busy? ==> Answered(o, Now()) == ReadWithout(old(Now()))
      ensures th.Idle? && old(Promises(script, mode, initial, Now())) && (mode.PublicationOnly? ==> !script.Read?) ==>
                o == Meaning(script) && Now() == Ended(script, mode, initial)
      decreases if factory.Some? then 1 else 0, 3
    {
      hide Exec, ReadOf, Meaning, Ended, Promises;
      ghost var before := Now();
      if Promises(script, mode, initial, before) && (mode.PublicationOnly? ==> !script.Read?) {
        ReadMeans(script, mode, initial, before);
      }
      if th.Busy? {
        ReadInside(mode, initial, before);
      }
      FactoryKept(mode, initial, before);
      Begin(th);
      o := Get(Level(th), Depth(th));
      End(th, o);
    }

    method Get(ghost n: nat, ghost d: nat) returns (o: Outcome)
      requires Stands(Busy(n, TestInited), d)
      requires d == (if mode.ExecutionAndPublication? then n else 0) && Ends()
      requires mode.PublicationOnly? ==> n == 0
      modifies this
      ensures Stands(Busy(n, Done(o)), d) && old(trace) <= trace
      ensures Answered(o, Now()) == ReadOf(mode, initial, old(Now()))
      decreases if factory.Some? then 1 else 0, 2
    {
      hide Exec, InitOf;
      if inited {
        Take(Go, Move(run.cell, Busy(n, ReadFast)));
        o := Returned(value);
        Take(Go, Move(run.cell, Busy(n, Done(o))));
        return;
      }
      Take(Go, Move(run.cell, Busy(n, TestException)));
      if exception.Some? {
        Take(Go, Move(run.cell, Busy(n, ReadException)));
        o := Threw(exception.value);
        Take(Go, Move(run.cell, Busy(n, Done(o))));
        return;
      }
      Take(Go, Move(run.cell, Busy(n, if mode.ExecutionAndPublication? then Acquire else Fetch)));
      o := InitValue(n, d);
    }

    /** A read starts, from outside or from inside the factory. */
    ghost method Begin(th: Thread)
      requires Ready(th)
      modifies this`trace, this`run
      ensures Stands(Busy(Level(th), TestInited), Depth(th)) && old(trace) <= trace
    {
      hide Exec;
      if th.Idle? {
        Take(Call, Move(run.cell, Busy(0, TestInited)));
      } else {
        Take(FactoryReads, Move(run.cell.(log := run.cell.log.(reentered := true)), Busy(th.nest + 1, TestInited)));
      }
    }

    /** A finished read delivers its answer. */
    ghost method End(th: Thread, o: Outcome)
      requires Ends() && (th.Busy? ==> th.pc.Run? && factory.None? && !mode.PublicationOnly?)
      requires Stands(Busy(Level(th), Done(o)), Depth(th))
      modifies this`trace, this`run
      ensures Ready(th) && old(trace) <= trace
      ensures run.cell.log.answers == old(run.cell.log.answers) + [Answer(0, o)]
    {
      hide Exec;
      Take(Go, Move(run.cell.(log := run.cell.log.(answers := run.cell.log.answers + [Answer(0, o)])), th));
    }

    method InitValue(ghost n: nat, ghost d: nat) returns (o: Outcome)
      requires Stands(Busy(n, if mode.ExecutionAndPublication? then Acquire else Fetch), d)
      requires d == (if mode.ExecutionAndPublication? then n else 0) && Ends()
      requires mode.PublicationOnly? ==> n == 0
      modifies this
      ensures Stands(Busy(n, Done(o)), d) && old(trace) <= trace
      ensures Answered(o, Now()) == InitOf(mode, initial, old(Now()))
      decreases if factory.Some? then 1 else 0, 1
    {
      hide Exec, Initialised, Produced;
      if mode.NoLock? {
        o := Initialise(n, d);
      } else if mode.PublicationOnly? {
        o := Produce();
      } else {
        o := InitLocked(n);
      }
    }

    /** ExecutionAndPublication: under the lock, another thread's value is there or the factory runs. */
    method InitLocked(ghost n: nat) returns (o: Outcome)
      requires mode.ExecutionAndPublication? && Stands(Busy(n, Acquire), n)
      modifies this
      ensures Stands(Busy(n, Done(o)), n) && old(trace) <= trace
      ensures Answered(o, Now()) ==
                if old(inited) then Answered(Returned(old(value)), old(Now())) else Initialised(old(Now()))
      decreases if factory.Some? then 1 else 0, 0, 1
    {
      hide Exec, Initialised;
      Take(Go, Move(Locked(run.cell, 0), Busy(n, Check)));
      if inited {
        Take(Go, Move(run.cell, Busy(n, Reread)));
        o := Returned(value);
        Take(Go, Move(run.cell, Busy(n, Unlock(Some(o)))));
        Take(Go, Move(Unlocked(run.cell), Busy(n, Done(o))));
      } else {
        Take(Go, Move(run.cell, Busy(n, Fetch)));
        o := Initialise(n, n);
      }
    }

    /** PublicationOnly, outside the lock: run the factory, or take the default where it is gone. */
    method Produce() returns (o: Outcome)
      requires mode.PublicationOnly? && Ends() && Stands(Busy(0, Fetch), 0)
      modifies this
      ensures Stands(Busy(0, Done(o)), 0) && old(trace) <= trace
      ensures Answered(o, Now()) == Produced(initial, old(Now()))
    {
      hide Exec, Shared;
      var initFactory := factory;
      if initFactory.None? {
        Constants(Init(mode, 1, initial), trace);
        Take(Go, Move(run.cell, Busy(0, Lock(initial, false))));
        o := Share(initial, false);
        return;
      }
      Take(Go, Move(run.cell.(log := run.cell.log.(starts := run.cell.log.starts + 1)), Busy(0, Run)));
      match initFactory.value
      case Return(v) =>
        Take(FactoryReturns(v),
             Move(run.cell.(log := run.cell.log.(produced := run.cell.log.produced + [v])), Busy(0, Lock(v, true))));
        o := Share(v, true);
      case Throw(e) =>
        o := Threw(e);
        Take(FactoryThrows(e),
             Move(run.cell.(log := run.cell.log.(thrown := run.cell.log.thrown + [e])), Busy(0, Done(o))));
    }

    /** PublicationOnly, under the lock: publish the value unless one is there already. */
    method Share(v: T, ghost made: bool) returns (o: Outcome)
      requires mode.PublicationOnly? && Stands(Busy(0, Lock(v, made)), 0)
      modifies this
      ensures Stands(Busy(0, Done(o)), 0) && old(trace) <= trace
      ensures Answered(o, Now()) == Shared(v, old(Now()))
    {
      hide Exec;
      Take(Go, Move(Locked(run.cell, 0), Busy(0, Retest(v, made))));
      if inited {
        Take(Go, Move(run.cell, Busy(0, Reread)));
        o := Returned(value);
        Take(Go, Move(run.cell, Busy(0, Unlock(Some(o)))));
        Take(Go, Move(Unlocked(run.cell), Busy(0, Done(o))));
      } else {
        Take(Go, Move(run.cell, Busy(0, Store(v))));
        o := Publication(v);
      }
    }

    /** Store the value, set `inited`, drop the factory, leave the lock, read the value back. */
    method Publication(v: T) returns (o: Outcome)
      requires mode.PublicationOnly? && Stands(Busy(0, Store(v)), 1)
      modifies this
      ensures Stands(Busy(0, Done(o)), 0) && old(trace) <= trace
      ensures o == Returned(v) && Now() == old(Now()).(value := v, inited := true, factory := None)
    {
      hide Exec, Act;
      value := v;
      TakeStore(0, v);
      inited := true;
      TakeInited();
      factory := None;
      TakeForget();
      o := Returned(value);
      TakeReadFinal(0);
    }

    ghost method TakeInited()
      requires run == Exec(Init(mode, 1, initial), trace) && run.threads == [Busy(0, Publish)]
      requires run.cell.mode.PublicationOnly?
      modifies this`trace, this`run
      ensures old(trace) <= trace && run == Exec(Init(mode, 1, initial), trace)
      ensures run == State(old(run.cell).(inited := true), [Busy(0, Forget)])
    {
      hide Exec;
      Take(Go, Move(run.cell.(inited := true), Busy(0, Forget)));
    }

    /** Dropping the factory, and leaving the lock statement. */
    ghost method TakeForget()
      requires run == Exec(Init(mode, 1, initial), trace) && run.threads == [Busy(0, Forget)]
      requires run.cell.depth == 1
      modifies this`trace, this`run
      ensures old(trace) <= trace && run == Exec(Init(mode, 1, initial), trace)
      ensures run == State(old(run.cell).(hasFactory := false, owner := None, depth := 0), [Busy(0, ReadFinal)])
    {
      hide Exec;
      Take(Go, Move(run.cell.(hasFactory := false), Busy(0, Unlock(None))));
      Take(Go, Move(Unlocked(run.cell), Busy(0, ReadFinal)));
    }

    /** The part that the two modes share: clear the field, run the factory once, record what came of it. */
    method Initialise(ghost n: nat, ghost d: nat) returns (o: Outcome)
      requires !mode.PublicationOnly?
      requires Stands(Busy(n, Fetch), if mode.NoLock? then 0 else n + 1)
      requires d == if mode.NoLock? then 0 else n
      modifies this
      ensures Stands(Busy(n, Done(o)), d) && old(trace) <= trace
      ensures factory.None? && Answered(o, Now()) == Initialised(old(Now()))
      decreases if factory.Some? then 1 else 0, 0, 0
    {
      hide Exec, RunBody;
      var initFactory := factory;
      if initFactory.None? {
        Take(Go, Move(run.cell, Busy(n, Raise)));
        o := Fail(n, d, Reentrancy, Raise);
        return;
      }
      TakeOut(n);
      o := Execute(initFactory.value, Busy(n, Run));
      if o.Returned? {
        o := Record(n, d, o.value);
      } else {
        o := Fail(n, d, o.exn, Catch(o.exn));
      }
    }

    /** Clear the field, which starts the factory. */
    method TakeOut(ghost n: nat)
      requires !mode.PublicationOnly? && factory.Some?
      requires Stands(Busy(n, Fetch), if mode.NoLock? then 0 else n + 1)
      modifies this`factory, this`trace, this`run
      ensures Stands(Busy(n, Run), if mode.NoLock? then 0 else n + 1) && old(trace) <= trace
      ensures Now() == old(Now()).(factory := None)
    {
      hide Exec;
      Take(Go, Move(run.cell, Busy(n, Clear)));
      factory := None;
      Take(Go, Move(run.cell.(hasFactory := false, log := run.cell.log.(starts := run.cell.log.starts + 1)),
                    Busy(n, Run)));
    }

    /** Keep the exception and throw it. */
    method Fail(ghost n: nat, ghost d: nat, e: Exn, ghost pc: Pc) returns (o: Outcome)
      requires !mode.PublicationOnly? && (pc == Catch(e) || (pc == Raise && e == Reentrancy))
      requires Stands(Busy(n, pc), if mode.NoLock? then 0 else n + 1)
      requires d == if mode.NoLock? then 0 else n
      modifies this`exception, this`trace, this`run
      ensures Stands(Busy(n, Done(o)), d) && old(trace) <= trace 
      ensures o == Threw(e) && Now() == old(Now()).(exception := Some(e))
    {
      hide Exec;
      exception := Some(e);
      o := Threw(e);
      Take(Go, Move(run.cell.(exception := exception), Busy(n, Leave(mode, o))));
      ReleaseFor(n, d, o);
    }

    /** Store the value, then set `inited`, then read the value back. */
    method Record(ghost n: nat, ghost d: nat, v: T) returns (o: Outcome)
      requires !mode.PublicationOnly?
      requires Stands(Busy(n, Store(v)), if mode.NoLock? then 0 else n + 1)
      requires d == if mode.NoLock? then 0 else n
      modifies this`value, this`inited, this`trace, this`run
      ensures Stands(Busy(n, Done(o)), d) && old(trace) <= trace
      ensures o == Returned(v) && Now() == old(Now()).(value := v, inited := true)
    {
      hide Exec, Act;
      value := v;
      TakeStore(n, v);
      inited := true;
      TakePublish(n, d);
      o := Returned(value);
      TakeReadFinal(n);
    }

    ghost method TakeStore(n: nat, v: T)
      requires run == Exec(Init(mode, 1, initial), trace) && run.threads == [Busy(n, Store(v))]
      modifies this`trace, this`run
      ensures old(trace) <= trace && run == Exec(Init(mode, 1, initial), trace)
      ensures run.threads == [Busy(n, Publish)]
      ensures var log := old(run.cell.log);
              run.cell == old(run.cell).(value := v, log := log.(published := log.published + [v]))
    {
      hide Exec;
      Take(Go, Move(run.cell.(value := v, log := run.cell.log.(published := run.cell.log.published + [v])),
                    Busy(n, Publish)));
    }

    /** Setting `inited`, and leaving the lock statement where there is one. */
    ghost method TakePublish(n: nat, d: nat)
      requires !mode.PublicationOnly? && run.cell.mode == mode
      requires run == Exec(Init(mode, 1, initial), trace) && run.threads == [Busy(n, Publish)]
      requires d == (if mode.NoLock? then 0 else n) && run.cell.depth == (if mode.NoLock? then 0 else n + 1)
      requires run.cell.owner == if mode.NoLock? then None else Some(0)
      modifies this`trace, this`run
      ensures old(trace) <= trace && run == Exec(Init(mode, 1, initial), trace)
      ensures run.threads == [Busy(n, ReadFinal)]
      ensures run.cell == old(run.cell).(inited := true, owner := if d > 0 then Some(0) else None, depth := d)
    {
      hide Exec;
      Take(Go, Move(run.cell.(inited := true), Busy(n, if mode.NoLock? then ReadFinal else Unlock(None))));
      if !mode.NoLock? {
        Take(Go, Move(Unlocked(run.cell), Busy(n, ReadFinal)));
      }
    }

    ghost method TakeReadFinal(n: nat)
      requires run == Exec(Init(mode, 1, initial), trace) && run.threads == [Busy(n, ReadFinal)]
      modifies this`trace, this`run
      ensures old(trace) <= trace && run == Exec(Init(mode, 1, initial), trace)
      ensures run == State(old(run.cell), [Busy(n, Done(Returned(old(run.cell.value))))])
    {
      hide Exec;
      Take(Go, Move(run.cell, Busy(n, Done(Returned(run.cell.value)))));
    }

    /** An exception that passes the end of the lock statement, where there is one. */
    ghost method ReleaseFor(n: nat, d: nat, o: Outcome)
      requires d == if mode.NoLock? then 0 else n
      requires !mode.PublicationOnly?
      requires Stands(Busy(n, Leave(mode, o)), if mode.NoLock? then 0 else n + 1)
      modifies this`trace, this`run
      ensures Stands(Busy(n, Done(o)), d) && old(trace) <= trace
    {
      hide Exec;
      if !mode.NoLock? {
        Take(Go, Move(Unlocked(run.cell), Busy(n, Done(o))));
      }
    }

    /** The factory body. It runs with the factory field empty, so its own reads cannot start it again. */
    method Execute(body: Script, ghost th: Thread) returns (o: Outcome)
      requires Ready(th) && th.Busy?
      modifies this
      ensures Stands(Busy(th.nest, if o.Returned? then Store(o.value) else Catch(o.exn)), Depth(th))
      ensures old(trace) <= trace && factory.None? && Answered(o, Now()) == RunBody(body, old(Now()))
      decreases 0, 4, body
    {
      hide Exec;
      match body
      case Return(v) =>
        o := Returned(v);
        Take(FactoryReturns(v),
             Move(run.cell.(log := run.cell.log.(produced := run.cell.log.produced + [v])), Busy(th.nest, Store(v))));
      case Throw(e) =>
        o := Threw(e);
        Take(FactoryThrows(e),
             Move(run.cell.(log := run.cell.log.(thrown := run.cell.log.thrown + [e])), Busy(th.nest, Catch(e))));
      case Read(onValue, onError) =>
        var r := Value(th);
        o := Execute(if r.Returned? then onValue else onError, th);
    }
  }
}
