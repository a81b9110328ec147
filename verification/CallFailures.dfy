/**
 Clearing the profiler while code runs. Inside a call it moves the cursor to a root without a parent, so the
 end of the call leaves a null cursor and fails; between calls it starts a new tree.
 */
module CallFailures {
  import opened Options
  import opened CallTree
  import opened CallTrace

  /** `Lost` is a null cursor, on which the interceptor fails with a NullReferenceException. */
  datatype Cursor = At(a: Arena) | Lost

  datatype Result = Result(cursor: Cursor, threw: bool)

  ghost predicate Sound(s: Cursor) {
    s.At? ==> WellFormed(s.a)
  }

  function Execute(s: Cursor, b: Body): (r: Result)
    requires Sound(s)
    ensures Sound(r.cursor)
    decreases b, 0
  {
    match b
    case End(throws) => Result(s, throws)
    case Work(d, rest) => Execute(if s.At? then At(Apply(s.a, Elapsed(d))) else Lost, rest)
    case Clear(rest) => Execute(At(Fresh()), rest)
    case Invoke(m, callee, caught, rest) =>
      var r := Call(s, m, callee);
      if r.threw && !caught then r else Execute(r.cursor, rest)
  }

  /** An intercepted call: with a null cursor it fails at once. */
  function Call(s: Cursor, m: MethodInfo, callee: Body): (r: Result)
    requires Sound(s)
    ensures Sound(r.cursor)
    decreases callee, 1
  {
    if s.Lost? then Result(Lost, true) else Leave(Execute(At(Apply(s.a, Entered(m))), callee))
  }

  /** The end of a call: at a root, or without a cursor, it fails. */
  function Leave(r: Result): (r': Result)
    requires Sound(r.cursor)
    ensures Sound(r'.cursor)
  {
    if r.cursor.Lost? || r.cursor.a.cur == 0 then Result(Lost, true)
    else Result(At(Apply(r.cursor.a, Left)), r.threw)
  }

  /** Some call of Clear is reached, in the body itself or in a call it makes. */
  predicate Clears(b: Body) {
    match b
    case End(_) => false
    case Work(_, rest) => Clears(rest)
    case Clear(_) => true
    case Invoke(_, callee, _, rest) => Clears(callee) || (!Aborts(b) && Clears(rest))
  }

  ghost predicate AtRoot(s: Cursor) {
    s.Lost? || s.a.cur == 0
  }

  lemma {:induction false} RootStays(s: Cursor, b: Body)
    requires Sound(s) && AtRoot(s)
    ensures AtRoot(Execute(s, b).cursor)
    decreases b, 0
  {
    match b
    case End(_) =>
    case Work(d, rest) => RootStays(if s.At? then At(Apply(s.a, Elapsed(d))) else Lost, rest);
    case Clear(rest) => RootStays(At(Fresh()), rest);
    case Invoke(m, callee, caught, rest) =>
      if s.At? {
        CallFails(s.a, m, callee);
        TreeEqualsTrace(Apply(s.a, Entered(m)), callee);
      }
      var r := Call(s, m, callee);
      if !r.threw || caught {
        RootStays(r.cursor, rest);
      }
  }

  /** Without a clearing the run is what the body does by itself; with one the cursor ends at a root or is lost. */
  lemma {:induction false} BodyRuns(a: Arena, b: Body)
    requires WellFormed(a)
    ensures !Clears(b) ==> Execute(At(a), b) == Result(At(After(a, b)), Throws(b))
    ensures Clears(b) ==> AtRoot(Execute(At(a), b).cursor)
    decreases b, 0
  {
    match b
    case End(_) =>
    case Work(d, rest) => BodyRuns(Apply(a, Elapsed(d)), rest);
    case Clear(rest) => RootStays(At(Fresh()), rest);
    case Invoke(m, callee, caught, rest) =>
      CallFails(a, m, callee);
      if Clears(callee) {
        if caught {
          RootStays(Lost, rest);
        }
      } else if !Aborts(b) {
        BodyRuns(AfterCall(a, m, callee), rest);
      }
  }

  /** A body leaves the cursor where it was, or, if it clears the profiler, at a root or lost. */
  lemma BodyKeepsCursor(a: Arena, b: Body)
    requires WellFormed(a)
    ensures var r := Execute(At(a), b);
            if Clears(b) then AtRoot(r.cursor) else r.cursor.At? && r.cursor.a.cur == a.cur
  {
    BodyRuns(a, b);
    TreeEqualsTrace(a, b);
  }

  /**
   A call fails with a null cursor exactly when the profiler is cleared inside it, at whatever depth; then it
   throws, whatever its body does. Otherwise it ends as its body does, and the tree has gained the call.
   */
  lemma {:induction false} CallFails(a: Arena, m: MethodInfo, callee: Body)
    requires WellFormed(a)
    ensures var r := Call(At(a), m, callee);
            && (r.cursor.Lost? <==> Clears(callee))
            && r == if Clears(callee) then Result(Lost, true)
                    else Result(At(AfterCall(a, m, callee)), Throws(callee))
    decreases callee, 1
  {
    var e := Apply(a, Entered(m));
    BodyRuns(e, callee);
    TreeEqualsTrace(e, callee);
  }

  // ----- Clearing between calls -----

  /** Some call that the body makes clears the profiler. */
  predicate ClearsInCalls(b: Body) {
    match b
    case End(_) => false
    case Work(_, rest) => ClearsInCalls(rest)
    case Clear(rest) => ClearsInCalls(rest)
    case Invoke(_, callee, _, rest) => Clears(callee) || (!Aborts(b) && ClearsInCalls(rest))
  }

  /** What is left of a body after it has cleared the profiler for the last time. */
  function LastPart(b: Body): Body {
    if !Clears(b) then b else
    match b
    case Work(_, rest) => LastPart(rest)
    case Clear(rest) => if Clears(rest) then LastPart(rest) else rest
    case Invoke(_, _, _, rest) => LastPart(rest)
    case End(_) => b
  }

  lemma {:induction false} ClearedRuns(a: Arena, b: Body)
    requires WellFormed(a) && Clears(b) && !ClearsInCalls(b)
    ensures Execute(At(a), b) == Result(At(After(Fresh(), LastPart(b))), Throws(b))
    decreases b
  {
    match b
    case Work(d, rest) => ClearedRuns(Apply(a, Elapsed(d)), rest);
    case Clear(rest) =>
      if Clears(rest) {
        ClearedRuns(Fresh(), rest);
      } else {
        BodyRuns(Fresh(), rest);
      }
    case Invoke(m, callee, caught, rest) =>
      CallFails(a, m, callee);
      ClearedRuns(AfterCall(a, m, callee), rest);
  }

  /**
   Cleared between calls only, the profiler shows exactly the calls made since, and no call fails for it.
   */
  lemma ShownSinceClear(b: Body)
    requires !ClearsInCalls(b)
    ensures var r := Execute(At(Fresh()), b);
            && r.threw == Throws(b) && r.cursor.At? && r.cursor.a.cur == 0
            && TreeAt(r.cursor.a, 0) == Tree(None, 0, CallForest(LastPart(b)))
  {
    if Clears(b) {
      ClearedRuns(Fresh(), b);
    } else {
      BodyRuns(Fresh(), b);
    }
    WholeTree(LastPart(b));
  }
}
