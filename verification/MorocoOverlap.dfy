/**
 Calls of one mock that overlap: any number of callers, each inside a call of the outermost layer or not, in
 every interleaving. Drawing a ticket from a counter is one atomic step, comparing it with the maximum
 another, and user functions return or throw at will.
 */
module MorocoOverlap {
  import opened Options
  import opened MorocoCounter
  import opened MorocoFunc
  import opened MorocoMocks
  import opened MorocoSharing

  /** What a caller still has to do in one layer: compare the ticket it has drawn, or run these delegates. */
  datatype Frame = Compare(m: MFunc, r: nat) | Parts(ds: seq<Delegate>)

  /** The innermost layer comes first. */
  datatype Caller = Idle | Calling(a: A, b: B, todo: seq<Frame>)

  datatype Overlap = Overlap(tally: Tally, callers: seq<Caller>)

  datatype Choice = Begin(a: A, b: B) | Go | Fail

  datatype Action = Action(t: nat, choice: Choice)

  /** A caller that throws leaves all layers at once. */
  datatype Move = Move(tally: Tally, caller: Caller)

  function Draw(m: MFunc, a: A, b: B, t: Tally, rest: seq<Frame>): Move {
    var t' := Bump(t, m.id);
    Move(t', Calling(a, b, [Compare(m, Count(t', m.id))] + rest))
  }

  function Act(f: MFunc, t: Tally, c: Caller, choice: Choice): Move {
    match c
    case Idle => if choice.Begin? then Draw(f, choice.a, choice.b, t, []) else Move(t, Idle)
    case Calling(a, b, todo) =>
      if todo == [] then Move(t, Idle) else
      match todo[0]
      case Compare(m, r) =>
        Move(t, if Allowed(m.max, r) then Calling(a, b, [Parts(m.fun)] + todo[1..]) else Idle)
      case Parts(ds) =>
        if ds == [] then Move(t, Calling(a, b, todo[1..])) else
        var rest := [Parts(ds[1..])] + todo[1..];
        match ds[0]
        case User(id) => Move(Bump(t, id), if choice.Fail? then Idle else Calling(a, b, rest))
        case Through(inner) => Draw(inner, a, b, t, rest)
        case Checked(ok, inner) => if ok(a, b) then Draw(inner, a, b, t, rest) else Move(t, Idle)
        case _ => Move(t, Calling(a, b, rest))
  }

  function Next(f: MFunc, s: Overlap, x: Action): Overlap {
    if x.t >= |s.callers| then s else
    var m := Act(f, s.tally, s.callers[x.t], x.choice);
    Overlap(m.tally, s.callers[x.t := m.caller])
  }

  function Runs(f: MFunc, s: Overlap, sched: seq<Action>): Overlap
    decreases |sched|
  {
    if sched == [] then s else Next(f, Runs(f, s, sched[..|sched| - 1]), sched[|sched| - 1])
  }

  // ----- What callers may still start -----

  /** The counter or function that a delegate starts directly. */
  function Direct(d: Delegate): Option<nat> {
    match d
    case User(id) => Some(id)
    case Through(inner) => Some(inner.id)
    case Checked(_, inner) => Some(inner.id)
    case _ => None
  }

  function DirectCount(ds: seq<Delegate>, id: nat): nat {
    if ds == [] then 0 else (if Direct(ds[0]) == Some(id) then 1 else 0) + DirectCount(ds[1..], id)
  }

  /** How often a frame will start `id` directly; a ticket that is too high starts nothing. */
  function FramePending(x: Frame, id: nat): nat {
    match x
    case Compare(m, r) => if Allowed(m.max, r) then DirectCount(m.fun, id) else 0
    case Parts(ds) => DirectCount(ds, id)
  }

  function StackPending(todo: seq<Frame>, id: nat): nat {
    if todo == [] then 0 else FramePending(todo[0], id) + StackPending(todo[1..], id)
  }

  function CallerPending(c: Caller, id: nat): nat {
    if c.Idle? then 0 else StackPending(c.todo, id)
  }

  function Pending(callers: seq<Caller>, id: nat): nat {
    if callers == [] then 0
    else Pending(callers[..|callers| - 1], id) + CallerPending(callers[|callers| - 1], id)
  }

  lemma {:induction false} PendingUpdate(callers: seq<Caller>, t: nat, c: Caller, id: nat)
    requires t < |callers|
    ensures Pending(callers[t := c], id)
         == Pending(callers, id) - CallerPending(callers[t], id) + CallerPending(c, id)
    decreases |callers|
  {
    var k := |callers| - 1;
    if t == k {
      assert callers[t := c][..k] == callers[..k];
    } else {
      assert callers[t := c][..k] == callers[..k][t := c];
      PendingUpdate(callers[..k], t, c, id);
    }
  }

  lemma StackPush(x: Frame, rest: seq<Frame>, id: nat)
    ensures StackPending([x] + rest, id) == FramePending(x, id) + StackPending(rest, id)
  {
    assert ([x] + rest)[1..] == rest;
  }

  // ----- The bounds, with what is pending -----

  /** Like Bounded, with `u` for what is counted below and `t` for the counter of the layer itself. */
  ghost predicate Capped(m: MFunc, t: Tally, u: nat -> nat)
    decreases m, 0
  {
    FunCapped(m.fun, t, u, FirstOf(m.max, Count(t, m.id)))
  }

  ghost predicate FunCapped(ds: seq<Delegate>, t: Tally, u: nat -> nat, p: nat)
    decreases ds, 1
  {
    ds != [] ==> PartCapped(ds[0], t, u, p) && FunCapped(ds[1..], t, u, p)
  }

  ghost predicate PartCapped(d: Delegate, t: Tally, u: nat -> nat, p: nat)
    decreases d, 1
  {
    match d
    case User(id) => u(id) <= p
    case Through(inner) => u(inner.id) <= p && Capped(inner, t, u)
    case Checked(_, inner) => u(inner.id) <= p && Capped(inner, t, u)
    case _ => true
  }

  ghost predicate Grown(t: Tally, t': Tally) {
    forall id :: Count(t, id) <= Count(t', id)
  }

  ghost predicate Shrunk(ids: set<nat>, u: nat -> nat, u': nat -> nat) {
    forall id :: id in ids ==> u'(id) <= u(id)
  }

  lemma {:induction false} CappedStays(m: MFunc, t: Tally, u: nat -> nat, t': Tally, u': nat -> nat)
    requires Capped(m, t, u) && Grown(t, t') && Shrunk(FunIds(m.fun), u, u')
    ensures Capped(m, t', u')
    decreases m, 0
  {
    FunStays(m.fun, t, u, FirstOf(m.max, Count(t, m.id)), t', u', FirstOf(m.max, Count(t', m.id)));
  }

  lemma {:induction false} FunStays(ds: seq<Delegate>, t: Tally, u: nat -> nat, p: nat, t': Tally,
                                    u': nat -> nat, p': nat)
    requires FunCapped(ds, t, u, p) && Grown(t, t') && Shrunk(FunIds(ds), u, u') && p <= p'
    ensures FunCapped(ds, t', u', p')
    decreases ds, 1
  {
    if ds != [] {
      PartStays(ds[0], t, u, p, t', u', p');
      FunStays(ds[1..], t, u, p, t', u', p');
    }
  }

  lemma {:induction false} PartStays(d: Delegate, t: Tally, u: nat -> nat, p: nat, t': Tally,
                                     u': nat -> nat, p': nat)
    requires PartCapped(d, t, u, p) && Grown(t, t') && Shrunk(PartIds(d), u, u') && p <= p'
    ensures PartCapped(d, t', u', p')
    decreases d, 1
  {
    match d
    case User(id) => assert id in PartIds(d);
    case Through(inner) => assert PartIds(d) == {inner.id} + FunIds(inner.fun); CappedStays(inner, t, u, t', u');
    case Checked(_, inner) => assert PartIds(d) == {inner.id} + FunIds(inner.fun); CappedStays(inner, t, u, t', u');
    case _ =>
  }

  // ----- Layers of a mock -----

  ghost predicate In(x: MFunc, m: MFunc)
    decreases m, 0
  {
    x == m || InFun(x, m.fun)
  }

  ghost predicate InFun(x: MFunc, ds: seq<Delegate>)
    decreases ds, 1
  {
    ds != [] && (InPart(x, ds[0]) || InFun(x, ds[1..]))
  }

  ghost predicate InPart(x: MFunc, d: Delegate)
    decreases d, 1
  {
    match d
    case Through(inner) => In(x, inner)
    case Checked(_, inner) => In(x, inner)
    case _ => false
  }

  /** A layer that `ds` calls directly is a layer of `m`. */
  ghost predicate PartsIn(ds: seq<Delegate>, m: MFunc)
    decreases ds
  {
    ds != [] ==>
      && (ds[0].Through? || ds[0].Checked? ==> In(ds[0].inner, m))
      && PartsIn(ds[1..], m)
  }

  /** Whatever is below a layer of `m` is below `m`. */
  lemma {:induction false} InIds(x: MFunc, m: MFunc)
    requires In(x, m)
    ensures FunIds(x.fun) <= FunIds(m.fun) && (x == m || x.id in FunIds(m.fun))
    decreases m, 0
  {
    if x != m {
      InFunIds(x, m.fun);
    }
  }

  lemma {:induction false} InFunIds(x: MFunc, ds: seq<Delegate>)
    requires InFun(x, ds)
    ensures Ids(x) <= FunIds(ds)
    decreases ds, 1
  {
    if InPart(x, ds[0]) {
      InPartIds(x, ds[0]);
    } else {
      InFunIds(x, ds[1..]);
    }
  }

  lemma {:induction false} InPartIds(x: MFunc, d: Delegate)
    requires InPart(x, d)
    ensures Ids(x) <= PartIds(d)
    decreases d, 1
  {
    match d
    case Through(inner) => InIds(x, inner);
    case Checked(_, inner) => InIds(x, inner);
  }

  lemma {:induction false} InLinear(x: MFunc, m: MFunc)
    requires In(x, m) && Linear(m)
    ensures Linear(x)
    decreases m, 0
  {
    if x != m {
      InFunLinear(x, m.fun);
    }
  }

  lemma {:induction false} InFunLinear(x: MFunc, ds: seq<Delegate>)
    requires InFun(x, ds) && FunLinear(ds)
    ensures Linear(x)
    decreases ds, 1
  {
    if InPart(x, ds[0]) {
      InPartLinear(x, ds[0]);
    } else {
      InFunLinear(x, ds[1..]);
    }
  }

  lemma {:induction false} InPartLinear(x: MFunc, d: Delegate)
    requires InPart(x, d) && PartLinear(d)
    ensures Linear(x)
    decreases d, 1
  {
    match d
    case Through(inner) => InLinear(x, inner);
    case Checked(_, inner) => InLinear(x, inner);
  }

  lemma {:induction false} InTrans(y: MFunc, x: MFunc, m: MFunc)
    requires InFun(y, x.fun) && In(x, m)
    ensures InFun(y, m.fun)
    decreases m, 0
  {
    if x != m {
      InFunTrans(y, x, m.fun);
    }
  }

  lemma {:induction false} InFunTrans(y: MFunc, x: MFunc, ds: seq<Delegate>)
    requires InFun(y, x.fun) && InFun(x, ds)
    ensures InFun(y, ds)
    decreases ds, 1
  {
    if InPart(x, ds[0]) {
      InPartTrans(y, x, ds[0]);
    } else {
      InFunTrans(y, x, ds[1..]);
    }
  }

  lemma {:induction false} InPartTrans(y: MFunc, x: MFunc, d: Delegate)
    requires InFun(y, x.fun) && InPart(x, d)
    ensures InPart(y, d)
    decreases d, 1
  {
    match d
    case Through(inner) => InTrans(y, x, inner);
    case Checked(_, inner) => InTrans(y, x, inner);
  }

  /** The direct layers of a layer of `m`. */
  lemma {:induction false} PartsOf(x: MFunc, m: MFunc, ds: seq<Delegate>)
    requires In(x, m)
    requires forall y :: InFun(y, ds) ==> InFun(y, x.fun)
    ensures PartsIn(ds, m)
    decreases ds
  {
    if ds != [] {
      if ds[0].Through? || ds[0].Checked? {
        assert InPart(ds[0].inner, ds[0]);
        InTrans(ds[0].inner, x, m);
      }
      PartsOf(x, m, ds[1..]);
    }
  }

  // ----- Drawing a ticket -----

  function Directs(ds: seq<Delegate>): set<nat> {
    if ds == [] then {} else (if Direct(ds[0]).Some? then {Direct(ds[0]).value} else {}) + Directs(ds[1..])
  }

  lemma DirectIsId(d: Delegate)
    ensures Direct(d).Some? ==> Direct(d).value in PartIds(d)
  {
  }

  lemma {:induction false} DirectsAreIds(ds: seq<Delegate>)
    ensures Directs(ds) <= FunIds(ds)
  {
    if ds != [] {
      DirectIsId(ds[0]);
      DirectsAreIds(ds[1..]);
    }
  }

  /** In a mock without sharing each direct start is due once. */
  lemma {:induction false} DirectOnce(ds: seq<Delegate>, id: nat)
    requires FunLinear(ds)
    ensures DirectCount(ds, id) == if id in Directs(ds) then 1 else 0
  {
    if ds != [] {
      DirectIsId(ds[0]);
      DirectsAreIds(ds[1..]);
      DirectOnce(ds[1..], id);
    }
  }

  /** Of what is counted below, only `ids` may have grown, and by at most `more`. */
  ghost predicate GrownBy(within: set<nat>, ids: set<nat>, more: nat, u: nat -> nat, u': nat -> nat) {
    forall id :: id in within ==> u'(id) <= u(id) + if id in ids then more else 0
  }

  /** Layer `x` itself: its counter has let `more` calls through, which may start each direct part. */
  lemma {:induction false} DrawHere(ds: seq<Delegate>, ids: set<nat>, more: nat, t: Tally, u: nat -> nat, p: nat,
                                    t': Tally, u': nat -> nat)
    requires FunLinear(ds) && FunCapped(ds, t, u, p) && Grown(t, t')
    requires GrownBy(FunIds(ds), ids, more, u, u')
    requires forall id :: id in ids && id in FunIds(ds) ==> id in Directs(ds)
    ensures FunCapped(ds, t', u', p + more)
    decreases ds
  {
    if ds != [] {
      DirectIsId(ds[0]);
      DirectsAreIds(ds[1..]);
      DrawHere(ds[1..], ids, more, t, u, p, t', u');
      DrawPart(ds[0], ids, more, t, u, p, t', u');
    }
  }

  lemma DrawPart(d: Delegate, ids: set<nat>, more: nat, t: Tally, u: nat -> nat, p: nat, t': Tally, u': nat -> nat)
    requires PartLinear(d) && PartCapped(d, t, u, p) && Grown(t, t')
    requires GrownBy(PartIds(d), ids, more, u, u')
    requires forall id :: id in ids && id in PartIds(d) ==> Direct(d) == Some(id)
    ensures PartCapped(d, t', u', p + more)
  {
    match d
    case User(id) => assert id in PartIds(d);
    case Through(inner) => assert PartIds(d) == {inner.id} + FunIds(inner.fun); CappedStays(inner, t, u, t', u');
    case Checked(_, inner) => assert PartIds(d) == {inner.id} + FunIds(inner.fun); CappedStays(inner, t, u, t', u');
    case _ =>
  }

  /** One more ticket drawn from layer `x` of a mock keeps the bounds of the whole mock. */
  lemma {:induction false} DrawKeeps(x: MFunc, m: MFunc, t: Tally, u: nat -> nat, u': nat -> nat)
    requires Linear(m) && In(x, m) && Capped(m, t, u)
    requires GrownBy(FunIds(m.fun), Directs(x.fun), if Allowed(x.max, Count(t, x.id) + 1) then 1 else 0, u, u')
    ensures Capped(m, Bump(t, x.id), u')
    decreases m, 0
  {
    var more := if Allowed(x.max, Count(t, x.id) + 1) then 1 else 0;
    var t' := Bump(t, x.id);
    if x == m {
      DrawHere(m.fun, Directs(x.fun), more, t, u, FirstOf(m.max, Count(t, m.id)), t', u');
    } else {
      InFunIds(x, m.fun);
      DrawBelow(x, m.fun, t, u, FirstOf(m.max, Count(t, m.id)), u');
    }
  }

  lemma {:induction false} DrawBelow(x: MFunc, ds: seq<Delegate>, t: Tally, u: nat -> nat, p: nat, u': nat -> nat)
    requires FunLinear(ds) && InFun(x, ds) && FunCapped(ds, t, u, p)
    requires GrownBy(FunIds(ds), Directs(x.fun), if Allowed(x.max, Count(t, x.id) + 1) then 1 else 0, u, u')
    ensures FunCapped(ds, Bump(t, x.id), u', p)
    decreases ds, 1
  {
    var t' := Bump(t, x.id);
    DirectsAreIds(x.fun);
    if InPart(x, ds[0]) {
      DrawInside(x, ds[0], t, u, p, u');
      InPartIds(x, ds[0]);
      FunStays(ds[1..], t, u, p, t', u', p);
    } else {
      InFunIds(x, ds[1..]);
      PartStays(ds[0], t, u, p, t', u', p);
      DrawBelow(x, ds[1..], t, u, p, u');
    }
  }

  lemma {:induction false} DrawInside(x: MFunc, d: Delegate, t: Tally, u: nat -> nat, p: nat, u': nat -> nat)
    requires PartLinear(d) && InPart(x, d) && PartCapped(d, t, u, p)
    requires GrownBy(PartIds(d), Directs(x.fun), if Allowed(x.max, Count(t, x.id) + 1) then 1 else 0, u, u')
    ensures PartCapped(d, Bump(t, x.id), u', p)
    decreases d, 1
  {
    DirectsAreIds(x.fun);
    match d
    case Through(inner) =>
      assert PartIds(d) == {inner.id} + FunIds(inner.fun);
      InIds(x, inner);
      DrawKeeps(x, inner, t, u, u');
    case Checked(_, inner) =>
      assert PartIds(d) == {inner.id} + FunIds(inner.fun);
      InIds(x, inner);
      DrawKeeps(x, inner, t, u, u');
  }

  // ----- Every step -----

  ghost function Total(s: Overlap): nat -> nat {
    id => Count(s.tally, id) + Pending(s.callers, id)
  }

  ghost predicate FrameIn(x: Frame, f: MFunc) {
    match x
    case Compare(m, _) => In(m, f)
    case Parts(ds) => PartsIn(ds, f)
  }

  ghost predicate CallerIn(c: Caller, f: MFunc) {
    c.Calling? ==> forall i :: 0 <= i < |c.todo| ==> FrameIn(c.todo[i], f)
  }

  ghost predicate Safe(f: MFunc, s: Overlap) {
    && Capped(f, s.tally, Total(s))
    && forall t :: 0 <= t < |s.callers| ==> CallerIn(s.callers[t], f)
  }

  /** The layer from which a step draws a ticket. */
  function Drawn(f: MFunc, c: Caller, choice: Choice): Option<MFunc> {
    match c
    case Idle => if choice.Begin? then Some(f) else None
    case Calling(a, b, todo) =>
      if todo == [] || todo[0].Compare? || todo[0].ds == [] then None else
      match todo[0].ds[0]
      case Through(inner) => Some(inner)
      case Checked(ok, inner) => if ok(a, b) then Some(inner) else None
      case _ => None
  }

  lemma MoveIn(f: MFunc, t: Tally, c: Caller, choice: Choice)
    requires CallerIn(c, f)
    ensures CallerIn(Act(f, t, c, choice).caller, f)
    ensures Drawn(f, c, choice).Some? ==> In(Drawn(f, c, choice).value, f)
  {
    if c.Calling? && c.todo != [] {
      assert FrameIn(c.todo[0], f);
      if c.todo[0].Compare? {
        PartsOf(c.todo[0].m, f, c.todo[0].m.fun);
      }
    }
  }

  /** What a step may start later, against what it has counted now. */
  lemma MoveTotal(f: MFunc, t: Tally, c: Caller, choice: Choice, id: nat)
    requires c.Calling? || !choice.Begin? || id != f.id
    ensures var m := Act(f, t, c, choice);
            var x := Drawn(f, c, choice);
            Count(m.tally, id) + CallerPending(m.caller, id) <= Count(t, id) + CallerPending(c, id) +
              if x.Some? && Allowed(x.value.max, Count(t, x.value.id) + 1) then DirectCount(x.value.fun, id) else 0
  {
    if c.Idle? {
      StackPush(Compare(f, Count(t, f.id) + 1), [], id);
    } else if c.todo != [] {
      var rest := c.todo[1..];
      if c.todo[0].Compare? {
        StackPush(Parts(c.todo[0].m.fun), rest, id);
      } else if c.todo[0].ds != [] {
        PartTotal(f, t, c, choice, id);
      }
    }
  }

  lemma PartTotal(f: MFunc, t: Tally, c: Caller, choice: Choice, id: nat)
    requires c.Calling? && c.todo != [] && c.todo[0].Parts? && c.todo[0].ds != []
    ensures var m := Act(f, t, c, choice);
            var x := Drawn(f, c, choice);
            Count(m.tally, id) + CallerPending(m.caller, id) <= Count(t, id) + CallerPending(c, id) +
              if x.Some? && Allowed(x.value.max, Count(t, x.value.id) + 1) then DirectCount(x.value.fun, id) else 0
  {
    var ds, rest := c.todo[0].ds, c.todo[1..];
    StackPush(Parts(ds[1..]), rest, id);
    assert StackPending(c.todo, id) == DirectCount(ds, id) + StackPending(rest, id);
    if Drawn(f, c, choice).Some? {
      var x := Drawn(f, c, choice).value;
      StackPush(Compare(x, Count(t, x.id) + 1), [Parts(ds[1..])] + rest, id);
    }
  }

  lemma MoveTally(f: MFunc, t: Tally, c: Caller, choice: Choice)
    ensures var m := Act(f, t, c, choice);
            && Grown(t, m.tally)
            && (Drawn(f, c, choice).Some? ==> m.tally == Bump(t, Drawn(f, c, choice).value.id))
  {
  }

  lemma SafeStep(f: MFunc, s: Overlap, x: Action)
    requires Linear(f) && Safe(f, s)
    ensures Safe(f, Next(f, s, x))
  {
    if x.t < |s.callers| {
      var c := s.callers[x.t];
      var m := Act(f, s.tally, c, x.choice);
      var u, u' := Total(s), Total(Next(f, s, x));
      var drawn := Drawn(f, c, x.choice);
      MoveIn(f, s.tally, c, x.choice);
      MoveTally(f, s.tally, c, x.choice);
      forall id | id in FunIds(f.fun)
        ensures u'(id) <= u(id) + if drawn.Some? && Allowed(drawn.value.max, Count(s.tally, drawn.value.id) + 1)
                                  then DirectCount(drawn.value.fun, id) else 0
      {
        PendingUpdate(s.callers, x.t, m.caller, id);
        MoveTotal(f, s.tally, c, x.choice, id);
      }
      if drawn.Some? {
        var l := drawn.value;
        InLinear(l, f);
        forall id: nat ensures DirectCount(l.fun, id) == if id in Directs(l.fun) then 1 else 0 {
          DirectOnce(l.fun, id);
        }
        DrawKeeps(l, f, s.tally, u, u');
      } else {
        CappedStays(f, s.tally, u, m.tally, u');
      }
    }
  }

  function Start(n: nat): Overlap {
    Overlap(map[], seq(n, _ => Idle))
  }

  lemma {:induction false} NobodyPending(callers: seq<Caller>, id: nat)
    requires forall t :: 0 <= t < |callers| ==> callers[t].Idle?
    ensures Pending(callers, id) == 0
    decreases |callers|
  {
    if callers != [] {
      NobodyPending(callers[..|callers| - 1], id);
    }
  }

  lemma {:induction false} NothingCapped(m: MFunc, u: nat -> nat)
    requires forall id :: u(id) == 0
    ensures Capped(m, map[], u)
    decreases m, 0
  {
    NothingFunCapped(m.fun, u, FirstOf(m.max, 0));
  }

  lemma {:induction false} NothingFunCapped(ds: seq<Delegate>, u: nat -> nat, p: nat)
    requires forall id :: u(id) == 0
    ensures FunCapped(ds, map[], u, p)
    decreases ds, 1
  {
    if ds != [] {
      NothingPartCapped(ds[0], u, p);
      NothingFunCapped(ds[1..], u, p);
    }
  }

  lemma {:induction false} NothingPartCapped(d: Delegate, u: nat -> nat, p: nat)
    requires forall id :: u(id) == 0
    ensures PartCapped(d, map[], u, p)
    decreases d, 1
  {
    match d
    case Through(inner) => NothingCapped(inner, u);
    case Checked(_, inner) => NothingCapped(inner, u);
    case _ =>
  }

  lemma {:induction false} SafeRuns(f: MFunc, n: nat, sched: seq<Action>)
    requires Linear(f)
    ensures Safe(f, Runs(f, Start(n), sched))
    decreases |sched|
  {
    if sched == [] {
      forall id: nat ensures Total(Start(n))(id) == 0 {
        NobodyPending(Start(n).callers, id);
      }
      NothingCapped(f, Total(Start(n)));
    } else {
      SafeRuns(f, n, sched[..|sched| - 1]);
      SafeStep(f, Runs(f, Start(n), sched[..|sched| - 1]), sched[|sched| - 1]);
    }
  }

  /** Without what is pending the bounds are those of calls one after the other. */
  lemma {:induction false} CappedIsBounded(m: MFunc, t: Tally, u: nat -> nat)
    requires Capped(m, t, u) && forall id :: Count(t, id) <= u(id)
    ensures Bounded(m, t)
    decreases m, 0
  {
    FunIsBounded(m.fun, t, u, FirstOf(m.max, Count(t, m.id)));
  }

  lemma {:induction false} FunIsBounded(ds: seq<Delegate>, t: Tally, u: nat -> nat, p: nat)
    requires FunCapped(ds, t, u, p) && forall id :: Count(t, id) <= u(id)
    ensures FunBounded(ds, t, p)
    decreases ds, 1
  {
    if ds != [] {
      PartIsBounded(ds[0], t, u, p);
      FunIsBounded(ds[1..], t, u, p);
    }
  }

  lemma {:induction false} PartIsBounded(d: Delegate, t: Tally, u: nat -> nat, p: nat)
    requires PartCapped(d, t, u, p) && forall id :: Count(t, id) <= u(id)
    ensures PartBounded(d, t, p)
    decreases d, 1
  {
    match d
    case Through(inner) => CappedIsBounded(inner, t, u);
    case Checked(_, inner) => CappedIsBounded(inner, t, u);
    case _ =>
  }

  /**
   For every mock that uses each counter and each function once, any number of callers and every
   interleaving of their calls, finished or not: no inner counter exceeds the outermost one, and every user
   function stays below the smallest maximum on its path.
   */
  lemma OverlappingLimits(f: MFunc, n: nat, sched: seq<Action>)
    requires Linear(f)
    ensures var t := Runs(f, Start(n), sched).tally; Limited(f, t, None, Count(t, f.id))
  {
    var s := Runs(f, Start(n), sched);
    SafeRuns(f, n, sched);
    CappedIsBounded(f, s.tally, Total(s));
    LimitFun(f.fun, s.tally, FirstOf(f.max, Count(s.tally, f.id)), f.max, Count(s.tally, f.id));
  }

  // ----- A call on its own -----

  lemma {:induction false} RunsAppend(f: MFunc, s: Overlap, xs: seq<Action>, ys: seq<Action>)
    ensures Runs(f, s, xs + ys) == Runs(f, Runs(f, s, xs), ys)
    decreases |ys|
  {
    if ys == [] {
      assert xs + ys == xs;
    } else {
      var k := |ys| - 1;
      assert (xs + ys)[..|xs + ys| - 1] == xs + ys[..k] && (xs + ys)[|xs + ys| - 1] == ys[k];
      RunsAppend(f, s, xs, ys[..k]);
    }
  }

  lemma One(f: MFunc, s: Overlap, x: Action)
    ensures Runs(f, s, [x]) == Next(f, s, x)
    ensures |s.callers| == 1 && x.t == 0 ==>
              var m := Act(f, s.tally, s.callers[0], x.choice); Next(f, s, x) == Overlap(m.tally, [m.caller])
  {
    assert [x][..0] == [] && Runs(f, s, []) == s;
  }

  /** The only caller, with this much done and this much to do. */
  function Alone(a: A, b: B, t: Tally, todo: seq<Frame>): Overlap {
    Overlap(t, [Calling(a, b, todo)])
  }

  /** Where the caller is after some part of its call. */
  function After(a: A, b: B, e: Effect, rest: seq<Frame>): Overlap {
    if e.outcome.Returned? then Alone(a, b, e.tally, rest) else Overlap(e.tally, [Idle])
  }

  /** From the comparison of a ticket to the end of the layer. */
  lemma {:induction false} AloneInvoke(w: World, f: MFunc, m: MFunc, a: A, b: B, t: Tally, rest: seq<Frame>)
    returns (sched: seq<Action>)
    ensures var t' := Bump(t, m.id);
            Runs(f, Alone(a, b, t', [Compare(m, Count(t', m.id))] + rest), sched) ==
              After(a, b, Invoke(w, m, a, b, t), rest)
    decreases m, 0
  {
    var t' := Bump(t, m.id);
    var s := Alone(a, b, t', [Compare(m, Count(t', m.id))] + rest);
    assert ([Compare(m, Count(t', m.id))] + rest)[1..] == rest;
    One(f, s, Action(0, Go));
    if Allowed(m.max, Count(t', m.id)) {
      var more := AloneMulticast(w, f, m.fun, a, b, t', w.default_, rest);
      RunsAppend(f, s, [Action(0, Go)], more);
      sched := [Action(0, Go)] + more;
    } else {
      sched := [Action(0, Go)];
    }
  }

  lemma {:induction false} AloneMulticast(w: World, f: MFunc, ds: seq<Delegate>, a: A, b: B, t: Tally, last: R,
                                          rest: seq<Frame>)
    returns (sched: seq<Action>)
    ensures Runs(f, Alone(a, b, t, [Parts(ds)] + rest), sched) == After(a, b, Multicast(w, ds, a, b, t, last), rest)
    decreases ds, 1
  {
    var s := Alone(a, b, t, [Parts(ds)] + rest);
    assert ([Parts(ds)] + rest)[1..] == rest;
    if ds == [] {
      One(f, s, Action(0, Go));
      sched := [Action(0, Go)];
    } else {
      var e := InvokePart(w, ds[0], a, b, t);
      sched := AlonePart(w, f, ds, a, b, t, rest);
      if e.outcome.Returned? {
        var more := AloneMulticast(w, f, ds[1..], a, b, e.tally, e.outcome.r, rest);
        RunsAppend(f, s, sched, more);
        sched := sched + more;
      }
    }
  }

  lemma {:induction false} AlonePart(w: World, f: MFunc, ds: seq<Delegate>, a: A, b: B, t: Tally, rest: seq<Frame>)
    returns (sched: seq<Action>)
    requires ds != []
    ensures Runs(f, Alone(a, b, t, [Parts(ds)] + rest), sched) ==
              After(a, b, InvokePart(w, ds[0], a, b, t), [Parts(ds[1..])] + rest)
    decreases ds, 0
  {
    var s := Alone(a, b, t, [Parts(ds)] + rest);
    assert ([Parts(ds)] + rest)[1..] == rest;
    var first := Action(0, if InvokePart(w, ds[0], a, b, t).outcome.Returned? then Go else Fail);
    One(f, s, first);
    sched := [first];
    match ds[0]
    case Through(inner) => sched := AloneInner(w, f, inner, a, b, t, [Parts(ds[1..])] + rest, s, first);
    case Checked(ok, inner) =>
      if ok(a, b) {
        sched := AloneInner(w, f, inner, a, b, t, [Parts(ds[1..])] + rest, s, first);
      }
    case _ =>
  }

  lemma {:induction false} AloneInner(w: World, f: MFunc, inner: MFunc, a: A, b: B, t: Tally, rest: seq<Frame>,
                                      s: Overlap, first: Action)
    returns (sched: seq<Action>)
    requires Next(f, s, first) == Overlap(Draw(inner, a, b, t, rest).tally, [Draw(inner, a, b, t, rest).caller])
    ensures Runs(f, s, sched) == After(a, b, Invoke(w, inner, a, b, t), rest)
    decreases inner, 1
  {
    One(f, s, first);
    var more := AloneInvoke(w, f, inner, a, b, t, rest);
    RunsAppend(f, s, [first], more);
    sched := [first] + more;
  }

  /** A call that nothing overlaps is the call that is evaluated as a whole. */
  lemma AloneIsInvoke(w: World, f: MFunc, a: A, b: B, t: Tally) returns (sched: seq<Action>)
    ensures Runs(f, Overlap(t, [Idle]), sched) == Overlap(Invoke(w, f, a, b, t).tally, [Idle])
  {
    var s := Overlap(t, [Idle]);
    var first := Action(0, Begin(a, b));
    One(f, s, first);
    var more := AloneInvoke(w, f, f, a, b, t, []);
    RunsAppend(f, s, [first], more);
    sched := [first] + more;
    if Invoke(w, f, a, b, t).outcome.Returned? {
      One(f, Alone(a, b, Invoke(w, f, a, b, t).tally, []), Action(0, Go));
      RunsAppend(f, s, sched, [Action(0, Go)]);
      sched := sched + [Action(0, Go)];
    }
  }

  /**
   Where nothing but sharing can stop a call, a mock keeps its limits in every interleaving of any number of
   callers exactly when it uses each counter and each function once.
   */
  lemma OverlapNeedsLinear(w: World, f: MFunc, a: A, b: B)
    requires Returning(w) && Live(f, a, b) && Proper(f)
    ensures (forall n: nat, sched: seq<Action> ::
               Limited(f, Runs(f, Start(n), sched).tally, None, Count(Runs(f, Start(n), sched).tally, f.id)))
            <==> Linear(f)
  {
    if Linear(f) {
      forall n: nat, sched: seq<Action>
        ensures Limited(f, Runs(f, Start(n), sched).tally, None, Count(Runs(f, Start(n), sched).tally, f.id))
      {
        OverlappingLimits(f, n, sched);
      }
    } else {
      var sched := AloneIsInvoke(w, f, a, b, map[]);
      assert Start(1) == Overlap(map[], [Idle]);
      var t := Runs(f, Start(1), sched).tally;
      CountsOnce(w, f, a, b, map[]);
      if Limited(f, t, None, Count(t, f.id)) {
        forall id: nat ensures Count(t, id) <= 1 {
          if id in Ids(f) {
            LimitedCounts(f, t, None, 1, id);
          } else {
            InvokeFrame(w, f, a, b, map[], id);
          }
        }
        InvokeOnce(w, f, a, b, map[]);
      }
    }
  }
}
