/**
 The interceptor of SolrNet.Tests/Utils/ProfilerFacility.cs with the node class of SolrNet.Tests/Utils/Node.cs
 and the stopwatch it uses. The object graph is kept equal to an arena value of module CallTree, so what is
 proved of arenas holds of the objects.
 */
module Profiler {
  import opened Options
  import opened CallTree
  import opened CallTrace
  import opened CallFailures

  class Clock {
    var now: nat

    constructor ()
      ensures now == 0
    {
      now := 0;
    }
  }

  /** System.Diagnostics.Stopwatch: starting a running watch and stopping a stopped one do nothing. */
  class Stopwatch {
    const clock: Clock
    var total: nat
    var startedAt: nat
    var running: bool
    ghost const tag: nat  // the position of its node in the order of creation

    constructor (clock: Clock, ghost tag: nat)
      ensures this.clock == clock && this.tag == tag && total == 0 && startedAt == 0 && !running
    {
      this.clock := clock;
      this.tag := tag;
      total, startedAt, running := 0, 0, false;
    }

    function Elapsed(): nat
      reads this, clock
    {
      total + if running && clock.now >= startedAt then clock.now - startedAt else 0
    }

    method Start()
      modifies this
      ensures running && Elapsed() == old(Elapsed()) && (startedAt == clock.now || startedAt == old(startedAt))
      ensures !old(running) ==> startedAt == clock.now
    {
      if !running {
        startedAt := clock.now;
        running := true;
      }
    }

    method Stop()
      modifies this
      ensures !running && Elapsed() == old(Elapsed()) && startedAt == old(startedAt)
    {
      total := Elapsed();
      running := false;
    }
  }

  class Node<V> {
    const parent: Node?<V>
    const value: V
    var children: seq<Node<V>>

    constructor (parent: Node?<V>, value: V)
      ensures this.parent == parent && this.value == value && children == []
    {
      this.parent := parent;
      this.value := value;
      children := [];
    }

    method AddChild(value: V) returns (node: Node<V>)
      modifies this
      ensures fresh(node) && node.parent == this && node.value == value && node.children == []
      ensures children == old(children) + [node]
    {
      node := new Node(this, value);
      children := children + [node];
    }
  }

  datatype Entry = Entry(m: Option<MethodInfo>, watch: Stopwatch?)

  class ProfilingInterceptor {
    var currentElement: Node?<Entry>
    const clock: Clock
    ghost var nodes: seq<Node<Entry>>  // in the order of creation
    ghost var arena: Arena

    ghost function Objects(): set<object>
      reads this
    {
      {this, clock} + (set i | 0 <= i < |nodes| :: nodes[i])
      + (set i | 0 <= i < |nodes| && nodes[i].value.watch != null :: nodes[i].value.watch)
    }

    /** The object graph has the shape of the arena. */
    ghost predicate Shape()
      reads this, nodes
    {
      && WellFormed(arena)
      && |nodes| == |arena.recs|
      && (forall i: nat :: i < |nodes| ==> NodeOk(nodes, arena.recs, i))
      && currentElement == nodes[arena.cur]
    }

    static ghost predicate NodeOk(nodes: seq<Node<Entry>>, recs: seq<Rec>, i: nat)
      requires i < |nodes| && |nodes| == |recs|
      reads nodes[i]
    {
      && nodes[i].value.m == recs[i].key
      && (if i == 0 then nodes[i].value.watch == null
          else nodes[i].value.watch != null && nodes[i].value.watch.tag == i)
      && (if i == 0 then nodes[i].parent == null
          else recs[i].parent < |nodes| && nodes[i].parent == nodes[recs[i].parent])
      && |nodes[i].children| == |recs[i].kids|
      && (forall k :: 0 <= k < |nodes[i].children| ==>
            recs[i].kids[k] < |nodes| && nodes[i].children[k] == nodes[recs[i].kids[k]])
    }

    /** The stopwatch shows the time of its node. */
    static ghost predicate WatchOk(e: Entry, rec: Rec, clock: Clock, running: bool)
      reads clock, e.watch
    {
      e.watch != null ==>
        && e.watch.clock == clock
        && e.watch.startedAt <= clock.now
        && e.watch.Elapsed() == rec.time
        && e.watch.running == running
    }

    /** Only the cursor's stopwatch may run. */
    ghost predicate Times(run: bool)
      reads this, clock
      reads set i | 0 <= i < |nodes| && nodes[i].value.watch != null :: nodes[i].value.watch
    {
      && |nodes| == |arena.recs|
      && forall i: nat :: i < |nodes| ==>
           WatchOk(nodes[i].value, arena.recs[i], clock, run && i == arena.cur)
    }

    ghost predicate Valid(run: bool)
      reads this, nodes, clock
      reads set i | 0 <= i < |nodes| && nodes[i].value.watch != null :: nodes[i].value.watch
    {
      WellFormed(arena) && Shape() && Times(run)
    }

    /** The cursor as a value: it is null after the end of a call inside which the profiler was cleared. */
    ghost function Position(): Cursor
      reads this
    {
      if currentElement == null then Lost else At(arena)
    }

    /** The invariant between steps. */
    ghost predicate Steady()
      reads this, nodes, clock
      reads set i | 0 <= i < |nodes| && nodes[i].value.watch != null :: nodes[i].value.watch
    {
      currentElement == null || Valid(true)
    }

    constructor (clock: Clock)
      ensures Steady() && Position() == At(Fresh()) && this.clock == clock && fresh(Objects() - {clock})
    {
      this.clock := clock;
      var root := new Node<Entry>(null, Entry(None, null));
      currentElement := root;
      nodes := [root];
      arena := Fresh();
    }

    /** Stops the cursor's stopwatch, if it has one. */
    method Pause(sw: Stopwatch?)
      requires Valid(true) && sw == currentElement.value.watch
      modifies if sw == null then {} else {sw}
      ensures Valid(false)
    {
      if sw != null {
        sw.Stop();
      }
      assert NodeOk(nodes, arena.recs, arena.cur);
      forall i: nat | i < |nodes| ensures WatchOk(nodes[i].value, arena.recs[i], clock, false) {
        assert NodeOk(nodes, arena.recs, i);
      }
    }

    method Resume(sw: Stopwatch?)
      requires Valid(false) && sw == currentElement.value.watch
      modifies if sw == null then {} else {sw}
      ensures Valid(true)
    {
      if sw != null {
        sw.Start();
      }
      assert NodeOk(nodes, arena.recs, arena.cur);
      forall i: nat | i < |nodes| ensures WatchOk(nodes[i].value, arena.recs[i], clock, i == arena.cur) {
        assert NodeOk(nodes, arena.recs, i);
      }
    }

    /** A new child of the cursor, with a stopped watch, becomes the cursor. */
    method Push(m: MethodInfo) returns (sw: Stopwatch)
      requires Valid(false)
      modifies this, currentElement
      ensures Valid(false) && arena == Enter(old(arena), m)
      ensures |nodes| == |old(nodes)| + 1 && old(nodes) <= nodes && nodes[|old(nodes)|] == currentElement
      ensures fresh(currentElement) && currentElement.value.watch == sw && fresh(sw)
    {
      hide WellFormed, LinksAgree, Objects;
      EnterWellFormed(arena, m);
      EntersLast(arena, m);
      sw := new Stopwatch(clock, |nodes|);
      var newChild := currentElement.AddChild(Entry(Some(m), sw));
      currentElement := newChild;
      nodes := nodes + [newChild];
      arena := Enter(arena, m);
      assert old(NodeOk(nodes, arena.recs, arena.cur));
      forall i: nat | i < |nodes| ensures NodeOk(nodes, arena.recs, i) {
        if i < |nodes| - 1 {
          assert old(NodeOk(nodes, arena.recs, i));
        }
      }
    }

    lemma EntersLast(a: Arena, m: MethodInfo)
      requires WellFormed(a)
      ensures a.cur < |a.recs| && Enter(a, m).cur == |a.recs| == |Enter(a, m).recs| - 1
    {
    }

    method Pop()
      requires Valid(false) && arena.cur > 0
      modifies this`currentElement, this`arena
      ensures Valid(false) && arena == Exit(old(arena))
    {
      ExitWellFormed(arena);
      assert LinksAgree(arena.recs, arena.cur) && NodeOk(nodes, arena.recs, arena.cur);
      currentElement := currentElement.parent;
      arena := Exit(arena);
    }

    /** The part of Intercept before Proceed. */
    method Begin(m: MethodInfo) returns (sw: Stopwatch)
      requires Valid(true)
      modifies Objects()
      ensures Valid(true) && arena == Apply(old(arena), Entered(m)) && arena.cur < |nodes| && CursorWatch() == sw
      ensures fresh(sw) && currentElement != null && arena.cur > 0
      ensures old(nodes) <= nodes && fresh(Objects() - old(Objects()))
    {
      hide WellFormed, LinksAgree, Shape, Times, NodeOk, WatchOk;
      CursorIsOwn(true);
      Pause(currentElement.value.watch);
      CursorIsOwn(false);
      sw := Push(m);
      Resume(sw);
      CursorIsOwn(true);
    }

    /** The stopwatch of the node at the cursor. */
    ghost function CursorWatch(): Stopwatch?
      requires arena.cur < |nodes|
      reads this
    {
      nodes[arena.cur].value.watch
    }

    lemma CursorIsOwn(run: bool)
      requires Valid(run)
      ensures currentElement in Objects() && arena.cur < |nodes| && currentElement.value.watch == CursorWatch()
      ensures currentElement.value.watch != null ==> currentElement.value.watch in Objects()
    {
    }

    /**
     The part of Intercept after Proceed: it stops the watch of its own call and moves the cursor to its
     parent. A null cursor, before or after that, is a NullReferenceException.
     */
    method Finish(sw: Stopwatch) returns (failed: bool)
      requires Steady()
      requires currentElement != null && arena.cur > 0 ==> arena.cur < |nodes| && sw == CursorWatch()
      modifies Objects(), sw
      ensures Steady() && Objects() == old(Objects()) && nodes == old(nodes)
      ensures failed <==> currentElement == null
      ensures Position() == if old(Position()).Lost? || old(arena).cur == 0 then Lost else At(Apply(old(arena), Left))
    {
      if currentElement == null {
        sw.Stop();
        return true;
      }
      CursorIsOwn(true);
      RootHasNoParent();
      if currentElement.parent == null {
        sw.Stop();
        currentElement := null;
        return true;
      }
      Pause(sw);
      Pop();
      CursorIsOwn(false);
      Resume(currentElement.value.watch);
      failed := false;
    }

    lemma RootHasNoParent()
      requires Valid(true)
      ensures currentElement.parent == null <==> arena.cur == 0
    {
      assert NodeOk(nodes, arena.recs, arena.cur);
      assert LinksAgree(arena.recs, arena.cur);
    }

    /**
     One intercepted call, which returns or throws as its body says; the part after Proceed runs in both
     cases, and fails if the body has cleared the profiler.
     */
    method Intercept(m: MethodInfo, callee: Body) returns (threw: bool)
      requires Steady()
      modifies Objects()
      ensures Steady() && Result(Position(), threw) == Call(old(Position()), m, callee)
      ensures fresh(Objects() - old(Objects()))
      ensures old(currentElement) != null && !Clears(callee) ==> old(nodes) <= nodes
      decreases callee, 1
    {
      hide Shape, Times, LinksAgree, Execute, Clears;
      if currentElement == null {
        return true;
      }
      var sw := Begin(m);
      ghost var own := arena.cur;
      BodyKeepsCursor(arena, callee);
      threw := Proceed(callee);
      assert !Clears(callee) ==> arena.cur == own && nodes[own].value.watch == sw;
      var failed := Finish(sw);
      threw := threw || failed;
    }

    /** The intercepted method itself: the clock advances, and calls it makes are intercepted in turn. */
    method Proceed(b: Body) returns (threw: bool)
      requires Steady()
      modifies Objects()
      ensures Steady() && Result(Position(), threw) == Execute(old(Position()), b)
      ensures fresh(Objects() - old(Objects()))
      ensures old(currentElement) != null && !Clears(b) ==> old(nodes) <= nodes
      decreases b, 0
    {
      hide Shape, Times, LinksAgree, After, AfterCall;
      match b
      case End(throws) =>
        threw := throws;
      case Work(d, rest) =>
        Elapse(d);
        threw := Proceed(rest);
      case Clear(rest) =>
        Clear();
        threw := Proceed(rest);
      case Invoke(m, callee, caught, rest) =>
        threw := Intercept(m, callee);
        if old(currentElement) != null {
          CallFails(old(arena), m, callee);
        }
        if !threw || caught {
          threw := Proceed(rest);
        }
    }

    /** Time passes. */
    method Elapse(d: nat)
      requires Steady()
      modifies this`arena, clock
      ensures Steady() && nodes == old(nodes) && clock.now == old(clock.now) + d
      ensures currentElement == old(currentElement)
      ensures currentElement != null ==> arena == Apply(old(arena), Elapsed(d))
    {
      if currentElement == null {
        clock.now := clock.now + d;
        return;
      }
      TickWellFormed(arena, d);
      assert NodeOk(nodes, arena.recs, 0);
      clock.now := clock.now + d;
      arena := Tick(arena, d);
      forall i: nat | i < |nodes| ensures NodeOk(nodes, arena.recs, i) {
        assert old(NodeOk(nodes, arena.recs, i));
      }
    }

    /** A new, empty tree, wherever the cursor is. */
    method Clear()
      modifies this`currentElement, this`nodes, this`arena
      ensures Steady() && Position() == At(Fresh()) && fresh(currentElement) && nodes == [currentElement]
      ensures fresh(Objects() - {this, clock})
    {
      var root := new Node<Entry>(null, Entry(None, null));
      currentElement := root;
      nodes := [root];
      arena := Fresh();
    }

    /**
     The public profile: a new root for the calls below the cursor. Nothing that existed changes, and the
     copy is a tree of new, distinct nodes with correct parents that shows exactly the arena's forest. A null
     result stands for the NullReferenceException that a null cursor gives.
     */
    method GetProfile() returns (node: Node?<Shown>, ghost plan: Option<Plan>)
      requires Steady()
      ensures node == null <==> currentElement == null
      ensures node != null ==>
                && WellFormed(arena) && plan.Some? && plan.value.node == node && Separate(plan.value)
                && Copied(plan.value, null, Tree(None, 0, CursorForest())) && fresh(Footprint(plan.value))
    {
      if currentElement == null {
        return null, None;
      }
      node := new Node<Shown>(null, Shown(None, 0));
      ghost var plans: seq<Plan>;
      plans := AddCopies(node, arena.cur, currentElement);
      plan := Some(Plan(node, plans));
    }

    ghost function CursorForest(): seq<Tree>
      requires WellFormed(arena)
      reads this
    {
      TreeAt(arena, arena.cur).kids
    }

    method CopyNode(n: Node<Entry>, ghost i: nat, parent: Node<Shown>) returns (node: Node<Shown>, ghost p: Plan)
      requires Valid(true) && 0 < i < |nodes| && n == nodes[i]
      ensures p.node == node && Copied(p, parent, TreeAt(arena, i))
      ensures fresh(Footprint(p)) && Separate(p)
      decreases |nodes| - i, 1
    {
      assert NodeOk(nodes, arena.recs, i) && WatchOk(n.value, arena.recs[i], clock, i == arena.cur);
      node := new Node<Shown>(parent, Shown(n.value.m, n.value.watch.Elapsed()));
      ghost var plans := AddCopies(node, i, n);
      p := Plan(node, plans);
    }

    /** Copies the children of `n` and appends them to the children of `node`. */
    method AddCopies(node: Node<Shown>, ghost i: nat, n: Node<Entry>) returns (ghost plans: seq<Plan>)
      requires Valid(true) && i < |nodes| && n == nodes[i] && node.children == []
      modifies node
      ensures fresh(FootprintAll(plans)) && SeparateAll(plans)
      ensures CopiedAll(plans, node, TreeAt(arena, i).kids) && node.children == NodesOf(plans)
      decreases |nodes| - i, 0, 1
    {
      hide LinksAgree, Separate, Copied;
      plans := [];
      ghost var done: set<Node<Shown>> := {};
      ghost var ts := TreeAt(arena, i).kids;
      assert NodeOk(nodes, arena.recs, i);
      var k := 0;
      while k < |n.children|
        invariant k <= |n.children| == |ts|
        invariant |plans| == k && done == FootprintAll(plans) && fresh(done) && SeparateAll(plans)
        invariant CopiedAll(plans, node, ts[..k]) && node.children == NodesOf(plans)
      {
        plans, done := AddCopy(node, i, n, k, plans, done, ts);
        k := k + 1;
      }
      assert ts[..k] == ts;
    }

    /** Copies the next child. */
    method AddCopy(node: Node<Shown>, ghost i: nat, n: Node<Entry>, k: nat, ghost plans: seq<Plan>,
                   ghost done: set<Node<Shown>>, ghost ts: seq<Tree>)
      returns (ghost plans': seq<Plan>, ghost done': set<Node<Shown>>)
      requires Valid(true) && i < |nodes| && n == nodes[i] && k < |n.children| && ts == TreeAt(arena, i).kids
      requires |n.children| == |ts| && |plans| == k && done == FootprintAll(plans) && node !in done
      requires SeparateAll(plans) && CopiedAll(plans, node, ts[..k]) && node.children == NodesOf(plans)
      modifies node
      ensures |plans'| == k + 1 && done' == FootprintAll(plans') && fresh(done' - done) && SeparateAll(plans')
      ensures CopiedAll(plans', node, ts[..k + 1]) && node.children == NodesOf(plans')
      decreases |nodes| - i, 0, 0
    {
      hide Times, SeparateAll, CopiedAll, Copied, Separate, FootprintAll, Footprint, NodesOf;
      assert LinksAgree(arena.recs, i) && NodeOk(nodes, arena.recs, i);
      ForestMember(arena, i, arena.recs[i].kids, k);
      var child;
      ghost var p;
      child, p := CopyNode(n.children[k], arena.recs[i].kids[k], node);
      assert done !! Footprint(p) && node !in done + Footprint(p);
      node.children := node.children + [child];
      AppendCopy(plans, p, node, ts, k);
      plans', done' := plans + [p], done + Footprint(p);
    }
  }

  lemma AppendCopy(ps: seq<Plan>, p: Plan, parent: Node<Shown>, ts: seq<Tree>, k: nat)
    requires k < |ts| && |ps| == k
    requires SeparateAll(ps) && Separate(p) && FootprintAll(ps) !! Footprint(p)
    requires CopiedAll(ps, parent, ts[..k]) && Copied(p, parent, ts[k])
    ensures SeparateAll(ps + [p]) && CopiedAll(ps + [p], parent, ts[..k + 1])
    ensures FootprintAll(ps + [p]) == FootprintAll(ps) + Footprint(p)
    ensures NodesOf(ps + [p]) == NodesOf(ps) + [p.node]
  {
    assert (ps + [p])[..k] == ps;
    assert ts[..k + 1][..k] == ts[..k];
  }

  lemma {:induction false} ForestMember(a: Arena, i: nat, ks: seq<nat>, k: nat)
    requires WellFormed(a) && i < |a.recs| && k < |ks|
    requires forall j :: 0 <= j < |ks| ==> i < ks[j] < |a.recs|
    ensures ForestAt(a, i, ks)[k] == TreeAt(a, ks[k])
    decreases k
  {
    if k > 0 {
      ForestMember(a, i, ks[1..], k - 1);
    }
  }

  /**
   The test's use of the profiler: from a new interceptor, run some code, then take the profile. It shows
   exactly the calls made since the code cleared the profiler for the last time, unless it did so in a call.
   */
  method ProfileOf(b: Body) returns (node: Node?<Shown>, ghost plan: Option<Plan>)
    ensures node == null <==> Execute(At(Fresh()), b).cursor.Lost?
    ensures !ClearsInCalls(b) ==>
              && node != null && plan.Some? && plan.value.node == node && Separate(plan.value)
              && Copied(plan.value, null, Tree(None, 0, CallForest(LastPart(b))))
              && node.parent == null && |node.children| == |CallForest(LastPart(b))|
  {
    var clock := new Clock();
    var interceptor := new ProfilingInterceptor(clock);
    var threw := interceptor.Proceed(b);
    if !ClearsInCalls(b) {
      ShownSinceClear(b);
    }
    node, plan := interceptor.GetProfile();
  }

  datatype Shown = Shown(m: Option<MethodInfo>, time: nat)

  /** The nodes of a copied tree. */
  datatype Plan = Plan(node: Node<Shown>, kids: seq<Plan>)

  ghost function Footprint(p: Plan): set<Node<Shown>>
    decreases p, 1
  {
    {p.node} + FootprintAll(p.kids)
  }

  ghost function FootprintAll(ps: seq<Plan>): set<Node<Shown>>
    decreases ps, 0
  {
    if ps == [] then {} else FootprintAll(ps[..|ps| - 1]) + Footprint(ps[|ps| - 1])
  }

  ghost function NodesOf(ps: seq<Plan>): (r: seq<Node<Shown>>)
    ensures |r| == |ps|
  {
    if ps == [] then [] else NodesOf(ps[..|ps| - 1]) + [ps[|ps| - 1].node]
  }

  /** No node occurs twice in a copied tree. */
  ghost predicate Separate(p: Plan)
    decreases p, 1
  {
    p.node !in FootprintAll(p.kids) && SeparateAll(p.kids)
  }

  ghost predicate SeparateAll(ps: seq<Plan>)
    decreases ps, 0
  {
    ps != [] ==>
      && SeparateAll(ps[..|ps| - 1]) && Separate(ps[|ps| - 1])
      && FootprintAll(ps[..|ps| - 1]) !! Footprint(ps[|ps| - 1])
  }

  /** The objects form the tree `t` below `parent`, with parent and child links that agree. */
  ghost predicate Copied(p: Plan, parent: Node?<Shown>, t: Tree)
    reads Footprint(p)
    decreases p, 1
  {
    && p.node.parent == parent
    && p.node.value == Shown(t.key, t.time)
    && p.node.children == NodesOf(p.kids)
    && CopiedAll(p.kids, p.node, t.kids)
  }

  ghost predicate CopiedAll(ps: seq<Plan>, parent: Node<Shown>, ts: seq<Tree>)
    reads FootprintAll(ps)
    decreases ps, 0
  {
    && |ps| == |ts|
    && (ps != [] ==>
          && CopiedAll(ps[..|ps| - 1], parent, ts[..|ts| - 1])
          && Copied(ps[|ps| - 1], parent, ts[|ts| - 1]))
  }
}
