/** The dependency graph of an estimate, and the search that keeps it schedulable. */
module DependencyGraph {

  datatype Edge = Edge(predecessor: string, successor: string, userDefined: bool)

  /** An edge between two tasks that are both in the plan. */
  ghost predicate Linked(edges: seq<Edge>, live: set<string>, from: string, to: string) {
    from in live && to in live && exists e :: e in edges && e.predecessor == from && e.successor == to
  }

  ghost predicate IsWalk(edges: seq<Edge>, live: set<string>, walk: seq<string>) {
    forall i :: 0 <= i < |walk| - 1 ==> Linked(edges, live, walk[i], walk[i + 1])
  }

  /** Tasks that wait for each other in a loop. */
  ghost predicate IsCycle(edges: seq<Edge>, live: set<string>, cycle: seq<string>) {
    |cycle| > 0 && IsWalk(edges, live, cycle) && Linked(edges, live, cycle[|cycle| - 1], cycle[0])
  }

  ghost predicate Acyclic(edges: seq<Edge>, live: set<string>) {
    forall cycle :: !IsCycle(edges, live, cycle)
  }

  /* ------------------------------------------------------------------- ranks */

  /** Every task comes after everything it waits for. */
  ghost predicate Ordered(edges: seq<Edge>, live: set<string>, order: seq<string>) {
    && (forall n :: n in live ==> n in order)
    && (forall i, j :: 0 <= i < j < |order| ==> order[i] != order[j])
    && forall i, j :: 0 <= i < |order| && 0 <= j < |order| && Linked(edges, live, order[i], order[j]) ==> j < i
  }

  ghost function IndexIn(order: seq<string>, n: string): (i: nat)
    requires n in order
    ensures i < |order| && order[i] == n
  {
    var i :| 0 <= i < |order| && order[i] == n;
    i
  }

  lemma {:induction false} WalkDescends(edges: seq<Edge>, live: set<string>, order: seq<string>, walk: seq<string>)
    requires Ordered(edges, live, order) && IsWalk(edges, live, walk) && |walk| > 1
    ensures walk[0] in order && walk[|walk| - 1] in order
    ensures IndexIn(order, walk[|walk| - 1]) < IndexIn(order, walk[0])
    decreases |walk|
  {
    var last := |walk| - 1;
    assert Linked(edges, live, walk[last - 1], walk[last]);
    assert walk[last - 1] in order && walk[last] in order;
    assert Linked(edges, live, order[IndexIn(order, walk[last - 1])], order[IndexIn(order, walk[last])]);
    if last > 1 {
      var init := walk[..last];
      assert forall i :: 0 <= i < |init| ==> init[i] == walk[i];
      WalkDescends(edges, live, order, init);
    }
  }

  /** An order in which everything comes after what it waits for rules loops out. */
  lemma OrderedIsAcyclic(edges: seq<Edge>, live: set<string>, order: seq<string>)
    requires Ordered(edges, live, order)
    ensures Acyclic(edges, live)
  {
    forall cycle | IsCycle(edges, live, cycle) ensures false {
      WalkDescends(edges, live, order, Closed(edges, live, cycle));
    }
  }

  /** A loop as a walk that comes back to where it started. */
  ghost function Closed(edges: seq<Edge>, live: set<string>, cycle: seq<string>): (walk: seq<string>)
    requires IsCycle(edges, live, cycle)
    ensures IsWalk(edges, live, walk) && walk == cycle + [cycle[0]]
  {
    var walk := cycle + [cycle[0]];
    assert forall i :: 0 <= i < |walk| - 1 ==> Linked(edges, live, walk[i], walk[i + 1]) by {
      forall i | 0 <= i < |walk| - 1 ensures Linked(edges, live, walk[i], walk[i + 1]) {
        if i < |cycle| - 1 { assert Linked(edges, live, cycle[i], cycle[i + 1]); }
      }
    }
    walk
  }

  ghost predicate Reaches(edges: seq<Edge>, live: set<string>, from: string, to: string) {
    exists walk: seq<string> :: |walk| > 0 && walk[0] == from && walk[|walk| - 1] == to && IsWalk(edges, live, walk)
  }

  /* ---------------------------------------------------------------- adjacency */

  /** The tasks waiting for one, in the order their dependencies were listed. */
  function Children(edges: seq<Edge>, live: set<string>, n: string): seq<string> {
    if edges == [] then []
    else
      var last := edges[|edges| - 1];
      Children(edges[..|edges| - 1], live, n)
      + if last.predecessor == n && n in live && last.successor in live then [last.successor] else []
  }

  lemma {:induction false} ChildrenAreLinked(edges: seq<Edge>, live: set<string>, n: string, c: string)
    ensures c in Children(edges, live, n) <==> Linked(edges, live, n, c)
  {
    if edges != [] {
      var init, last := edges[..|edges| - 1], edges[|edges| - 1];
      ChildrenAreLinked(init, live, n, c);
      assert forall e :: e in edges <==> e in init || e == last;
    }
  }

  type Adjacency = map<string, seq<string>>

  function At(adjacency: Adjacency, n: string): seq<string> {
    if n in adjacency then adjacency[n] else []
  }

  method BuildAdjacency(edges: seq<Edge>, live: set<string>) returns (adjacency: Adjacency)
    ensures forall n :: At(adjacency, n) == Children(edges, live, n)
  {
    adjacency := map[];
    for i := 0 to |edges|
      invariant forall n :: At(adjacency, n) == Children(edges[..i], live, n)
    {
      assert edges[..i + 1][..i] == edges[..i];
      var e := edges[i];
      if e.predecessor in live && e.successor in live {
        adjacency := adjacency[e.predecessor := At(adjacency, e.predecessor) + [e.successor]];
      }
    }
    assert edges[..|edges|] == edges;
  }

  /* --------------------------------------------------------------- the search */

  datatype Mark = Visiting | Done
  datatype Frame = Frame(node: string, childIndex: nat)

  ghost predicate Nodes(stack: seq<Frame>, path: seq<string>) {
    |stack| == |path| && forall i :: 0 <= i < |stack| ==> stack[i].node == path[i]
  }

  /** Where the search stands: the tasks it is inside of form a walk; the finished ones are
      listed in `finished`, in the order they were left. */
  ghost predicate Standing(edges: seq<Edge>, live: set<string>, state: map<string, Mark>,
                           stack: seq<Frame>, path: seq<string>, finished: seq<string>)
  {
    && Nodes(stack, path) && IsWalk(edges, live, path)
    && (forall n :: n in path <==> n in state && state[n] == Visiting)
    && (forall n :: n in finished <==> n in state && state[n] == Done)
    && (forall n :: n in state ==> n in live)
    && (forall i, j :: 0 <= i < j < |path| ==> path[i] != path[j])
    && (forall i, j :: 0 <= i < j < |finished| ==> finished[i] != finished[j])
    && (forall i :: 0 <= i < |stack| ==> stack[i].childIndex <= |Children(edges, live, stack[i].node)|)
  }

  /** While no loop has been met: everything a finished task is waited on by was finished
      before it, and so was every child already tried, except the one being explored. */
  ghost predicate Settled(edges: seq<Edge>, live: set<string>, stack: seq<Frame>, finished: seq<string>) {
    && (forall i, c :: 0 <= i < |finished| && c in Children(edges, live, finished[i]) ==> c in finished[..i])
    && (forall i, k ::
          0 <= i < |stack| && 0 <= k < stack[i].childIndex && k < |Children(edges, live, stack[i].node)| ==>
          || Children(edges, live, stack[i].node)[k] in finished
          || (i + 1 < |stack| && k == stack[i].childIndex - 1
             && Children(edges, live, stack[i].node)[k] == stack[i + 1].node))
  }

  ghost function Remaining(edges: seq<Edge>, live: set<string>, stack: seq<Frame>): nat
    requires forall i :: 0 <= i < |stack| ==> stack[i].childIndex <= |Children(edges, live, stack[i].node)|
  {
    if stack == [] then 0
    else
      var last := stack[|stack| - 1];
      Remaining(edges, live, stack[..|stack| - 1]) + |Children(edges, live, last.node)| - last.childIndex + 1
  }

  function NodeSet(cycle: seq<string>): set<string> { set n | n in cycle }

  ghost predicate AllCycles(edges: seq<Edge>, live: set<string>, cycles: seq<seq<string>>) {
    && (forall k :: 0 <= k < |cycles| ==> IsCycle(edges, live, cycles[k]))
    && (forall j, k :: 0 <= j < k < |cycles| ==> NodeSet(cycles[j]) != NodeSet(cycles[k]))
  }

  function IndexOf(path: seq<string>, n: string): (i: nat)
    requires n in path
    ensures i < |path| && path[i] == n
  {
    if path[0] == n then 0 else IndexOf(path[1..], n) + 1
  }

  lemma ClosingIsCycle(edges: seq<Edge>, live: set<string>, path: seq<string>, child: string)
    requires IsWalk(edges, live, path) && child in path && child in Children(edges, live, path[|path| - 1])
    ensures IsCycle(edges, live, path[IndexOf(path, child)..])
  {
    var from := IndexOf(path, child);
    var cycle := path[from..];
    ChildrenAreLinked(edges, live, path[|path| - 1], child);
    forall i | 0 <= i < |cycle| - 1 ensures Linked(edges, live, cycle[i], cycle[i + 1]) {
      assert Linked(edges, live, path[from + i], path[from + i + 1]);
    }
  }

  /** Every loop met so far is on record. */
  ghost predicate Reported(cycles: seq<seq<string>>, reported: set<set<string>>) {
    forall key :: key in reported <==> exists k :: 0 <= k < |cycles| && NodeSet(cycles[k]) == key
  }

  /* --------------------------------------------------- what each step keeps */

  lemma LeaveTask(edges: seq<Edge>, live: set<string>, state: map<string, Mark>,
                  stack: seq<Frame>, path: seq<string>, finished: seq<string>)
    requires Standing(edges, live, state, stack, path, finished) && stack != []
    requires stack[|stack| - 1].childIndex == |Children(edges, live, stack[|stack| - 1].node)|
    ensures var top := |stack| - 1;
      Standing(edges, live, state[path[top] := Done], stack[..top], path[..top], finished + [path[top]])
    ensures Settled(edges, live, stack, finished) ==>
              Settled(edges, live, stack[..|stack| - 1], finished + [path[|stack| - 1]])
  {
    var top := |stack| - 1;
    var node := path[top];
    LeaveMarks(state, path, finished);
    forall i | 0 <= i < top - 1 ensures Linked(edges, live, path[..top][i], path[..top][i + 1]) {
      assert Linked(edges, live, path[i], path[i + 1]);
    }
    if Settled(edges, live, stack, finished) { LeaveSettled(edges, live, stack, finished, node); }
  }

  lemma LeaveMarks(state: map<string, Mark>, path: seq<string>, finished: seq<string>)
    requires path != [] && forall i, j :: 0 <= i < j < |path| ==> path[i] != path[j]
    requires forall n :: n in path <==> n in state && state[n] == Visiting
    requires forall n :: n in finished <==> n in state && state[n] == Done
    ensures var top, node := |path| - 1, path[|path| - 1];
      var after := state[node := Done];
      && (forall n :: n in path[..top] <==> n in after && after[n] == Visiting)
      && (forall n :: n in finished + [node] <==> n in after && after[n] == Done)
      && node in state && node !in finished
  {
    var top, node := |path| - 1, path[|path| - 1];
    assert node in path;
    assert path == path[..top] + [node];
    forall n ensures n in path[..top] <==> n in path && n != node {
      if n in path[..top] {
        var i :| 0 <= i < top && path[i] == n;
        assert path[i] != path[top];
      }
    }
  }

  lemma LeaveSettled(edges: seq<Edge>, live: set<string>, stack: seq<Frame>, finished: seq<string>, node: string)
    requires Settled(edges, live, stack, finished) && stack != [] && stack[|stack| - 1].node == node
    requires stack[|stack| - 1].childIndex == |Children(edges, live, node)|
    ensures Settled(edges, live, stack[..|stack| - 1], finished + [node])
  {
    var top, left := |stack| - 1, finished + [node];
    forall i, c | 0 <= i < |left| && c in Children(edges, live, left[i]) ensures c in left[..i] {
      if i < |finished| {
        assert c in finished[..i] && left[..i] == finished[..i];
      } else {
        var k :| 0 <= k < |Children(edges, live, node)| && Children(edges, live, node)[k] == c;
        assert c in finished && left[..i] == finished;
      }
    }
  }

  /** Trying one more child: the frame on top moves on, and the child may go on top of it. */
  function Advanced(stack: seq<Frame>): seq<Frame>
    requires stack != []
  {
    stack[|stack| - 1 := Frame(stack[|stack| - 1].node, stack[|stack| - 1].childIndex + 1)]
  }

  lemma SkipChild(edges: seq<Edge>, live: set<string>, state: map<string, Mark>,
                  stack: seq<Frame>, path: seq<string>, finished: seq<string>)
    requires Standing(edges, live, state, stack, path, finished) && stack != []
    requires stack[|stack| - 1].childIndex < |Children(edges, live, stack[|stack| - 1].node)|
    ensures Standing(edges, live, state, Advanced(stack), path, finished)
    ensures var top := stack[|stack| - 1];
      Settled(edges, live, stack, finished) && Children(edges, live, top.node)[top.childIndex] in finished ==>
        Settled(edges, live, Advanced(stack), finished)
  {
  }

  lemma EnterChild(edges: seq<Edge>, live: set<string>, state: map<string, Mark>,
                   stack: seq<Frame>, path: seq<string>, finished: seq<string>, child: string)
    requires Standing(edges, live, state, stack, path, finished) && stack != []
    requires stack[|stack| - 1].childIndex < |Children(edges, live, stack[|stack| - 1].node)|
    requires child == Children(edges, live, stack[|stack| - 1].node)[stack[|stack| - 1].childIndex] && child !in state
    ensures Standing(edges, live, state[child := Visiting], Advanced(stack) + [Frame(child, 0)], path + [child],
            finished)
  {
    var top := stack[|stack| - 1].node;
    assert child in Children(edges, live, top);
    ChildrenAreLinked(edges, live, top, child);
    EnterWalk(edges, live, path, child);
    EnterMarks(state, path, finished, child);
    EnterFrames(edges, live, stack, path, child);
  }

  lemma EnterFrames(edges: seq<Edge>, live: set<string>, stack: seq<Frame>, path: seq<string>, child: string)
    requires Nodes(stack, path) && stack != []
    requires stack[|stack| - 1].childIndex < |Children(edges, live, stack[|stack| - 1].node)|
    requires forall i :: 0 <= i < |stack| ==> stack[i].childIndex <= |Children(edges, live, stack[i].node)|
    ensures var after := Advanced(stack) + [Frame(child, 0)];
      && Nodes(after, path + [child])
      && forall i :: 0 <= i < |after| ==> after[i].childIndex <= |Children(edges, live, after[i].node)|
  {
  }

  lemma EnterMarks(state: map<string, Mark>, path: seq<string>, finished: seq<string>, child: string)
    requires child !in state
    requires forall n :: n in path <==> n in state && state[n] == Visiting
    requires forall n :: n in finished <==> n in state && state[n] == Done
    ensures var after := state[child := Visiting];
      && (forall n :: n in path + [child] <==> n in after && after[n] == Visiting)
      && (forall n :: n in finished <==> n in after && after[n] == Done)
  {
  }

  lemma EnterWalk(edges: seq<Edge>, live: set<string>, path: seq<string>, child: string)
    requires IsWalk(edges, live, path) && path != [] && Linked(edges, live, path[|path| - 1], child)
    ensures IsWalk(edges, live, path + [child])
  {
    var longer := path + [child];
    forall i | 0 <= i < |longer| - 1 ensures Linked(edges, live, longer[i], longer[i + 1]) {
      if i < |path| - 1 { assert Linked(edges, live, path[i], path[i + 1]); }
    }
  }

  lemma EnterSettled(edges: seq<Edge>, live: set<string>, stack: seq<Frame>, finished: seq<string>, child: string)
    requires stack != [] && stack[|stack| - 1].childIndex < |Children(edges, live, stack[|stack| - 1].node)|
    requires child == Children(edges, live, stack[|stack| - 1].node)[stack[|stack| - 1].childIndex]
    ensures Settled(edges, live, stack, finished) ==>
              Settled(edges, live, Advanced(stack) + [Frame(child, 0)], finished)
  {
    var top := |stack| - 1;
    var after := Advanced(stack) + [Frame(child, 0)];
    if Settled(edges, live, stack, finished) {
      forall i, k | 0 <= i < |after| && 0 <= k < after[i].childIndex && k < |Children(edges, live, after[i].node)|
        ensures Children(edges, live, after[i].node)[k] in finished
             || (i + 1 < |after| && k == after[i].childIndex - 1
                && Children(edges, live, after[i].node)[k] == after[i + 1].node)
      {
        if i < top {
          assert after[i] == stack[i] && after[i + 1].node == stack[i + 1].node;
        } else {
          assert i == top && after[i].node == stack[i].node;
        }
      }
    }
  }

  lemma StartSearch(edges: seq<Edge>, live: set<string>, state: map<string, Mark>, finished: seq<string>, start: string)
    requires Standing(edges, live, state, [], [], finished) && start in live && start !in state
    ensures Standing(edges, live, state[start := Visiting], [Frame(start, 0)], [start], finished)
    ensures Settled(edges, live, [], finished) ==> Settled(edges, live, [Frame(start, 0)], finished)
  {
  }

  lemma RemainingAfterAdvance(edges: seq<Edge>, live: set<string>, stack: seq<Frame>)
    requires stack != []
    requires forall i :: 0 <= i < |stack| ==> stack[i].childIndex <= |Children(edges, live, stack[i].node)|
    requires stack[|stack| - 1].childIndex < |Children(edges, live, stack[|stack| - 1].node)|
    ensures Remaining(edges, live, Advanced(stack)) < Remaining(edges, live, stack)
  {
    assert Advanced(stack)[..|stack| - 1] == stack[..|stack| - 1];
  }

  /* ------------------------------------------------------------ the search itself */

  method Report(cycles: seq<seq<string>>, reported: set<set<string>>, cycle: seq<string>,
                ghost edges: seq<Edge>, ghost live: set<string>)
    returns (cycles': seq<seq<string>>, reported': set<set<string>>)
    requires AllCycles(edges, live, cycles) && Reported(cycles, reported) && IsCycle(edges, live, cycle)
    ensures AllCycles(edges, live, cycles') && Reported(cycles', reported') && cycles' != []
  {
    var key := NodeSet(cycle);
    if key in reported { return cycles, reported; }
    cycles', reported' := cycles + [cycle], reported + {key};
    forall other ensures other in reported' <==> exists k :: 0 <= k < |cycles'| && NodeSet(cycles'[k]) == other {
      if other == key { assert NodeSet(cycles'[|cycles|]) == key; }
      if exists k :: 0 <= k < |cycles| && NodeSet(cycles[k]) == other {
        var k :| 0 <= k < |cycles| && NodeSet(cycles[k]) == other;
        assert NodeSet(cycles'[k]) == other;
      }
    }
  }

  /** The search in mid-course, with every loop met so far on record. */
  ghost predicate Searching(edges: seq<Edge>, live: set<string>, state: map<string, Mark>, stack: seq<Frame>,
                            path: seq<string>, finished: seq<string>, cycles: seq<seq<string>>,
                            reported: set<set<string>>)
  {
    && Standing(edges, live, state, stack, path, finished)
    && AllCycles(edges, live, cycles) && Reported(cycles, reported)
    && (cycles == [] ==> Settled(edges, live, stack, finished))
  }

  lemma LeaveSearch(edges: seq<Edge>, live: set<string>, state: map<string, Mark>, stack: seq<Frame>,
                    path: seq<string>, finished: seq<string>, cycles: seq<seq<string>>, reported: set<set<string>>)
    requires Searching(edges, live, state, stack, path, finished, cycles, reported) && stack != []
    requires stack[|stack| - 1].childIndex == |Children(edges, live, stack[|stack| - 1].node)|
    ensures var top := |stack| - 1;
      Searching(edges, live, state[path[top] := Done], stack[..top], path[..top], finished + [path[top]], cycles,
          reported)
  {
    LeaveTask(edges, live, state, stack, path, finished);
  }

  lemma LeaveProgress(edges: seq<Edge>, live: set<string>, state: map<string, Mark>, stack: seq<Frame>,
                      path: seq<string>, finished: seq<string>)
    requires Standing(edges, live, state, stack, path, finished) && stack != []
    ensures path[|path| - 1] in path && state[path[|path| - 1] := Done].Keys == state.Keys
    ensures Remaining(edges, live, stack[..|stack| - 1]) < Remaining(edges, live, stack)
  {
    assert path[|path| - 1] in path;
  }

  /** The next child of the task on top: a loop, a finished task, or one to go into. */
  method TryChild(child: string, state: map<string, Mark>, stack: seq<Frame>, path: seq<string>,
                  ghost finished: seq<string>,
                  cycles: seq<seq<string>>, reported: set<set<string>>, ghost edges: seq<Edge>, ghost live: set<string>)
    returns (state': map<string, Mark>, stack': seq<Frame>, path': seq<string>, cycles': seq<seq<string>>,
        reported': set<set<string>>)
    requires Searching(edges, live, state, stack, path, finished, cycles, reported) && stack != []
    requires stack[|stack| - 1].childIndex < |Children(edges, live, stack[|stack| - 1].node)|
    requires child == Children(edges, live, stack[|stack| - 1].node)[stack[|stack| - 1].childIndex]
    ensures Searching(edges, live, state', stack', path', finished, cycles', reported')
    ensures cycles != [] ==> cycles' != []
    ensures (state'.Keys == state.Keys && Remaining(edges, live, stack') < Remaining(edges, live, stack))
         || (live - state'.Keys < live - state.Keys && state.Keys <= state'.Keys)
  {
    state', cycles', reported' := state, cycles, reported;
    RemainingAfterAdvance(edges, live, stack);
    if child in state {
      SkipChild(edges, live, state, stack, path, finished);
      stack', path' := Advanced(stack), path;
      if state[child] == Visiting {
        ClosingIsCycle(edges, live, path, child);
        cycles', reported' := Report(cycles, reported, path[IndexOf(path, child)..], edges, live);
      }
    } else {
      EnterChild(edges, live, state, stack, path, finished, child);
      EnterSettled(edges, live, stack, finished, child);
      ChildrenAreLinked(edges, live, stack[|stack| - 1].node, child);
      state' := state[child := Visiting];
      stack', path' := Advanced(stack) + [Frame(child, 0)], path + [child];
      assert child in live - state.Keys && child !in live - state'.Keys;
    }
  }

  /** Depth first from one task, with an explicit stack. */
  method Explore(adjacency: Adjacency, start: string, marks: map<string, Mark>, before: seq<seq<string>>,
                 keys: set<set<string>>, ghost edges: seq<Edge>, ghost live: set<string>, ghost left: seq<string>)
    returns (state: map<string, Mark>, cycles: seq<seq<string>>, reported: set<set<string>>,
        ghost finished: seq<string>)
    requires forall n :: At(adjacency, n) == Children(edges, live, n)
    requires Searching(edges, live, marks, [], [], left, before, keys) && start in live && start !in marks
    ensures Searching(edges, live, state, [], [], finished, cycles, reported)
    ensures before != [] ==> cycles != []
    ensures marks.Keys <= state.Keys && start in state
  {
    cycles, reported, finished := before, keys, left;
    StartSearch(edges, live, marks, left, start);
    state := marks[start := Visiting];
    var stack, path := [Frame(start, 0)], [start];
    while stack != []
      invariant Searching(edges, live, state, stack, path, finished, cycles, reported)
      invariant before != [] ==> cycles != []
      invariant marks.Keys <= state.Keys && start in state.Keys
      decreases live - state.Keys, Remaining(edges, live, stack)
    {
      var top := stack[|stack| - 1];
      var children := At(adjacency, top.node);
      if top.childIndex >= |children| {
        LeaveSearch(edges, live, state, stack, path, finished, cycles, reported);
        LeaveProgress(edges, live, state, stack, path, finished);
        finished := finished + [path[|path| - 1]];
        state := state[path[|path| - 1] := Done];
        stack, path := stack[..|stack| - 1], path[..|path| - 1];
      } else {
        state, stack, path, cycles, reported :=
          TryChild(children[top.childIndex], state, stack, path, finished, cycles, reported, edges, live);
      }
    }
    assert path == [];
  }

  /** Every loop of the plan's graph. It comes back empty exactly when there is none; each
      answer is a genuine loop; and no two answers are the same tasks. */
  method DetectCycles(edges: seq<Edge>, tasks: seq<string>) returns (cycles: seq<seq<string>>)
    ensures cycles == [] <==> Acyclic(edges, NodeSet(tasks))
    ensures forall k :: 0 <= k < |cycles| ==> IsCycle(edges, NodeSet(tasks), cycles[k])
    ensures forall j, k :: 0 <= j < k < |cycles| ==> NodeSet(cycles[j]) != NodeSet(cycles[k])
  {
    ghost var live := NodeSet(tasks);
    var adjacency := BuildAdjacency(edges, NodeSet(tasks));
    var state: map<string, Mark> := map[];
    var reported: set<set<string>> := {};
    ghost var finished: seq<string> := [];
    cycles := [];
    for i := 0 to |tasks|
      invariant Searching(edges, live, state, [], [], finished, cycles, reported)
      invariant forall j :: 0 <= j < i ==> tasks[j] in state
    {
      if tasks[i] !in state {
        state, cycles, reported, finished :=
            Explore(adjacency, tasks[i], state, cycles, reported, edges, live, finished);
      }
    }
    SearchDecides(edges, live, state, finished, cycles, reported);
  }

  lemma SearchDecides(edges: seq<Edge>, live: set<string>, state: map<string, Mark>, finished: seq<string>,
                      cycles: seq<seq<string>>, reported: set<set<string>>)
    requires Searching(edges, live, state, [], [], finished, cycles, reported)
    requires forall n :: n in live ==> n in state
    ensures cycles == [] <==> Acyclic(edges, live)
  {
    if cycles == [] {
      SettledIsOrdered(edges, live, state, finished);
      OrderedIsAcyclic(edges, live, finished);
    } else {
      assert IsCycle(edges, live, cycles[0]);
    }
  }

  lemma SettledIsOrdered(edges: seq<Edge>, live: set<string>, state: map<string, Mark>, finished: seq<string>)
    requires Standing(edges, live, state, [], [], finished) && Settled(edges, live, [], finished)
    requires forall n :: n in live ==> n in state
    ensures Ordered(edges, live, finished)
  {
    forall n | n in live ensures n in finished {
      var path: seq<string> := [];
      assert n !in path;
    }
    forall i, j | 0 <= i < |finished| && 0 <= j < |finished| && Linked(edges, live, finished[i], finished[j])
      ensures j < i
    {
      ChildrenAreLinked(edges, live, finished[i], finished[j]);
      assert finished[j] in finished[..i];
      var k :| 0 <= k < i && finished[k] == finished[j];
    }
  }
}
