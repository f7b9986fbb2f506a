/** Proxy groups: every name and edge is checked once, with an explicit depth-first search for
    cycles through all members, selected or not. */
module Groups {
  import opened Base

  // ---------------------------------------------------------------- the group graph

  /** Nodes below `leaves` are proxies; node `leaves + i` is group `i` with the members `edges[i]`. */
  datatype Graph = Graph(leaves: nat, edges: seq<seq<nat>>) {
    function Total(): nat { leaves + |edges| }

    function Members(node: nat): seq<nat> {
      if leaves <= node < Total() then edges[node - leaves] else []
    }

    ghost predicate Closed() {
      forall i, j :: 0 <= i < |edges| && 0 <= j < |edges[i]| ==> edges[i][j] < Total()
    }
  }

  ghost predicate IsPath(g: Graph, p: seq<nat>) {
    && p != []
    && (forall i :: 0 <= i < |p| ==> p[i] < g.Total())
    && (forall i, j :: 0 <= i && j == i + 1 && j < |p| ==> p[j] in g.Members(p[i]))
  }

  ghost predicate IsCycle(g: Graph, p: seq<nat>) { IsPath(g, p) && |p| > 1 && p[0] == p[|p| - 1] }

  ghost predicate Acyclic(g: Graph) { forall p :: !IsCycle(g, p) }

  /** Every group comes after its member groups. */
  ghost predicate Ordered(g: Graph, done: seq<nat>) {
    forall k, j :: 0 <= k < |done| && 0 <= j < |g.Members(done[k])| ==>
      g.Members(done[k])[j] < g.leaves || g.Members(done[k])[j] in done[..k]
  }

  ghost predicate Distinct(s: seq<nat>) { forall i, j :: 0 <= i < j < |s| ==> s[i] != s[j] }

  ghost predicate AllGroups(g: Graph, s: seq<nat>) { forall i :: 0 <= i < |s| ==> g.leaves <= s[i] < g.Total() }

  /** A path that starts at a listed group stays on leaves and earlier groups. */
  lemma {:induction false} PathDescends(g: Graph, done: seq<nat>, p: seq<nat>, k: nat, i: nat)
    requires Ordered(g, done) && AllGroups(g, done) && IsPath(g, p) && k < |done| && p[0] == done[k] && 0 < i < |p|
    ensures p[i] < g.leaves || p[i] in done[..k]
    decreases i
  {
    var before := i - 1;
    assert p[i] in g.Members(p[before]);
    if i == 1 {
      var j :| 0 <= j < |g.Members(p[0])| && g.Members(p[0])[j] == p[1];
    } else {
      PathDescends(g, done, p, k, i - 1);
      if p[i - 1] in done[..k] {
        var m :| 0 <= m < k && done[m] == p[i - 1];
        var j :| 0 <= j < |g.Members(done[m])| && g.Members(done[m])[j] == p[i];
        assert done[..m] <= done[..k];
        if p[i] in done[..m] {
          var q :| 0 <= q < m && done[q] == p[i];
          assert done[..k][q] == p[i];
        }
      } else {
        assert false;
      }
    }
  }

  lemma OrderedAcyclic(g: Graph, done: seq<nat>)
    requires Ordered(g, done) && AllGroups(g, done) && Distinct(done)
    requires forall n :: g.leaves <= n < g.Total() ==> n in done
    ensures Acyclic(g)
  {
    forall p ensures !IsCycle(g, p) {
      if IsCycle(g, p) {
        assert p[1] in g.Members(p[0]) && p[0] in done;
        var k :| 0 <= k < |done| && done[k] == p[0];
        PathDescends(g, done, p, k, |p| - 1);
        assert false;
      }
    }
  }

  function Range(lo: nat, hi: nat): (r: set<nat>)
    requires lo <= hi
    ensures forall n :: n in r <==> lo <= n < hi
    ensures |r| == hi - lo
    decreases hi
  {
    if lo == hi then {} else Range(lo, hi - 1) + {hi - 1}
  }

  function Elements(s: seq<nat>): (r: set<nat>)
    ensures forall n :: n in r <==> n in s
    ensures Distinct(s) ==> |r| == |s|
  {
    if s == [] then {}
    else
      var front, last := s[..|s| - 1], s[|s| - 1];
      assert s == front + [last];
      assert Distinct(s) ==> last !in front;
      Elements(front) + {last}
  }

  /** Distinct groups are no more than there are groups: this bounds the explicit stack. */
  lemma GroupsBounded(g: Graph, s: seq<nat>)
    requires Distinct(s) && AllGroups(g, s)
    ensures |s| <= |g.edges|
  {
    SubsetSize(Elements(s), Range(g.leaves, g.Total()));
  }

  // ---------------------------------------------------------------- the search

  const WHITE := 0
  const GREY := 1
  const BLACK := 2

  datatype Visit = Visit(node: nat, next: nat)

  function Nodes(stack: seq<Visit>): seq<nat> { seq(|stack|, i requires 0 <= i < |stack| => stack[i].node) }

  ghost predicate OnStack(stack: seq<Visit>, n: nat) { exists k :: 0 <= k < |stack| && stack[k].node == n }

  ghost predicate Entered(g: Graph, below: Visit, above: Visit) {
    0 < below.next <= |g.Members(below.node)| && g.Members(below.node)[below.next - 1] == above.node
  }

  /** A member already passed by a frame is finished, unless it is the frame above. */
  ghost predicate Passed(g: Graph, state: seq<int>, stack: seq<Visit>)
    requires g.Closed() && |state| == g.Total()
  {
    forall k, j :: 0 <= k < |stack| && 0 <= j < stack[k].next && j < |g.Members(stack[k].node)| ==>
      || state[g.Members(stack[k].node)[j]] == BLACK
      || (k + 1 < |stack| && j == stack[k].next - 1)
  }

  /** Frames are distinct groups, each entered from the member its predecessor passed last. */
  ghost predicate Linked(g: Graph, stack: seq<Visit>) {
    && (forall k :: 0 <= k < |stack| ==>
          g.leaves <= stack[k].node < g.Total() && stack[k].next <= |g.Members(stack[k].node)|)
    && (forall i, j :: 0 <= i < j < |stack| ==> stack[i].node != stack[j].node)
    && (forall i, j :: 0 <= i && j == i + 1 && j < |stack| ==> Entered(g, stack[i], stack[j]))
  }

  ghost predicate Colours(g: Graph, state: seq<int>, stack: seq<Visit>, done: seq<nat>) {
    && |state| == g.Total()
    && (forall n :: 0 <= n < |state| ==> state[n] == WHITE || state[n] == GREY || state[n] == BLACK)
    && (forall n :: 0 <= n < |state| ==> (state[n] == BLACK <==> n < g.leaves || n in done))
    && (forall n :: 0 <= n < |state| ==> (state[n] == GREY <==> OnStack(stack, n)))
  }

  /** The invariant of the search. `done` lists the finished groups in finishing order. */
  ghost predicate Search(g: Graph, state: seq<int>, stack: seq<Visit>, done: seq<nat>) {
    && g.Closed() && Colours(g, state, stack, done) && Linked(g, stack) && Passed(g, state, stack)
    && AllGroups(g, done) && Distinct(done) && Ordered(g, done)
  }

  /** A grey member closes a cycle through the stack. */
  lemma CycleFound(g: Graph, stack: seq<Visit>, child: nat)
    requires Linked(g, stack) && stack != [] && OnStack(stack, child)
    requires child in g.Members(stack[|stack| - 1].node)
    ensures !Acyclic(g)
  {
    var k :| 0 <= k < |stack| && stack[k].node == child;
    var p := seq(|stack| - k + 1, i requires 0 <= i <= |stack| - k => if k + i < |stack| then stack[k + i].node else child);
    forall i, j | 0 <= i && j == i + 1 && j < |p| ensures p[j] in g.Members(p[i]) {
      if k + j < |stack| {
        assert Entered(g, stack[k + i], stack[k + j]);
      }
    }
    assert IsCycle(g, p);
  }

  lemma OnStackPush(stack: seq<Visit>, v: Visit, n: nat)
    ensures OnStack(stack + [v], n) <==> OnStack(stack, n) || n == v.node
  {
    var more := stack + [v];
    if OnStack(stack, n) {
      var k :| 0 <= k < |stack| && stack[k].node == n;
      assert more[k].node == n;
    }
    assert more[|stack|] == v;
  }

  /** Starting from an unvisited group. */
  lemma Rooted(g: Graph, state: seq<int>, done: seq<nat>, root: nat)
    requires Search(g, state, [], done)
    requires g.leaves <= root < |state| && state[root] == WHITE
    ensures Search(g, state[root := GREY], [Visit(root, 0)], done)
  {
    forall n: nat ensures OnStack([Visit(root, 0)], n) <==> n == root {
      assert [] + [Visit(root, 0)] == [Visit(root, 0)];
      OnStackPush([], Visit(root, 0), n);
    }
    assert forall n: nat :: !OnStack([], n);
  }

  function Step(stack: seq<Visit>): seq<Visit>
    requires stack != []
  {
    var top := stack[|stack| - 1];
    stack[|stack| - 1 := Visit(top.node, top.next + 1)]
  }

  lemma OnStackStep(stack: seq<Visit>, n: nat)
    requires stack != []
    ensures OnStack(Step(stack), n) <==> OnStack(stack, n)
  {
    var more := Step(stack);
    assert forall k :: 0 <= k < |stack| ==> more[k].node == stack[k].node;
    if OnStack(stack, n) {
      var k :| 0 <= k < |stack| && stack[k].node == n;
      assert more[k].node == n;
    }
  }

  /** Passing a member; the frame may rest on it only when it is finished. */
  lemma Skipped(g: Graph, state: seq<int>, stack: seq<Visit>, done: seq<nat>)
    requires Search(g, state, stack, done) && stack != []
    requires var top := stack[|stack| - 1]; top.next < |g.Members(top.node)|
    ensures var top := stack[|stack| - 1];
            && Colours(g, state, Step(stack), done) && Linked(g, Step(stack))
            && g.Members(top.node)[top.next] < |state|
            && (state[g.Members(top.node)[top.next]] == BLACK ==> Passed(g, state, Step(stack)))
  {
    hide Ordered, Distinct, AllGroups, OnStack, Linked;
    StepLinked(g, stack);
    forall n: nat ensures OnStack(Step(stack), n) <==> OnStack(stack, n) {
      OnStackStep(stack, n);
    }
  }

  lemma StepLinked(g: Graph, stack: seq<Visit>)
    requires g.Closed() && Linked(g, stack) && stack != []
    requires var top := stack[|stack| - 1]; top.next < |g.Members(top.node)|
    ensures Linked(g, Step(stack))
    ensures var top := stack[|stack| - 1]; g.Members(top.node)[top.next] < g.Total()
  {
    var more := Step(stack);
    forall i, j | 0 <= i && j == i + 1 && j < |more| ensures Entered(g, more[i], more[j]) {
      assert Entered(g, stack[i], stack[j]);
    }
  }

  /** Entering an unvisited member. */
  lemma Descended(g: Graph, state: seq<int>, stack: seq<Visit>, done: seq<nat>, child: nat)
    requires Search(g, state, stack, done) && stack != []
    requires var top := stack[|stack| - 1];
             top.next < |g.Members(top.node)| && g.Members(top.node)[top.next] == child
    requires child < |state| && state[child] == WHITE
    ensures Search(g, state[child := GREY], Step(stack) + [Visit(child, 0)], done)
  {
    hide Ordered, Distinct, AllGroups, OnStack;
    Skipped(g, state, stack, done);
    var more := Step(stack) + [Visit(child, 0)];
    forall n: nat ensures OnStack(more, n) <==> OnStack(Step(stack), n) || n == child {
      OnStackPush(Step(stack), Visit(child, 0), n);
    }
    assert !OnStack(Step(stack), child);
    NotOnStack(Step(stack), child);
  }

  lemma NotOnStack(stack: seq<Visit>, n: nat)
    requires !OnStack(stack, n)
    ensures forall k :: 0 <= k < |stack| ==> stack[k].node != n
  {}

  lemma NotBelow(g: Graph, stack: seq<Visit>)
    requires Linked(g, stack) && stack != []
    ensures !OnStack(stack[..|stack| - 1], stack[|stack| - 1].node)
  {}

  /** A group whose members are all finished is finished. */
  lemma Popped(g: Graph, state: seq<int>, stack: seq<Visit>, done: seq<nat>)
    requires Search(g, state, stack, done) && stack != []
    requires var top := stack[|stack| - 1]; top.next == |g.Members(top.node)|
    ensures var top := stack[|stack| - 1];
            Search(g, state[top.node := BLACK], stack[..|stack| - 1], done + [top.node])
  {
    hide OnStack, Ordered, Distinct, AllGroups, Linked;
    var top := stack[|stack| - 1];
    var front := stack[..|stack| - 1];
    TopFrame(g, stack);
    PoppedColours(g, state, stack, done);
    LinkedFront(g, state, stack);
    forall j | 0 <= j < |g.Members(top.node)|
      ensures g.Members(top.node)[j] < g.leaves || g.Members(top.node)[j] in done
    {
      assert state[g.Members(stack[|stack| - 1].node)[j]] == BLACK;
    }
    OrderedAppend(g, done, top.node);
  }

  lemma LinkedFront(g: Graph, state: seq<int>, stack: seq<Visit>)
    requires g.Closed() && |state| == g.Total() && Linked(g, stack) && Passed(g, state, stack) && stack != []
    ensures Linked(g, stack[..|stack| - 1])
    ensures Passed(g, state[stack[|stack| - 1].node := BLACK], stack[..|stack| - 1])
  {
    var front := stack[..|stack| - 1];
    if front != [] {
      assert Entered(g, stack[|stack| - 2], stack[|stack| - 1]);
    }
  }

  lemma PoppedColours(g: Graph, state: seq<int>, stack: seq<Visit>, done: seq<nat>)
    requires Colours(g, state, stack, done) && Linked(g, stack) && stack != []
    ensures var node := stack[|stack| - 1].node;
            && node < |state| && node !in done
            && Colours(g, state[node := BLACK], stack[..|stack| - 1], done + [node])
  {
    hide OnStack;
    var top := stack[|stack| - 1];
    var front := stack[..|stack| - 1];
    assert stack == front + [top];
    forall n: nat ensures OnStack(stack, n) <==> OnStack(front, n) || n == top.node {
      OnStackPush(front, top, n);
    }
    NotBelow(g, stack);
  }

  lemma OrderedAppend(g: Graph, done: seq<nat>, n: nat)
    requires Ordered(g, done) && AllGroups(g, done) && Distinct(done)
    requires g.leaves <= n < g.Total() && n !in done
    requires forall j :: 0 <= j < |g.Members(n)| ==> g.Members(n)[j] < g.leaves || g.Members(n)[j] in done
    ensures Ordered(g, done + [n]) && AllGroups(g, done + [n]) && Distinct(done + [n])
  {
    var more := done + [n];
    forall k, j | 0 <= k < |more| && 0 <= j < |g.Members(more[k])|
      ensures g.Members(more[k])[j] < g.leaves || g.Members(more[k])[j] in more[..k]
    {
      assert more[..k] == done[..k];
      if k == |done| {
        assert done[..k] == done;
      }
    }
  }

  /** Frames still to be handled on the stack. */
  function Work(g: Graph, stack: seq<Visit>): int {
    if stack == [] then 0
    else
      var top := stack[|stack| - 1];
      Work(g, stack[..|stack| - 1]) + |g.Members(top.node)| - top.next + 1
  }

  lemma WorkStep(g: Graph, stack: seq<Visit>)
    requires stack != []
    ensures Work(g, Step(stack)) == Work(g, stack) - 1
  {
    assert Step(stack)[..|stack| - 1] == stack[..|stack| - 1];
  }

  lemma {:induction false} WorkNonNegative(g: Graph, stack: seq<Visit>)
    requires Linked(g, stack)
    ensures Work(g, stack) >= |stack|
  {
    if stack != [] {
      WorkNonNegative(g, stack[..|stack| - 1]);
    }
  }

  function Unvisited(state: seq<int>): nat {
    if state == [] then 0
    else Unvisited(state[..|state| - 1]) + if state[|state| - 1] == WHITE then 1 else 0
  }

  lemma {:induction false} UnvisitedUpdate(state: seq<int>, n: nat, colour: int)
    requires n < |state| && colour != WHITE
    ensures Unvisited(state[n := colour]) == Unvisited(state) - if state[n] == WHITE then 1 else 0
  {
    var last := |state| - 1;
    if n == last {
      assert state[n := colour][..last] == state[..last];
    } else {
      UnvisitedUpdate(state[..last], n, colour);
      assert state[n := colour][..last] == state[..last][n := colour];
    }
  }

  lemma FrameBound(g: Graph, stack: seq<Visit>)
    requires Linked(g, stack)
    ensures |stack| <= |g.edges|
  {
    GroupsBounded(g, Nodes(stack));
  }

  /** The search decides acyclicity of the whole graph. On success the finishing order is returned:
      every group once, after all its member groups. */
  method FindCycle(g: Graph) returns (acyclic: bool, ghost done: seq<nat>)
    requires g.Closed()
    ensures acyclic <==> Acyclic(g)
    ensures acyclic ==> Ordered(g, done) && AllGroups(g, done) && Distinct(done)
    ensures acyclic ==> forall n :: g.leaves <= n < g.Total() ==> n in done
  {
    hide Ordered, Distinct, AllGroups, Linked, Passed;
    var state := seq(g.Total(), i => if i < g.leaves then BLACK else WHITE);
    var stack: seq<Visit> := [];
    done := [];
    Fresh(g, state);
    var root := g.leaves;
    while root < g.Total()
      invariant g.leaves <= root <= g.Total() && stack == [] && Search(g, state, stack, done)
      invariant forall n :: g.leaves <= n < root ==> n in done
    {
      if state[root] == BLACK {
        root := root + 1;
        continue;
      }
      assert state[root] == WHITE;
      Rooted(g, state, done, root);
      state := state[root := GREY];
      stack := [Visit(root, 0)];
      ghost var before := done;
      while stack != []
        invariant Search(g, state, stack, done) && before <= done
        invariant root in done || OnStack(stack, root)
        invariant |stack| <= |g.edges|
        decreases Unvisited(state), Work(g, stack)
      {
        WorkNonNegative(g, stack);
        TopFrame(g, stack);
        var node, next := stack[|stack| - 1].node, stack[|stack| - 1].next;
        var members := g.Members(node);
        if next == |members| {
          Popped(g, state, stack, done);
          RootKept(stack, root);
          UnvisitedUpdate(state, node, BLACK);
          state := state[node := BLACK];
          stack := stack[..|stack| - 1];
          done := done + [node];
          FrameBound(g, stack);
          continue;
        }
        Skipped(g, state, stack, done);
        OnStackStep(stack, root);
        WorkStep(g, stack);
        var child := members[next];
        if state[child] == WHITE {
          Descended(g, state, stack, done, child);
          OnStackPush(Step(stack), Visit(child, 0), root);
          UnvisitedUpdate(state, child, GREY);
          stack := Step(stack) + [Visit(child, 0)];
          state := state[child := GREY];
          FrameBound(g, stack);
        } else if state[child] == GREY {
          CycleFound(g, stack, child);
          return false, done;
        } else {
          stack := Step(stack);
        }
      }
      assert root in done;
      root := root + 1;
    }
    OrderedAcyclic(g, done);
    return true, done;
  }

  lemma TopFrame(g: Graph, stack: seq<Visit>)
    requires Linked(g, stack) && stack != []
    ensures var top := stack[|stack| - 1];
            g.leaves <= top.node < g.Total() && top.next <= |g.Members(top.node)|
  {}

  lemma RootKept(stack: seq<Visit>, root: nat)
    requires stack != []
    ensures OnStack(stack, root) ==> OnStack(stack[..|stack| - 1], root) || stack[|stack| - 1].node == root
  {
    assert stack == stack[..|stack| - 1] + [stack[|stack| - 1]];
    OnStackPush(stack[..|stack| - 1], stack[|stack| - 1], root);
  }

  lemma Fresh(g: Graph, state: seq<int>)
    requires g.Closed() && |state| == g.Total()
    requires forall i :: 0 <= i < |state| ==> state[i] == if i < g.leaves then BLACK else WHITE
    ensures Search(g, state, [], [])
  {}

  // ---------------------------------------------------------------- names and members

  datatype RawGroup = RawGroup(name: string, kind: string, proxies: seq<string>)
  datatype Group = Group(name: string, members: seq<nat>)
  datatype Error = BadName | NotSelect | Duplicate | Unknown | Cyclic
  datatype Resolved = Ok(groups: seq<Group>) | Err(error: Error)

  /** The Unicode White_Space property. */
  predicate WhiteSpace(c: char) {
    var n := c as int;
    9 <= n <= 13 || n == 0x20 || n == 0x85 || n == 0xA0 || n == 0x1680 || 0x2000 <= n <= 0x200A ||
    n == 0x2028 || n == 0x2029 || n == 0x202F || n == 0x205F || n == 0x3000
  }

  predicate Control(c: char) { c as int < 0x20 || 0x7F <= c as int < 0xA0 }

  predicate ValidName(name: string) {
    && name != [] && !WhiteSpace(name[0]) && !WhiteSpace(name[|name| - 1])
    && forall i :: 0 <= i < |name| ==> name[i] != ',' && !Control(name[i])
  }

  /** The name table once the first `n` groups are declared. */
  function Table(groups: seq<RawGroup>, names: map<string, nat>, leaves: nat, n: nat): map<string, nat>
    requires n <= |groups|
  {
    if n == 0 then names else Table(groups, names, leaves, n - 1)[groups[n - 1].name := leaves + n - 1]
  }

  /** What is wrong with declaring a group after the names in `table`. */
  function Fault(group: RawGroup, table: map<string, nat>): (e: Option<Error>)
    ensures e.Some? ==> e.value.BadName? || e.value.NotSelect? || e.value.Duplicate?
  {
    if !ValidName(group.name) then Some(BadName)
    else if group.kind != "select" || group.proxies == [] then Some(NotSelect)
    else if group.name in table then Some(Duplicate)
    else None
  }

  ghost predicate Declarable(groups: seq<RawGroup>, names: map<string, nat>, leaves: nat, n: nat)
    requires n <= |groups|
  {
    forall i :: 0 <= i < n ==> Fault(groups[i], Table(groups, names, leaves, i)).None?
  }

  ghost predicate Known(groups: seq<RawGroup>, table: map<string, nat>) {
    forall i, j :: 0 <= i < |groups| && 0 <= j < |groups[i].proxies| ==> groups[i].proxies[j] in table
  }

  function EdgesOf(group: RawGroup, table: map<string, nat>): seq<nat>
    requires forall j :: 0 <= j < |group.proxies| ==> group.proxies[j] in table
  {
    seq(|group.proxies|, j requires 0 <= j < |group.proxies| => table[group.proxies[j]])
  }

  function GraphOf(groups: seq<RawGroup>, table: map<string, nat>, leaves: nat): Graph
    requires Known(groups, table)
  {
    Graph(leaves, seq(|groups|, i requires 0 <= i < |groups| => EdgesOf(groups[i], table)))
  }

  lemma {:induction false} TableRange(groups: seq<RawGroup>, names: map<string, nat>, leaves: nat, n: nat)
    requires n <= |groups| && forall name :: name in names ==> names[name] < leaves
    ensures forall name :: name in Table(groups, names, leaves, n) ==> Table(groups, names, leaves, n)[name] < leaves + n
  {
    if n > 0 {
      TableRange(groups, names, leaves, n - 1);
    }
  }

  method Declare(groups: seq<RawGroup>, names: map<string, nat>, leaves: nat)
    returns (error: Option<Error>, table: map<string, nat>)
    ensures error.None? <==> Declarable(groups, names, leaves, |groups|)
    ensures error.None? ==> table == Table(groups, names, leaves, |groups|)
    ensures error.Some? ==> error.value.BadName? || error.value.NotSelect? || error.value.Duplicate?
  {
    hide ValidName, Fault;
    table := names;
    var index := 0;
    while index < |groups|
      invariant 0 <= index <= |groups| && table == Table(groups, names, leaves, index)
      invariant forall i :: 0 <= i < index ==> Fault(groups[i], Table(groups, names, leaves, i)).None?
    {
      var group := groups[index];
      error := Fault(group, table);
      if error.Some? {
        return;
      }
      table := table[group.name := leaves + index];
      index := index + 1;
    }
    return None, table;
  }

  method Link(groups: seq<RawGroup>, table: map<string, nat>, leaves: nat) returns (g: Option<Graph>)
    ensures g.Some? <==> Known(groups, table)
    ensures g.Some? ==> g.value == GraphOf(groups, table, leaves)
  {
    var edges: seq<seq<nat>> := [];
    while |edges| < |groups|
      invariant |edges| <= |groups|
      invariant forall i, j :: 0 <= i < |edges| && 0 <= j < |groups[i].proxies| ==> groups[i].proxies[j] in table
      invariant forall i :: 0 <= i < |edges| ==> edges[i] == EdgesOf(groups[i], table)
      decreases |groups| - |edges|
    {
      var group := groups[|edges|];
      if exists j :: 0 <= j < |group.proxies| && group.proxies[j] !in table {
        return None;
      }
      edges := edges + [EdgesOf(group, table)];
    }
    assert edges == GraphOf(groups, table, leaves).edges;
    return Some(Graph(leaves, edges));
  }

  lemma GraphClosed(groups: seq<RawGroup>, names: map<string, nat>, leaves: nat)
    requires forall name :: name in names ==> names[name] < leaves
    requires Known(groups, Table(groups, names, leaves, |groups|))
    ensures GraphOf(groups, Table(groups, names, leaves, |groups|), leaves).Closed()
  {
    TableRange(groups, names, leaves, |groups|);
  }

  /** Succeeds exactly when every group is well declared, every member is known and the full graph,
      unselected edges included, has no cycle; the first failing stage names the error. */
  method ResolveGroups(groups: seq<RawGroup>, names: map<string, nat>, leaves: nat)
    returns (r: Resolved, table: map<string, nat>, ghost done: seq<nat>)
    requires forall name :: name in names ==> names[name] < leaves
    ensures var full := Table(groups, names, leaves, |groups|);
            && (r.Ok? <==> Declarable(groups, names, leaves, |groups|) && Known(groups, full) &&
                           Acyclic(GraphOf(groups, full, leaves)))
            && (r == Err(Unknown) <==> Declarable(groups, names, leaves, |groups|) && !Known(groups, full))
            && (r == Err(Cyclic) <==> Declarable(groups, names, leaves, |groups|) && Known(groups, full) &&
                                      !Acyclic(GraphOf(groups, full, leaves)))
    ensures r.Ok? ==>
              && table == Table(groups, names, leaves, |groups|)
              && var g := GraphOf(groups, table, leaves);
              && g.Closed() && Ordered(g, done) && AllGroups(g, done) && Distinct(done)
              && (forall n :: g.leaves <= n < g.Total() ==> n in done)
              && |r.groups| == |groups|
              && forall i :: 0 <= i < |groups| ==> r.groups[i] == Group(groups[i].name, g.edges[i])
  {
    hide Acyclic, Ordered, Distinct, AllGroups, Declarable, EdgesOf;
    done := [];
    var error;
    error, table := Declare(groups, names, leaves);
    if error.Some? {
      return Err(error.value), table, done;
    }
    var g := Link(groups, table, leaves);
    if g.None? {
      return Err(Unknown), table, done;
    }
    GraphClosed(groups, names, leaves);
    var acyclic;
    acyclic, done := FindCycle(g.value);
    if !acyclic {
      return Err(Cyclic), table, done;
    }
    r := Ok(seq(|groups|, i requires 0 <= i < |groups| => Group(groups[i].name, g.value.edges[i])));
  }
}
