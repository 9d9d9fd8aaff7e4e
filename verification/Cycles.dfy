/** `find_cycles`: a three-colour depth-first search over the dependency graph. */
module Cycles {
  import opened Seqs
  import opened Roadmap

  type Graph = map<string, seq<string>>

  ghost predicate Closed(adj: Graph) {
    forall u, k :: u in adj && 0 <= k < |adj[u]| ==> adj[u][k] in adj
  }

  ghost predicate EdgeOf(adj: Graph, u: string, v: string) {
    u in adj && v in adj[u]
  }

  /** Consecutive nodes of `w` are joined by edges. */
  ghost predicate Walk(adj: Graph, w: seq<string>) {
    forall i :: 0 <= i < |w| - 1 ==> EdgeOf(adj, w[i], w[i + 1])
  }

  /** A walk along at least one edge that returns to its first node. */
  ghost predicate ClosedWalk(adj: Graph, w: seq<string>) {
    |w| >= 2 && w[0] == Last(w) && Walk(adj, w)
  }

  /** A closed walk that visits no node twice, its two endpoints apart. */
  ghost predicate SimpleCycle(adj: Graph, c: seq<string>) {
    ClosedWalk(adj, c) && NoDup(c[..|c| - 1])
  }

  ghost predicate Acyclic(adj: Graph) {
    !exists w :: ClosedWalk(adj, w)
  }

  /** Some reported cycle ends with the step `u -> v`. */
  ghost predicate Closes(cycles: seq<seq<string>>, u: string, v: string) {
    exists k :: 0 <= k < |cycles| && |cycles[k]| >= 2 && cycles[k][|cycles[k]| - 2..] == [u, v]
  }

  /** The step `w[i] -> w[i + 1]` is the closing step of a reported cycle. */
  ghost predicate SharesClosingStep(cycles: seq<seq<string>>, w: seq<string>) {
    exists i :: 0 <= i < |w| - 1 && Closes(cycles, w[i], w[i + 1])
  }

  /** A finishing order: each successor finished earlier, unless the step to it closes a reported cycle. */
  ghost predicate FinishOrder(adj: Graph, cycles: seq<seq<string>>, finished: seq<string>) {
    forall i :: 0 <= i < |finished| && finished[i] in adj ==>
      Settled(adj, cycles, finished[i], |adj[finished[i]]|, finished[..i])
  }

  /** The first `n` successors of `u` are in `done` or are reached by a closing step. */
  ghost predicate Settled(adj: Graph, cycles: seq<seq<string>>, u: string, n: nat, done: seq<string>)
    requires u in adj && n <= |adj[u]|
  {
    forall k :: 0 <= k < n ==> adj[u][k] in done || Closes(cycles, u, adj[u][k])
  }

  /** Along steps that close nothing, the finishing position strictly falls. */
  lemma {:induction false} FinishPositionFalls(
    adj: Graph, cycles: seq<seq<string>>, finished: seq<string>, w: seq<string>, p: nat)
    requires NoDup(finished) && FinishOrder(adj, cycles, finished)
    requires Walk(adj, w) && !SharesClosingStep(cycles, w)
    requires |w| >= 2 && p < |finished| && finished[p] == w[0]
    ensures exists q :: 0 <= q < p && finished[q] == Last(w)
  {
    assert EdgeOf(adj, w[0], w[1]);
    var k :| 0 <= k < |adj[w[0]]| && adj[w[0]][k] == w[1];
    assert !Closes(cycles, w[0], w[1]);
    assert w[1] in finished[..p];
    var q :| 0 <= q < p && finished[q] == w[1];
    if |w| > 2 {
      var rest := w[1..];
      forall i | 0 <= i < |rest| - 1
        ensures EdgeOf(adj, rest[i], rest[i + 1]) && !Closes(cycles, rest[i], rest[i + 1])
      {
        assert rest[i] == w[i + 1] && rest[i + 1] == w[i + 2];
        assert EdgeOf(adj, w[i + 1], w[i + 2]);
        assert !Closes(cycles, w[i + 1], w[i + 2]);
      }
      FinishPositionFalls(adj, cycles, finished, rest, q);
    }
  }

  /** Once every node has finished, each closed walk takes the closing step of a reported cycle. */
  lemma EveryClosedWalkIsHit(adj: Graph, cycles: seq<seq<string>>, finished: seq<string>, w: seq<string>)
    requires NoDup(finished) && FinishOrder(adj, cycles, finished)
    requires Elems(finished) == adj.Keys
    requires ClosedWalk(adj, w)
    ensures SharesClosingStep(cycles, w)
  {
    if !SharesClosingStep(cycles, w) {
      assert EdgeOf(adj, w[0], w[1]);
      assert w[0] in Elems(finished);
      var p :| 0 <= p < |finished| && finished[p] == w[0];
      FinishPositionFalls(adj, cycles, finished, w, p);
      assert false;
    }
  }

  /** `adj.setdefault` for every id and prerequisite, plus the keys in the order they were first inserted. */
  method BuildGraph(items: seq<Item>) returns (keys: seq<string>, adj: Graph)
    ensures NoDup(keys) && Elems(keys) == adj.Keys
    ensures Closed(adj)
    ensures Elems(Ids(items)) <= adj.Keys
    ensures forall u, v :: EdgeOf(adj, u, v) <==> DependsOn(items, u, v)
  {
    keys, adj := [], map[];
    for k := 0 to |items|
      invariant NoDup(keys) && Elems(keys) == adj.Keys == Elems(Ids(items)[..k])
      invariant forall u :: u in adj ==> adj[u] == []
    {
      assert Ids(items)[..k + 1] == Ids(items)[..k] + [items[k].id];
      keys, adj := SetDefault(keys, adj, items[k].id);
    }
    assert Ids(items)[..|items|] == Ids(items);
    for k := 0 to |items|
      invariant NoDup(keys) && Elems(keys) == adj.Keys && Elems(Ids(items)) <= adj.Keys
      invariant Closed(adj)
      invariant forall u, v :: EdgeOf(adj, u, v) <==> DependsOn(items[..k], u, v)
    {
      var item := items[k];
      assert items[k] in items && item.id == Ids(items)[k];
      assert item.id in adj;
      keys, adj := AddEdges(keys, adj, item);
      forall u, v
        ensures EdgeOf(adj, u, v) <==> DependsOn(items[..k + 1], u, v)
      {
        DependsOnSnoc(items, k, u, v);
      }
    }
    assert items[..|items|] == items;
  }

  /** `for dep in item.depends_on: adj.setdefault(dep, []).append(item.id)`. */
  method AddEdges(keys0: seq<string>, adj0: Graph, item: Item) returns (keys: seq<string>, adj: Graph)
    requires NoDup(keys0) && Elems(keys0) == adj0.Keys
    requires Closed(adj0) && item.id in adj0
    ensures NoDup(keys) && Elems(keys) == adj.Keys
    ensures Closed(adj) && adj0.Keys <= adj.Keys
    ensures forall u, v :: EdgeOf(adj, u, v) <==> EdgeOf(adj0, u, v) || (v == item.id && u in item.dependsOn)
  {
    keys, adj := keys0, adj0;
    for d := 0 to |item.dependsOn|
      invariant NoDup(keys) && Elems(keys) == adj.Keys
      invariant Closed(adj) && adj0.Keys <= adj.Keys
      invariant forall u, v :: EdgeOf(adj, u, v) <==>
                               EdgeOf(adj0, u, v) || (v == item.id && u in item.dependsOn[..d])
    {
      var dep := item.dependsOn[d];
      assert item.dependsOn[..d + 1] == item.dependsOn[..d] + [dep];
      ghost var prior := adj;
      keys, adj := SetDefault(keys, adj, dep);
      adj := adj[dep := adj[dep] + [item.id]];
      assert forall u, v :: EdgeOf(adj, u, v) <==> EdgeOf(prior, u, v) || (u == dep && v == item.id);
    }
    assert item.dependsOn[..|item.dependsOn|] == item.dependsOn;
  }

  lemma DependsOnSnoc(items: seq<Item>, k: nat, u: string, v: string)
    requires k < |items|
    ensures DependsOn(items[..k + 1], u, v) <==>
            DependsOn(items[..k], u, v) || (v == items[k].id && u in items[k].dependsOn)
  {
    var now, before := items[..k + 1], items[..k];
    assert now == before + [items[k]];
    if DependsOn(before, u, v) {
      var j :| 0 <= j < |before| && before[j].id == v && u in before[j].dependsOn;
      assert now[j] == before[j];
    }
    if v == items[k].id && u in items[k].dependsOn {
      assert now[k] == items[k];
    }
  }

  method SetDefault(keys: seq<string>, adj: Graph, key: string) returns (keys': seq<string>, adj': Graph)
    requires NoDup(keys) && Elems(keys) == adj.Keys
    ensures NoDup(keys') && Elems(keys') == adj'.Keys == adj.Keys + {key}
    ensures forall u :: u in adj ==> adj'[u] == adj[u]
    ensures key !in adj ==> adj'[key] == []
  {
    if key in adj {
      assert adj.Keys + {key} == adj.Keys;
      return keys, adj;
    }
    assert key !in Elems(keys);
    return keys + [key], adj[key := []];
  }

  datatype Colour = White | Grey | Black

  /** The stack is exactly the GREY nodes, joined in path order. */
  ghost predicate GreyStack(adj: Graph, colour: map<string, Colour>, stack: seq<string>)
    requires colour.Keys == adj.Keys
  {
    && NoDup(stack)
    && Walk(adj, stack)
    && forall n :: n in stack <==> n in adj && colour[n] == Grey
  }

  /** The finished nodes are exactly the BLACK ones. */
  ghost predicate BlackFinished(adj: Graph, colour: map<string, Colour>, finished: seq<string>)
    requires colour.Keys == adj.Keys
  {
    && NoDup(finished)
    && forall n :: n in finished <==> n in adj && colour[n] == Black
  }

  ghost function WhiteNodes(colour: map<string, Colour>): set<string> {
    set n | n in colour && colour[n] == White
  }

  class CycleFinder {
    const adj: Graph
    var colour: map<string, Colour>
    var stack: seq<string>
    var cycles: seq<seq<string>>
    /** The nodes `walk` has left, in the order it left them. */
    ghost var finished: seq<string>

    ghost predicate Valid()
      reads this
    {
      && Closed(adj)
      && colour.Keys == adj.Keys
      && NoDup(cycles)
      && GreyStack(adj, colour, stack)
      && BlackFinished(adj, colour, finished)
      && FinishOrder(adj, cycles, finished)
      && (forall k :: 0 <= k < |cycles| ==> SimpleCycle(adj, cycles[k]))
    }

    ghost function Whites(): set<string>
      reads this
    {
      WhiteNodes(colour)
    }

    constructor (adj: Graph)
      requires Closed(adj)
      ensures Valid() && this.adj == adj
      ensures stack == [] && cycles == [] && finished == []
    {
      this.adj := adj;
      colour := map n | n in adj :: White;
      stack, cycles, finished := [], [], [];
    }

    /** One turn of the outer loop: walk the node if it is still WHITE. */
    method Start(node: string)
      requires Valid() && stack == [] && node in adj
      modifies this
      ensures Valid() && stack == []
      ensures node in finished && old(finished) <= finished
    {
      if colour[node] == White {
        Visit(node);
      } else {
        assert node !in stack;
      }
    }

    /** `walk`: visit a WHITE node reached from the top of the stack. */
    method Visit(node: string)
      requires Valid()
      requires node in adj && colour[node] == White
      requires stack != [] ==> EdgeOf(adj, Last(stack), node)
      modifies this
      ensures Valid()
      ensures stack == old(stack)
      ensures colour[node] == Black
      ensures old(finished) <= finished && old(cycles) <= cycles
      ensures Whites() < old(Whites())
      decreases Whites(), 1
    {
      Enter(node);
      var k := 0;
      while k < |adj[node]|
        invariant 0 <= k <= |adj[node]|
        invariant Valid()
        invariant stack == old(stack) + [node]
        invariant old(finished) <= finished && old(cycles) <= cycles
        invariant Whites() < old(Whites())
        invariant Settled(adj, cycles, node, k, finished)
      {
        Follow(node, k);
        k := k + 1;
      }
      Leave(node);
      assert stack == old(stack);
    }

    /** Colour the node GREY and push it. */
    method Enter(node: string)
      requires Valid()
      requires node in adj && colour[node] == White
      requires stack != [] ==> EdgeOf(adj, Last(stack), node)
      modifies this`colour, this`stack
      ensures Valid()
      ensures stack == old(stack) + [node]
      ensures Whites() < old(Whites())
    {
      assert node in Whites();
      colour := colour[node := Grey];
      assert Whites() == old(Whites()) - {node};
      stack := stack + [node];
      forall i | 0 <= i < |stack| - 1
        ensures EdgeOf(adj, stack[i], stack[i + 1])
      {
        if i < |stack| - 2 {
          assert EdgeOf(adj, old(stack)[i], old(stack)[i + 1]);
        }
      }
    }

    /** One turn of the loop over the successors: report, recurse or pass, by the successor's colour. */
    method Follow(node: string, k: nat)
      requires Valid()
      requires stack != [] && Last(stack) == node
      requires node in adj && k < |adj[node]|
      requires Settled(adj, cycles, node, k, finished)
      modifies this
      ensures Valid()
      ensures stack == old(stack)
      ensures old(finished) <= finished && old(cycles) <= cycles
      ensures Whites() <= old(Whites())
      ensures Settled(adj, cycles, node, k + 1, finished)
      decreases Whites(), 2
    {
      var nxt := adj[node][k];
      assert EdgeOf(adj, node, nxt);
      if colour[nxt] == Grey {
        ReportCycle(node, nxt);
      } else if colour[nxt] == White {
        Visit(nxt);
        assert nxt in finished;
      } else {
        assert nxt in finished;
      }
      SettledGrows(adj, old(cycles), cycles, node, k, old(finished), finished);
    }

    /** Pop the node and colour it BLACK, all its successors being settled. */
    method Leave(node: string)
      requires Valid()
      requires stack != [] && Last(stack) == node
      requires node in adj && Settled(adj, cycles, node, |adj[node]|, finished)
      modifies this`colour, this`stack, this`finished
      ensures Valid()
      ensures stack == old(stack)[..|old(stack)| - 1]
      ensures colour[node] == Black
      ensures finished == old(finished) + [node]
      ensures Whites() == old(Whites())
    {
      PopGrey(adj, colour, stack, node);
      FinishBlack(adj, colour, finished, node);
      FinishSnoc(adj, cycles, finished, node);
      WhitesStay(colour, node);
      stack := stack[..|stack| - 1];
      colour := colour[node := Black];
      finished := finished + [node];
    }

    /** A back edge to `nxt`: record the stack from `nxt` on, unless that cycle is already listed. */
    method ReportCycle(node: string, nxt: string)
      requires Valid()
      requires stack != [] && Last(stack) == node
      requires EdgeOf(adj, node, nxt) && colour[nxt] == Grey
      modifies this`cycles
      ensures Valid()
      ensures old(cycles) <= cycles
      ensures Closes(cycles, node, nxt)
    {
      var at := IndexOf(stack, nxt);
      var cyc := stack[at..] + [nxt];
      CycleFromStack(adj, stack, at, nxt);
      if cyc !in cycles {
        cycles := cycles + [cyc];
      }
      FinishGrows(adj, old(cycles), cycles, finished);
      ClosesByMember(cycles, cyc, node, nxt);
    }
  }

  lemma Popped(s: seq<string>, node: string)
    requires NoDup(s + [node])
    ensures NoDup(s) && node !in s
    ensures forall n :: n in s + [node] <==> n in s || n == node
  {
    var all := s + [node];
    assert all[|s|] == node;
    assert forall i :: 0 <= i < |s| ==> all[i] == s[i];
  }

  lemma PopGrey(adj: Graph, colour: map<string, Colour>, stack: seq<string>, node: string)
    requires colour.Keys == adj.Keys && GreyStack(adj, colour, stack)
    requires stack != [] && Last(stack) == node
    ensures node in adj && colour[node] == Grey
    ensures GreyStack(adj, colour[node := Black], stack[..|stack| - 1])
  {
    var below := stack[..|stack| - 1];
    FrontAndLast(stack);
    Popped(below, node);
    WalkPrefix(adj, below, node);
    assert node in stack;
  }

  lemma FinishBlack(adj: Graph, colour: map<string, Colour>, finished: seq<string>, node: string)
    requires colour.Keys == adj.Keys && BlackFinished(adj, colour, finished)
    requires node in adj && colour[node] == Grey
    ensures BlackFinished(adj, colour[node := Black], finished + [node])
  {
    assert node !in finished;
    assert forall n :: n in finished + [node] <==> n in finished || n == node;
  }

  lemma WhitesStay(colour: map<string, Colour>, node: string)
    requires node in colour && colour[node] == Grey
    ensures WhiteNodes(colour[node := Black]) == WhiteNodes(colour)
  {
  }

  lemma WalkPrefix(adj: Graph, w: seq<string>, last: string)
    requires Walk(adj, w + [last])
    ensures Walk(adj, w)
  {
    forall i | 0 <= i < |w| - 1
      ensures EdgeOf(adj, w[i], w[i + 1])
    {
      assert EdgeOf(adj, (w + [last])[i], (w + [last])[i + 1]);
    }
  }

  lemma FinishSnoc(adj: Graph, cycles: seq<seq<string>>, finished: seq<string>, node: string)
    requires FinishOrder(adj, cycles, finished)
    requires node in adj && Settled(adj, cycles, node, |adj[node]|, finished)
    ensures FinishOrder(adj, cycles, finished + [node])
  {
    var more := finished + [node];
    forall i | 0 <= i < |more| && more[i] in adj
      ensures Settled(adj, cycles, more[i], |adj[more[i]]|, more[..i])
    {
      assert more[..i] == if i < |finished| then finished[..i] else finished;
    }
  }

  lemma FinishGrows(adj: Graph, cycles: seq<seq<string>>, cycles': seq<seq<string>>, finished: seq<string>)
    requires cycles <= cycles' && FinishOrder(adj, cycles, finished)
    ensures FinishOrder(adj, cycles', finished)
  {
    forall i | 0 <= i < |finished| && finished[i] in adj
      ensures Settled(adj, cycles', finished[i], |adj[finished[i]]|, finished[..i])
    {
      SettledGrows(adj, cycles, cycles', finished[i], |adj[finished[i]]|, finished[..i], finished[..i]);
    }
  }

  /** The stack from `nxt` on, closed by the back edge to `nxt`, is a simple cycle ending with that edge. */
  lemma CycleFromStack(adj: Graph, stack: seq<string>, at: nat, nxt: string)
    requires NoDup(stack) && Walk(adj, stack) && at < |stack| && stack[at] == nxt
    requires EdgeOf(adj, Last(stack), nxt)
    ensures SimpleCycle(adj, stack[at..] + [nxt])
    ensures (stack[at..] + [nxt])[|stack| - at - 1..] == [Last(stack), nxt]
  {
    var cyc := stack[at..] + [nxt];
    assert cyc[..|cyc| - 1] == stack[at..];
    forall i | 0 <= i < |cyc| - 1
      ensures EdgeOf(adj, cyc[i], cyc[i + 1])
    {
      if i < |cyc| - 2 {
        assert EdgeOf(adj, stack[at + i], stack[at + i + 1]);
      }
    }
  }

  lemma ClosesByMember(cycles: seq<seq<string>>, cyc: seq<string>, u: string, v: string)
    requires cyc in cycles && |cyc| >= 2 && cyc[|cyc| - 2..] == [u, v]
    ensures Closes(cycles, u, v)
  {
  }

  /** Settled steps stay settled while nodes finish and cycles are added. */
  lemma SettledGrows(adj: Graph, cycles: seq<seq<string>>, cycles': seq<seq<string>>,
                     u: string, n: nat, done: seq<string>, done': seq<string>)
    requires u in adj && n <= |adj[u]|
    requires cycles <= cycles' && done <= done'
    requires Settled(adj, cycles, u, n, done)
    ensures Settled(adj, cycles', u, n, done')
  {
    forall k | 0 <= k < n
      ensures adj[u][k] in done' || Closes(cycles', u, adj[u][k])
    {
      if adj[u][k] !in done {
        var c :| 0 <= c < |cycles| && |cycles[c]| >= 2 && cycles[c][|cycles[c]| - 2..] == [u, adj[u][k]];
        assert cycles'[c] == cycles[c];
      }
    }
  }

  /** `list.index`: the first position of `x`. */
  method IndexOf(s: seq<string>, x: string) returns (i: nat)
    requires x in s
    ensures i < |s| && s[i] == x && x !in s[..i]
  {
    i := 0;
    while s[i] != x
      invariant i < |s| && x !in s[..i]
      invariant x in s[i..]
      decreases |s| - i
    {
      i := i + 1;
    }
  }

  /**
   * `find_cycles`. Every reported list is a genuine simple cycle of the dependency graph, and every cycle of
   * that graph - simple or not - takes the closing step of a reported one. So the report is empty exactly when
   * the declared dependencies form a DAG.
   */
  method FindCycles(epics: seq<Epic>) returns (cycles: seq<seq<string>>, ghost adj: Graph)
    ensures forall u, v :: EdgeOf(adj, u, v) <==> Declares(epics, u, v)
    ensures forall k :: 0 <= k < |cycles| ==> SimpleCycle(adj, cycles[k])
    ensures NoDup(cycles)
    ensures forall w :: ClosedWalk(adj, w) ==> SharesClosingStep(cycles, w)
    ensures cycles == [] <==> Acyclic(adj)
  {
    var keys, graph := BuildGraph(Items(epics));
    adj := graph;
    forall u, v
      ensures EdgeOf(adj, u, v) <==> Declares(epics, u, v)
    {
      EdgesAreDeclared(epics, u, v);
    }
    ghost var finished;
    cycles, finished := Search(keys, graph);
    forall w | ClosedWalk(adj, w)
      ensures SharesClosingStep(cycles, w)
    {
      EveryClosedWalkIsHit(adj, cycles, finished, w);
    }
    if cycles != [] {
      assert ClosedWalk(adj, cycles[0]);
    }
  }

  /** The outer loop: walk every node still WHITE, until all have finished. */
  method Search(keys: seq<string>, adj: Graph) returns (cycles: seq<seq<string>>, ghost finished: seq<string>)
    requires Closed(adj) && Elems(keys) == adj.Keys
    ensures NoDup(finished) && Elems(finished) == adj.Keys && FinishOrder(adj, cycles, finished)
    ensures NoDup(cycles) && forall k :: 0 <= k < |cycles| ==> SimpleCycle(adj, cycles[k])
  {
    var finder := new CycleFinder(adj);
    for k := 0 to |keys|
      invariant finder.Valid() && finder.stack == [] && finder.adj == adj && fresh(finder)
      invariant forall j :: 0 <= j < k ==> keys[j] in finder.finished
    {
      assert keys[k] in Elems(keys);
      ghost var before := finder.finished;
      finder.Start(keys[k]);
      assert forall n :: n in before ==> n in finder.finished;
    }
    cycles, finished := finder.cycles, finder.finished;
    forall n | n in adj
      ensures n in finished
    {
      assert n in Elems(keys);
    }
  }
}
