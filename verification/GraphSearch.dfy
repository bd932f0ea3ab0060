/** The two depth-first searches of getgraph/include/utility.h. */
module GraphSearch {
  import opened BetweenSearch
  import opened Graphs

  // ----- The search from one vertex -----

  ghost predicate Explored(g: Graph, start: Vertex, visited: set<Vertex>, todo: set<Vertex>) {
    && visited <= g.Keys && todo <= g.Keys && start in visited + todo
    && (forall v :: v in visited + todo ==> Reaches(g, start, v))
    && (forall v, t :: v in visited && t in Next(g, v) ==> t in visited + todo)
  }

  ghost function Unseen(g: Graph, visited: set<Vertex>): nat {
    |g.Keys - visited|
  }

  function TopSeen(visited: set<Vertex>, pending: seq<Vertex>): nat {
    if pending != [] && pending[|pending| - 1] in visited then 1 else 0
  }

  lemma ExploredMore(g: Graph, start: Vertex, visited: set<Vertex>, rest: set<Vertex>, v: Vertex, children: set<Vertex>)
    requires Closed(g) && Explored(g, start, visited, rest + {v})
    requires forall t :: t in children <==> t in Next(g, v) && t !in visited + {v}
    ensures Explored(g, start, visited + {v}, rest + children)
  {
    assert v in visited + (rest + {v});
    forall t | t in children ensures t in g && Reaches(g, start, t) {
      NextInGraph(g, v, t);
      ReachesNext(g, v, t);
      ReachesOn(g, start, v, t);
    }
    forall u, t | u in visited + {v} && t in Next(g, u) ensures t in visited + {v} + (rest + children) {
      if u != v { assert t in visited + (rest + {v}); }
    }
  }

  lemma ExploredFurther(g: Graph, start: Vertex, visited: set<Vertex>, rest: seq<Vertex>, v: Vertex,
                        children: seq<Vertex>)
    requires Closed(g) && Explored(g, start, visited, Members(rest + [v]))
    requires forall t :: t in children <==> t in Next(g, v) && t !in visited + {v}
    ensures Explored(g, start, visited + {v}, Members(rest + children))
  {
    assert Members(rest + [v]) == Members(rest) + {v};
    assert Members(rest + children) == Members(rest) + Members(children);
    ExploredMore(g, start, visited, Members(rest), v, Members(children));
  }

  /** What one expansion gains: a new vertex, or an unseen top of the stack
      after a seen one, or a shorter stack. */
  ghost predicate Progresses(g: Graph, visited: set<Vertex>, less: seq<Vertex>, seen: set<Vertex>, more: seq<Vertex>) {
    || Unseen(g, seen) < Unseen(g, visited)
    || (seen == visited && TopSeen(seen, more) < TopSeen(visited, less))
    || (seen == visited && TopSeen(seen, more) <= TopSeen(visited, less) && |more| < |less|)
  }

  lemma Progress(g: Graph, visited: set<Vertex>, rest: seq<Vertex>, v: Vertex, children: seq<Vertex>)
    requires v in g && forall t :: t in children ==> t !in visited + {v}
    ensures Progresses(g, visited, rest + [v], visited + {v}, rest + children)
  {
    FewerUnseen(g.Keys, visited, v);
    LastChild(rest, children);
  }

  lemma NothingExplored(g: Graph, start: Vertex)
    requires start in g
    ensures Explored(g, start, {}, Members([start]))
  {
    ReachesItself(g, start);
  }

  /** With an empty stack, what was found is what is reachable. */
  lemma FoundReachable(g: Graph, start: Vertex, visited: set<Vertex>, pending: seq<Vertex>, found: seq<Vertex>)
    requires Explored(g, start, visited, Members(pending)) && pending == [] && Once(found, visited)
    ensures Distinct(found) && forall v :: v in found <==> Reaches(g, start, v)
  {
    assert Members(pending) == {};
    AllExplored(g, start, visited);
  }

  lemma AllExplored(g: Graph, start: Vertex, visited: set<Vertex>)
    requires Explored(g, start, visited, {})
    ensures forall v :: v in visited <==> Reaches(g, start, v)
  {
    forall v | Reaches(g, start, v) ensures v in visited {
      var w: seq<Vertex> :| IsWalk(g, w) && w[0] == start && w[|w| - 1] == v;
      ReachableStaysIn(g, visited, w);
    }
  }

  /** The vertices of a set, each once. */
  ghost predicate Once(found: seq<Vertex>, vs: set<Vertex>) {
    Distinct(found) && Members(found) == vs
  }

  lemma OnceMore(found: seq<Vertex>, vs: set<Vertex>, v: Vertex)
    requires Once(found, vs)
    ensures Once(if v in vs then found else found + [v], vs + {v})
  {
    if v in vs {
      assert vs + {v} == vs;
    } else {
      assert v !in found && Members(found + [v]) == Members(found) + {v};
    }
  }

  /** Runs a client's action on the vertices that a search discovers. */
  class DepthFirstVisitor {
    const graph: Graph
    var discovered: seq<Vertex>    // the vertices the action was run on

    constructor (graph: Graph)
      ensures this.graph == graph && discovered == []
    {
      this.graph := graph;
      discovered := [];
    }

    /** Discovers all vertices that are reachable, each once. */
    method VisitFrom(start: Vertex) returns (ghost found: seq<Vertex>)
      requires Closed(graph) && start in graph
      modifies this
      ensures discovered == old(discovered) + found && Distinct(found)
      ensures forall v :: v in found <==> Reaches(graph, start, v)
    {
      found := [];
      var visited := {};
      var pending := [start];
      NothingExplored(graph, start);
      while pending != []
        invariant Explored(graph, start, visited, Members(pending))
        invariant discovered == old(discovered) + found && Once(found, visited)
        decreases Unseen(graph, visited), TopSeen(visited, pending), |pending|
      {
        ghost var gained;
        visited, pending, gained := Expand(start, visited, pending, found);
        found := found + gained;
      }
      FoundReachable(graph, start, visited, pending, found);
    }

    /** Pops a vertex, discovers it if it is new, and pushes its successors. */
    method Expand(start: Vertex, visited0: set<Vertex>, pending0: seq<Vertex>, ghost found: seq<Vertex>)
      returns (visited: set<Vertex>, pending: seq<Vertex>, ghost gained: seq<Vertex>)
      requires Closed(graph) && pending0 != []
      requires Explored(graph, start, visited0, Members(pending0)) && Once(found, visited0)
      modifies this
      ensures Explored(graph, start, visited, Members(pending)) && Once(found + gained, visited)
      ensures discovered == old(discovered) + gained
      ensures Progresses(graph, visited0, pending0, visited, pending)
    {
      var next, rest := pending0[|pending0| - 1], pending0[..|pending0| - 1];
      assert pending0 == rest + [next] && next in Members(pending0);
      OnceMore(found, visited0, next);
      gained := [];
      if next !in visited0 {
        discovered := discovered + [next];
        gained := [next];
      }
      assert next in visited0 ==> found + gained == found;
      visited := visited0 + {next};
      var children := UnseenTargets(next, visited);
      ExploredFurther(graph, start, visited0, rest, next, children);
      Progress(graph, visited0, rest, next, children);
      pending := rest + children;
    }

    /** The targets of followed edges that were not visited, in order. */
    method UnseenTargets(v: Vertex, visited: set<Vertex>) returns (targets: seq<Vertex>)
      requires v in graph
      ensures forall t :: t in targets <==> t in Next(graph, v) && t !in visited
    {
      targets := [];
      var arcs := graph[v];
      for i := 0 to |arcs|
        invariant forall t :: t in targets <==> t in Followed(arcs[..i]) && t !in visited
      {
        assert arcs[..i + 1][..i] == arcs[..i];
        if arcs[i].target !in visited && arcs[i].follow {
          targets := targets + [arcs[i].target];
        }
      }
      assert arcs[..|arcs|] == arcs;
    }

    method FollowDegree(v: Vertex) returns (degree: nat)
      requires v in graph
      ensures degree == |Next(graph, v)|
    {
      degree := 0;
      var arcs := graph[v];
      for i := 0 to |arcs|
        invariant degree == |Followed(arcs[..i])|
      {
        assert arcs[..i + 1][..i] == arcs[..i];
        if arcs[i].follow { degree := degree + 1; }
      }
      assert arcs[..|arcs|] == arcs;
    }

    /** Discovers the vertices on ways from `start` to `end`, the end included:
        only such vertices, and all of them if the way is nowhere trapped. */
    method VisitBetween(start: Vertex, end: Vertex)
      returns (aborted: bool, ghost found: seq<Vertex>, ghost rounds: nat)
      requires Closed(graph) && start in graph
      modifies this
      ensures aborted == (start == 0 || end == 0)
      ensures discovered == old(discovered) + found && Distinct(found)
      ensures if aborted then found == [] else FoundBetween(start, end, found, Rounds(graph, end, Start(start), rounds))
    {
      if start == 0 || end == 0 {
        return true, [], 0;
      }
      var between;
      between, rounds := SearchBetween(start, end);
      found := DiscoverAll(between);
      Found(start, end, found, Rounds(graph, end, Start(start), rounds));
      aborted := false;
    }

    method SearchBetween(start: Vertex, end: Vertex) returns (between: set<Vertex>, ghost rounds: nat)
      requires Closed(graph) && start in graph
      ensures var st := Rounds(graph, end, Start(start), rounds);
              Over(st) && Going(graph, start, end, st) && between == st.between
    {
      var chained := false;
      var pending := [Branch(start, {})];
      var path, visited := {}, {};
      between := {};
      var next := start;
      rounds := 0;
      ghost var st := Start(start);
      StartIsSound(graph, start, end);
      while pending != [] || chained
        invariant st == Search(pending, visited, between, chained, next, path)
        invariant st == Rounds(graph, end, Start(start), rounds)
        invariant Going(graph, start, end, st)
        decreases |graph.Keys - visited|, |pending|
      {
        SearchGoesOn(start, end, st);
        pending, visited, between, chained, next, path :=
          OneRound(end, pending, visited, between, chained, next, path);
        rounds, st := rounds + 1, Round(graph, end, st);
      }
    }

    /** The outcome of a search that ended in state `st`. */
    ghost predicate FoundBetween(start: Vertex, end: Vertex, found: seq<Vertex>, st: Search) {
      && Over(st) && (forall v :: v in found <==> v in st.between)
      && (forall v :: v in found ==> IsBetween(graph, start, end, v))
      && (NoTrap(graph, start, end) ==> forall v :: IsBetween(graph, start, end, v) ==> v in found)
    }

    lemma SearchGoesOn(start: Vertex, end: Vertex, st: Search)
      requires Closed(graph) && Going(graph, start, end, st) && !Over(st)
      ensures st.pending != [] && Current(st).vertex in graph
      ensures Going(graph, start, end, Round(graph, end, st))
      ensures var r := Round(graph, end, st);
              || |graph.Keys - r.visited| < |graph.Keys - st.visited|
              || (r.visited == st.visited && |r.pending| < |st.pending|)
    {
      RoundGoesOn(graph, start, end, st);
      RoundsProgress(graph, start, end, st);
      assert OnTheWay(graph, start, end, Current(st));
    }

    lemma Found(start: Vertex, end: Vertex, found: seq<Vertex>, st: Search)
      requires Going(graph, start, end, st) && Over(st) && forall v :: v in found <==> v in st.between
      ensures FoundBetween(start, end, found, st)
    {
      if NoTrap(graph, start, end) {
        forall v | IsBetween(graph, start, end, v) ensures v in st.between {
          NothingMissed(graph, start, end, st, v);
        }
      }
    }

    /** One round of the search between two vertices. */
    method OneRound(end: Vertex, pending0: seq<Branch>, visited0: set<Vertex>, between0: set<Vertex>, chained0: bool,
                    next0: Vertex, path0: set<Vertex>)
      returns (pending: seq<Branch>, visited: set<Vertex>, between: set<Vertex>, chained: bool,
               next: Vertex, path: set<Vertex>)
      requires pending0 != []
      requires Current(Search(pending0, visited0, between0, chained0, next0, path0)).vertex in graph
      ensures Search(pending, visited, between, chained, next, path)
              == Round(graph, end, Search(pending0, visited0, between0, chained0, next0, path0))
    {
      pending, visited, between, chained, next, path := pending0, visited0, between0, chained0, next0, path0;
      if !chained {
        next := pending[|pending| - 1].vertex;
        path := pending[|pending| - 1].path;
      }
      var success := false;
      var nextBetween := next in between;
      if (next in visited && !nextBetween) || next in path {
        chained := false;
        between, pending, success := EndOfBranch(between, pending, path, success);
        return;
      }
      path := path + {next};
      visited := visited + {next};
      if next == end || nextBetween {
        chained := false;
        success := true;
        between, pending, success := EndOfBranch(between, pending, path, success);
        return;
      }
      var degree := FollowDegree(next);
      if degree == 0 {
        chained := false;
        between, pending, success := EndOfBranch(between, pending, path, success);
      } else if degree == 1 {
        chained := true;
        next := FirstTarget(next);
      } else {
        chained := false;
        pending := PushBranches(pending, next, path);
      }
    }

    method EndOfBranch(between: set<Vertex>, pending: seq<Branch>, path: set<Vertex>, success: bool)
      returns (between': set<Vertex>, pending': seq<Branch>, success': bool)
      requires pending != []
      ensures between' == (if success then between + path else between)
      ensures pending' == pending[..|pending| - 1] && !success'
    {
      between' := if success then between + path else between;
      pending' := pending[..|pending| - 1];
      success' := false;
    }

    method FirstTarget(v: Vertex) returns (target: Vertex)
      requires v in graph && Next(graph, v) != []
      ensures target == Next(graph, v)[0]
    {
      var arcs := graph[v];
      var i := 0;
      NotAll(arcs, 0);
      while !arcs[i].follow
        invariant i < |arcs| && Followed(arcs[..i]) == []
        decreases |arcs| - i
      {
        assert arcs[..i + 1][..i] == arcs[..i];
        NotAll(arcs, i + 1);
        i := i + 1;
      }
      assert arcs[..i + 1][..i] == arcs[..i];
      FollowedPrefix(arcs, i + 1);
      return arcs[i].target;
    }

    method PushBranches(pending: seq<Branch>, v: Vertex, path: set<Vertex>) returns (more: seq<Branch>)
      requires v in graph
      ensures more == pending + Branches(Next(graph, v), path)
    {
      more := pending;
      var arcs := graph[v];
      for i := 0 to |arcs|
        invariant more == pending + Branches(Followed(arcs[..i]), path)
      {
        assert arcs[..i + 1][..i] == arcs[..i];
        if arcs[i].follow {
          more := more + [Branch(arcs[i].target, path)];
        }
      }
      assert arcs[..|arcs|] == arcs;
    }

    method DiscoverAll(vs: set<Vertex>) returns (ghost found: seq<Vertex>)
      modifies this
      ensures discovered == old(discovered) + found && Distinct(found)
      ensures forall v :: v in found <==> v in vs
    {
      found := [];
      var rest := vs;
      while rest != {}
        invariant rest <= vs && discovered == old(discovered) + found && Once(found, vs - rest)
      {
        var v :| v in rest;
        OnceMore(found, vs - rest, v);
        assert vs - (rest - {v}) == vs - rest + {v};
        discovered := discovered + [v];
        found := found + [v];
        rest := rest - {v};
      }
      assert vs - rest == vs;
    }
  }

  lemma NotAll(arcs: seq<Arc>, i: nat)
    requires i <= |arcs| && Followed(arcs[..i]) == [] && Followed(arcs) != []
    ensures i < |arcs|
  {
    assert arcs == arcs[..|arcs|];
  }

  lemma LastChild(rest: seq<Vertex>, children: seq<Vertex>)
    ensures children == [] ==> rest + children == rest
    ensures children != [] ==> (rest + children)[|rest + children| - 1] in children
  {
  }
}
