/** Directed graphs whose edges a search may or may not follow. */
module Graphs {

  /** A vertex; zero is the null vertex. */
  type Vertex = nat

  datatype Arc = Arc(target: Vertex, follow: bool)

  /** The out-edges of every vertex, in order. */
  type Graph = map<Vertex, seq<Arc>>

  predicate Closed(g: Graph) {
    forall v, i :: v in g && 0 <= i < |g[v]| ==> g[v][i].target in g
  }

  function Followed(arcs: seq<Arc>): seq<Vertex> {
    if arcs == [] then []
    else Followed(arcs[..|arcs| - 1]) + if arcs[|arcs| - 1].follow then [arcs[|arcs| - 1].target] else []
  }

  /** Where the followed out-edges of v lead, in order. */
  function Next(g: Graph, v: Vertex): seq<Vertex> {
    if v in g then Followed(g[v]) else []
  }

  /** A followed edge leads from w[i] to w[i + 1]. */
  ghost predicate StepsAt(g: Graph, w: seq<Vertex>, i: nat)
    requires i + 1 < |w|
  {
    w[i + 1] in Next(g, w[i])
  }

  ghost predicate IsWalk(g: Graph, w: seq<Vertex>) {
    |w| > 0 && forall i: nat {:trigger StepsAt(g, w, i)} :: i + 1 < |w| ==> StepsAt(g, w, i)
  }

  ghost predicate Reaches(g: Graph, a: Vertex, b: Vertex) {
    exists w {:trigger IsWalk(g, w)} :: IsWalk(g, w) && w[0] == a && w[|w| - 1] == b
  }

  /** No cycle passes a vertex on a way from `start` to `end`. */
  ghost predicate NoCycleBetween(g: Graph, start: Vertex, end: Vertex) {
    forall a, b :: b in Next(g, a) && Reaches(g, start, a) && Reaches(g, a, end) ==> !Reaches(g, b, a)
  }

  function Members(vs: seq<Vertex>): set<Vertex> {
    set v | v in vs
  }

  predicate Distinct(vs: seq<Vertex>) {
    forall i, j :: 0 <= i < j < |vs| ==> vs[i] != vs[j]
  }

  lemma {:induction false} FollowedTargets(arcs: seq<Arc>, v: Vertex)
    ensures v in Followed(arcs) <==> exists i :: 0 <= i < |arcs| && arcs[i] == Arc(v, true)
  {
    if arcs != [] {
      var init := arcs[..|arcs| - 1];
      FollowedTargets(init, v);
      if i :| 0 <= i < |arcs| && arcs[i] == Arc(v, true) {
        if i < |init| { assert init[i] == Arc(v, true); }
      }
    }
  }

  lemma {:induction false} FollowedPrefix(arcs: seq<Arc>, i: nat)
    requires i <= |arcs|
    ensures Followed(arcs[..i]) <= Followed(arcs)
  {
    if i < |arcs| {
      FollowedPrefix(arcs[..|arcs| - 1], i);
      assert arcs[..|arcs| - 1][..i] == arcs[..i];
    } else {
      assert arcs[..i] == arcs;
    }
  }

  lemma NextInGraph(g: Graph, v: Vertex, t: Vertex)
    requires Closed(g) && t in Next(g, v)
    ensures t in g
  {
    FollowedTargets(g[v], t);
  }

  lemma ReachesItself(g: Graph, a: Vertex)
    ensures Reaches(g, a, a)
  {
    assert IsWalk(g, [a]);
  }

  lemma ReachesOn(g: Graph, a: Vertex, b: Vertex, c: Vertex)
    requires Reaches(g, a, b) && Reaches(g, b, c)
    ensures Reaches(g, a, c)
  {
    var v: seq<Vertex> :| IsWalk(g, v) && v[0] == a && v[|v| - 1] == b;
    var w: seq<Vertex> :| IsWalk(g, w) && w[0] == b && w[|w| - 1] == c;
    var x := v + w[1..];
    assert forall i :: 0 <= i < |w| ==> x[|v| - 1 + i] == w[i];
    forall i: nat | i + 1 < |x| ensures StepsAt(g, x, i) {
      if i + 1 < |v| {
        assert StepsAt(g, v, i);
      } else {
        assert StepsAt(g, w, i - (|v| - 1));
        assert x[i] == w[i - (|v| - 1)] && x[i + 1] == w[i + 1 - (|v| - 1)];
      }
    }
    assert IsWalk(g, x);
  }

  lemma ReachesNext(g: Graph, a: Vertex, b: Vertex)
    requires b in Next(g, a)
    ensures Reaches(g, a, b)
  {
    var w := [a, b];
    assert IsWalk(g, w) && w[0] == a && w[|w| - 1] == b;
  }

  lemma WalkParts(g: Graph, w: seq<Vertex>, i: nat)
    requires IsWalk(g, w) && i < |w| - 1
    ensures Reaches(g, w[0], w[i]) && w[i + 1] in Next(g, w[i]) && Reaches(g, w[i + 1], w[|w| - 1])
  {
    var first, rest := w[..i + 1], w[i + 1..];
    assert StepsAt(g, w, i);
    assert forall j :: 0 <= j < |rest| ==> rest[j] == w[i + 1 + j];
    forall j: nat | j + 1 < |rest| ensures StepsAt(g, rest, j) {
      assert StepsAt(g, w, i + 1 + j);
    }
    forall j: nat | j + 1 < |first| ensures StepsAt(g, first, j) {
      assert StepsAt(g, w, j);
    }
    assert IsWalk(g, rest);
    assert IsWalk(g, first) && first[0] == w[0] && first[|first| - 1] == w[i];
  }

  lemma FewerUnseen(all: set<Vertex>, seen: set<Vertex>, v: Vertex)
    requires v in all
    ensures v !in seen ==> |all - (seen + {v})| < |all - seen|
    ensures v in seen ==> seen + {v} == seen
  {
    assert all - (seen + {v}) == (all - seen) - {v};
  }

  lemma RestOfWalk(g: Graph, w: seq<Vertex>, i: nat)
    requires IsWalk(g, w) && i < |w|
    ensures Reaches(g, w[i], w[|w| - 1])
  {
    if i < |w| - 1 {
      WalkParts(g, w, i);
      ReachesNext(g, w[i], w[i + 1]);
      ReachesOn(g, w[i], w[i + 1], w[|w| - 1]);
    } else {
      ReachesItself(g, w[i]);
    }
  }

  /** The first step of a way. */
  lemma FirstStep(g: Graph, a: Vertex, b: Vertex)
    requires Reaches(g, a, b) && a != b
    ensures exists c :: c in Next(g, a) && Reaches(g, c, b)
  {
    var w: seq<Vertex> :| IsWalk(g, w) && w[0] == a && w[|w| - 1] == b;
    var rest := w[1..];
    forall i: nat | i + 1 < |rest| ensures StepsAt(g, rest, i) {
      assert StepsAt(g, w, i + 1);
    }
    assert IsWalk(g, rest) && rest[0] == w[1] && rest[|rest| - 1] == b;
    assert StepsAt(g, w, 0);
  }

  /** A set that followed edges do not leave contains all that is reachable. */
  lemma {:induction false} ReachableStaysIn(g: Graph, vs: set<Vertex>, w: seq<Vertex>)
    requires IsWalk(g, w) && w[0] in vs
    requires forall v, t :: v in vs && t in Next(g, v) ==> t in vs
    ensures w[|w| - 1] in vs
  {
    if |w| > 1 {
      var init := w[..|w| - 1];
      forall i: nat | i + 1 < |init| ensures StepsAt(g, init, i) {
        assert StepsAt(g, w, i);
      }
      ReachableStaysIn(g, vs, init);
      assert StepsAt(g, w, |w| - 2);
    }
  }
}
