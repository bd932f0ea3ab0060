/** Exactly when the search between two vertices misses nothing, whatever the
    order in which out-edges are listed. */
module SearchTraps {
  import opened Graphs
  import opened BetweenSearch

  /** The same graph, with the out-edges of each vertex in another order. */
  ghost predicate Reordered(g: Graph, h: Graph) {
    g.Keys == h.Keys && forall v :: v in g ==> multiset(g[v]) == multiset(h[v])
  }

  /** A finished search has found every vertex in between. */
  ghost predicate FindsAll(g: Graph, start: Vertex, end: Vertex) {
    forall n: nat, v :: Over(Rounds(g, end, Start(start), n)) && IsBetween(g, start, end, v) ==>
      v in Rounds(g, end, Start(start), n).between
  }

  // ----- Order does not matter to ways -----

  lemma SameNext(g: Graph, h: Graph, v: Vertex, t: Vertex)
    requires Reordered(g, h)
    ensures t in Next(g, v) <==> t in Next(h, v)
  {
    if v in g {
      FollowedTargets(g[v], t);
      FollowedTargets(h[v], t);
      assert Arc(t, true) in multiset(g[v]) <==> Arc(t, true) in multiset(h[v]);
    }
  }

  lemma SameWalks(g: Graph, h: Graph, w: seq<Vertex>)
    requires Reordered(g, h) && IsWalk(g, w)
    ensures IsWalk(h, w)
  {
    forall i: nat | i + 1 < |w| ensures StepsAt(h, w, i) {
      assert StepsAt(g, w, i);
      SameNext(g, h, w[i], w[i + 1]);
    }
  }

  lemma SameReaches(g: Graph, h: Graph, a: Vertex, b: Vertex)
    requires Reordered(g, h)
    ensures Reaches(g, a, b) <==> Reaches(h, a, b)
  {
    if w: seq<Vertex> :| IsWalk(g, w) && w[0] == a && w[|w| - 1] == b { SameWalks(g, h, w); }
    if w: seq<Vertex> :| IsWalk(h, w) && w[0] == a && w[|w| - 1] == b { SameWalks(h, g, w); }
  }

  lemma SameTraps(g: Graph, h: Graph, start: Vertex, end: Vertex)
    requires Reordered(g, h) && NoTrap(g, start, end)
    ensures NoTrap(h, start, end)
  {
    forall w | IsTrail(h, start, end, w) && Reaches(h, w[|w| - 1], end) ensures GoesOn(h, end, w) {
      SameWalks(h, g, w);
      SameReaches(g, h, w[|w| - 1], end);
      assert GoesOn(g, end, w);
      var t: Vertex :| t in Next(g, w[|w| - 1]) && t !in w && Reaches(g, t, end);
      SameNext(g, h, w[|w| - 1], t);
      SameReaches(g, h, t, end);
    }
  }

  lemma SameClosed(g: Graph, h: Graph)
    requires Reordered(g, h) && Closed(g)
    ensures Closed(h)
  {
    forall v, i | v in h && 0 <= i < |h[v]| ensures h[v][i].target in h {
      assert h[v][i] in multiset(g[v]);
    }
  }

  // ----- Without a trap nothing is missed -----

  lemma {:induction false} RoundsAreSound(g: Graph, start: Vertex, end: Vertex, n: nat)
    requires Closed(g) && start in g
    ensures Going(g, start, end, Rounds(g, end, Start(start), n))
  {
    if n == 0 {
      StartIsSound(g, start, end);
    } else {
      RoundsAreSound(g, start, end, n - 1);
      RoundGoesOn(g, start, end, Rounds(g, end, Start(start), n - 1));
    }
  }

  lemma NoTrapFindsAll(g: Graph, start: Vertex, end: Vertex)
    requires Closed(g) && start in g && NoTrap(g, start, end)
    ensures FindsAll(g, start, end)
  {
    forall n: nat, v | Over(Rounds(g, end, Start(start), n)) && IsBetween(g, start, end, v)
      ensures v in Rounds(g, end, Start(start), n).between
    {
      RoundsAreSound(g, start, end, n);
      NothingMissed(g, start, end, Rounds(g, end, Start(start), n), v);
    }
  }

  lemma SearchEnds(g: Graph, start: Vertex, end: Vertex, n: nat) returns (m: nat)
    requires Closed(g) && start in g
    ensures Over(Rounds(g, end, Start(start), m))
    decreases |g.Keys - Rounds(g, end, Start(start), n).visited|, |Rounds(g, end, Start(start), n).pending|
  {
    var st := Rounds(g, end, Start(start), n);
    if Over(st) { return n; }
    RoundsAreSound(g, start, end, n);
    RoundsProgress(g, start, end, st);
    m := SearchEnds(g, start, end, n + 1);
  }

  // ----- An order that leads into the trap -----

  /** The followed edge to t comes last, so that the search takes it first. */
  ghost function Preferring(arcs: seq<Arc>, t: Vertex): (r: seq<Arc>)
    requires t in Followed(arcs)
    ensures multiset(r) == multiset(arcs)
    ensures Followed(r) != [] && Followed(r)[|Followed(r)| - 1] == t
  {
    FollowedTargets(arcs, t);
    var i :| 0 <= i < |arcs| && arcs[i] == Arc(t, true);
    var r := arcs[..i] + arcs[i + 1..] + [arcs[i]];
    assert arcs == arcs[..i] + [arcs[i]] + arcs[i + 1..];
    assert r[..|r| - 1] == arcs[..i] + arcs[i + 1..];
    r
  }

  /** The search goes from w[i] to w[i + 1] before anything else. */
  ghost predicate PrefersAt(h: Graph, w: seq<Vertex>, i: nat)
    requires i + 1 < |w|
  {
    var next := Next(h, w[i]);
    next != [] && next[|next| - 1] == w[i + 1]
  }

  ghost predicate Prefers(h: Graph, w: seq<Vertex>, n: nat)
    requires n < |w|
  {
    forall i: nat {:trigger PrefersAt(h, w, i)} :: i < n ==> PrefersAt(h, w, i)
  }

  lemma PrefersOneMore(g: Graph, before: Graph, w: seq<Vertex>, n: nat, arcs: seq<Arc>)
    requires Distinct(w) && 0 < n < |w| && Reordered(g, before) && Prefers(before, w, n - 1)
    requires w[n - 1] in before && multiset(arcs) == multiset(before[w[n - 1]])
    requires Followed(arcs) != [] && Followed(arcs)[|Followed(arcs)| - 1] == w[n]
    ensures var h := before[w[n - 1] := arcs]; Reordered(g, h) && Prefers(h, w, n)
  {
    var h := before[w[n - 1] := arcs];
    forall i: nat | i < n ensures PrefersAt(h, w, i) {
      if i < n - 1 {
        assert PrefersAt(before, w, i) && w[i] != w[n - 1];
        assert Next(h, w[i]) == Next(before, w[i]);
      } else {
        assert Next(h, w[i]) == Followed(arcs);
      }
    }
  }

  ghost function Towards(g: Graph, w: seq<Vertex>, n: nat): (h: Graph)
    requires IsWalk(g, w) && Distinct(w) && n < |w|
    ensures Reordered(g, h) && Prefers(h, w, n)
  {
    if n == 0 then g else
    var before := Towards(g, w, n - 1);
    assert StepsAt(g, w, n - 1);
    SameNext(g, before, w[n - 1], w[n]);
    var arcs := Preferring(before[w[n - 1]], w[n]);
    PrefersOneMore(g, before, w, n, arcs);
    before[w[n - 1] := arcs]
  }

  /** After i rounds the search stands at w[i], and has seen just what comes
      before it. */
  ghost predicate HeadsInto(w: seq<Vertex>, i: nat, st: Search)
    requires i < |w|
  {
    && st.pending != [] && Current(st) == Branch(w[i], Members(w[..i]))
    && st.visited == Members(w[..i]) && st.between == {}
    && (forall k :: 0 <= k < |st.pending| ==> st.pending[k].path <= Members(w[..i]))
  }

  lemma NotSeenBefore(w: seq<Vertex>, i: nat)
    requires Distinct(w) && i < |w|
    ensures w[i] !in Members(w[..i])
    ensures i + 1 < |w| ==> Members(w[..i + 1]) == Members(w[..i]) + {w[i]}
  {
    assert w[..i + 1] == w[..i] + [w[i]];
  }

  lemma HeadsOn(h: Graph, end: Vertex, w: seq<Vertex>, i: nat, st: Search)
    requires Distinct(w) && end !in w && i + 1 < |w| && PrefersAt(h, w, i) && HeadsInto(w, i, st)
    ensures HeadsInto(w, i + 1, Round(h, end, st))
  {
    NotSeenBefore(w, i);
    var targets := Next(h, w[i]);
    var r := Round(h, end, st);
    assert w[i] in w && targets != [] && targets[|targets| - 1] == w[i + 1];
    if |targets| > 1 {
      assert r.pending == st.pending + Branches(targets, Members(w[..i]) + {w[i]});
      assert r.pending[|r.pending| - 1] == Branch(w[i + 1], Members(w[..i + 1]));
    }
  }

  /** f was seen and not found, and no branch can change that: those that have
      f on their way do not lead to the end, or turn back. */
  ghost predicate Trapped(h: Graph, end: Vertex, f: Vertex, st: Search) {
    && f in st.visited && f !in st.between
    && (st.chained ==> st.pending != [] && Hopeless(h, end, f, Branch(st.next, st.path)))
    && (forall k :: 0 <= k < |st.pending| ==> Hopeless(h, end, f, st.pending[k]))
  }

  ghost predicate Hopeless(h: Graph, end: Vertex, f: Vertex, br: Branch) {
    f in br.path ==> !Hopeful(h, end, br)
  }

  /** The last vertex of w leads to the end, but each way on from it turns back
      to w. */
  ghost predicate IsTrap(h: Graph, end: Vertex, w: seq<Vertex>)
    requires w != []
  {
    Reaches(h, w[|w| - 1], end) && !GoesOn(h, end, w)
  }

  lemma TrapShuts(h: Graph, end: Vertex, w: seq<Vertex>, st: Search)
    requires Distinct(w) && end !in w && w != [] && IsTrap(h, end, w) && HeadsInto(w, |w| - 1, st)
    ensures Trapped(h, end, w[|w| - 1], Round(h, end, st))
  {
    var f, r := w[|w| - 1], Round(h, end, st);
    NotSeenBefore(w, |w| - 1);
    assert w == w[..|w| - 1] + [f];
    assert Members(w[..|w| - 1]) + {f} == Members(w);
    forall t | t in Next(h, f) ensures Hopeless(h, end, f, Branch(t, Members(w))) {}
    FirstStep(h, f, end);
    forall k | 0 <= k < |r.pending| ensures Hopeless(h, end, f, r.pending[k]) {
      if k < |st.pending| {
        assert r.pending[k] == st.pending[k];
      } else {
        assert r.pending[k] == Branch(Next(h, f)[k - |st.pending|], Members(w));
      }
    }
  }

  /** Whatever does not lead to the end leads to nothing that does. */
  lemma StaysHopeless(h: Graph, end: Vertex, f: Vertex, br: Branch, t: Vertex)
    requires Hopeless(h, end, f, br) && br.vertex !in br.path && t in Next(h, br.vertex) && f != br.vertex
    ensures Hopeless(h, end, f, Branch(t, br.path + {br.vertex}))
  {
    if Reaches(h, t, end) {
      ReachesNext(h, br.vertex, t);
      ReachesOn(h, br.vertex, t, end);
    }
  }

  lemma TrapStaysShut(h: Graph, start: Vertex, end: Vertex, f: Vertex, st: Search)
    requires Sound(h, start, end, st) && Trapped(h, end, f, st) && f != end
    ensures Trapped(h, end, f, Round(h, end, st))
  {
    if st.pending != [] {
      var cur, r := Current(st), Round(h, end, st);
      assert Hopeless(h, end, f, cur);
      if Expands(st, end) && cur.vertex !in st.between && Next(h, cur.vertex) != [] {
        forall t | t in Next(h, cur.vertex) ensures Hopeless(h, end, f, Branch(t, cur.path + {cur.vertex})) {
          StaysHopeless(h, end, f, cur, t);
        }
        PendingStaysHopeless(h, end, f, st, Next(h, cur.vertex), cur.path + {cur.vertex});
      } else {
        ReachesItself(h, end);
        assert cur.vertex == end || cur.vertex in st.between ==> Reaches(h, cur.vertex, end);
      }
    }
  }

  lemma PendingStaysHopeless(h: Graph, end: Vertex, f: Vertex, st: Search, targets: seq<Vertex>, path: set<Vertex>)
    requires Trapped(h, end, f, st)
    requires forall t :: t in targets ==> Hopeless(h, end, f, Branch(t, path))
    ensures var more := st.pending + Branches(targets, path);
            forall k :: 0 <= k < |more| ==> Hopeless(h, end, f, more[k])
  {
    var more := st.pending + Branches(targets, path);
    forall k | 0 <= k < |more| ensures Hopeless(h, end, f, more[k]) {
      if k < |st.pending| {
        assert more[k] == st.pending[k];
      } else {
        assert more[k] == Branch(targets[k - |st.pending|], path);
      }
    }
  }

  /** Where the search is after n rounds. */
  ghost predicate OnItsWay(h: Graph, end: Vertex, w: seq<Vertex>, n: nat, st: Search)
    requires w != []
  {
    if n < |w| then HeadsInto(w, n, st) else Trapped(h, end, w[|w| - 1], st)
  }

  lemma OnItsWayStill(h: Graph, start: Vertex, end: Vertex, w: seq<Vertex>, n: nat, st: Search)
    requires IsTrail(h, start, end, w) && IsTrap(h, end, w) && Prefers(h, w, |w| - 1)
    requires OnItsWay(h, end, w, n, st) && Sound(h, start, end, st)
    ensures OnItsWay(h, end, w, n + 1, Round(h, end, st))
  {
    if n + 1 < |w| {
      assert PrefersAt(h, w, n);
      HeadsOn(h, end, w, n, st);
    } else if n + 1 == |w| {
      TrapShuts(h, end, w, st);
    } else {
      assert w[|w| - 1] in w;
      TrapStaysShut(h, start, end, w[|w| - 1], st);
    }
  }

  lemma {:induction false} TrapMisses(h: Graph, start: Vertex, end: Vertex, w: seq<Vertex>, n: nat)
    requires Closed(h) && start in h && IsTrail(h, start, end, w) && IsTrap(h, end, w) && Prefers(h, w, |w| - 1)
    ensures OnItsWay(h, end, w, n, Rounds(h, end, Start(start), n))
  {
    if n == 0 {
      assert w[..0] == [];
    } else {
      TrapMisses(h, start, end, w, n - 1);
      RoundsAreSound(h, start, end, n - 1);
      OnItsWayStill(h, start, end, w, n - 1, Rounds(h, end, Start(start), n - 1));
    }
  }

  /** While it is on its way into a trap, the search has not found its end. */
  lemma NotFound(h: Graph, end: Vertex, w: seq<Vertex>, n: nat, st: Search)
    requires w != [] && OnItsWay(h, end, w, n, st)
    ensures w[|w| - 1] !in st.between
  {
  }

  lemma TrapIsBetween(h: Graph, start: Vertex, end: Vertex, w: seq<Vertex>)
    requires IsTrail(h, start, end, w) && Reaches(h, w[|w| - 1], end)
    ensures IsBetween(h, start, end, w[|w| - 1])
  {
    assert Avoids(h, start, end, w);
  }

  lemma SomeOrderMisses(g: Graph, start: Vertex, end: Vertex, w: seq<Vertex>) returns (h: Graph)
    requires Closed(g) && start in g && IsTrail(g, start, end, w) && IsTrap(g, end, w)
    ensures Reordered(g, h) && !FindsAll(h, start, end)
  {
    h := Towards(g, w, |w| - 1);
    var f := w[|w| - 1];
    SameWalks(g, h, w);
    SameReaches(g, h, f, end);
    SameClosed(g, h);
    if GoesOn(h, end, w) {
      var t: Vertex :| t in Next(h, f) && t !in w && Reaches(h, t, end);
      SameNext(g, h, f, t);
      SameReaches(g, h, t, end);
      assert GoesOn(g, end, w);
    }
    TrapIsBetween(h, start, end, w);
    var n := SearchEnds(h, start, end, 0);
    TrapMisses(h, start, end, w, n);
    NotFound(h, end, w, n, Rounds(h, end, Start(start), n));
  }

  /** The search finds every vertex in between in whatever order out-edges are
      listed exactly if no way along such vertices can be trapped. */
  lemma FindsAllIff(g: Graph, start: Vertex, end: Vertex)
    requires Closed(g) && start in g
    ensures (forall h :: Reordered(g, h) ==> FindsAll(h, start, end)) <==> NoTrap(g, start, end)
  {
    if NoTrap(g, start, end) {
      forall h | Reordered(g, h) ensures FindsAll(h, start, end) {
        SameTraps(g, h, start, end);
        SameClosed(g, h);
        NoTrapFindsAll(h, start, end);
      }
    } else {
      var w: seq<Vertex> :| IsTrail(g, start, end, w) && Reaches(g, w[|w| - 1], end) && !GoesOn(g, end, w);
      var h := SomeOrderMisses(g, start, end, w);
    }
  }

  lemma BackOrOut(g: Graph, w: seq<Vertex>)
    requires IsWalk(g, w) && |w| > 2 && w[0] == 1 && Next(g, 1) == [2] && Next(g, 2) == [1, 3]
    ensures w[2] == 1 || w[2] == 3
  {
    assert StepsAt(g, w, 0) && StepsAt(g, w, 1);
  }

  /** Cycles alone are no trap: 1 -> 2, 2 -> 1 and 2 -> 3. */
  lemma HarmlessCycle()
    ensures var g := map[1 := [Arc(2, true)], 2 := [Arc(1, true), Arc(3, true)], 3 := []];
            NoTrap(g, 1, 3) && !NoCycleBetween(g, 1, 3)
  {
    var g: Graph := map[1 := [Arc(2, true)], 2 := [Arc(1, true), Arc(3, true)], 3 := []];
    FollowOne(2);
    FollowTwo(1, 3);
    ReachesItself(g, 1);
    ReachesItself(g, 3);
    ReachesNext(g, 1, 2);
    ReachesNext(g, 2, 1);
    ReachesNext(g, 2, 3);
    ReachesOn(g, 1, 2, 3);
    forall w | IsTrail(g, 1, 3, w) ensures GoesOn(g, 3, w) {
      if |w| > 2 {
        BackOrOut(g, w);
        assert false;
      } else if |w| == 2 {
        assert StepsAt(g, w, 0) && 3 in Next(g, w[1]);
      } else {
        assert 2 in Next(g, w[0]);
      }
    }
  }
}
