/** The search between two vertices (getgraph/include/utility.h:76-159): what
    it finds, and when it misses nothing. */
module BetweenSearch {
  import opened Graphs

  /** A vertex still to be looked at, and the vertices on the way to it. */
  datatype Branch = Branch(vertex: Vertex, path: set<Vertex>)

  /** `next` and `path` are carried from round to round while `chained`. */
  datatype Search = Search(
    pending: seq<Branch>, visited: set<Vertex>, between: set<Vertex>,
    chained: bool, next: Vertex, path: set<Vertex>)

  function Start(start: Vertex): Search {
    Search([Branch(start, {})], {}, {}, false, start, {})
  }

  predicate Over(st: Search) {
    st.pending == [] && !st.chained
  }

  function Current(st: Search): Branch
    requires st.chained || st.pending != []
  {
    if st.chained then Branch(st.next, st.path) else st.pending[|st.pending| - 1]
  }

  /** The branch ends, and what is on its way leads to the end or not. */
  function EndBranch(st: Search, success: set<Vertex>): Search
    requires st.pending != []
  {
    st.(pending := st.pending[..|st.pending| - 1], between := st.between + success, chained := false)
  }

  function Branches(targets: seq<Vertex>, path: set<Vertex>): (r: seq<Branch>)
    ensures |r| == |targets|
    ensures forall i :: 0 <= i < |targets| ==> r[i] == Branch(targets[i], path)
  {
    seq(|targets|, i requires 0 <= i < |targets| => Branch(targets[i], path))
  }

  function Round(g: Graph, end: Vertex, st: Search): Search {
    if st.pending == [] then st else
    var cur := Current(st);
    var v, path := cur.vertex, cur.path;
    if (v in st.visited && v !in st.between) || v in path then EndBranch(st.(next := v, path := path), {}) else
    var seen := st.(visited := st.visited + {v}, next := v, path := path + {v});
    if v == end || v in st.between then EndBranch(seen, path + {v}) else
    var targets := Next(g, v);
    if targets == [] then EndBranch(seen, {})
    else if |targets| == 1 then seen.(chained := true, next := targets[0])
    else seen.(chained := false, pending := st.pending + Branches(targets, path + {v}))
  }

  function Rounds(g: Graph, end: Vertex, st: Search, n: nat): Search {
    if n == 0 then st else Round(g, end, Rounds(g, end, st, n - 1))
  }

  // ----- Ways the search knows about -----

  /** A way from `start` that passes no vertex twice, and not `end`. */
  ghost predicate IsTrail(g: Graph, start: Vertex, end: Vertex, w: seq<Vertex>) {
    IsWalk(g, w) && w[0] == start && Distinct(w) && end !in w
  }

  /** Such a way goes on to v, or v is where the search starts. */
  ghost predicate LeadsTo(g: Graph, start: Vertex, end: Vertex, w: seq<Vertex>, v: Vertex) {
    if w == [] then v == start else IsTrail(g, start, end, w) && v in Next(g, w[|w| - 1])
  }

  ghost predicate OnTheWay(g: Graph, start: Vertex, end: Vertex, br: Branch) {
    && br.vertex in g
    && exists w {:trigger LeadsTo(g, start, end, w, br.vertex)} ::
         LeadsTo(g, start, end, w, br.vertex) && Members(w) == br.path
  }

  /** A way from `start` that passes `end` at most at its own end. */
  ghost predicate Avoids(g: Graph, start: Vertex, end: Vertex, w: seq<Vertex>) {
    IsWalk(g, w) && w[0] == start && end !in w[..|w| - 1]
  }

  /** v is on a way from `start` to the first passing of `end`. */
  ghost predicate IsBetween(g: Graph, start: Vertex, end: Vertex, v: Vertex) {
    Reaches(g, v, end) && exists w {:trigger Avoids(g, start, end, w)} :: Avoids(g, start, end, w) && w[|w| - 1] == v
  }

  /** What holds of every state: branches are at the end of trails, and what
      has been found is in between. */
  ghost predicate Sound(g: Graph, start: Vertex, end: Vertex, st: Search) {
    && (st.chained ==> st.pending != [] && OnTheWay(g, start, end, Branch(st.next, st.path)))
    && (forall i :: 0 <= i < |st.pending| ==> OnTheWay(g, start, end, st.pending[i]))
    && st.between <= st.visited <= g.Keys
    && (st.chained ==> st.path <= st.visited)
    && (forall i :: 0 <= i < |st.pending| ==> st.pending[i].path <= st.visited)
    && (forall v :: v in st.between ==> IsBetween(g, start, end, v))
  }

  lemma TrailIsWalk(g: Graph, start: Vertex, end: Vertex, w: seq<Vertex>, v: Vertex)
    requires LeadsTo(g, start, end, w, v)
    ensures Avoids(g, start, end, w + [v])
  {
    var x := w + [v];
    assert x[..|x| - 1] == w;
    forall i: nat | i + 1 < |x| ensures StepsAt(g, x, i) {
      if i + 1 < |w| { assert StepsAt(g, w, i); }
    }
  }

  lemma PrefixAvoids(g: Graph, start: Vertex, end: Vertex, x: seq<Vertex>, i: nat)
    requires Avoids(g, start, end, x) && i < |x|
    ensures Avoids(g, start, end, x[..i + 1])
  {
    var first := x[..i + 1];
    assert first[..i] == x[..i];
    forall k: nat | k + 1 < |first| ensures StepsAt(g, first, k) {
      assert StepsAt(g, x, k);
    }
    forall q | q in x[..i] ensures q != end {
      var k :| 0 <= k < i && x[k] == q;
      assert x[..|x| - 1][k] == q;
    }
  }

  /** All that a trail passes is in between, if the trail goes on to `end`. */
  lemma TrailIsBetween(g: Graph, start: Vertex, end: Vertex, w: seq<Vertex>, v: Vertex, p: Vertex)
    requires LeadsTo(g, start, end, w, v) && Reaches(g, v, end) && p in w + [v]
    ensures IsBetween(g, start, end, p)
  {
    var x := w + [v];
    TrailIsWalk(g, start, end, w, v);
    var i :| 0 <= i < |x| && x[i] == p;
    PrefixAvoids(g, start, end, x, i);
    assert x[..i + 1][i] == p;
    RestOfWalk(g, x, i);
    ReachesOn(g, p, v, end);
  }

  lemma PathIsBetween(g: Graph, start: Vertex, end: Vertex, br: Branch)
    requires OnTheWay(g, start, end, br) && Reaches(g, br.vertex, end)
    ensures forall p :: p in br.path + {br.vertex} ==> IsBetween(g, start, end, p)
  {
    var w: seq<Vertex> :| LeadsTo(g, start, end, w, br.vertex) && Members(w) == br.path;
    forall p | p in br.path + {br.vertex} ensures IsBetween(g, start, end, p) {
      TrailIsBetween(g, start, end, w, br.vertex, p);
    }
  }

  lemma TrailGoesOn(g: Graph, start: Vertex, end: Vertex, w: seq<Vertex>, v: Vertex)
    requires LeadsTo(g, start, end, w, v) && v !in w && v != end
    ensures IsTrail(g, start, end, w + [v]) && Members(w + [v]) == Members(w) + {v}
  {
    TrailIsWalk(g, start, end, w, v);
  }

  lemma BranchesOn(g: Graph, start: Vertex, end: Vertex, br: Branch, t: Vertex)
    requires Closed(g) && OnTheWay(g, start, end, br) && br.vertex !in br.path && br.vertex != end
    requires t in Next(g, br.vertex)
    ensures OnTheWay(g, start, end, Branch(t, br.path + {br.vertex}))
  {
    var w: seq<Vertex> :| LeadsTo(g, start, end, w, br.vertex) && Members(w) == br.path;
    NextInGraph(g, br.vertex, t);
    TrailGoesOn(g, start, end, w, br.vertex);
    assert LeadsTo(g, start, end, w + [br.vertex], t);
  }

  lemma EndIsSound(g: Graph, start: Vertex, end: Vertex, st: Search, now: Search, success: set<Vertex>)
    requires Sound(g, start, end, st) && st.pending != []
    requires now == st.(visited := now.visited, next := now.next, path := now.path)
    requires st.visited <= now.visited <= g.Keys && success <= now.visited
    requires forall p :: p in success ==> IsBetween(g, start, end, p)
    ensures Sound(g, start, end, EndBranch(now, success))
  {
  }

  lemma SuccessIsSound(g: Graph, start: Vertex, end: Vertex, st: Search)
    requires Sound(g, start, end, st) && st.pending != []
    requires Current(st).vertex == end || Current(st).vertex in st.between
    ensures var v, path := Current(st).vertex, Current(st).path + {Current(st).vertex};
            Sound(g, start, end, EndBranch(st.(visited := st.visited + {v}, next := v, path := path), path))
  {
    var cur := Current(st);
    var v, path := cur.vertex, cur.path + {cur.vertex};
    assert OnTheWay(g, start, end, cur);
    ReachesItself(g, end);
    PathIsBetween(g, start, end, cur);
    EndIsSound(g, start, end, st, st.(visited := st.visited + {v}, next := v, path := path), path);
  }

  /** The state after looking at a new vertex v with a single way on, or many. */
  function FollowedOne(g: Graph, st: Search): Search
    requires st.pending != [] && Next(g, Current(st).vertex) != []
  {
    var v := Current(st).vertex;
    st.(visited := st.visited + {v}, path := Current(st).path + {v}, chained := true, next := Next(g, v)[0])
  }

  function FollowedAll(g: Graph, st: Search): Search
    requires st.pending != []
  {
    var v, path := Current(st).vertex, Current(st).path + {Current(st).vertex};
    st.(visited := st.visited + {v}, next := v, path := path, chained := false,
        pending := st.pending + Branches(Next(g, v), path))
  }

  /** The vertex is new, and the search goes on from it. */
  predicate Expands(st: Search, end: Vertex) {
    && st.pending != []
    && var cur := Current(st); cur.vertex !in st.visited && cur.vertex !in cur.path && cur.vertex != end
  }

  lemma ChainIsSound(g: Graph, start: Vertex, end: Vertex, st: Search)
    requires Closed(g) && Sound(g, start, end, st) && Expands(st, end) && |Next(g, Current(st).vertex)| == 1
    ensures Sound(g, start, end, FollowedOne(g, st))
  {
    assert OnTheWay(g, start, end, Current(st));
    BranchesOn(g, start, end, Current(st), Next(g, Current(st).vertex)[0]);
  }

  lemma BranchingIsSound(g: Graph, start: Vertex, end: Vertex, st: Search)
    requires Closed(g) && Sound(g, start, end, st) && Expands(st, end)
    ensures Sound(g, start, end, FollowedAll(g, st))
  {
    var cur := Current(st);
    assert OnTheWay(g, start, end, cur);
    forall t | t in Next(g, cur.vertex) ensures OnTheWay(g, start, end, Branch(t, cur.path + {cur.vertex})) {
      BranchesOn(g, start, end, cur, t);
    }
    var more := st.pending + Branches(Next(g, cur.vertex), cur.path + {cur.vertex});
    forall i | 0 <= i < |more|
      ensures OnTheWay(g, start, end, more[i]) && more[i].path <= st.visited + {cur.vertex}
    {
      if i < |st.pending| {
        assert more[i] == st.pending[i];
      } else {
        assert more[i] == Branch(Next(g, cur.vertex)[i - |st.pending|], cur.path + {cur.vertex});
      }
    }
  }

  lemma RoundIsSound(g: Graph, start: Vertex, end: Vertex, st: Search)
    requires Closed(g) && Sound(g, start, end, st) && st.pending != []
    ensures Sound(g, start, end, Round(g, end, st))
  {
    var cur := Current(st);
    var v, path := cur.vertex, cur.path;
    assert path <= st.visited && v in g by { assert OnTheWay(g, start, end, cur); }
    if (v in st.visited && v !in st.between) || v in path {
      EndIsSound(g, start, end, st, st.(next := v, path := path), {});
    } else if v == end || v in st.between {
      SuccessIsSound(g, start, end, st);
    } else if Next(g, v) == [] {
      EndIsSound(g, start, end, st, st.(visited := st.visited + {v}, next := v, path := path + {v}), {});
    } else if |Next(g, v)| == 1 {
      ChainIsSound(g, start, end, st);
    } else {
      BranchingIsSound(g, start, end, st);
    }
  }

  /** Every round looks at a new vertex or ends a branch. */
  lemma RoundsProgress(g: Graph, start: Vertex, end: Vertex, st: Search)
    requires Sound(g, start, end, st) && st.pending != []
    ensures var r := Round(g, end, st);
            || |g.Keys - r.visited| < |g.Keys - st.visited|
            || (r.visited == st.visited && |r.pending| < |st.pending|)
  {
    var v := Current(st).vertex;
    assert OnTheWay(g, start, end, Current(st));
    FewerUnseen(g.Keys, st.visited, v);
  }

  // ----- Nothing is missed if there is no trap -----

  /** A way from `start` along vertices in between can always be continued to
      a new one. */
  ghost predicate NoTrap(g: Graph, start: Vertex, end: Vertex) {
    forall w {:trigger GoesOn(g, end, w)} ::
      IsTrail(g, start, end, w) && Reaches(g, w[|w| - 1], end) ==> GoesOn(g, end, w)
  }

  ghost predicate GoesOn(g: Graph, end: Vertex, w: seq<Vertex>)
    requires w != []
  {
    exists t :: t in Next(g, w[|w| - 1]) && t !in w && Reaches(g, t, end)
  }

  /** The branch can still reveal that what is on its way leads to the end. */
  ghost predicate Hopeful(g: Graph, end: Vertex, br: Branch) {
    br.vertex !in br.path && Reaches(g, br.vertex, end)
  }

  ghost predicate Owed(g: Graph, end: Vertex, st: Search, p: Vertex) {
    || (st.chained && Hopeful(g, end, Branch(st.next, st.path)) && p in st.path)
    || exists i :: 0 <= i < |st.pending| && Hopeful(g, end, st.pending[i]) && p in st.pending[i].path
  }

  ghost predicate ToDo(st: Search, t: Vertex) {
    || t in st.visited
    || (st.chained && t == st.next)
    || exists i :: 0 <= i < |st.pending| && st.pending[i].vertex == t
  }

  ghost predicate Nested(st: Search) {
    && (forall i, j :: 0 <= i <= j < |st.pending| ==> st.pending[i].path <= st.pending[j].path)
    && (st.chained ==> st.pending != [] && st.pending[|st.pending| - 1].path <= st.path)
  }

  /** Every vertex that leads to the end and was seen is found, or owed by a
      branch; a chain is as hopeful as the branch it started from. */
  ghost predicate Complete(g: Graph, start: Vertex, end: Vertex, st: Search) {
    Nested(st) && ChainHopes(g, end, st) && ToDo(st, start) && AllToDo(g, end, st) && AllOwed(g, end, st)
  }

  ghost predicate ChainHopes(g: Graph, end: Vertex, st: Search)
    requires Nested(st)
  {
    st.chained ==>
      var base := st.pending[|st.pending| - 1];
      && base.vertex in st.visited
      && (Hopeful(g, end, base) ==> Hopeful(g, end, Branch(st.next, st.path)))
  }

  ghost predicate AllToDo(g: Graph, end: Vertex, st: Search) {
    forall v, t :: v in st.visited && v != end && t in Next(g, v) ==> ToDo(st, t)
  }

  ghost predicate AllOwed(g: Graph, end: Vertex, st: Search) {
    forall v :: v in st.visited && Reaches(g, v, end) ==> v in st.between || Owed(g, end, st, v)
  }

  lemma PathsInside(st: Search)
    requires Nested(st) && st.pending != []
    ensures forall i :: 0 <= i < |st.pending| ==> st.pending[i].path <= Current(st).path
  {
  }

  /** The search does not turn away from a hopeful branch. */
  lemma TurnedAway(g: Graph, start: Vertex, end: Vertex, st: Search)
    requires Complete(g, start, end, st) && st.pending != []
    requires var v := Current(st).vertex; (v in st.visited && v !in st.between) || v in Current(st).path
    ensures !Hopeful(g, end, Current(st))
  {
    if Hopeful(g, end, Current(st)) {
      PathsInside(st);
    }
  }

  /** Ending a branch without hope loses nothing. */
  lemma NothingLost(g: Graph, start: Vertex, end: Vertex, st: Search, r: Search)
    requires Complete(g, start, end, st) && st.pending != [] && !Hopeful(g, end, Current(st))
    requires var v := Current(st).vertex;
             && r == EndBranch(st.(visited := st.visited + {v}, next := r.next, path := r.path), {})
             && (v !in st.visited ==> Next(g, v) == [] && !Reaches(g, v, end))
    ensures Complete(g, start, end, r)
  {
    forall t | ToDo(st, t) ensures ToDo(r, t) {
      StillToDo(st, r, t);
    }
    forall u | Owed(g, end, st, u) ensures Owed(g, end, r, u) {
      var i :| 0 <= i < |st.pending| && Hopeful(g, end, st.pending[i]) && u in st.pending[i].path;
      assert i < |r.pending| && r.pending[i] == st.pending[i];
    }
  }

  /** Ending a branch leaves all vertices seen or still to be seen. */
  lemma StillToDo(st: Search, r: Search, t: Vertex)
    requires st.pending != [] && ToDo(st, t) && st.visited + {Current(st).vertex} <= r.visited
    requires st.chained ==> st.pending[|st.pending| - 1].vertex in st.visited
    requires r.pending == st.pending[..|st.pending| - 1]
    ensures ToDo(r, t)
  {
    if t !in r.visited {
      var i :| 0 <= i < |st.pending| && st.pending[i].vertex == t;
      assert i < |r.pending| && r.pending[i].vertex == t;
    }
  }

  lemma Succeeded(g: Graph, start: Vertex, end: Vertex, st: Search, r: Search)
    requires Sound(g, start, end, st) && Complete(g, start, end, st) && st.pending != []
    requires Current(st).vertex == end || Current(st).vertex in st.between
    requires var v, path := Current(st).vertex, Current(st).path + {Current(st).vertex};
             r == EndBranch(st.(visited := st.visited + {v}, next := v, path := path), path)
    ensures Complete(g, start, end, r)
  {
    PathsInside(st);
    forall t | ToDo(st, t) ensures ToDo(r, t) {
      StillToDo(st, r, t);
    }
    forall u | Owed(g, end, st, u) ensures u in r.between || Owed(g, end, r, u) {
      if i :| 0 <= i < |st.pending| && Hopeful(g, end, st.pending[i]) && u in st.pending[i].path {
        if i < |r.pending| { assert r.pending[i] == st.pending[i]; }
      }
    }
  }

  /** A new vertex that leads to the end has a hopeful way on. */
  lemma HopeGoesOn(g: Graph, start: Vertex, end: Vertex, br: Branch) returns (t: Vertex)
    requires NoTrap(g, start, end) && OnTheWay(g, start, end, br) && Hopeful(g, end, br) && br.vertex != end
    ensures t in Next(g, br.vertex) && Hopeful(g, end, Branch(t, br.path + {br.vertex}))
  {
    var w: seq<Vertex> :| LeadsTo(g, start, end, w, br.vertex) && Members(w) == br.path;
    TrailGoesOn(g, start, end, w, br.vertex);
    assert GoesOn(g, end, w + [br.vertex]);
    t :| t in Next(g, br.vertex) && t !in w + [br.vertex] && Reaches(g, t, end);
  }

  /** Pending branches stay, and what the current one owes is owed by others. */
  lemma OwedStays(g: Graph, end: Vertex, st: Search, r: Search, u: Vertex)
    requires Owed(g, end, st, u) && |st.pending| <= |r.pending| && r.pending[..|st.pending|] == st.pending
    requires st.chained && Hopeful(g, end, Current(st)) && u in st.path ==> Owed(g, end, r, u)
    ensures Owed(g, end, r, u)
  {
    if !(st.chained && Hopeful(g, end, Branch(st.next, st.path)) && u in st.path) {
      var i :| 0 <= i < |st.pending| && Hopeful(g, end, st.pending[i]) && u in st.pending[i].path;
      assert r.pending[..|st.pending|][i] == r.pending[i];
    }
  }

  lemma ToDoStays(st: Search, r: Search, t: Vertex)
    requires ToDo(st, t) && |st.pending| <= |r.pending| && r.pending[..|st.pending|] == st.pending
    requires st.visited <= r.visited && (st.chained && t == st.next ==> t in r.visited)
    ensures ToDo(r, t)
  {
    if t !in r.visited {
      var i :| 0 <= i < |st.pending| && st.pending[i].vertex == t;
      assert r.pending[..|st.pending|][i] == r.pending[i];
    }
  }

  /** A chain passes its hope on. */
  lemma HopeChained(g: Graph, start: Vertex, end: Vertex, st: Search)
    requires NoTrap(g, start, end) && Expands(st, end) && OnTheWay(g, start, end, Current(st))
    requires Hopeful(g, end, Current(st)) && |Next(g, Current(st).vertex)| == 1
    ensures var r := FollowedOne(g, st); Hopeful(g, end, Branch(r.next, r.path))
  {
    var t := HopeGoesOn(g, start, end, Current(st));
    assert t == Next(g, Current(st).vertex)[0];
  }

  lemma ChainOwes(g: Graph, end: Vertex, st: Search)
    requires AllOwed(g, end, st) && Nested(st) && Expands(st, end) && |Next(g, Current(st).vertex)| == 1
    requires var r := FollowedOne(g, st); Hopeful(g, end, Current(st)) ==> Hopeful(g, end, Branch(r.next, r.path))
    ensures AllOwed(g, end, FollowedOne(g, st))
  {
    var cur, r := Current(st), FollowedOne(g, st);
    assert r.pending[..|st.pending|] == st.pending;
    forall u | u in r.visited && Reaches(g, u, end) ensures u in r.between || Owed(g, end, r, u) {
      if u != cur.vertex && u !in st.between {
        OwedStays(g, end, st, r, u);
      }
    }
  }

  lemma ChainToDo(g: Graph, end: Vertex, st: Search)
    requires AllToDo(g, end, st) && Expands(st, end) && |Next(g, Current(st).vertex)| == 1
    ensures AllToDo(g, end, FollowedOne(g, st))
    ensures forall t :: ToDo(st, t) ==> ToDo(FollowedOne(g, st), t)
  {
    var r := FollowedOne(g, st);
    assert r.pending[..|st.pending|] == st.pending;
    forall t | ToDo(st, t) ensures ToDo(r, t) { ToDoStays(st, r, t); }
  }

  lemma ChainIsNested(g: Graph, end: Vertex, st: Search)
    requires Nested(st) && ChainHopes(g, end, st) && Expands(st, end) && |Next(g, Current(st).vertex)| == 1
    requires var r := FollowedOne(g, st); Hopeful(g, end, Current(st)) ==> Hopeful(g, end, Branch(r.next, r.path))
    ensures Nested(FollowedOne(g, st)) && ChainHopes(g, end, FollowedOne(g, st))
  {
    PathsInside(st);
  }

  lemma Chained(g: Graph, start: Vertex, end: Vertex, st: Search)
    requires NoTrap(g, start, end) && Complete(g, start, end, st)
    requires Expands(st, end) && |Next(g, Current(st).vertex)| == 1 && OnTheWay(g, start, end, Current(st))
    ensures Complete(g, start, end, FollowedOne(g, st))
  {
    if Hopeful(g, end, Current(st)) { HopeChained(g, start, end, st); }
    ChainIsNested(g, end, st);
    ChainToDo(g, end, st);
    ChainOwes(g, end, st);
  }

  lemma BranchIsPending(g: Graph, end: Vertex, st: Search, t: Vertex) returns (i: nat)
    requires Expands(st, end) && t in Next(g, Current(st).vertex)
    ensures var r := FollowedAll(g, st);
            i < |r.pending| && r.pending[i] == Branch(t, Current(st).path + {Current(st).vertex})
  {
    var targets := Next(g, Current(st).vertex);
    var k: nat :| k < |targets| && targets[k] == t;
    i := |st.pending| + k;
  }

  lemma BranchesOwe(g: Graph, start: Vertex, end: Vertex, st: Search)
    requires NoTrap(g, start, end) && AllOwed(g, end, st) && Nested(st) && Expands(st, end)
    requires OnTheWay(g, start, end, Current(st))
    ensures AllOwed(g, end, FollowedAll(g, st))
  {
    var cur, r := Current(st), FollowedAll(g, st);
    assert r.pending[..|st.pending|] == st.pending;
    if Hopeful(g, end, cur) {
      var t := HopeGoesOn(g, start, end, cur);
      var i := BranchIsPending(g, end, st, t);
      assert forall u :: u in cur.path + {cur.vertex} ==> Owed(g, end, r, u);
    }
    forall u | u in r.visited && Reaches(g, u, end) ensures u in r.between || Owed(g, end, r, u) {
      if u != cur.vertex && u !in st.between {
        OwedStays(g, end, st, r, u);
      }
    }
  }

  lemma BranchesToDo(g: Graph, end: Vertex, st: Search)
    requires AllToDo(g, end, st) && Expands(st, end)
    ensures AllToDo(g, end, FollowedAll(g, st))
    ensures forall t :: ToDo(st, t) ==> ToDo(FollowedAll(g, st), t)
  {
    var r, v := FollowedAll(g, st), Current(st).vertex;
    assert r.pending[..|st.pending|] == st.pending;
    forall t | ToDo(st, t) ensures ToDo(r, t) { ToDoStays(st, r, t); }
    forall t | t in Next(g, v) ensures ToDo(r, t) {
      var i := BranchIsPending(g, end, st, t);
    }
  }

  lemma Branched(g: Graph, start: Vertex, end: Vertex, st: Search)
    requires NoTrap(g, start, end) && Complete(g, start, end, st)
    requires Expands(st, end) && OnTheWay(g, start, end, Current(st))
    ensures Complete(g, start, end, FollowedAll(g, st))
  {
    PathsInside(st);
    BranchesToDo(g, end, st);
    BranchesOwe(g, start, end, st);
    NestedGrows(st, Current(st).path + {Current(st).vertex}, Next(g, Current(st).vertex));
    assert Nested(FollowedAll(g, st));
  }

  lemma NestedGrows(st: Search, path: set<Vertex>, targets: seq<Vertex>)
    requires Nested(st) && st.pending != [] && Current(st).path <= path
    ensures Nested(st.(pending := st.pending + Branches(targets, path), chained := false))
  {
    PathsInside(st);
  }

  lemma RoundIsComplete(g: Graph, start: Vertex, end: Vertex, st: Search)
    requires NoTrap(g, start, end) && Sound(g, start, end, st) && Complete(g, start, end, st) && st.pending != []
    ensures Complete(g, start, end, Round(g, end, st))
  {
    var v, r := Current(st).vertex, Round(g, end, st);
    assert OnTheWay(g, start, end, Current(st));
    if (v in st.visited && v !in st.between) || v in Current(st).path {
      TurnedAway(g, start, end, st);
      assert v in st.visited && st.visited + {v} == st.visited;
      NothingLost(g, start, end, st, r);
    } else if v == end || v in st.between {
      Succeeded(g, start, end, st, r);
    } else if Next(g, v) == [] {
      if Reaches(g, v, end) { FirstStep(g, v, end); }
      NothingLost(g, start, end, st, r);
    } else if |Next(g, v)| == 1 {
      Chained(g, start, end, st);
    } else {
      Branched(g, start, end, st);
    }
  }

  lemma StartIsSound(g: Graph, start: Vertex, end: Vertex)
    requires start in g
    ensures Sound(g, start, end, Start(start)) && Complete(g, start, end, Start(start))
  {
    assert LeadsTo(g, start, end, [], start);
    assert OnTheWay(g, start, end, Branch(start, {}));
    assert Start(start).pending[0].vertex == start;
  }

  /** What a search keeps from round to round. */
  ghost predicate Going(g: Graph, start: Vertex, end: Vertex, st: Search) {
    Sound(g, start, end, st) && (NoTrap(g, start, end) ==> Complete(g, start, end, st))
  }

  lemma RoundGoesOn(g: Graph, start: Vertex, end: Vertex, st: Search)
    requires Closed(g) && Going(g, start, end, st)
    ensures Going(g, start, end, Round(g, end, st))
  {
    if st.pending != [] {
      RoundIsSound(g, start, end, st);
      if NoTrap(g, start, end) { RoundIsComplete(g, start, end, st); }
    }
  }

  /** A finished search has found every vertex in between. */
  lemma NothingMissed(g: Graph, start: Vertex, end: Vertex, st: Search, v: Vertex)
    requires Complete(g, start, end, st) && Over(st) && IsBetween(g, start, end, v)
    ensures v in st.between
  {
    var w: seq<Vertex> :| Avoids(g, start, end, w) && w[|w| - 1] == v;
    for i := 0 to |w| - 1
      invariant w[i] in st.visited
    {
      assert w[..|w| - 1][i] == w[i] && StepsAt(g, w, i) && ToDo(st, w[i + 1]);
    }
  }

  // ----- Where there is certainly no trap -----

  /** Without cycles in between there is no trap, and `end` is passed last. */
  lemma AcyclicHasNoTrap(g: Graph, start: Vertex, end: Vertex)
    requires NoCycleBetween(g, start, end)
    ensures NoTrap(g, start, end)
    ensures forall v :: IsBetween(g, start, end, v) <==> Reaches(g, start, v) && Reaches(g, v, end)
  {
    forall w | IsTrail(g, start, end, w) && Reaches(g, w[|w| - 1], end) ensures GoesOn(g, end, w) {
      NoWayBack(g, start, end, w);
    }
    forall v | Reaches(g, start, v) && Reaches(g, v, end) ensures IsBetween(g, start, end, v) {
      var w: seq<Vertex> :| IsWalk(g, w) && w[0] == start && w[|w| - 1] == v;
      forall i | 0 <= i < |w| - 1 ensures w[i] != end { EndIsLast(g, start, w, i, end); }
      assert Avoids(g, start, end, w);
    }
  }

  lemma NoReturn(g: Graph, start: Vertex, end: Vertex, w: seq<Vertex>, t: Vertex)
    requires NoCycleBetween(g, start, end) && IsWalk(g, w) && w[0] == start && Reaches(g, w[|w| - 1], end)
    requires t in Next(g, w[|w| - 1])
    ensures t !in w
  {
    RestOfWalk(g, w, 0);
    if i :| 0 <= i < |w| && w[i] == t { RestOfWalk(g, w, i); }
  }

  lemma NoWayBack(g: Graph, start: Vertex, end: Vertex, w: seq<Vertex>)
    requires NoCycleBetween(g, start, end) && IsTrail(g, start, end, w) && Reaches(g, w[|w| - 1], end)
    ensures GoesOn(g, end, w)
  {
    var last := w[|w| - 1];
    FirstStep(g, last, end);
    var t: Vertex :| t in Next(g, last) && Reaches(g, t, end);
    NoReturn(g, start, end, w, t);
  }

  /** A way that goes on to `end` does not pass it before. */
  lemma EndIsLast(g: Graph, start: Vertex, w: seq<Vertex>, i: nat, end: Vertex)
    requires NoCycleBetween(g, start, end) && IsWalk(g, w) && w[0] == start
    requires i < |w| - 1 && Reaches(g, w[|w| - 1], end)
    ensures w[i] != end
  {
    WalkParts(g, w, i);
    ReachesOn(g, w[i + 1], w[|w| - 1], end);
    ReachesItself(g, end);
  }

  /** 1 -> 2, 1 -> 3, 2 -> 3, 3 -> 4 and 3 -> 2. */
  function Cycle(): Graph {
    map[1 := [Arc(2, true), Arc(3, true)], 2 := [Arc(3, true)], 3 := [Arc(4, true), Arc(2, true)], 4 := []]
  }

  lemma FollowOne(a: Vertex)
    ensures Followed([Arc(a, true)]) == [a]
  {
    assert [Arc(a, true)][..0] == [];
  }

  lemma FollowTwo(a: Vertex, b: Vertex)
    ensures Followed([Arc(a, true), Arc(b, true)]) == [a, b]
  {
    FollowOne(a);
    assert [Arc(a, true), Arc(b, true)][..1] == [Arc(a, true)];
  }

  lemma NextInCycle()
    ensures Next(Cycle(), 1) == [2, 3] && Next(Cycle(), 2) == [3]
    ensures Next(Cycle(), 3) == [4, 2] && Next(Cycle(), 4) == []
  {
    FollowTwo(2, 3);
    FollowTwo(4, 2);
    FollowOne(3);
  }

  lemma WayThroughTwo()
    ensures Closed(Cycle()) && Reaches(Cycle(), 1, 2) && Reaches(Cycle(), 2, 4)
  {
    NextInCycle();
    ReachesNext(Cycle(), 1, 2);
    ReachesNext(Cycle(), 2, 3);
    ReachesNext(Cycle(), 3, 4);
    ReachesOn(Cycle(), 2, 3, 4);
  }

  /** With a cycle, a vertex on a way can be missed: 1 -> 2 -> 3 -> 4 leads
      through 2, which is turned away while 3 is still undecided. */
  lemma MissedOnCycle()
    ensures Closed(Cycle()) && Reaches(Cycle(), 1, 2) && Reaches(Cycle(), 2, 4)
    ensures Over(Rounds(Cycle(), 4, Start(1), 8)) && Rounds(Cycle(), 4, Start(1), 8).between == {1, 3, 4}
  {
    WayThroughTwo();
    NextInCycle();
    CycleRounds(Cycle());
  }

  lemma TwoBranches(a: Vertex, b: Vertex, path: set<Vertex>)
    ensures Branches([a, b], path) == [Branch(a, path), Branch(b, path)]
  {
  }

  lemma CycleRounds(g: Graph)
    requires Next(g, 1) == [2, 3] && Next(g, 2) == [3] && Next(g, 3) == [4, 2] && Next(g, 4) == []
    ensures var st := Rounds(g, 4, Start(1), 8); Over(st) && st.between == {1, 3, 4}
  {
    var p1 := [Branch(1, {}), Branch(2, {1}), Branch(3, {1})];
    TwoBranches(2, 3, {1});
    TwoBranches(4, 2, {1, 3});
    var none: set<Vertex> := {};
    assert none + {1} == {1};
    assert [Branch(1, none)] + Branches([2, 3], {1}) == p1;
    assert Rounds(g, 4, Start(1), 0) == Start(1);
    assert Rounds(g, 4, Start(1), 1) == Search(p1, {1}, {}, false, 1, {1});
    assert {1} + {3} == {1, 3};
    var p2 := p1 + [Branch(4, {1, 3}), Branch(2, {1, 3})];
    assert Rounds(g, 4, Start(1), 2) == Search(p2, {1, 3}, {}, false, 3, {1, 3});
    assert Rounds(g, 4, Start(1), 3) == Search(p2, {1, 2, 3}, {}, true, 3, {1, 2, 3});
    var p3 := p1 + [Branch(4, {1, 3})];
    assert p2[..4] == p3 && p3[..3] == p1;
    assert Rounds(g, 4, Start(1), 4) == Search(p3, {1, 2, 3}, {}, false, 3, {1, 2, 3});
    RoundsMeet(g);
  }

  /** From the fifth round on: the end is found, and the branches close. */
  lemma RoundsMeet(g: Graph)
    requires Next(g, 1) == [2, 3] && Next(g, 2) == [3] && Next(g, 3) == [4, 2] && Next(g, 4) == []
    requires var p1 := [Branch(1, {}), Branch(2, {1}), Branch(3, {1})];
             Rounds(g, 4, Start(1), 4) == Search(p1 + [Branch(4, {1, 3})], {1, 2, 3}, {}, false, 3, {1, 2, 3})
    ensures var st := Rounds(g, 4, Start(1), 8); Over(st) && st.between == {1, 3, 4}
  {
    var p1 := [Branch(1, {}), Branch(2, {1}), Branch(3, {1})];
    var s5 := Rounds(g, 4, Start(1), 5);
    assert (p1 + [Branch(4, {1, 3})])[..3] == p1;
    assert s5 == Search(p1, {1, 2, 3, 4}, {1, 3, 4}, false, 4, {1, 3, 4});
    var s6 := Rounds(g, 4, Start(1), 6);
    assert s6.pending == [Branch(1, {}), Branch(2, {1})] && s6.between == {1, 3, 4} && !s6.chained;
    assert s6.visited == {1, 2, 3, 4};
    var s7 := Rounds(g, 4, Start(1), 7);
    assert s7.pending == [Branch(1, {})] && s7.between == {1, 3, 4} && !s7.chained && s7.visited == {1, 2, 3, 4};
  }
}
