/** The sweep that the four dataflow passes share: visit the blocks in order,
    again and again, until a sweep changes no fact inside a block.

    A visit of block b first joins into the fact at b's boundary what the
    neighbouring blocks deliver, then recomputes the facts inside b from that
    boundary fact, and then joins what b's terminator writes directly into
    other boundary facts.  Only changes inside blocks keep the sweeps going;
    boundary facts only ever grow, while the transfer from a boundary fact to
    the facts inside its block need not be monotone. */
module Sweep {
  import opened Sets

  /** `entry[b]` is the fact at the boundary where the pass enters block b,
      `body[b]` the facts it derives from it inside b. */
  datatype State<F> = State(entry: seq<F>, body: seq<seq<F>>)

  /** A dataflow problem.  `enc` shows a fact as a set of atoms of a finite
      universe, such that joining facts unites the sets, and `bound` limits
      what can reach the boundary of a block. */
  datatype System<!F, !A> = System(
    n: nat,
    join: (F, F) -> F,
    enc: F -> set<A>,
    universe: set<A>,
    bound: nat -> set<A>,
    feeds: (nat, nat) -> bool,
    flow: (nat, nat, seq<F>) -> F,
    trace: (nat, F) -> seq<F>,
    writes: (nat, seq<F>) -> seq<(nat, F)>)

  ghost predicate FactOk<F(!new), A(!new)>(sys: System<F, A>, x: F) {
    sys.enc(x) <= sys.universe
  }

  ghost predicate EntryOk<F(!new), A(!new)>(sys: System<F, A>, b: nat, x: F) {
    sys.enc(x) <= sys.bound(b) && sys.bound(b) <= sys.universe
  }

  ghost predicate BodyOk<F(!new), A(!new)>(sys: System<F, A>, body: seq<F>) {
    forall k {:trigger FactOk(sys, body[k])} :: 0 <= k < |body| ==> FactOk(sys, body[k])
  }

  ghost predicate WritesOk<F(!new), A(!new)>(sys: System<F, A>, ws: seq<(nat, F)>) {
    forall k :: 0 <= k < |ws| ==> ws[k].0 < sys.n && EntryOk(sys, ws[k].0, ws[k].1)
  }

  ghost predicate Laws<F(!new), A(!new)>(sys: System<F, A>) {
    && (forall x, y :: sys.enc(sys.join(x, y)) == sys.enc(x) + sys.enc(y))
    && (forall x, y :: sys.enc(x) == sys.enc(y) ==> x == y)
    && (forall b: nat, x :: b < sys.n && FactOk(sys, x) ==> BodyOk(sys, sys.trace(b, x)))
    && (forall p: nat, b: nat, body ::
          p < sys.n && b < sys.n && BodyOk(sys, body) ==> EntryOk(sys, b, sys.flow(p, b, body)))
    && (forall b: nat, body :: b < sys.n && BodyOk(sys, body) ==> WritesOk(sys, sys.writes(b, body)))
  }

  ghost predicate Ok<F(!new), A(!new)>(sys: System<F, A>, st: State<F>) {
    && |st.entry| == sys.n == |st.body|
    && (forall b {:trigger EntryOk(sys, b, st.entry[b])} {:trigger BodyOk(sys, st.body[b])} ::
          0 <= b < sys.n ==> EntryOk(sys, b, st.entry[b]) && BodyOk(sys, st.body[b]))
  }

  ghost predicate Leq<F(!new), A(!new)>(sys: System<F, A>, x: F, y: F) {
    sys.enc(x) <= sys.enc(y)
  }

  // ----- One visit -----

  /** The boundary fact of b joined with what blocks 0..k deliver to it. */
  ghost function Gather<F(!new), A(!new)>(sys: System<F, A>, st: State<F>, b: nat, k: nat): F
    requires b < |st.entry| && k <= |st.body|
  {
    if k == 0 then st.entry[b]
    else
      var x := Gather(sys, st, b, k - 1);
      if sys.feeds(k - 1, b) then sys.join(x, sys.flow(k - 1, b, st.body[k - 1])) else x
  }

  /** Boundary facts after the given direct writes. */
  ghost function Spread<F(!new), A(!new)>(sys: System<F, A>, entry: seq<F>, ws: seq<(nat, F)>): (r: seq<F>)
    ensures |r| == |entry|
  {
    if ws == [] then entry
    else
      var rest := Spread(sys, entry, ws[..|ws| - 1]);
      var w := ws[|ws| - 1];
      if w.0 < |entry| then rest[w.0 := sys.join(rest[w.0], w.1)] else rest
  }

  ghost function Visit<F(!new), A(!new)>(sys: System<F, A>, st: State<F>, b: nat): (r: State<F>)
    requires b < sys.n && |st.entry| == sys.n == |st.body|
    ensures |r.entry| == sys.n == |r.body|
  {
    var x := Gather(sys, st, b, sys.n);
    var inner := sys.trace(b, x);
    State(Spread(sys, st.entry[b := x], sys.writes(b, inner)), st.body[b := inner])
  }

  /** The state after visiting blocks 0..k. */
  ghost function SweepTo<F(!new), A(!new)>(sys: System<F, A>, st: State<F>, k: nat): (r: State<F>)
    requires k <= sys.n && |st.entry| == sys.n == |st.body|
    ensures |r.entry| == sys.n == |r.body|
  {
    if k == 0 then st else Visit(sys, SweepTo(sys, st, k - 1), k - 1)
  }

  /** Whether one of these visits changed a fact inside its block. */
  ghost predicate ChangedTo<F(!new), A(!new)>(sys: System<F, A>, st: State<F>, k: nat)
    requires k <= sys.n && |st.entry| == sys.n == |st.body|
  {
    k > 0 && (ChangedTo(sys, st, k - 1)
              || SweepTo(sys, st, k).body[k - 1] != SweepTo(sys, st, k - 1).body[k - 1])
  }

  /** The state after n sweeps. */
  ghost function Sweeps<F(!new), A(!new)>(sys: System<F, A>, st: State<F>, n: nat): (r: State<F>)
    requires |st.entry| == sys.n == |st.body|
    ensures |r.entry| == sys.n == |r.body|
  {
    if n == 0 then st else SweepTo(sys, Sweeps(sys, st, n - 1), sys.n)
  }

  /** Some number of sweeps leads from `start` to `st`. */
  ghost predicate SweptFrom<F(!new), A(!new)>(sys: System<F, A>, start: State<F>, st: State<F>) {
    |start.entry| == sys.n == |start.body| && exists n: nat :: st == Sweeps(sys, start, n)
  }

  lemma NotSweptYet<F(!new), A(!new)>(sys: System<F, A>, st: State<F>)
    requires |st.entry| == sys.n == |st.body|
    ensures SweptFrom(sys, st, st)
  {
    assert st == Sweeps(sys, st, 0);
  }

  lemma SweptFurther<F(!new), A(!new)>(sys: System<F, A>, start: State<F>, st: State<F>)
    requires SweptFrom(sys, start, st)
    ensures SweptFrom(sys, start, SweepTo(sys, st, sys.n))
  {
    var n: nat :| st == Sweeps(sys, start, n);
    assert SweepTo(sys, st, sys.n) == Sweeps(sys, start, n + 1);
  }

  /** What holds of a boundary fact and of all that is delivered, and is kept by
      joins, holds of what is gathered. */
  lemma {:induction false} GatherKeeps<F(!new), A(!new)>(sys: System<F, A>, kept: F -> bool, st: State<F>,
                                                         b: nat, k: nat)
    requires b < |st.entry| && k <= |st.body| && kept(st.entry[b])
    requires forall x, y {:trigger sys.join(x, y)} :: kept(x) && kept(y) ==> kept(sys.join(x, y))
    requires forall p: nat {:trigger sys.flow(p, b, st.body[p])} ::
               p < k && sys.feeds(p, b) ==> kept(sys.flow(p, b, st.body[p]))
    ensures kept(Gather(sys, st, b, k))
  {
    if k > 0 {
      GatherKeeps(sys, kept, st, b, k - 1);
    }
  }

  /** What visits keep, sweeps keep. */
  ghost predicate KeptByVisits<F(!new), A(!new)>(sys: System<F, A>, kept: State<F> -> bool) {
    forall st: State<F>, b: nat {:trigger Visit(sys, st, b)} ::
      b < sys.n && |st.entry| == sys.n == |st.body| && kept(st) ==> kept(Visit(sys, st, b))
  }

  lemma {:induction false} VisitsKeep<F(!new), A(!new)>(sys: System<F, A>, kept: State<F> -> bool, st: State<F>, k: nat)
    requires KeptByVisits(sys, kept) && k <= sys.n && |st.entry| == sys.n == |st.body| && kept(st)
    ensures kept(SweepTo(sys, st, k))
  {
    if k > 0 {
      VisitsKeep(sys, kept, st, k - 1);
    }
  }

  lemma {:induction false} SweepsKeep<F(!new), A(!new)>(sys: System<F, A>, kept: State<F> -> bool, st: State<F>, n: nat)
    requires KeptByVisits(sys, kept) && |st.entry| == sys.n == |st.body| && kept(st)
    ensures kept(Sweeps(sys, st, n))
  {
    if n > 0 {
      SweepsKeep(sys, kept, st, n - 1);
      VisitsKeep(sys, kept, Sweeps(sys, st, n - 1), sys.n);
    }
  }

  lemma SweptKeeps<F(!new), A(!new)>(sys: System<F, A>, kept: State<F> -> bool, start: State<F>, st: State<F>)
    requires SweptFrom(sys, start, st) && KeptByVisits(sys, kept) && kept(start)
    ensures kept(st)
  {
    var n: nat :| st == Sweeps(sys, start, n);
    SweepsKeep(sys, kept, start, n);
  }

  // ----- What the sweeps establish -----

  /** The facts inside b follow from its boundary fact. */
  ghost predicate Fresh<F(!new), A(!new)>(sys: System<F, A>, st: State<F>, b: nat)
    requires b < |st.entry| && b < |st.body|
  {
    st.body[b] == sys.trace(b, st.entry[b])
  }

  /** What b's terminator writes has reached the boundary facts it goes to. */
  ghost predicate Written<F(!new), A(!new)>(sys: System<F, A>, st: State<F>, b: nat)
    requires b < |st.body|
  {
    var ws := sys.writes(b, st.body[b]);
    forall k :: 0 <= k < |ws| ==> ws[k].0 < |st.entry| && Leq(sys, ws[k].1, st.entry[ws[k].0])
  }

  /** What the neighbours deliver has reached b's boundary fact. */
  ghost predicate Gathered<F(!new), A(!new)>(sys: System<F, A>, st: State<F>, b: nat)
    requires b < |st.entry|
  {
    forall p :: 0 <= p < |st.body| && sys.feeds(p, b) ==> Leq(sys, sys.flow(p, b, st.body[p]), st.entry[b])
  }

  ghost predicate AllWritten<F(!new), A(!new)>(sys: System<F, A>, st: State<F>) {
    forall b {:trigger Written(sys, st, b)} :: 0 <= b < |st.body| ==> Written(sys, st, b)
  }

  ghost predicate Stale<F(!new), A(!new)>(sys: System<F, A>, st: State<F>)
    requires |st.entry| == |st.body|
  {
    exists b :: 0 <= b < |st.body| && !Fresh(sys, st, b)
  }

  ghost predicate Stable<F(!new), A(!new)>(sys: System<F, A>, st: State<F>) {
    && |st.entry| == sys.n == |st.body|
    && forall b {:trigger Fresh(sys, st, b)} {:trigger Written(sys, st, b)} {:trigger Gathered(sys, st, b)} ::
         0 <= b < sys.n ==> Fresh(sys, st, b) && Written(sys, st, b) && Gathered(sys, st, b)
  }

  ghost predicate Grows<F(!new), A(!new)>(sys: System<F, A>, e: seq<F>, f: seq<F>) {
    |e| == |f| && forall b {:trigger Leq(sys, e[b], f[b])} :: 0 <= b < |e| ==> Leq(sys, e[b], f[b])
  }

  /** The information that boundary facts can still gain. */
  ghost function Room<F(!new), A(!new)>(sys: System<F, A>, entry: seq<F>): set<(nat, A)> {
    set b: nat, a | b < |entry| && a in sys.universe && a !in sys.enc(entry[b]) :: (b, a)
  }

  ghost function Missing<F(!new), A(!new)>(sys: System<F, A>, st: State<F>): nat {
    |Room(sys, st.entry)|
  }

  lemma {:induction false} Gathering<F(!new), A(!new)>(sys: System<F, A>, st: State<F>, b: nat, k: nat)
    requires Laws(sys) && Ok(sys, st) && b < sys.n && k <= sys.n
    ensures EntryOk(sys, b, Gather(sys, st, b, k))
    ensures Leq(sys, st.entry[b], Gather(sys, st, b, k))
    ensures forall p :: 0 <= p < k && sys.feeds(p, b) ==>
              Leq(sys, sys.flow(p, b, st.body[p]), Gather(sys, st, b, k))
  {
    if k > 0 {
      Gathering(sys, st, b, k - 1);
      assert BodyOk(sys, st.body[k - 1]);
    }
  }

  lemma {:induction false} Spreading<F(!new), A(!new)>(sys: System<F, A>, entry: seq<F>, ws: seq<(nat, F)>)
    requires Laws(sys) && |entry| == sys.n && WritesOk(sys, ws)
    requires forall b :: 0 <= b < |entry| ==> EntryOk(sys, b, entry[b])
    ensures forall b :: 0 <= b < |entry| ==> EntryOk(sys, b, Spread(sys, entry, ws)[b])
    ensures Grows(sys, entry, Spread(sys, entry, ws))
    ensures forall k :: 0 <= k < |ws| ==> Leq(sys, ws[k].1, Spread(sys, entry, ws)[ws[k].0])
    ensures (forall k :: 0 <= k < |ws| ==> Leq(sys, ws[k].1, entry[ws[k].0])) ==> Spread(sys, entry, ws) == entry
  {
    if ws != [] {
      var init, w := ws[..|ws| - 1], ws[|ws| - 1];
      assert forall k :: 0 <= k < |init| ==> init[k] == ws[k];
      Spreading(sys, entry, init);
      SpreadOne(sys, entry, Spread(sys, entry, init), w);
    }
  }

  /** Joining one more write into facts that have grown from `entry`. */
  lemma SpreadOne<F(!new), A(!new)>(sys: System<F, A>, entry: seq<F>, rest: seq<F>, w: (nat, F))
    requires Laws(sys) && |entry| == |rest| == sys.n && w.0 < sys.n && EntryOk(sys, w.0, w.1)
    requires Grows(sys, entry, rest) && EntryOk(sys, w.0, rest[w.0])
    ensures var next := rest[w.0 := sys.join(rest[w.0], w.1)];
            && Grows(sys, rest, next) && Grows(sys, entry, next) && EntryOk(sys, w.0, next[w.0])
            && Leq(sys, w.1, next[w.0])
            && (Leq(sys, w.1, rest[w.0]) ==> next == rest)
  {
    var x := sys.join(rest[w.0], w.1);
    var next := rest[w.0 := x];
    assert sys.enc(x) == sys.enc(rest[w.0]) + sys.enc(w.1);
    forall b | 0 <= b < |rest| ensures Leq(sys, rest[b], next[b]) && Leq(sys, entry[b], next[b]) {
      assert Leq(sys, entry[b], rest[b]);
    }
    if Leq(sys, w.1, rest[w.0]) {
      assert sys.enc(x) == sys.enc(rest[w.0]);
    }
  }

  /** Everything that holds after visiting blocks 0..k. */
  ghost predicate SweepInv<F(!new), A(!new)>(sys: System<F, A>, st: State<F>, now: State<F>, k: nat, changed: bool)
    requires |st.entry| == sys.n == |st.body| && k <= sys.n
  {
    && Ok(sys, now) && Grows(sys, st.entry, now.entry)
    && (forall c :: k <= c < sys.n ==> now.body[c] == st.body[c])
    && (forall c :: 0 <= c < k ==> Written(sys, now, c))
    && (AllWritten(sys, st) ==> AllWritten(sys, now))
    && (!changed ==> now.body == st.body && forall c :: 0 <= c < k ==> Gathered(sys, now, c))
    && (now.entry == st.entry ==> forall c :: 0 <= c < k ==> Fresh(sys, now, c))
    && (now.entry == st.entry && !Stale(sys, st) ==> !changed)
    && (!changed && AllWritten(sys, st) ==> forall c :: 0 <= c < k ==> Fresh(sys, now, c))
  }

  /** One visit: block k's boundary fact absorbs what is delivered, and if
      that changes nothing inside k, then k's writes change nothing either. */
  lemma VisitEffect<F(!new), A(!new)>(sys: System<F, A>, now: State<F>, k: nat)
    requires Laws(sys) && Ok(sys, now) && k < sys.n
    ensures var next := Visit(sys, now, k);
            && Ok(sys, next) && Grows(sys, now.entry, next.entry)
            && (forall c :: 0 <= c < sys.n && c != k ==> next.body[c] == now.body[c])
            && Written(sys, next, k)
            && (next.body == now.body ==> Gathered(sys, next, k))
            && (next.entry == now.entry ==> Fresh(sys, next, k))
            && (next.body == now.body && Written(sys, now, k) ==>
                  Fresh(sys, next, k) && forall c :: 0 <= c < sys.n && c != k ==> next.entry[c] == now.entry[c])
  {
    var next := Visit(sys, now, k);
    var x := Gather(sys, now, k, sys.n);
    var mid := now.entry[k := x];
    var inner := sys.trace(k, x);
    var ws := sys.writes(k, inner);
    Gathering(sys, now, k, sys.n);
    assert BodyOk(sys, inner);
    Spreading(sys, mid, ws);
    assert Leq(sys, mid[k], next.entry[k]);
    forall b | 0 <= b < sys.n ensures Leq(sys, now.entry[b], mid[b]) && Leq(sys, now.entry[b], next.entry[b]) {
      assert Leq(sys, mid[b], next.entry[b]);
    }
    if next.entry == now.entry {
      assert Leq(sys, now.entry[k], x) && Leq(sys, x, now.entry[k]);
      assert x == now.entry[k];
    }
    if next.body == now.body && Written(sys, now, k) {
      forall i | 0 <= i < |ws| ensures Leq(sys, ws[i].1, mid[ws[i].0]) {
        assert Leq(sys, now.entry[ws[i].0], mid[ws[i].0]);
      }
    }
  }

  lemma GatheredGrows<F(!new), A(!new)>(sys: System<F, A>, now: State<F>, next: State<F>, c: nat)
    requires Grows(sys, now.entry, next.entry) && next.body == now.body && c < |now.entry| && Gathered(sys, now, c)
    ensures Gathered(sys, next, c)
  {
    assert Leq(sys, now.entry[c], next.entry[c]);
  }

  lemma GrowsTransitive<F(!new), A(!new)>(sys: System<F, A>, e: seq<F>, f: seq<F>, g: seq<F>)
    requires Laws(sys) && Grows(sys, e, f) && Grows(sys, f, g)
    ensures Grows(sys, e, g)
    ensures e == g ==> f == g
  {
    forall b | 0 <= b < |e| ensures Leq(sys, e[b], g[b]) && (e == g ==> f[b] == g[b]) {
      assert Leq(sys, e[b], f[b]) && Leq(sys, f[b], g[b]);
    }
  }

  lemma VisitKeepsInv<F(!new), A(!new)>(sys: System<F, A>, st: State<F>, now: State<F>, k: nat, changed: bool)
    requires Laws(sys) && Ok(sys, st) && k < sys.n && SweepInv(sys, st, now, k, changed)
    ensures var next := Visit(sys, now, k);
            SweepInv(sys, st, next, k + 1, changed || next.body[k] != now.body[k])
  {
    var next := Visit(sys, now, k);
    VisitEffect(sys, now, k);
    WrittenGrows(sys, now, next, k);
    GrowsTransitive(sys, st.entry, now.entry, next.entry);
    var changed' := changed || next.body[k] != now.body[k];
    if !changed' {
      assert next.body == now.body;
      forall c | 0 <= c <= k ensures Gathered(sys, next, c) {
        if c < k { GatheredGrows(sys, now, next, c); }
      }
      if AllWritten(sys, st) {
        assert Written(sys, now, k);
        forall c | 0 <= c <= k ensures Fresh(sys, next, c) {
          if c < k { assert Fresh(sys, now, c); }
        }
      }
    }
    if next.entry == st.entry {
      forall c | 0 <= c <= k ensures Fresh(sys, next, c) {
        if c < k { assert Fresh(sys, now, c); }
      }
      if !Stale(sys, st) {
        assert Fresh(sys, st, k);
      }
    }
  }

  /** Earlier writes stay written: their sources are untouched and boundary
      facts grow. */
  lemma WrittenGrows<F(!new), A(!new)>(sys: System<F, A>, now: State<F>, next: State<F>, k: nat)
    requires Ok(sys, now) && Ok(sys, next) && k < sys.n && Grows(sys, now.entry, next.entry)
    requires forall c :: 0 <= c < sys.n && c != k ==> next.body[c] == now.body[c]
    ensures forall c :: 0 <= c < sys.n && c != k && Written(sys, now, c) ==> Written(sys, next, c)
  {
    forall c | 0 <= c < sys.n && c != k && Written(sys, now, c) ensures Written(sys, next, c) {
      var ws := sys.writes(c, next.body[c]);
      forall i | 0 <= i < |ws| ensures ws[i].0 < |next.entry| && Leq(sys, ws[i].1, next.entry[ws[i].0]) {
        assert Leq(sys, now.entry[ws[i].0], next.entry[ws[i].0]);
      }
    }
  }

  ghost predicate SweptTo<F(!new), A(!new)>(sys: System<F, A>, st: State<F>, k: nat)
    requires k <= sys.n && |st.entry| == sys.n == |st.body|
  {
    SweepInv(sys, st, SweepTo(sys, st, k), k, ChangedTo(sys, st, k))
  }

  lemma SweepStarts<F(!new), A(!new)>(sys: System<F, A>, st: State<F>)
    requires Laws(sys) && Ok(sys, st)
    ensures SweptTo(sys, st, 0)
  {
    forall b | 0 <= b < sys.n ensures Leq(sys, st.entry[b], st.entry[b]) {}
  }

  lemma SweepContinues<F(!new), A(!new)>(sys: System<F, A>, st: State<F>, k: nat)
    requires Laws(sys) && Ok(sys, st) && k < sys.n && SweptTo(sys, st, k)
    ensures SweptTo(sys, st, k + 1)
  {
    VisitKeepsInv(sys, st, SweepTo(sys, st, k), k, ChangedTo(sys, st, k));
  }

  lemma {:induction false} SweepKeepsInv<F(!new), A(!new)>(sys: System<F, A>, st: State<F>, k: nat)
    requires Laws(sys) && Ok(sys, st) && k <= sys.n
    ensures SweptTo(sys, st, k)
  {
    if k == 0 {
      SweepStarts(sys, st);
    } else {
      SweepKeepsInv(sys, st, k - 1);
      SweepContinues(sys, st, k - 1);
    }
  }

  lemma RoomShrinks<F(!new), A(!new)>(sys: System<F, A>, e: seq<F>, f: seq<F>)
    requires Laws(sys) && Grows(sys, e, f)
    requires forall b :: 0 <= b < |f| ==> EntryOk(sys, b, f[b])
    ensures |Room(sys, f)| <= |Room(sys, e)|
    ensures e != f ==> |Room(sys, f)| < |Room(sys, e)|
  {
    forall p | p in Room(sys, f) ensures p in Room(sys, e) {
      assert Leq(sys, e[p.0], f[p.0]);
    }
    assert Room(sys, f) <= Room(sys, e);
    SubsetSize(Room(sys, f), Room(sys, e));
    if e != f {
      var b :| 0 <= b < |e| && e[b] != f[b];
      assert Leq(sys, e[b], f[b]);
      var a :| a in sys.enc(f[b]) && a !in sys.enc(e[b]);
      assert EntryOk(sys, b, f[b]);
      assert (b, a) in Room(sys, e) && (b, a) !in Room(sys, f);
      SubsetSize(Room(sys, f), Room(sys, e) - {(b, a)});
    }
  }

  lemma RestShrinks<T>(u: set<T>, a: set<T>, b: set<T>)
    requires a <= b <= u
    ensures |u - b| <= |u - a|
    ensures a != b ==> |u - b| < |u - a|
  {
    SubsetSize(u - b, u - a);
    if a != b {
      var x :| x in b && x !in a;
      SubsetSize(u - b, u - a - {x});
    }
  }

  /** A sweep that changes something either adds information at a boundary, or
      finds a stale block and leaves none: sweeping terminates although the
      transfers are not monotone. */
  lemma SweepProgresses<F(!new), A(!new)>(sys: System<F, A>, st: State<F>)
    requires Laws(sys) && Ok(sys, st)
    ensures var next := SweepTo(sys, st, sys.n);
            && Ok(sys, next)
            && Missing(sys, next) <= Missing(sys, st)
            && (Missing(sys, next) == Missing(sys, st) ==> !Stale(sys, next))
            && (ChangedTo(sys, st, sys.n) ==> Missing(sys, next) < Missing(sys, st) || Stale(sys, st))
  {
    var next := SweepTo(sys, st, sys.n);
    SweepKeepsInv(sys, st, sys.n);
    RoomShrinks(sys, st.entry, next.entry);
  }

  /** A sweep that changes nothing inside a block has reached a fixpoint,
      provided that at its start the terminators' writes were in place. */
  lemma QuietSweepIsStable<F(!new), A(!new)>(sys: System<F, A>, st: State<F>)
    requires Laws(sys) && Ok(sys, st)
    ensures AllWritten(sys, SweepTo(sys, st, sys.n))
    ensures !ChangedTo(sys, st, sys.n) ==> SweepTo(sys, st, sys.n).body == st.body
    ensures !ChangedTo(sys, st, sys.n) && AllWritten(sys, st) ==> Stable(sys, SweepTo(sys, st, sys.n))
  {
    SweepKeepsInv(sys, st, sys.n);
  }

  /** One sweep more, of a problem whose terminators' writes are in place. */
  lemma SweepOnward<F(!new), A(!new)>(sys: System<F, A>, start: State<F>, st: State<F>)
    requires Laws(sys) && Ok(sys, st) && SweptFrom(sys, start, st) && AllWritten(sys, st)
    ensures var next := SweepTo(sys, st, sys.n);
            && Ok(sys, next) && SweptFrom(sys, start, next)
            && (!ChangedTo(sys, st, sys.n) ==> Stable(sys, next))
            && Missing(sys, next) <= Missing(sys, st)
            && (Missing(sys, next) == Missing(sys, st) ==> !Stale(sys, next))
            && (ChangedTo(sys, st, sys.n) ==> Missing(sys, next) < Missing(sys, st) || Stale(sys, st))
  {
    SweepProgresses(sys, st);
    QuietSweepIsStable(sys, st);
    SweptFurther(sys, start, st);
  }

  /** After a sweep that changes nothing, the facts inside every block are the
      trace of some boundary fact. */
  lemma {:induction false} QuietBodies<F(!new), A(!new)>(sys: System<F, A>, st: State<F>, k: nat)
    requires k <= sys.n && |st.entry| == sys.n == |st.body| && !ChangedTo(sys, st, k)
    ensures SweepTo(sys, st, k).body == st.body
    ensures forall b: nat :: b < k ==> IsTrace(sys, b, st.body[b])
  {
    if k > 0 {
      var b := k - 1;
      QuietBodies(sys, st, b);
      var prev := SweepTo(sys, st, b);
      assert st.body[b] == sys.trace(b, Gather(sys, prev, b, sys.n));
    }
  }

  lemma {:induction false} SweepIs<F(!new), A(!new)>(sys: System<F, A>, sts: seq<State<F>>, k: nat)
    requires k < |sts| <= sys.n + 1
    requires forall j :: 0 <= j < |sts| ==> |sts[j].entry| == sys.n == |sts[j].body|
    requires forall j: nat :: j + 1 < |sts| ==> sts[j + 1] == Visit(sys, sts[j], j)
    ensures SweepTo(sys, sts[0], k) == sts[k]
    ensures ChangedTo(sys, sts[0], k) <==> exists j: nat :: j < k && sts[j + 1].body[j] != sts[j].body[j]
  {
    if k > 0 {
      SweepIs(sys, sts, k - 1);
    }
  }

  ghost predicate IsTrace<F(!new), A(!new)>(sys: System<F, A>, b: nat, body: seq<F>) {
    exists x :: body == sys.trace(b, x)
  }

  // ----- Facts inside a block, for forward passes -----

  /** The facts after instructions 0..k, starting from boundary fact `x`. */
  ghost function Chain<F>(step: (nat, F) -> F, k: nat, x: F): (r: seq<F>)
    ensures |r| == k
  {
    if k == 0 then [] else
    var r := Chain(step, k - 1, x);
    r + [step(k - 1, if k == 1 then x else r[k - 2])]
  }

  /** A block's facts while they are recomputed in place: new ones up to
      instruction i, the previous ones from there on. */
  ghost predicate Halfway<F>(step: (nat, F) -> F, x: F, was: seq<F>, row: seq<F>, i: nat, changed: bool) {
    && i <= |row| == |was|
    && row[..i] == Chain(step, i, x) && row[i..] == was[i..]
    && changed == (row[..i] != was[..i])
  }

  lemma OneFurther<F>(step: (nat, F) -> F, x: F, was: seq<F>, row: seq<F>, i: nat, changed: bool, after: F)
    requires i < |row| && Halfway(step, x, was, row, i, changed)
    requires after == step(i, if i == 0 then x else row[i - 1])
    ensures Halfway(step, x, was, row[i := after], i + 1, changed || after != row[i])
  {
    var next := row[i := after];
    assert next[..i + 1] == row[..i] + [after];
    assert was[..i + 1] == was[..i] + [row[i]] by { assert row[i..][0] == was[i..][0]; }
    assert next[i + 1..] == row[i..][1..] && was[i + 1..] == was[i..][1..];
  }

  lemma AllTheWay<F>(step: (nat, F) -> F, x: F, was: seq<F>, row: seq<F>, changed: bool)
    requires Halfway(step, x, was, row, |row|, changed)
    ensures row == Chain(step, |was|, x) && changed == (row != was)
  {
    assert row == row[..|row|] && was == was[..|was|];
  }

  lemma {:induction false} ChainEquation<F>(step: (nat, F) -> F, k: nat, x: F, i: nat)
    requires i < k
    ensures Chain(step, k, x)[i] == step(i, if i == 0 then x else Chain(step, k, x)[i - 1])
  {
    if i < k - 1 {
      ChainEquation(step, k - 1, x, i);
    }
  }

  /** And these equations say which facts they are. */
  lemma {:induction false} ChainIs<F>(step: (nat, F) -> F, x: F, row: seq<F>)
    requires forall i :: 0 <= i < |row| ==> row[i] == step(i, Previous(x, row, i))
    ensures Chain(step, |row|, x) == row
  {
    if row != [] {
      var init := row[..|row| - 1];
      forall i | 0 <= i < |init| ensures init[i] == step(i, Previous(x, init, i)) {
        assert init[i] == row[i] && Previous(x, init, i) == Previous(x, row, i);
      }
      ChainIs(step, x, init);
      assert row[|init|] == step(|init|, Previous(x, row, |init|));
    }
  }

  function Previous<F>(x: F, row: seq<F>, i: nat): F
    requires i <= |row|
  {
    if i == 0 then x else row[i - 1]
  }

  lemma {:induction false} ChainBodyOk<F(!new), A(!new)>(sys: System<F, A>, step: (nat, F) -> F, k: nat, x: F)
    requires FactOk(sys, x)
    requires forall i: nat, y :: i < k && FactOk(sys, y) ==> FactOk(sys, step(i, y))
    ensures BodyOk(sys, Chain(step, k, x))
  {
    if k > 0 {
      ChainBodyOk(sys, step, k - 1, x);
    }
  }

  /** The fact before instruction i of block b, in a forward pass: the
      boundary fact, or the very fact after instruction i - 1. */
  function Before<F>(st: State<F>, b: nat, i: nat): F
    requires b < |st.entry| == |st.body| && i <= |st.body[b]|
  {
    if i == 0 then st.entry[b] else st.body[b][i - 1]
  }
}
