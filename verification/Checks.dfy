/** When a call counts as sufficiently checked
    (checker/src/insufficient_checks_pass.cc:54-133). */
module Checks {
  import opened IR
  import opened Signs
  import opened Shapes
  import opened Sweep
  import Constraints = ReturnConstraints

  /** The constraints under which code of the function executes, for calls of
      the function called `name`. */
  function ConstraintsOn(fn: Func, st: State<Constraints.Names>, name: string): set<Sign>
    requires Shape(fn, st)
  {
    set b: nat, i: nat | b < |fn.blocks| && i < |fn.blocks[b]| && name in Before(st, b, i) :: Before(st, b, i)[name]
  }

  /** They are those that hold just before some instruction. */
  lemma ConstraintsHoldBefore(fn: Func, st: State<Constraints.Names>, name: string, c: Sign)
    requires Shape(fn, st)
    ensures c in ConstraintsOn(fn, st, name) <==>
              exists at: Point :: InFunc(fn, at) && name in Before(st, at.block, at.index)
                                  && c == Before(st, at.block, at.index)[name]
  {
    if c in ConstraintsOn(fn, st, name) {
      var b: nat, i: nat :| b < |fn.blocks| && i < |fn.blocks[b]| && name in Before(st, b, i)
                            && c == Before(st, b, i)[name];
      assert InFunc(fn, Point(b, i)) && Point(b, i).block == b && Point(b, i).index == i;
    }
  }

  /** u admits what some of the elements admits, and nothing else. */
  ghost predicate IsUnion(u: Sign, s: set<Sign>) {
    forall r: Region :: Has(u, r) <==> exists c :: c in s && Has(c, r)
  }

  /** Some of the constraints together leave something out but cover the error
      specification: there the code does not execute on errors. */
  ghost predicate CoveredBySome(constraints: set<Sign>, spec: Sign) {
    exists s, u :: s <= constraints && IsUnion(u, s) && Covers(u, spec)
  }

  predicate Covers(u: Sign, spec: Sign) {
    u != Top && Below(spec, u)
  }

  predicate PairCovers(x: Sign, y: Sign, spec: Sign) {
    Covers(Signs.Join(x, y), spec)
  }

  ghost predicate CoveredByPair(constraints: set<Sign>, spec: Sign) {
    exists x, y :: x in constraints + {Bottom} && y in constraints + {Bottom} && PairCovers(x, y, spec)
  }

  lemma NotTopMisses(u: Sign)
    requires u != Top
    ensures exists r: Region :: !Has(u, r)
  {
    if forall r: Region :: Has(u, r) { Extensional(u, Top); }
  }

  /** One constraint of the set that admits r, if the union does. */
  ghost function Witness(u: Sign, s: set<Sign>, r: Region): (c: Sign)
    requires IsUnion(u, s)
    ensures c in s + {Bottom} && (Has(u, r) ==> Has(c, r))
    ensures forall q: Region :: Has(c, q) ==> Has(u, q)
  {
    if Has(u, r) then
      var c :| c in s && Has(c, r);
      c
    else Bottom
  }

  /** A union that is not everything is the union of two of its members: it
      has at most two of the three regions. */
  lemma TwoSuffice(u: Sign, s: set<Sign>) returns (x: Sign, y: Sign)
    requires IsUnion(u, s) && u != Top
    ensures x in s + {Bottom} && y in s + {Bottom} && Signs.Join(x, y) == u
  {
    NotTopMisses(u);
    var missed: Region :| !Has(u, missed);
    var p, q := if missed.Negative? then Null else Negative, if missed.Positive? then Null else Positive;
    x, y := Witness(u, s, p), Witness(u, s, q);
    forall r: Region ensures Has(Signs.Join(x, y), r) <==> Has(u, r) {
      JoinHas(x, y, r);
      assert r == missed || r == p || r == q;
    }
    Extensional(Signs.Join(x, y), u);
  }

  lemma PairIsUnion(x: Sign, y: Sign, constraints: set<Sign>)
    requires x in constraints + {Bottom} && y in constraints + {Bottom}
    ensures {x, y} * constraints <= constraints && IsUnion(Signs.Join(x, y), {x, y} * constraints)
  {
    var s := {x, y} * constraints;
    forall r: Region ensures Has(Signs.Join(x, y), r) <==> exists c :: c in s && Has(c, r) {
      JoinHas(x, y, r);
      if Has(x, r) { assert x in s; }
      if Has(y, r) { assert y in s; }
    }
  }

  /** Looking at one or two constraints at a time is as good as looking at all
      subsets. */
  lemma PairsSuffice(constraints: set<Sign>, spec: Sign)
    ensures CoveredByPair(constraints, spec) <==> CoveredBySome(constraints, spec)
  {
    if CoveredByPair(constraints, spec) {
      var x, y :| x in constraints + {Bottom} && y in constraints + {Bottom} && PairCovers(x, y, spec);
      PairIsUnion(x, y, constraints);
    }
    if CoveredBySome(constraints, spec) {
      var s, u :| s <= constraints && IsUnion(u, s) && Covers(u, spec);
      var x, y := TwoSuffice(u, s);
      assert PairCovers(x, y, spec);
    }
  }

  method CollectConstraints(fn: Func, st: State<Constraints.Names>, name: string) returns (ret: set<Sign>)
    requires Shape(fn, st)
    ensures ret == ConstraintsOn(fn, st, name)
  {
    ret := {};
    for b := 0 to |fn.blocks|
      invariant ret == set c: nat, i: nat | c < b && i < |fn.blocks[c]| && name in Before(st, c, i)
                       :: Before(st, c, i)[name]
    {
      ghost var earlier := ret;
      for i := 0 to |fn.blocks[b]|
        invariant ret == earlier + set j: nat | j < i && name in Before(st, b, j) :: Before(st, b, j)[name]
      {
        var fact := Before(st, b, i);
        if name in fact {
          ret := ret + {fact[name]};
        }
      }
    }
  }

  /** The complement of a meet of complements is the join. */
  lemma DeadMeet(x: Sign, y: Sign)
    ensures Complement(Signs.Meet(Complement(x), Complement(y))) == Signs.Join(x, y)
    ensures Complement(Complement(x)) == x
  {
    var m := Signs.Meet(Complement(x), Complement(y));
    forall r: Region ensures Has(Complement(m), r) <==> Has(Signs.Join(x, y), r) {
      ComplementHas(m, r);
      ComplementHas(x, r);
      ComplementHas(y, r);
      JoinHas(Complement(x), Complement(y), r);
      JoinHas(x, y, r);
    }
    Extensional(Complement(m), Signs.Join(x, y));
  }

  /** The complements of the constraints, and top. */
  function Dead(constraints: set<Sign>): set<Sign> {
    (set c | c in constraints :: Complement(c)) + {Top}
  }

  /** What one pair of dead constraints contributes to the verdict. */
  predicate Accepts(e1: Sign, e2: Sign, spec: Sign) {
    Shows(Signs.Meet(e1, e2), spec)
  }

  predicate Shows(meet: Sign, spec: Sign) {
    meet != Bottom && Below(spec, Complement(meet))
  }

  predicate Tells(e1: Sign, e2: Sign) {
    Signs.Meet(e1, e2) != Bottom && Signs.Meet(e1, e2) != Top
  }

  lemma DeadHas(constraints: set<Sign>, x: Sign)
    ensures Complement(x) in Dead(constraints) <==> x in constraints + {Bottom}
  {
    DeadMeet(x, x);
    if Complement(x) in Dead(constraints) && Complement(x) != Top {
      var c :| c in constraints && Complement(c) == Complement(x);
      DeadMeet(c, c);
    }
  }

  lemma ShowsIsCovers(m: Sign, u: Sign, spec: Sign)
    requires Complement(m) == u
    ensures Shows(m, spec) <==> Covers(u, spec)
  {
  }

  lemma AcceptsIsCovers(x: Sign, y: Sign, spec: Sign)
    ensures Accepts(Complement(x), Complement(y), spec) <==> PairCovers(x, y, spec)
  {
    DeadMeet(x, y);
    ShowsIsCovers(Signs.Meet(Complement(x), Complement(y)), Signs.Join(x, y), spec);
  }

  /** The loop over all pairs decides coverage by some constraints. */
  lemma PairsOfDead(constraints: set<Sign>, spec: Sign)
    ensures CoveredBySome(constraints, spec)
            <==> exists e1 :: e1 in Dead(constraints) && AcceptsSome(e1, Dead(constraints), spec)
  {
    PairsSuffice(constraints, spec);
    if x, y :| x in constraints + {Bottom} && y in constraints + {Bottom} && PairCovers(x, y, spec) {
      DeadHas(constraints, x);
      DeadHas(constraints, y);
      AcceptsIsCovers(x, y, spec);
      assert AcceptsSome(Complement(x), Dead(constraints), spec);
    }
    if e1 :| e1 in Dead(constraints) && AcceptsSome(e1, Dead(constraints), spec) {
      var e2 :| e2 in Dead(constraints) && Accepts(e1, e2, spec);
      DeadMeet(e1, e1);
      DeadMeet(e2, e2);
      DeadHas(constraints, Complement(e1));
      DeadHas(constraints, Complement(e2));
      AcceptsIsCovers(Complement(e1), Complement(e2), spec);
    }
  }

  /** All meets are top or bottom just if all constraints are. */
  lemma NothingTold(constraints: set<Sign>)
    ensures (forall e1 :: e1 in Dead(constraints) ==> !TellsSome(e1, Dead(constraints)))
            <==> constraints <= {Top, Bottom}
  {
    forall e: Sign ensures Signs.Meet(e, Top) == e {
      forall r: Region { JoinHas(e, Top, r); }
      Extensional(Signs.Meet(e, Top), e);
    }
    if forall e1 :: e1 in Dead(constraints) ==> !TellsSome(e1, Dead(constraints)) {
      forall c | c in constraints ensures c in {Top, Bottom} {
        DeadMeet(c, c);
        assert !TellsSome(Complement(c), Dead(constraints)) && Top in Dead(constraints);
        assert !Tells(Complement(c), Top);
      }
    }
  }

  /** Accepted are exactly the calls where some constraints together cover the
      error specification without admitting everything, and those where no
      constraint tells anything. */
  method IsSufficientlyChecked(fn: Func, st: State<Constraints.Names>, name: string, spec: Sign) returns (ok: bool)
    requires Shape(fn, st)
    ensures var constraints := ConstraintsOn(fn, st, name);
            ok <==> CoveredBySome(constraints, spec) || constraints <= {Top, Bottom}
  {
    var constraints := CollectConstraints(fn, st, name);
    var dead := AddDead(constraints);
    PairsOfDead(constraints, spec);
    NothingTold(constraints);
    ok := CheckPairs(dead, spec);
  }

  /** Meets all pairs of dead constraints, until one shows the call to be
      checked. */
  method CheckPairs(dead: set<Sign>, spec: Sign) returns (ok: bool)
    ensures ok <==> || (exists e1 :: e1 in dead && AcceptsSome(e1, dead, spec))
                    || (forall e1 :: e1 in dead ==> !TellsSome(e1, dead))
  {
    var onlyTop := true;
    var rest := dead;
    while rest != {}
      invariant rest <= dead
      invariant forall e1 :: e1 in dead - rest ==> !AcceptsSome(e1, dead, spec)
      invariant onlyTop <==> forall e1 :: e1 in dead - rest ==> !TellsSome(e1, dead)
    {
      var e1 :| e1 in rest;
      var accepted, told := CheckWithAll(e1, dead, spec);
      if accepted {
        return true;
      }
      onlyTop := onlyTop && !told;
      assert dead - (rest - {e1}) == dead - rest + {e1};
      rest := rest - {e1};
    }
    assert dead - rest == dead;
    return onlyTop;
  }

  predicate AcceptsSome(e1: Sign, dead: set<Sign>, spec: Sign) {
    exists e2 :: e2 in dead && Accepts(e1, e2, spec)
  }

  predicate TellsSome(e1: Sign, dead: set<Sign>) {
    exists e2 :: e2 in dead && Tells(e1, e2)
  }

  method AddDead(constraints: set<Sign>) returns (dead: set<Sign>)
    ensures dead == Dead(constraints)
  {
    dead := {};
    var rest := constraints;
    while rest != {}
      invariant rest <= constraints && dead == set c | c in constraints - rest :: Complement(c)
    {
      var x :| x in rest;
      assert constraints - (rest - {x}) == constraints - rest + {x};
      dead := dead + {Complement(x)};
      rest := rest - {x};
    }
    assert constraints - rest == constraints;
    dead := dead + {Top};
  }

  /** Meets e1 with every dead constraint, until one meet shows the call to be
      checked. */
  method CheckWithAll(e1: Sign, dead: set<Sign>, spec: Sign) returns (accepted: bool, told: bool)
    ensures accepted <==> AcceptsSome(e1, dead, spec)
    ensures !accepted ==> (told <==> TellsSome(e1, dead))
  {
    accepted, told := false, false;
    ghost var done, teller := {}, Top;
    var rest := dead;
    while rest != {}
      invariant done + rest == dead && !accepted
      invariant forall e2 :: e2 in done ==> !Accepts(e1, e2, spec)
      invariant if told then teller in done && Tells(e1, teller) else forall e2 :: e2 in done ==> !Tells(e1, e2)
    {
      var e2 :| e2 in rest;
      rest := rest - {e2};
      done := done + {e2};
      var meet := Signs.Meet(e1, e2);
      if meet == Bottom {
        continue;
      }
      if meet != Top {
        told, teller := true, e2;
      }
      var meetComplement := Complement(meet);
      if Below(spec, meetComplement) {
        assert Accepts(e1, e2, spec);
        return true, told;
      }
    }
  }
}
