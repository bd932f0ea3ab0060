/** Specifications as confidences in the error signs
    (eesi/src/confidence_lattice.cc, cli/eesi/lattice_helper.py). */
module Confidence {
  import opened Signs

  const MAX: int := 100
  const MIN: int := 0

  type Level = n: int | MIN <= n <= MAX

  /** Confidence that errors are zero, negative, positive, and that there is no
      error value at all. */
  datatype Spec = Spec(zero: Level, neg: Level, pos: Level, emptyset: Level)

  const UNKNOWN := Spec(0, 0, 0, 0)
  const EMPTYSET := Spec(0, 0, 0, 100)

  function ConfidenceIn(s: Spec, r: Region): Level {
    match r
    case Negative => s.neg
    case Null => s.zero
    case Positive => s.pos
  }

  function Max(a: Level, b: Level): Level { if a < b then b else a }

  function Min(a: Level, b: Level): Level { if b < a then b else a }

  /** More confidence in every sign, less in there being none. */
  predicate Leq(x: Spec, y: Spec) {
    x.zero <= y.zero && x.neg <= y.neg && x.pos <= y.pos && y.emptyset <= x.emptyset
  }

  function Join(x: Spec, y: Spec): Spec {
    Spec(Max(x.zero, y.zero), Max(x.neg, y.neg), Max(x.pos, y.pos), Min(x.emptyset, y.emptyset))
  }

  function Meet(x: Spec, y: Spec): Spec {
    Spec(Min(x.zero, y.zero), Min(x.neg, y.neg), Min(x.pos, y.pos), Max(x.emptyset, y.emptyset))
  }

  predicate IsUnknown(x: Spec) {
    x == UNKNOWN
  }

  predicate IsEmptyset(x: Spec) {
    x.emptyset == MAX
  }

  function GetMax(x: Spec): Level {
    Max(x.zero, Max(x.neg, x.pos))
  }

  function GetMaxWithEmptyset(x: Spec): Level {
    Max(GetMax(x), x.emptyset)
  }

  function Intersection(x: Spec, y: Sign): Spec {
    Spec(if Intersects(y, Sign.Zero) then x.zero else MIN,
         if Intersects(y, LessThanZero) then x.neg else MIN,
         if Intersects(y, GreaterThanZero) then x.pos else MIN,
         x.emptyset)
  }

  function Difference(x: Spec, y: Spec): Spec {
    Spec(if y.zero == MIN then x.zero else MIN,
         if y.neg == MIN then x.neg else MIN,
         if y.pos == MIN then x.pos else MIN,
         x.emptyset)
  }

  function FromSign(x: Sign, emptyset: Level): Spec {
    Spec(if Intersects(x, Sign.Zero) then MAX else MIN,
         if Intersects(x, LessThanZero) then MAX else MIN,
         if Intersects(x, GreaterThanZero) then MAX else MIN,
         emptyset)
  }

  /** The element whose signs are those with at least `threshold` confidence. */
  function ToSignAt(x: Spec, threshold: int): Sign {
    var zero := Signs.Join(Bottom, if x.zero >= threshold then Sign.Zero else Bottom);
    var neg := Signs.Join(zero, if x.neg >= threshold then LessThanZero else Bottom);
    Signs.Join(neg, if x.pos >= threshold then GreaterThanZero else Bottom)
  }

  function ToSign(x: Spec): Sign {
    var zero := Signs.Join(Bottom, if x.zero > MIN then Sign.Zero else Bottom);
    var neg := Signs.Join(zero, if x.neg > MIN then LessThanZero else Bottom);
    Signs.Join(neg, if x.pos > MIN then GreaterThanZero else Bottom)
  }

  lemma ToSignHas(x: Spec, threshold: int, r: Region)
    ensures Has(ToSignAt(x, threshold), r) <==> ConfidenceIn(x, r) >= threshold
    ensures Has(ToSign(x), r) <==> ConfidenceIn(x, r) > MIN
    decreases threshold != 1
  {
    var zero := Signs.Join(Bottom, if x.zero >= threshold then Sign.Zero else Bottom);
    var neg := Signs.Join(zero, if x.neg >= threshold then LessThanZero else Bottom);
    JoinHas(Bottom, if x.zero >= threshold then Sign.Zero else Bottom, r);
    JoinHas(zero, if x.neg >= threshold then LessThanZero else Bottom, r);
    JoinHas(neg, if x.pos >= threshold then GreaterThanZero else Bottom, r);
    if threshold != 1 { ToSignHas(x, 1, r); }
    assert ToSign(x) == ToSignAt(x, 1);
  }

  /** The comparison with a sign element as the source spells it out. */
  predicate Equals(x: Spec, y: Sign) {
    && !((x.zero == MIN && Intersects(y, Sign.Zero)) || (x.zero > MIN && !Intersects(y, Sign.Zero)))
    && !((x.neg == MIN && Intersects(y, LessThanZero)) || (x.neg > MIN && !Intersects(y, LessThanZero)))
    && !((x.pos == MIN && Intersects(y, GreaterThanZero)) || (x.pos > MIN && !Intersects(y, GreaterThanZero)))
  }

  predicate MaxEquals(x: Spec, y: Sign) {
    && !((x.zero < MAX && Intersects(y, Sign.Zero)) || (x.zero == MAX && !Intersects(y, Sign.Zero)))
    && !((x.neg < MAX && Intersects(y, LessThanZero)) || (x.neg == MAX && !Intersects(y, LessThanZero)))
    && !((x.pos < MAX && Intersects(y, GreaterThanZero)) || (x.pos == MAX && !Intersects(y, GreaterThanZero)))
  }

  lemma EqualsHas(x: Spec, y: Sign)
    ensures Equals(x, y) <==> forall r: Region :: Has(y, r) <==> ConfidenceIn(x, r) > MIN
  {
    EachRegion(r => Has(y, r) <==> ConfidenceIn(x, r) > MIN);
    match y
    case Bottom => case LessThanZero => case GreaterThanZero => case Zero =>
    case LessThanEqualZero => case GreaterThanEqualZero => case NotZero => case Top =>
  }

  lemma MaxEqualsHas(x: Spec, y: Sign)
    ensures MaxEquals(x, y) <==> forall r: Region :: Has(y, r) <==> ConfidenceIn(x, r) >= MAX
  {
    EachRegion(r => Has(y, r) <==> ConfidenceIn(x, r) >= MAX);
    match y
    case Bottom => case LessThanZero => case GreaterThanZero => case Zero =>
    case LessThanEqualZero => case GreaterThanEqualZero => case NotZero => case Top =>
  }

  lemma EachRegion(p: Region -> bool)
    ensures (forall r: Region :: p(r)) <==> p(Negative) && p(Null) && p(Positive)
  {
    forall r: Region | p(Negative) && p(Null) && p(Positive) ensures p(r) {
      match r case Negative => case Null => case Positive =>
    }
  }

  /** Comparing with an element is comparing with the decoded signs. */
  lemma EqualsIsDecoding(x: Spec, y: Sign)
    ensures Equals(x, y) <==> ToSign(x) == y
    ensures MaxEquals(x, y) <==> ToSignAt(x, MAX) == y
  {
    EqualsHas(x, y);
    MaxEqualsHas(x, y);
    forall r: Region { ToSignHas(x, MAX, r); }
    if forall r: Region :: Has(y, r) <==> ConfidenceIn(x, r) > MIN { Extensional(ToSign(x), y); }
    if forall r: Region :: Has(y, r) <==> ConfidenceIn(x, r) >= MAX { Extensional(ToSignAt(x, MAX), y); }
  }

  /** The operations, one sign at a time. */
  lemma OperationsAt(x: Spec, y: Spec, r: Region)
    ensures ConfidenceIn(Join(x, y), r) == Max(ConfidenceIn(x, r), ConfidenceIn(y, r))
    ensures ConfidenceIn(Meet(x, y), r) == Min(ConfidenceIn(x, r), ConfidenceIn(y, r))
    ensures ConfidenceIn(Difference(x, y), r) == if ConfidenceIn(y, r) == MIN then ConfidenceIn(x, r) else MIN
    ensures Join(x, y).emptyset == Min(x.emptyset, y.emptyset) && Difference(x, y).emptyset == x.emptyset
  {
    match r case Negative => case Null => case Positive =>
  }

  lemma FilterAt(x: Spec, s: Sign, r: Region)
    ensures ConfidenceIn(Intersection(x, s), r) == if Has(s, r) then ConfidenceIn(x, r) else MIN
    ensures Intersection(x, s).emptyset == x.emptyset
  {
    match s
    case Bottom => case LessThanZero => case GreaterThanZero => case Zero =>
    case LessThanEqualZero => case GreaterThanEqualZero => case NotZero => case Top =>
  }

  lemma FromSignAt(s: Sign, e: Level, r: Region)
    ensures ConfidenceIn(FromSign(s, e), r) == if Has(s, r) then MAX else MIN
    ensures FromSign(s, e).emptyset == e
  {
    match s
    case Bottom => case LessThanZero => case GreaterThanZero => case Zero =>
    case LessThanEqualZero => case GreaterThanEqualZero => case NotZero => case Top =>
  }

  lemma DecodingAt(x: Spec, y: Spec, s: Sign, threshold: int, r: Region)
    requires threshold > 0
    ensures Has(ToSignAt(Join(x, y), threshold), r)
            <==> Has(Signs.Join(ToSignAt(x, threshold), ToSignAt(y, threshold)), r)
    ensures Has(ToSignAt(Meet(x, y), threshold), r)
            <==> Has(Signs.Meet(ToSignAt(x, threshold), ToSignAt(y, threshold)), r)
    ensures Has(ToSignAt(Intersection(x, s), threshold), r) <==> Has(Signs.Meet(ToSignAt(x, threshold), s), r)
  {
    OperationsAt(x, y, r);
    FilterAt(x, s, r);
    ToSignHas(x, threshold, r);
    ToSignHas(y, threshold, r);
    ToSignHas(Join(x, y), threshold, r);
    ToSignHas(Meet(x, y), threshold, r);
    ToSignHas(Intersection(x, s), threshold, r);
    JoinHas(ToSignAt(x, threshold), ToSignAt(y, threshold), r);
    JoinHas(ToSignAt(x, threshold), s, r);
  }

  /** Decoding commutes with join, meet and intersection at every positive
      threshold. */
  lemma DecodingCommutes(x: Spec, y: Spec, s: Sign, threshold: int)
    requires threshold > 0
    ensures ToSignAt(Join(x, y), threshold) == Signs.Join(ToSignAt(x, threshold), ToSignAt(y, threshold))
    ensures ToSignAt(Meet(x, y), threshold) == Signs.Meet(ToSignAt(x, threshold), ToSignAt(y, threshold))
    ensures ToSignAt(Intersection(x, s), threshold) == Signs.Meet(ToSignAt(x, threshold), s)
  {
    forall r: Region { DecodingAt(x, y, s, threshold, r); }
    Extensional(ToSignAt(Join(x, y), threshold), Signs.Join(ToSignAt(x, threshold), ToSignAt(y, threshold)));
    Extensional(ToSignAt(Meet(x, y), threshold), Signs.Meet(ToSignAt(x, threshold), ToSignAt(y, threshold)));
    Extensional(ToSignAt(Intersection(x, s), threshold), Signs.Meet(ToSignAt(x, threshold), s));
  }

  /** Decoding without a threshold is decoding at one; it inverts encoding and
      takes differences to differences. */
  lemma DecodingPresence(x: Spec, y: Spec, s: Sign, e: Level)
    ensures ToSign(x) == ToSignAt(x, 1)
    ensures ToSign(Difference(x, y)) == Signs.Difference(ToSign(x), ToSign(y))
    ensures ToSign(FromSign(s, e)) == s
  {
    var dx, dy, dd := ToSign(x), ToSign(y), ToSign(Difference(x, y));
    forall r: Region
      ensures Has(dd, r) <==> Has(Signs.Difference(dx, dy), r)
      ensures Has(ToSign(FromSign(s, e)), r) <==> Has(s, r)
    {
      OperationsAt(x, y, r);
      FromSignAt(s, e, r);
      ToSignHas(x, 1, r);
      ToSignHas(y, 1, r);
      ToSignHas(Difference(x, y), 1, r);
      ToSignHas(FromSign(s, e), 1, r);
      JoinHas(dx, Complement(dy), r);
      ComplementHas(dy, r);
    }
    Extensional(dd, Signs.Difference(dx, dy));
    Extensional(ToSign(FromSign(s, e)), s);
  }

  // ----- Vectors -----

  ghost predicate AllBelow(vs: set<Spec>, u: Spec) {
    forall v :: v in vs ==> Leq(v, u)
  }

  ghost predicate AllAbove(vs: set<Spec>, u: Spec) {
    forall v :: v in vs ==> Leq(u, v)
  }

  /** r is the join of all members: above each, below all that are. */
  ghost predicate IsJoinOf(r: Spec, vs: set<Spec>) {
    && AllBelow(vs, r)
    && (forall u :: AllBelow(vs, u) ==> Leq(r, u))
  }

  ghost predicate IsMeetOf(r: Spec, vs: set<Spec>) {
    && AllAbove(vs, r)
    && (forall u :: AllAbove(vs, u) ==> Leq(u, r))
  }

  function Members(vs: seq<Spec>): set<Spec> {
    set i | 0 <= i < |vs| :: vs[i]
  }

  /** Joins and meets of collections do not depend on order or repetition. */
  lemma BoundsAreUnique(r: Spec, s: Spec, vs: set<Spec>)
    ensures IsJoinOf(r, vs) && IsJoinOf(s, vs) ==> r == s
    ensures IsMeetOf(r, vs) && IsMeetOf(s, vs) ==> r == s
  {
    if IsJoinOf(r, vs) && IsJoinOf(s, vs) {
      assert Leq(r, s) && Leq(s, r);
    }
    if IsMeetOf(r, vs) && IsMeetOf(s, vs) {
      assert Leq(r, s) && Leq(s, r);
    }
  }

  lemma JoinOfMore(r: Spec, vs: set<Spec>, v: Spec)
    requires IsJoinOf(r, vs)
    ensures IsJoinOf(Join(r, v), vs + {v})
    ensures Join(v, r) == Join(r, v)
  {
    assert AllBelow(vs + {v}, Join(r, v)) by {
      forall w | w in vs + {v} ensures Leq(w, Join(r, v)) {
        if w in vs { assert Leq(w, r); }
      }
    }
    forall u | AllBelow(vs + {v}, u) ensures Leq(Join(r, v), u) {
      assert AllBelow(vs, u);
      assert v in vs + {v};
      assert Leq(v, u) && Leq(r, u);
    }
  }

  lemma MeetOfMore(r: Spec, vs: set<Spec>, v: Spec)
    requires IsMeetOf(r, vs)
    ensures IsMeetOf(Meet(r, v), vs + {v})
  {
    assert AllAbove(vs + {v}, Meet(r, v)) by {
      forall w | w in vs + {v} ensures Leq(Meet(r, v), w) {
        if w in vs { assert Leq(r, w); }
      }
    }
    forall u | AllAbove(vs + {v}, u) ensures Leq(u, Meet(r, v)) {
      assert AllAbove(vs, u);
      assert v in vs + {v};
      assert Leq(u, v) && Leq(u, r);
    }
  }

  /** The join of a collection, in some order. */
  ghost function JoinOf(vs: set<Spec>): (r: Spec)
    requires vs != {}
    ensures IsJoinOf(r, vs)
  {
    var v :| v in vs;
    if vs == {v} then
      assert AllBelow(vs, v);
      v
    else
      var rest := vs - {v};
      JoinOfMore(JoinOf(rest), rest, v);
      assert rest + {v} == vs;
      Join(JoinOf(rest), v)
  }

  /** Each confidence of a join is that of some member, and the largest. */
  lemma {:induction false} JoinAttains(vs: set<Spec>, r: Region)
    requires vs != {}
    ensures exists v :: v in vs && ConfidenceIn(JoinOf(vs), r) == ConfidenceIn(v, r)
    ensures exists v :: v in vs && JoinOf(vs).emptyset == v.emptyset
    ensures forall v :: v in vs ==> ConfidenceIn(v, r) <= ConfidenceIn(JoinOf(vs), r)
    ensures forall v :: v in vs ==> JoinOf(vs).emptyset <= v.emptyset
    decreases |vs|
  {
    var v :| v in vs && JoinOf(vs) == if vs == {v} then v else Join(JoinOf(vs - {v}), v);
    if vs != {v} {
      JoinAttains(vs - {v}, r);
      OperationsAt(JoinOf(vs - {v}), v, r);
    }
    forall w | w in vs ensures ConfidenceIn(w, r) <= ConfidenceIn(JoinOf(vs), r) && JoinOf(vs).emptyset <= w.emptyset {
      assert Leq(w, JoinOf(vs));
    }
  }

  /** The largest confidence in any sign is that in some sign. */
  lemma MaxIsAttained(x: Spec)
    ensures exists r: Region :: GetMax(x) == ConfidenceIn(x, r)
    ensures forall r: Region :: ConfidenceIn(x, r) <= GetMax(x)
  {
    var q := if GetMax(x) == x.neg then Negative else if GetMax(x) == x.zero then Null else Positive;
    assert GetMax(x) == ConfidenceIn(x, q);
  }

  method JoinOnVector(vs: seq<Spec>) returns (r: Spec)
    requires vs != []
    ensures IsJoinOf(r, Members(vs))
  {
    r := vs[0];
    assert Members(vs[..0]) + {vs[0]} == {vs[0]};
    for i := 0 to |vs|
      invariant IsJoinOf(r, Members(vs[..i]) + {vs[0]})
    {
      JoinOfMore(r, Members(vs[..i]) + {vs[0]}, vs[i]);
      MembersGrow(vs, i);
      r := Join(r, vs[i]);
    }
    assert vs[..|vs|] == vs && vs[0] in Members(vs);
    assert Members(vs) + {vs[0]} == Members(vs);
  }

  method MeetOnVector(vs: seq<Spec>) returns (r: Spec)
    requires vs != []
    ensures IsMeetOf(r, Members(vs))
  {
    r := vs[0];
    assert Members(vs[..0]) + {vs[0]} == {vs[0]};
    for i := 0 to |vs|
      invariant IsMeetOf(r, Members(vs[..i]) + {vs[0]})
    {
      MeetOfMore(r, Members(vs[..i]) + {vs[0]}, vs[i]);
      MembersGrow(vs, i);
      r := Meet(r, vs[i]);
    }
    assert vs[..|vs|] == vs && vs[0] in Members(vs);
    assert Members(vs) + {vs[0]} == Members(vs);
  }

  lemma MembersGrow(vs: seq<Spec>, i: nat)
    requires i < |vs|
    ensures Members(vs[..i]) + {vs[0]} + {vs[i]} == Members(vs[..i + 1]) + {vs[0]}
  {
    forall v ensures v in Members(vs[..i + 1]) <==> v in Members(vs[..i]) + {vs[i]} {
      if v in Members(vs[..i]) {
        var k :| 0 <= k < i && vs[..i][k] == v;
        assert vs[..i + 1][k] == v;
      }
      if v in Members(vs[..i + 1]) {
        var k :| 0 <= k < i + 1 && vs[..i + 1][k] == v;
        assert k < i ==> vs[..i][k] == v;
      }
      assert vs[..i + 1][i] == vs[i];
    }
  }

  /** The four confidences of a specification. */
  datatype Component = InSign(r: Region) | InEmptyset

  function Part(x: Spec, c: Component): Level {
    match c
    case InSign(r) => ConfidenceIn(x, r)
    case InEmptyset => x.emptyset
  }

  /** Component c of member i is not beaten by any component of any member. */
  ghost predicate Unbeaten(vs: seq<Spec>, i: nat, c: Component) {
    i < |vs| && forall j, d :: 0 <= j < |vs| ==> Part(vs[j], d) <= Part(vs[i], c)
  }

  /** n is the largest value of component c that some member has, or zero. */
  ghost predicate IsLargest(n: Level, vs: seq<Spec>, c: Component) {
    && (forall i :: 0 <= i < |vs| ==> Part(vs[i], c) <= n)
    && (n == MIN || exists i :: 0 <= i < |vs| && Part(vs[i], c) == n)
  }

  ghost predicate AreLargest(tops: Spec, vs: seq<Spec>) {
    forall c :: IsLargest(Part(tops, c), vs, c)
  }

  lemma PartsBelowMax(x: Spec)
    ensures forall c :: Part(x, c) <= GetMaxWithEmptyset(x)
    ensures exists c :: Part(x, c) == GetMaxWithEmptyset(x)
  {
    var m := GetMaxWithEmptyset(x);
    var c := if x.zero == m then InSign(Null) else if x.neg == m then InSign(Negative)
             else if x.pos == m then InSign(Positive) else InEmptyset;
    assert Part(x, c) == m;
  }

  lemma TopsAreUnbeaten(vs: seq<Spec>, tops: Spec, c: Component)
    requires AreLargest(tops, vs)
    ensures var top := GetMaxWithEmptyset(tops);
            && (forall i: nat :: Unbeaten(vs, i, c) ==> Part(tops, c) == top == Part(vs[i], c))
            && (Part(tops, c) == top != MIN ==> exists i: nat :: Unbeaten(vs, i, c))
  {
    var top := GetMaxWithEmptyset(tops);
    PartsBelowMax(tops);
    var e :| Part(tops, e) == top;
    assert IsLargest(Part(tops, c), vs, c) && IsLargest(top, vs, e);
    if Part(tops, c) == top != MIN {
      var i: nat :| i < |vs| && Part(vs[i], c) == top;
      forall j, d | 0 <= j < |vs| ensures Part(vs[j], d) <= top {
        assert IsLargest(Part(tops, d), vs, d);
      }
      assert Unbeaten(vs, i, c);
    }
  }

  /** Exactly those components survive that no component of any member beats. */
  method KeepHighest(vs: seq<Spec>) returns (r: Spec)
    ensures forall c, i: nat :: Unbeaten(vs, i, c) ==> Part(r, c) == Part(vs[i], c)
    ensures forall c :: Part(r, c) != MIN ==> exists i: nat :: Unbeaten(vs, i, c)
  {
    var zero: Level, neg: Level, pos: Level, emptyset: Level, top: Level := MIN, MIN, MIN, MIN, MIN;
    for i := 0 to |vs|
      invariant AreLargest(Spec(zero, neg, pos, emptyset), vs[..i])
      invariant top == GetMaxWithEmptyset(Spec(zero, neg, pos, emptyset))
    {
      ghost var more := Larger(Spec(zero, neg, pos, emptyset), vs[i]);
      LargestOfMore(Spec(zero, neg, pos, emptyset), vs, i);
      LargerMax(Spec(zero, neg, pos, emptyset), vs[i]);
      if zero < vs[i].zero { zero := vs[i].zero; }
      if neg < vs[i].neg { neg := vs[i].neg; }
      if pos < vs[i].pos { pos := vs[i].pos; }
      if emptyset < vs[i].emptyset { emptyset := vs[i].emptyset; }
      if top < GetMaxWithEmptyset(vs[i]) { top := GetMaxWithEmptyset(vs[i]); }
      assert Spec(zero, neg, pos, emptyset) == more;
    }
    assert vs[..|vs|] == vs;
    ghost var tops := Spec(zero, neg, pos, emptyset);
    if zero != top { zero := MIN; }
    if neg != top { neg := MIN; }
    if pos != top { pos := MIN; }
    if emptyset != top { emptyset := MIN; }
    r := Spec(zero, neg, pos, emptyset);
    KeptAreUnbeaten(vs, tops, r);
  }

  lemma KeptAreUnbeaten(vs: seq<Spec>, tops: Spec, r: Spec)
    requires AreLargest(tops, vs)
    requires r.zero == (if tops.zero != GetMaxWithEmptyset(tops) then MIN else tops.zero)
    requires r.neg == (if tops.neg != GetMaxWithEmptyset(tops) then MIN else tops.neg)
    requires r.pos == (if tops.pos != GetMaxWithEmptyset(tops) then MIN else tops.pos)
    requires r.emptyset == (if tops.emptyset != GetMaxWithEmptyset(tops) then MIN else tops.emptyset)
    ensures forall c, i: nat :: Unbeaten(vs, i, c) ==> Part(r, c) == Part(vs[i], c)
    ensures forall c :: Part(r, c) != MIN ==> exists i: nat :: Unbeaten(vs, i, c)
  {
    var top := GetMaxWithEmptyset(tops);
    assert forall c :: Part(r, c) == if Part(tops, c) == top then top else MIN;
    forall c { TopsAreUnbeaten(vs, tops, c); }
  }

  /** The larger of each component. */
  function Larger(x: Spec, y: Spec): Spec {
    Spec(Max(x.zero, y.zero), Max(x.neg, y.neg), Max(x.pos, y.pos), Max(x.emptyset, y.emptyset))
  }

  lemma LargerPart(x: Spec, y: Spec, c: Component)
    ensures Part(Larger(x, y), c) == Max(Part(x, c), Part(y, c))
  {
    match c
    case InSign(Null) => case InSign(Negative) => case InSign(Positive) => case InEmptyset =>
  }

  lemma LargerMax(x: Spec, y: Spec)
    ensures GetMaxWithEmptyset(Larger(x, y)) == Max(GetMaxWithEmptyset(x), GetMaxWithEmptyset(y))
  {
  }

  lemma LargestOfMore(tops: Spec, vs: seq<Spec>, i: nat)
    requires i < |vs| && AreLargest(tops, vs[..i])
    ensures AreLargest(Larger(tops, vs[i]), vs[..i + 1])
  {
    assert vs[..i + 1] == vs[..i] + [vs[i]];
    forall c ensures IsLargest(Part(Larger(tops, vs[i]), c), vs[..i + 1], c) {
      assert IsLargest(Part(tops, c), vs[..i], c);
      LargerPart(tops, vs[i], c);
      LargestWithOne(Part(tops, c), vs[..i], vs[i], c);
    }
  }

  lemma LargestWithOne(n: Level, vs: seq<Spec>, v: Spec, c: Component)
    requires IsLargest(n, vs, c)
    ensures IsLargest(Max(n, Part(v, c)), vs + [v], c)
  {
    var all, m := vs + [v], Max(n, Part(v, c));
    if m == n != MIN {
      var k :| 0 <= k < |vs| && Part(vs[k], c) == n;
      assert Part(all[k], c) == m;
    } else {
      assert Part(all[|vs|], c) == Part(v, c);
    }
  }

  // ----- Trimming -----

  function KeepIfMax(x: Spec): Spec {
    Spec(if x.zero == MAX then MAX else MIN, if x.neg == MAX then MAX else MIN,
         if x.pos == MAX then MAX else MIN, x.emptyset)
  }

  /** The least confidence in a sign that has any. */
  function LeastNonMin(x: Spec): Level {
    var z := if x.zero != MIN then x.zero else MAX;
    var n := if x.neg != MIN then x.neg else MAX;
    var p := if x.pos != MIN then x.pos else MAX;
    Min(z, Min(n, p))
  }

  /** Only the confidences above the least one, unless there are none. */
  function Trimmed(x: Spec): Spec {
    var m := LeastNonMin(x);
    if GetMax(x) <= m then x
    else Spec(if x.zero > m then x.zero else MIN, if x.neg > m then x.neg else MIN,
              if x.pos > m then x.pos else MIN, x.emptyset)
  }

  /** Some other sign has less confidence, but has some. */
  ghost predicate AboveSome(x: Spec, q: Region) {
    exists p: Region :: MIN < ConfidenceIn(x, p) < ConfidenceIn(x, q)
  }

  ghost predicate HasTwoLevels(x: Spec) {
    exists q: Region :: AboveSome(x, q)
  }

  /** Exactly the lowest confidences of x are gone, unless all are the lowest. */
  ghost predicate KeepsAboveLowest(x: Spec, r: Spec) {
    if HasTwoLevels(x)
    then r.emptyset == x.emptyset
         && forall q: Region :: ConfidenceIn(r, q) == if AboveSome(x, q) then ConfidenceIn(x, q) else MIN
    else r == x
  }

  lemma AboveSomeIs(x: Spec, q: Region)
    ensures AboveSome(x, q) <==> LeastNonMin(x) < ConfidenceIn(x, q)
  {
    var least := LeastNonMin(x);
    if least < ConfidenceIn(x, q) {
      var p := if x.neg == least then Negative else if x.zero == least then Null else Positive;
      assert MIN < ConfidenceIn(x, p) == least;
    }
  }

  lemma LeastRegion(x: Spec, p: Region) returns (q: Region)
    requires ConfidenceIn(x, p) > MIN
    ensures MIN < ConfidenceIn(x, q) == LeastNonMin(x)
  {
    var least := LeastNonMin(x);
    q := if x.neg == least then Negative else if x.zero == least then Null else Positive;
  }

  lemma TrimmedKeeps(x: Spec)
    ensures KeepsAboveLowest(x, Trimmed(x))
  {
    forall q: Region { AboveSomeIs(x, q); }
    if GetMax(x) > LeastNonMin(x) {
      var q := if x.neg == GetMax(x) then Negative else if x.zero == GetMax(x) then Null else Positive;
      assert AboveSome(x, q);
    }
  }

  method RemoveLowestNonMin(x: Spec) returns (r: Spec)
    ensures r == Trimmed(x) && KeepsAboveLowest(x, r)
  {
    TrimmedKeeps(x);
    var zero, neg, pos := x.zero, x.neg, x.pos;
    var minimum: Level := MAX;
    if (zero > MIN && neg == MIN && pos == MIN) || (neg > MIN && zero == MIN && pos == MIN)
       || (pos > MIN && neg == MIN && zero == MIN) {
      return x;
    }
    if zero != MIN && zero < minimum { minimum := zero; }
    if neg != MIN && neg < minimum { minimum := neg; }
    if pos != MIN && pos < minimum { minimum := pos; }
    var cpyZero, cpyNeg, cpyPos := zero, neg, pos;
    if cpyZero == minimum {
      if cpyNeg == minimum && (cpyPos == MIN || cpyPos == minimum) { return x; }
      if cpyPos == minimum && (cpyNeg == MIN || cpyNeg == minimum) { return x; }
      zero := MIN;
    }
    if cpyNeg == minimum {
      if cpyZero == minimum && (cpyPos == MIN || cpyPos == minimum) { return x; }
      if cpyPos == minimum && (cpyZero == MIN || cpyZero == minimum) { return x; }
      neg := MIN;
    }
    if cpyPos == minimum {
      if cpyNeg == minimum && (cpyZero == MIN || cpyZero == minimum) { return x; }
      if cpyZero == minimum && (cpyNeg == MIN || cpyNeg == minimum) { return x; }
      pos := MIN;
    }
    r := Spec(zero, neg, pos, x.emptyset);
  }

  // ----- The Python decoder -----

  datatype Decoded = Emptyset | Element(sign: Sign)

  function BinaryValue(bits: string): int
    requires forall i :: 0 <= i < |bits| ==> bits[i] == '0' || bits[i] == '1'
  {
    if bits == "" then 0
    else 2 * BinaryValue(bits[..|bits| - 1]) + (if bits[|bits| - 1] == '1' then 1 else 0)
  }

  function ElementEncoding(code: int): Sign
    requires 0 <= code < 8
  {
    [Bottom, LessThanZero, GreaterThanZero, NotZero, Sign.Zero, LessThanEqualZero, GreaterThanEqualZero, Top][code]
  }

  lemma ThreeBits(bits: string)
    requires |bits| == 3 && forall i :: 0 <= i < |bits| ==> bits[i] == '0' || bits[i] == '1'
    ensures BinaryValue(bits)
            == (if bits[0] == '1' then 4 else 0) + (if bits[1] == '1' then 2 else 0) + (if bits[2] == '1' then 1 else 0)
  {
    var two := bits[..2];
    var one := two[..1];
    assert one[..0] == "" && BinaryValue("") == 0;
    assert BinaryValue(one) == if bits[0] == '1' then 1 else 0;
    assert BinaryValue(two) == 2 * BinaryValue(one) + if bits[1] == '1' then 1 else 0;
  }

  /** The element whose code has bits for zero, positive and negative. */
  lemma ElementOfBits(x: Spec, threshold: int)
    ensures ElementEncoding((if x.zero >= threshold then 4 else 0) + (if x.pos >= threshold then 2 else 0)
                            + (if x.neg >= threshold then 1 else 0))
            == ToSignAt(x, threshold)
  {
  }

  /** The client's decoder agrees with the analyser's for every threshold it
      admits, but for telling `emptyset` from bottom. */
  method DecodeInClient(x: Spec, threshold: int) returns (d: Decoded)
    requires threshold > 0
    ensures d == if x.emptyset >= threshold && ToSignAt(x, threshold) == Bottom then Emptyset
                 else Element(ToSignAt(x, threshold))
  {
    var bits := "";
    if x.zero >= threshold { bits := bits + "1"; } else { bits := bits + "0"; }
    if x.pos >= threshold { bits := bits + "1"; } else { bits := bits + "0"; }
    if x.neg >= threshold { bits := bits + "1"; } else { bits := bits + "0"; }
    var code := BinaryValue(bits);
    ThreeBits(bits);
    ElementOfBits(x, threshold);
    if x.emptyset >= threshold && code == 0 {
      return Emptyset;
    }
    d := Element(ElementEncoding(code));
  }
}
