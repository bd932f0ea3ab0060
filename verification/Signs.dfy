/** The extended sign lattice (eesi/src/constraint.cc): eight elements, each
    denoting a set of integers that is a union of the negatives, zero and the
    positives. */
module Signs {

  datatype Sign =
    | Bottom
    | LessThanZero
    | GreaterThanZero
    | Zero
    | LessThanEqualZero
    | GreaterThanEqualZero
    | NotZero
    | Top

  /** The three regions of the integers that the lattice can tell apart. */
  datatype Region = Negative | Null | Positive

  function RegionOf(x: int): Region {
    if x < 0 then Negative else if x == 0 then Null else Positive
  }

  predicate Has(s: Sign, r: Region) {
    match r
    case Negative => s.LessThanZero? || s.LessThanEqualZero? || s.NotZero? || s.Top?
    case Null => s.Zero? || s.LessThanEqualZero? || s.GreaterThanEqualZero? || s.Top?
    case Positive => s.GreaterThanZero? || s.GreaterThanEqualZero? || s.NotZero? || s.Top?
  }

  /** The concretisation: integer `x` is described by `s`. */
  predicate Holds(s: Sign, x: int) {
    match s
    case Bottom => false
    case LessThanZero => x < 0
    case GreaterThanZero => x > 0
    case Zero => x == 0
    case LessThanEqualZero => x <= 0
    case GreaterThanEqualZero => x >= 0
    case NotZero => x != 0
    case Top => true
  }

  function Meet(x: Sign, y: Sign): Sign {
    var zero := Has(x, Null) && Has(y, Null);
    var pos := Has(x, Positive) && Has(y, Positive);
    if Has(x, Negative) && Has(y, Negative) then
      if zero then (if pos then Top else LessThanEqualZero) else if pos then NotZero else LessThanZero
    else
      if zero then (if pos then GreaterThanEqualZero else Zero) else if pos then GreaterThanZero else Bottom
  }

  function Join(x: Sign, y: Sign): Sign {
    var zero := Has(x, Null) || Has(y, Null);
    var pos := Has(x, Positive) || Has(y, Positive);
    if Has(x, Negative) || Has(y, Negative) then
      if zero then (if pos then Top else LessThanEqualZero) else if pos then NotZero else LessThanZero
    else
      if zero then (if pos then GreaterThanEqualZero else Zero) else if pos then GreaterThanZero else Bottom
  }

  function Complement(x: Sign): Sign {
    match x
    case Bottom => Top
    case LessThanZero => GreaterThanEqualZero
    case GreaterThanZero => LessThanEqualZero
    case LessThanEqualZero => GreaterThanZero
    case GreaterThanEqualZero => LessThanZero
    case Zero => NotZero
    case NotZero => Zero
    case Top => Bottom
  }

  function Difference(x: Sign, y: Sign): Sign {
    Meet(x, Complement(y))
  }

  predicate Intersects(x: Sign, y: Sign) {
    Meet(x, y) != Bottom
  }

  predicate Below(x: Sign, y: Sign) {
    forall r: Region :: Has(x, r) ==> Has(y, r)
  }

  function AbstractInteger(n: int): (s: Sign)
    ensures Holds(s, n)
    ensures forall t :: Holds(t, n) ==> Below(s, t)
  {
    if n < 0 then LessThanZero else if n == 0 then Zero else GreaterThanZero
  }

  /** The regions of an element say which integers it describes. */
  lemma RegionsDescribe(s: Sign, x: int)
    ensures Holds(s, x) <==> Has(s, RegionOf(x))
  {
  }

  lemma BelowIsInclusion(x: Sign, y: Sign)
    ensures Below(x, y) <==> forall n :: Holds(x, n) ==> Holds(y, n)
  {
    forall n ensures Holds(x, n) == Has(x, RegionOf(n)) && Holds(y, n) == Has(y, RegionOf(n)) {
      RegionsDescribe(x, n);
      RegionsDescribe(y, n);
    }
    assert RegionOf(-1) == Negative && RegionOf(0) == Null && RegionOf(1) == Positive;
    if forall n :: Holds(x, n) ==> Holds(y, n) {
      assert Holds(x, -1) ==> Holds(y, -1);
      assert Holds(x, 0) ==> Holds(y, 0);
      assert Holds(x, 1) ==> Holds(y, 1);
    }
  }

  lemma OperationsHold(x: Sign, y: Sign, n: int)
    ensures Holds(Meet(x, y), n) <==> Holds(x, n) && Holds(y, n)
    ensures Holds(Join(x, y), n) <==> Holds(x, n) || Holds(y, n)
  {
    RegionsDescribe(x, n);
    RegionsDescribe(y, n);
    RegionsDescribe(Meet(x, y), n);
    RegionsDescribe(Join(x, y), n);
    JoinHas(x, y, RegionOf(n));
  }

  lemma JoinHas(x: Sign, y: Sign, r: Region)
    ensures Has(Join(x, y), r) <==> Has(x, r) || Has(y, r)
    ensures Has(Meet(x, y), r) <==> Has(x, r) && Has(y, r)
  {
    match r case _ =>
  }

  lemma ComplementHas(s: Sign, r: Region)
    ensures Has(Complement(s), r) <==> !Has(s, r)
  {
  }

  /** An element is determined by its regions. */
  lemma Extensional(x: Sign, y: Sign)
    requires forall r: Region :: Has(x, r) <==> Has(y, r)
    ensures x == y
  {
    assert Has(x, Negative) == Has(y, Negative) && Has(x, Null) == Has(y, Null) && Has(x, Positive) == Has(y, Positive);
  }
}
