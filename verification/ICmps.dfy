/** Abstraction of a comparison (eesi/src/return_constraints_pass.cc:120-315). */
module ICmps {
  import opened IR
  import opened Exec
  import opened Signs

  function SignedPredicate(p: Predicate): Predicate {
    match p
    case ULT => SLT
    case ULE => SLE
    case UGT => SGT
    case UGE => SGE
    case _ => p
  }

  function SwappedPredicate(p: Predicate): Predicate {
    match p
    case SLT => SGT
    case SGT => SLT
    case SLE => SGE
    case SGE => SLE
    case ULT => UGT
    case UGT => ULT
    case ULE => UGE
    case UGE => ULE
    case _ => p
  }

  /** Signs of x when `x p c` is true and false, for a constant c of sign `s`. */
  function PredicateComplement(p: Predicate, s: Sign): (Sign, Sign)
    requires !IsUnsigned(p)
    requires s == Sign.Zero || s == GreaterThanZero || s == LessThanZero
  {
    match s
    case Zero => (
      match p
      case SLT => (LessThanZero, GreaterThanEqualZero)
      case SGT => (GreaterThanZero, LessThanEqualZero)
      case SLE => (LessThanEqualZero, GreaterThanZero)
      case SGE => (GreaterThanEqualZero, LessThanZero)
      case EQ => (Sign.Zero, NotZero)
      case NE => (NotZero, Sign.Zero)
    )
    case GreaterThanZero => (
      match p
      case SLT => (Top, GreaterThanZero)
      case SGT => (GreaterThanZero, Top)
      case SLE => (Top, GreaterThanZero)
      case SGE => (GreaterThanZero, Top)
      case EQ => (GreaterThanZero, Top)
      case NE => (Top, GreaterThanZero)
    )
    case LessThanZero => (
      match p
      case SLT => (LessThanZero, Top)
      case SGT => (Top, LessThanZero)
      case SLE => (LessThanZero, Top)
      case SGE => (Top, LessThanZero)
      case EQ => (LessThanZero, Top)
      case NE => (Top, LessThanZero)
    )
  }

  function UnsignedReplacement(s: Sign): Sign
    requires s != Bottom
  {
    match s
    case LessThanZero => Bottom
    case GreaterThanZero => GreaterThanZero
    case LessThanEqualZero => Sign.Zero
    case GreaterThanEqualZero => GreaterThanEqualZero
    case Zero => Sign.Zero
    case NotZero => GreaterThanZero
    case Top => GreaterThanEqualZero
  }

  /** The elements for the true and the false branch of `x p y`. */
  function AbstractICmp(p: Predicate, x: Value, y: Value): (Sign, Sign) {
    var predicate0 := if IsConstantInt(y) then SignedPredicate(p) else SwappedPredicate(SignedPredicate(p));
    var num := if IsConstantInt(y) then Some(y) else if IsConstantInt(x) then Some(x) else None;
    var operand0 := if num.None? then None else Some(AbstractInteger(ConstantValue(num.value)));
    var (operand, predicate1) :=
      if y.NullPointer? then (Some(Sign.Zero), predicate0)
      else if x.NullPointer? then (Some(Sign.Zero), SwappedPredicate(predicate0))
      else (operand0, predicate0);
    if operand.None? then (Top, Top) else
    var result := PredicateComplement(predicate1, operand.value);
    if IsUnsigned(p) then (UnsignedReplacement(result.0), UnsignedReplacement(result.1)) else result
  }

  predicate IsConstant(v: Value) {
    IsConstantInt(v) || v.NullPointer?
  }

  /** Two operands of a comparison that LLVM would not have folded, of which
      the constant ones have their value. */
  predicate Operands(x: Value, y: Value, a: int, b: int) {
    && !(IsConstant(x) && IsConstant(y))
    && (IsConstant(x) ==> a == ConstantValue(x))
    && (IsConstant(y) ==> b == ConstantValue(y))
  }

  /** The integer that the abstraction of `x p y` is about. */
  function Subject(x: Value, y: Value, a: int, b: int): int {
    if IsConstant(y) then a else b
  }

  predicate Describes(e: (Sign, Sign), outcome: bool, subject: int) {
    Holds(if outcome then e.0 else e.1, subject)
  }

  /** Neither side constant: nothing is said about either side. */
  lemma NoConstant(p: Predicate, x: Value, y: Value)
    requires !IsConstant(x) && !IsConstant(y)
    ensures AbstractICmp(p, x, y) == (Top, Top)
  {
  }

  /** Signed comparisons and equalities with an integer constant on either
      side are abstracted soundly, for all integers. */
  lemma SignedComparisonIsSound(p: Predicate, x: Value, y: Value, a: int, b: int)
    requires !IsUnsigned(p) && !x.NullPointer? && !y.NullPointer? && Operands(x, y, a, b)
    ensures Describes(AbstractICmp(p, x, y), Compare(p, a, b), Subject(x, y, a, b))
  {
  }

  /** The machine reading of an unsigned comparison at a width of 2^w = m. */
  function Unsigned(n: int, m: nat): int {
    if n < 0 then n + m else n
  }

  predicate Fits(n: int, m: nat) {
    -(m as int) <= 2 * n < m
  }

  /** At every width, an unsigned comparison is one of machine readings. */
  lemma OutcomeIsUnsigned(p: Predicate, a: int, b: int, m: nat)
    requires IsUnsigned(p) && Fits(a, m) && Fits(b, m)
    ensures Outcome(p, a, b) == Compare(p, Unsigned(a, m), Unsigned(b, m))
  {
  }

  /** Unsigned comparisons with an integer constant are abstracted soundly
      exactly when neither side has its sign bit set. */
  lemma UnsignedComparisonSoundIff(p: Predicate, x: Value, y: Value, a: int, b: int, m: nat)
    requires IsUnsigned(p) && !x.NullPointer? && !y.NullPointer? && Operands(x, y, a, b)
    requires IsConstant(x) || IsConstant(y)
    requires Fits(a, m) && Fits(b, m)
    ensures Describes(AbstractICmp(p, x, y), Compare(p, Unsigned(a, m), Unsigned(b, m)), Subject(x, y, a, b))
            <==> a >= 0 && b >= 0
  {
  }

  /** Comparing with a null pointer is abstracted soundly exactly for equality
      and inequality: an ordered predicate is swapped once too often
      (return_constraints_pass.cc:274-298). */
  lemma NullComparisonSoundIff(p: Predicate, v: Value)
    requires !IsConstant(v)
    ensures (forall a: int :: (IsUnsigned(p) ==> a >= 0) ==>
               Describes(AbstractICmp(p, v, NullPointer), Compare(p, a, 0), a))
            <==> p.EQ? || p.NE?
    ensures (forall a: int :: (IsUnsigned(p) ==> a >= 0) ==>
               Describes(AbstractICmp(p, NullPointer, v), Compare(p, 0, a), a))
            <==> p.EQ? || p.NE?
  {
    var e := AbstractICmp(p, v, NullPointer);
    assert !p.EQ? && !p.NE? && !IsUnsigned(p) ==>
        !Describes(e, Compare(p, -1, 0), -1) || !Describes(e, Compare(p, 1, 0), 1);
    assert IsUnsigned(p) ==> !Describes(e, Compare(p, 5, 0), 5);
    var f := AbstractICmp(p, NullPointer, v);
    assert !p.EQ? && !p.NE? && !IsUnsigned(p) ==>
        !Describes(f, Compare(p, 0, -1), -1) || !Describes(f, Compare(p, 0, 1), 1);
    assert IsUnsigned(p) ==> !Describes(f, Compare(p, 0, 5), 5);
  }

  // ----- The abstraction says no less than it could -----

  /** Some integer of sign r compares so with some integer of sign s. */
  ghost predicate Compares(p: Predicate, outcome: bool, r: Region, s: Region) {
    exists a, b :: RegionOf(a) == r && RegionOf(b) == s && Compare(p, a, b) == outcome
  }

  /** Integers of two sizes show what is possible. */
  function Sample(r: Region, size: int): int {
    match r case Negative => -size case Null => 0 case Positive => size
  }

  lemma ComparesIf(p: Predicate, outcome: bool, r: Region, s: Region)
    ensures Compares(p, outcome, r, s) <==>
              || Compare(p, Sample(r, 1), Sample(s, 1)) == outcome
              || Compare(p, Sample(r, 1), Sample(s, 2)) == outcome
              || Compare(p, Sample(r, 2), Sample(s, 1)) == outcome
  {
    assert Compare(p, Sample(r, 1), Sample(s, 1)) == outcome ==> Compares(p, outcome, r, s);
    assert Compare(p, Sample(r, 1), Sample(s, 2)) == outcome ==> Compares(p, outcome, r, s);
    assert Compare(p, Sample(r, 2), Sample(s, 1)) == outcome ==> Compares(p, outcome, r, s);
  }

  /** Comparing with the sides exchanged, and as a signed comparison. */
  lemma ComparesSwapped(p: Predicate, outcome: bool, r: Region, s: Region)
    ensures Compares(SwappedPredicate(p), outcome, r, s) <==> Compares(p, outcome, s, r)
    ensures Compares(SignedPredicate(p), outcome, r, s) <==> Compares(p, outcome, r, s)
  {
    assert forall a, b :: Compare(SwappedPredicate(p), a, b) == Compare(p, b, a);
    assert forall a, b :: Compare(SignedPredicate(p), a, b) == Compare(p, a, b);
  }

  lemma ComplementIsBest(p: Predicate, s: Region, outcome: bool, r: Region)
    requires !IsUnsigned(p)
    ensures var e := PredicateComplement(p, AbstractInteger(Sample(s, 1)));
            Has(if outcome then e.0 else e.1, r) <==> Compares(p, outcome, r, s)
  {
    ComparesIf(p, outcome, r, s);
    match s case Negative => case Null => case Positive =>
  }

  lemma ReplacementHas(e: Sign, r: Region)
    requires e != Bottom
    ensures Has(UnsignedReplacement(e), r) <==> r != Negative && Has(e, r)
  {
  }

  /** What the abstraction says of the compared value for this outcome. */
  function Said(p: Predicate, x: Value, y: Value, outcome: bool): Sign {
    if outcome then AbstractICmp(p, x, y).0 else AbstractICmp(p, x, y).1
  }

  /** With an integer constant on either side, exactly those signs are said to be
      possible with which some integer, a natural if the predicate is unsigned,
      compares so with some integer of the constant's sign. */
  lemma ComparisonIsBest(p: Predicate, x: Value, y: Value, outcome: bool, r: Region)
    requires !x.NullPointer? && !y.NullPointer? && IsConstant(x) != IsConstant(y)
    ensures Has(Said(p, x, y, outcome), r) <==>
              && (IsUnsigned(p) ==> r != Negative)
              && if IsConstant(y) then Compares(p, outcome, r, RegionOf(ConstantValue(y)))
                 else Compares(p, outcome, RegionOf(ConstantValue(x)), r)
  {
    var s := RegionOf(ConstantValue(if IsConstant(y) then y else x));
    var q := if IsConstant(y) then SignedPredicate(p) else SwappedPredicate(SignedPredicate(p));
    SaysComplement(p, q, x, y, s, outcome, r);
    ComparesSwapped(SignedPredicate(p), outcome, r, s);
    ComparesSwapped(p, outcome, r, s);
    ComparesSwapped(p, outcome, s, r);
  }

  lemma SaysComplement(p: Predicate, q: Predicate, x: Value, y: Value, s: Region, outcome: bool, r: Region)
    requires !IsUnsigned(q)
    requires var e := PredicateComplement(q, AbstractInteger(Sample(s, 1)));
             AbstractICmp(p, x, y) == if IsUnsigned(p) then (UnsignedReplacement(e.0), UnsignedReplacement(e.1)) else e
    ensures Has(Said(p, x, y, outcome), r) <==> (IsUnsigned(p) ==> r != Negative) && Compares(q, outcome, r, s)
  {
    var e := PredicateComplement(q, AbstractInteger(Sample(s, 1)));
    ComplementIsBest(q, s, outcome, r);
    ReplacementHas(if outcome then e.0 else e.1, r);
  }

  /** With null, the same is said with the sides exchanged. */
  lemma NullComparisonSays(p: Predicate, v: Value, outcome: bool, r: Region)
    requires !IsConstant(v)
    ensures Has(Said(p, v, NullPointer, outcome), r) <==>
              (IsUnsigned(p) ==> r != Negative) && Compares(p, outcome, Null, r)
    ensures Has(Said(p, NullPointer, v, outcome), r) <==>
              (IsUnsigned(p) ==> r != Negative) && Compares(p, outcome, r, Null)
  {
    var q := SignedPredicate(p);
    SaysComplement(p, SwappedPredicate(q), v, NullPointer, Null, outcome, r);
    SaysComplement(p, q, NullPointer, v, Null, outcome, r);
    ComparesSwapped(q, outcome, r, Null);
    ComparesSwapped(p, outcome, r, Null);
    ComparesSwapped(p, outcome, Null, r);
  }

  /** The comparison cannot mislead its abstraction: it is not an unsigned one
      of a negative integer with a constant. */
  predicate Readable(p: Predicate, x: Value, y: Value, a: int, b: int) {
    IsUnsigned(p) && (IsConstant(x) || IsConstant(y)) ==> a >= 0 && b >= 0
  }

  /** What the analyses use: on naturals for unsigned predicates and on
      equalities for null, the abstraction describes the compared value. */
  lemma ComparisonIsSound(p: Predicate, x: Value, y: Value, a: int, b: int)
    requires Operands(x, y, a, b)
    requires Readable(p, x, y, a, b) && (IsConstant(x) || IsConstant(y))
    requires x.NullPointer? || y.NullPointer? ==> p.EQ? || p.NE?
    ensures Describes(AbstractICmp(p, x, y), Outcome(p, a, b), Subject(x, y, a, b))
  {
    if x.NullPointer? || y.NullPointer? {
    } else if IsUnsigned(p) {
      UnsignedComparisonSoundIff(p, x, y, a, b, 2 * (a + b) + 1);
    }
  }

  /** The outcome of comparing a with b describes m. */
  predicate Tells(p: Predicate, x: Value, y: Value, a: int, b: int, m: int) {
    Operands(x, y, a, b) && Readable(p, x, y, a, b) ==> Describes(AbstractICmp(p, x, y), Outcome(p, a, b), m)
  }

  /** What the outcome of comparing a with b is taken to tell. */
  function Told(p: Predicate, x: Value, y: Value, a: int, b: int): Sign {
    Said(p, x, y, Outcome(p, a, b))
  }

  lemma RightTells(p: Predicate, x: Value, y: Value, n: int)
    requires !IsConstant(x) && IsConstantInt(y) && n == ConstantValue(y) && (IsUnsigned(p) ==> n >= 0)
    ensures || Told(p, x, y, n, n) != Top || Told(p, x, y, n + 1, n) != Top
            || (Readable(p, x, y, n - 1, n) && Told(p, x, y, n - 1, n) != Top)
  {
    match p case EQ => case NE => case SLT => case SLE => case SGT => case SGE =>
            case ULT => case ULE => case UGT => case UGE =>
  }

  lemma LeftTells(p: Predicate, x: Value, y: Value, n: int)
    requires IsConstantInt(x) && !IsConstant(y) && n == ConstantValue(x) && (IsUnsigned(p) ==> n >= 0)
    ensures || Told(p, x, y, n, n) != Top || Told(p, x, y, n, n + 1) != Top
            || (Readable(p, x, y, n, n - 1) && Told(p, x, y, n, n - 1) != Top)
  {
    match p case EQ => case NE => case SLT => case SLE => case SGT => case SGE =>
            case ULT => case ULE => case UGT => case UGE =>
  }

  lemma NullTells(p: Predicate, x: Value, y: Value)
    requires (x.NullPointer? && !IsConstant(y)) || (!IsConstant(x) && y.NullPointer?)
    ensures Told(p, x, y, 0, 0) != Top
  {
    match p case EQ => case NE => case SLT => case SLE => case SGT => case SGE =>
            case ULT => case ULE => case UGT => case UGE =>
  }

  lemma ToldMisleads(p: Predicate, x: Value, y: Value, a: int, b: int)
    requires Operands(x, y, a, b) && Readable(p, x, y, a, b) && Told(p, x, y, a, b) != Top
    ensures exists m :: !Tells(p, x, y, a, b, m)
  {
    var e := Told(p, x, y, a, b);
    var m := if !Holds(e, -1) then -1 else if !Holds(e, 0) then 0 else 1;
    assert !Holds(e, m);
    assert !Tells(p, x, y, a, b, m);
  }

  lemma ConstantMisleads(p: Predicate, x: Value, y: Value, n: int)
    requires IsConstant(x) != IsConstant(y) && n == ConstantValue(if IsConstant(x) then x else y)
    requires IsUnsigned(p) ==> n >= 0
    ensures exists a, b, m :: !Tells(p, x, y, a, b, m)
  {
    if x.NullPointer? || y.NullPointer? {
      NullTells(p, x, y);
      ToldMisleads(p, x, y, 0, 0);
    } else if IsConstant(y) {
      RightTells(p, x, y, n);
      var a := if Told(p, x, y, n, n) != Top then n else if Told(p, x, y, n + 1, n) != Top then n + 1 else n - 1;
      ToldMisleads(p, x, y, a, n);
    } else {
      LeftTells(p, x, y, n);
      var b := if Told(p, x, y, n, n) != Top then n else if Told(p, x, y, n, n + 1) != Top then n + 1 else n - 1;
      ToldMisleads(p, x, y, n, b);
    }
  }

  /** A comparison whose outcome is applied to something else than was compared
      is right about everything exactly if it has no constant. */
  lemma StaleComparisonSoundIff(p: Predicate, x: Value, y: Value)
    requires !(IsConstant(x) && IsConstant(y))
    requires IsUnsigned(p) ==> (IsConstant(x) ==> ConstantValue(x) >= 0) && (IsConstant(y) ==> ConstantValue(y) >= 0)
    ensures (forall a, b, m :: Tells(p, x, y, a, b, m)) <==> !IsConstant(x) && !IsConstant(y)
  {
    if IsConstant(x) || IsConstant(y) {
      ConstantMisleads(p, x, y, ConstantValue(if IsConstant(x) then x else y));
    } else {
      NoConstant(p, x, y);
    }
  }
}
