/** The bit-vector encoding of the sign lattice (eesi/src/constraint.cc:10-25). */
module SignCodes {
  import opened Signs

  function MeetCode(x: Sign): bv8 {
    match x
    case Bottom => 0x80
    case LessThanZero => 0xC0
    case GreaterThanZero => 0xA0
    case Zero => 0x90
    case LessThanEqualZero => 0xD8
    case GreaterThanEqualZero => 0xB4
    case NotZero => 0xE2
    case Top => 0xFF
  }

  function JoinCode(x: Sign): bv8 {
    match x
    case Bottom => 0xFF
    case LessThanZero => 0x4B
    case GreaterThanZero => 0x27
    case Zero => 0x1D
    case LessThanEqualZero => 0x09
    case GreaterThanEqualZero => 0x05
    case NotZero => 0x03
    case Top => 0x01
  }

  /** Which bit of a join code stands for `y`. */
  function OffsetMask(y: Sign): bv8 {
    match y
    case Bottom => 0x80
    case LessThanZero => 0x40
    case GreaterThanZero => 0x20
    case Zero => 0x10
    case LessThanEqualZero => 0x08
    case GreaterThanEqualZero => 0x04
    case NotZero => 0x02
    case Top => 0x01
  }

  datatype Lookup = NoEntry | Found(element: Sign)

  /** The decoding tables; `NoEntry` is the exception the lookup would throw. */
  function MeetDecode(c: bv8): Lookup {
    if c == 0x80 then Found(Bottom)
    else if c == 0xC0 then Found(LessThanZero)
    else if c == 0xA0 then Found(GreaterThanZero)
    else if c == 0x90 then Found(Zero)
    else if c == 0xD8 then Found(LessThanEqualZero)
    else if c == 0xB4 then Found(GreaterThanEqualZero)
    else if c == 0xE2 then Found(NotZero)
    else if c == 0xFF then Found(Top)
    else NoEntry
  }

  function JoinDecode(c: bv8): Lookup {
    if c == 0xFF then Found(Bottom)
    else if c == 0x4B then Found(LessThanZero)
    else if c == 0x27 then Found(GreaterThanZero)
    else if c == 0x1D then Found(Zero)
    else if c == 0x09 then Found(LessThanEqualZero)
    else if c == 0x05 then Found(GreaterThanEqualZero)
    else if c == 0x03 then Found(NotZero)
    else if c == 0x01 then Found(Top)
    else NoEntry
  }

  function BitMeet(x: Sign, y: Sign): Lookup {
    MeetDecode(MeetCode(x) & MeetCode(y))
  }

  function BitJoin(x: Sign, y: Sign): Lookup {
    JoinDecode(JoinCode(x) & JoinCode(y))
  }

  predicate BitIsLessThan(x: Sign, y: Sign) {
    JoinCode(x) & OffsetMask(y) != 0
  }

  lemma MeetCodes(x: Sign, y: Sign)
    ensures BitMeet(x, y) == Found(Meet(x, y))
  {
    match x
    case Bottom => case LessThanZero => case GreaterThanZero => case Zero =>
    case LessThanEqualZero => case GreaterThanEqualZero => case NotZero => case Top =>
  }

  lemma JoinCodes(x: Sign, y: Sign)
    ensures BitJoin(x, y) == Found(Join(x, y))
  {
    match x
    case Bottom => case LessThanZero => case GreaterThanZero => case Zero =>
    case LessThanEqualZero => case GreaterThanEqualZero => case NotZero => case Top =>
  }

  lemma OrderCodes(x: Sign, y: Sign)
    ensures BitIsLessThan(x, y) <==> Below(x, y)
  {
    assert Below(x, y) <==> && (Has(x, Negative) ==> Has(y, Negative)) && (Has(x, Null) ==> Has(y, Null))
                            && (Has(x, Positive) ==> Has(y, Positive));
    match x
    case Bottom => case LessThanZero => case GreaterThanZero => case Zero =>
    case LessThanEqualZero => case GreaterThanEqualZero => case NotZero => case Top =>
  }

  /** The bit-vector operations never miss a table entry, and they are
      intersection, union, complement and inclusion of sets of integers. */
  lemma BitVectorsAreSetsOfIntegers(x: Sign, y: Sign)
    ensures BitMeet(x, y) == Found(Meet(x, y))
    ensures BitJoin(x, y) == Found(Join(x, y))
    ensures forall n :: Holds(Meet(x, y), n) <==> Holds(x, n) && Holds(y, n)
    ensures forall n :: Holds(Join(x, y), n) <==> Holds(x, n) || Holds(y, n)
    ensures forall n :: Holds(Complement(x), n) <==> !Holds(x, n)
    ensures BitIsLessThan(x, y) <==> forall n :: Holds(x, n) ==> Holds(y, n)
  {
    MeetCodes(x, y);
    JoinCodes(x, y);
    OrderCodes(x, y);
    BelowIsInclusion(x, y);
    forall n
      ensures Holds(Meet(x, y), n) <==> Holds(x, n) && Holds(y, n)
      ensures Holds(Join(x, y), n) <==> Holds(x, n) || Holds(y, n)
    {
      OperationsHold(x, y, n);
    }
  }
}
