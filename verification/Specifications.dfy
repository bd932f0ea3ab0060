/** The store of error specifications and the rule by which every change to it
    is made (eesi/src/error_blocks_pass.cc:1195-1258). */
module Specifications {
  import opened IR
  import opened Signs
  import opened Confidence

  type Store = map<string, Spec>

  /** What stays fixed during a run: specifications given as domain knowledge,
      the return ranges, and functions that never get a specification because
      they return nothing or are intrinsics. */
  datatype Env = Env(initial: Store, ranges: map<string, Sign>, void: set<string>)

  function Lookup(s: Store, f: string): Spec {
    if f in s then s[f] else UNKNOWN
  }

  function RangeFor(env: Env, f: string): Sign {
    if f in env.ranges then env.ranges[f] else Top
  }

  predicate Ignore(env: Env, f: string) {
    f in env.initial || f in env.void
  }

  /** The specification to store in place of `current` when `delta` is
      inferred, or `None` if that is to be refused. */
  function Refit(current: Spec, delta: Spec, range: Sign): Option<Spec> {
    var inRange := Intersection(delta, range);
    var joined := if IsUnknown(current) then inRange else Confidence.Join(current, inRange);
    if MaxEquals(joined, range) then None else
    var trimmed := if Equals(joined, range) then Trimmed(joined) else joined;
    var kept := if Equals(joined, range) && Equals(trimmed, range) then KeepIfMax(trimmed) else trimmed;
    if IsUnknown(kept) then None else Some(kept)
  }

  function Updated(env: Env, s: Store, f: string, delta: Spec): Store {
    if Ignore(env, f) then s else
    match Refit(Lookup(s, f), delta, RangeFor(env, f))
    case None => s
    case Some(next) => s[f := next]
  }

  // ----- Whole runs, with any inferred deltas -----

  /** Any function may be given any delta: by the analysis of its blocks, or
      by expansion from functions with a similar use. */
  ghost predicate UpdateStep(env: Env, s: Store, next: Store) {
    exists f, delta :: next == Updated(env, s, f, delta)
  }

  ghost predicate StepsAt(env: Env, run: seq<Store>, k: nat)
    requires k + 1 < |run|
  {
    UpdateStep(env, run[k], run[k + 1])
  }

  ghost predicate IsHistory(env: Env, run: seq<Store>) {
    && |run| > 0 && run[0] == env.initial
    && forall k: nat {:trigger StepsAt(env, run, k)} :: k + 1 < |run| ==> StepsAt(env, run, k)
  }

  /** Some history leads to this store. */
  ghost predicate Reachable(env: Env, s: Store) {
    exists run :: IsHistory(env, run) && run[|run| - 1] == s
  }

  /** The signs a specification admits, if any, are among those of the range and
      not all of them. */
  ghost predicate StrictlyInside(x: Spec, range: Sign) {
    Below(ToSign(x), range) && ToSign(x) != range
  }

  ghost predicate StoreOk(env: Env, s: Store) {
    && (forall f :: f in env.initial ==> f in s && s[f] == env.initial[f])
    && (forall f :: f in s && f !in env.initial ==>
          f !in env.void && !IsUnknown(s[f]) && StrictlyInside(s[f], RangeFor(env, f)))
  }

  /** The same, one sign at a time. */
  lemma InsideMeans(x: Spec, range: Sign)
    ensures StrictlyInside(x, range) <==>
              && (forall r: Region :: ConfidenceIn(x, r) > MIN ==> Has(range, r))
              && (exists r: Region :: Has(range, r) && ConfidenceIn(x, r) == MIN)
  {
    forall r: Region { ToSignHas(x, 1, r); }
    if forall r: Region :: Has(range, r) ==> ConfidenceIn(x, r) > MIN {
      if Below(ToSign(x), range) { Extensional(ToSign(x), range); }
    }
  }

  lemma JoinedWithin(current: Spec, delta: Spec, range: Sign, r: Region)
    requires forall q: Region :: ConfidenceIn(current, q) > MIN ==> Has(range, q)
    ensures ConfidenceIn(Confidence.Join(current, Intersection(delta, range)), r) > MIN ==> Has(range, r)
    ensures ConfidenceIn(Intersection(delta, range), r) > MIN ==> Has(range, r)
  {
    OperationsAt(current, Intersection(delta, range), r);
    FilterAt(delta, range, r);
  }

  lemma TrimmedAt(x: Spec, r: Region)
    ensures ConfidenceIn(Trimmed(x), r) == ConfidenceIn(x, r) || ConfidenceIn(Trimmed(x), r) == MIN
    ensures ConfidenceIn(x, r) == MAX ==> ConfidenceIn(Trimmed(x), r) == MAX
    ensures ConfidenceIn(KeepIfMax(x), r) == if ConfidenceIn(x, r) == MAX then MAX else MIN
    ensures KeepIfMax(x).emptyset == x.emptyset
  {
    match r case Negative => case Null => case Positive =>
  }

  lemma RefitInside(current: Spec, delta: Spec, range: Sign)
    requires IsUnknown(current) || StrictlyInside(current, range)
    ensures var next := Refit(current, delta, range);
            next.Some? ==> !IsUnknown(next.value) && StrictlyInside(next.value, range)
  {
    var next := Refit(current, delta, range);
    if next.Some? {
      var inRange := Intersection(delta, range);
      var joined := if IsUnknown(current) then inRange else Confidence.Join(current, inRange);
      InsideMeans(current, range);
      forall r: Region ensures ConfidenceIn(joined, r) > MIN ==> Has(range, r) {
        JoinedWithin(if IsUnknown(current) then UNKNOWN else current, delta, range, r);
      }
      EqualsHas(joined, range);
      MaxEqualsHas(joined, range);
      if Equals(joined, range) {
        KeptInside(joined, range);
      }
      InsideMeans(next.value, range);
    }
  }

  /** What is left of specifications that fill their range. */
  lemma KeptInside(joined: Spec, range: Sign)
    requires Equals(joined, range) && !MaxEquals(joined, range)
    ensures var trimmed := Trimmed(joined);
            var kept := if Equals(trimmed, range) then KeepIfMax(trimmed) else trimmed;
            && (forall r: Region :: ConfidenceIn(kept, r) > MIN ==> Has(range, r))
            && (exists r: Region :: Has(range, r) && ConfidenceIn(kept, r) == MIN)
  {
    var trimmed := Trimmed(joined);
    EqualsHas(joined, range);
    EqualsHas(trimmed, range);
    MaxEqualsHas(joined, range);
    forall r: Region
      ensures ConfidenceIn(trimmed, r) == ConfidenceIn(joined, r) || ConfidenceIn(trimmed, r) == MIN
      ensures ConfidenceIn(KeepIfMax(trimmed), r) == if ConfidenceIn(trimmed, r) == MAX then MAX else MIN
    {
      TrimmedAt(joined, r);
      TrimmedAt(trimmed, r);
    }
    var r: Region :| !(Has(range, r) <==> ConfidenceIn(joined, r) >= MAX);
    assert Has(range, r) && ConfidenceIn(joined, r) < MAX;
    if !Equals(trimmed, range) {
      var q: Region :| !(Has(range, q) <==> ConfidenceIn(trimmed, q) > MIN);
      assert Has(range, q);
    }
  }

  // ----- An update, one sign at a time -----

  /** What is known and what is inferred together, within the range. */
  function Together(current: Spec, delta: Spec, range: Sign, r: Region): Level {
    Max(ConfidenceIn(current, r), if Has(range, r) then ConfidenceIn(delta, r) else MIN)
  }

  /** Together they have confidence in just the signs of the range. */
  ghost predicate FillRange(current: Spec, delta: Spec, range: Sign) {
    forall r: Region :: Has(range, r) <==> Together(current, delta, range, r) > MIN
  }

  /** And are certain of them. */
  ghost predicate FillWithCertainty(current: Spec, delta: Spec, range: Sign) {
    forall r: Region :: Has(range, r) <==> Together(current, delta, range, r) == MAX
  }

  /** Some sign has less confidence than r, but has some. */
  ghost predicate OutDoes(current: Spec, delta: Spec, range: Sign, r: Region) {
    exists q: Region :: MIN < Together(current, delta, range, q) < Together(current, delta, range, r)
  }

  /** What the update stores for sign r: all that is known, unless that fills the
      range, and then what outdoes something. */
  ghost function ToStore(current: Spec, delta: Spec, range: Sign, r: Region): Level {
    if FillRange(current, delta, range) && !OutDoes(current, delta, range, r) then MIN
    else Together(current, delta, range, r)
  }

  function EmptysetToStore(current: Spec, delta: Spec): Level {
    if IsUnknown(current) then delta.emptyset else Min(current.emptyset, delta.emptyset)
  }

  lemma JoinedIsTogether(current: Spec, delta: Spec, range: Sign, r: Region)
    ensures var inRange := Intersection(delta, range);
            var joined := if IsUnknown(current) then inRange else Confidence.Join(current, inRange);
            && ConfidenceIn(joined, r) == Together(current, delta, range, r)
            && joined.emptyset == EmptysetToStore(current, delta)
  {
    FilterAt(delta, range, r);
    OperationsAt(current, Intersection(delta, range), r);
  }

  lemma KeptIsToStore(joined: Spec, range: Sign, r: Region)
    requires Equals(joined, range) && !MaxEquals(joined, range)
    ensures var trimmed := Trimmed(joined);
            var kept := if Equals(trimmed, range) then KeepIfMax(trimmed) else trimmed;
            && ConfidenceIn(kept, r) == (if AboveSome(joined, r) then ConfidenceIn(joined, r) else MIN)
            && kept.emptyset == joined.emptyset
  {
    var trimmed := Trimmed(joined);
    TrimmedKeeps(joined);
    TrimmedAt(trimmed, r);
    EqualsHas(joined, range);
    EqualsHas(trimmed, range);
    if HasTwoLevels(joined) {
      var q: Region, p: Region :| MIN < ConfidenceIn(joined, p) < ConfidenceIn(joined, q);
      LowestIsGone(joined, p);
    } else {
      MaxEqualsHas(joined, range);
      var q: Region :| !(Has(range, q) <==> ConfidenceIn(joined, q) >= MAX);
      assert MIN < ConfidenceIn(joined, q) < MAX;
      assert !AboveSome(joined, r);
    }
  }

  /** Where there are two levels, trimming leaves some sign out. */
  lemma LowestIsGone(x: Spec, p: Region)
    requires HasTwoLevels(x) && MIN < ConfidenceIn(x, p)
    ensures exists q: Region :: ConfidenceIn(x, q) > MIN && ConfidenceIn(Trimmed(x), q) == MIN
  {
    var q := LeastRegion(x, p);
    AboveSomeIs(x, q);
    TrimmedKeeps(x);
    assert !AboveSome(x, q) && ConfidenceIn(Trimmed(x), q) == MIN;
  }

  /** What is known and inferred, as the update joins it. */
  function Joined(current: Spec, delta: Spec, range: Sign): Spec {
    var inRange := Intersection(delta, range);
    if IsUnknown(current) then inRange else Confidence.Join(current, inRange)
  }

  lemma JoinedFills(current: Spec, delta: Spec, range: Sign)
    ensures Equals(Joined(current, delta, range), range) <==> FillRange(current, delta, range)
    ensures MaxEquals(Joined(current, delta, range), range) <==> FillWithCertainty(current, delta, range)
    ensures forall r: Region ::
              AboveSome(Joined(current, delta, range), r) <==> OutDoes(current, delta, range, r)
  {
    var joined := Joined(current, delta, range);
    forall r: Region ensures ConfidenceIn(joined, r) == Together(current, delta, range, r) {
      JoinedIsTogether(current, delta, range, r);
    }
    EqualsHas(joined, range);
    MaxEqualsHas(joined, range);
  }

  /** The specification that an update stores, unless it says nothing or is
      certain of the whole range. */
  function Trial(joined: Spec, range: Sign): Spec {
    if !Equals(joined, range) then joined
    else if Equals(Trimmed(joined), range) then KeepIfMax(Trimmed(joined)) else Trimmed(joined)
  }

  lemma TrialIsToStore(current: Spec, delta: Spec, range: Sign)
    requires !FillWithCertainty(current, delta, range)
    ensures var kept := Trial(Joined(current, delta, range), range);
            && kept.emptyset == EmptysetToStore(current, delta)
            && forall r: Region :: ConfidenceIn(kept, r) == ToStore(current, delta, range, r)
  {
    var joined := Joined(current, delta, range);
    JoinedFills(current, delta, range);
    forall r: Region
      ensures ConfidenceIn(Trial(joined, range), r) == ToStore(current, delta, range, r)
      ensures Trial(joined, range).emptyset == EmptysetToStore(current, delta)
    {
      JoinedIsTogether(current, delta, range, r);
      if Equals(joined, range) { KeptIsToStore(joined, range, r); }
    }
    assert ConfidenceIn(Trial(joined, range), Null) == ToStore(current, delta, range, Null);
  }

  lemma RefitIsTrial(current: Spec, delta: Spec, range: Sign)
    ensures var joined := Joined(current, delta, range);
            Refit(current, delta, range)
            == if MaxEquals(joined, range) || IsUnknown(Trial(joined, range)) then None else Some(Trial(joined, range))
  {
  }

  /** An update is refused if it would be certain of the whole range, or leave
      nothing to say; otherwise it stores, sign by sign, what is known together,
      but for the lowest confidences if that fills the range. */
  lemma RefitIs(current: Spec, delta: Spec, range: Sign)
    ensures var next := Refit(current, delta, range);
            && (next.None? <==> || FillWithCertainty(current, delta, range)
                                || (EmptysetToStore(current, delta) == MIN
                                    && forall r: Region :: ToStore(current, delta, range, r) == MIN))
            && (next.Some? ==> && next.value.emptyset == EmptysetToStore(current, delta)
                               && forall r: Region ::
                                    ConfidenceIn(next.value, r) == ToStore(current, delta, range, r))
  {
    RefitIsTrial(current, delta, range);
    JoinedFills(current, delta, range);
    if !FillWithCertainty(current, delta, range) {
      TrialIsToStore(current, delta, range);
      UnknownIs(Trial(Joined(current, delta, range), range));
    }
  }

  lemma UnknownIs(x: Spec)
    ensures IsUnknown(x) <==> x.emptyset == MIN && forall r: Region :: ConfidenceIn(x, r) == MIN
  {
    if x.emptyset == MIN && forall r: Region :: ConfidenceIn(x, r) == MIN {
      assert ConfidenceIn(x, Null) == ConfidenceIn(x, Negative) == ConfidenceIn(x, Positive) == MIN;
    }
  }

  /** The same for the store: nothing changes but f's specification, nor that if it
      is given or f has none; where no range is known of f, all its signs count. */
  lemma UpdatedIs(env: Env, s: Store, f: string, delta: Spec, r: Region)
    ensures forall g :: g != f ==> Lookup(Updated(env, s, f, delta), g) == Lookup(s, g)
    ensures f in env.initial || f in env.void ==> Updated(env, s, f, delta) == s
    ensures !(f in env.initial || f in env.void) ==>
              var current, next := Lookup(s, f), Lookup(Updated(env, s, f, delta), f);
              var range := if f in env.ranges then env.ranges[f] else Top;
              next == current || (next.emptyset == EmptysetToStore(current, delta)
                                  && ConfidenceIn(next, r) == ToStore(current, delta, range, r))
  {
    RefitIs(Lookup(s, f), delta, RangeFor(env, f));
  }

  lemma UpdateKeeps(env: Env, s: Store, f: string, delta: Spec)
    requires StoreOk(env, s)
    ensures StoreOk(env, Updated(env, s, f, delta))
  {
    if !Ignore(env, f) {
      RefitInside(Lookup(s, f), delta, RangeFor(env, f));
    }
  }

  /** In every reachable state, the given specifications are as given, and all
      others are of functions that may have one, say something and leave out part
      of the function's range. */
  lemma {:induction false} SpecificationsStayInside(env: Env, run: seq<Store>, k: nat)
    requires IsHistory(env, run) && k < |run|
    ensures StoreOk(env, run[k])
  {
    if k > 0 {
      SpecificationsStayInside(env, run, k - 1);
      assert StepsAt(env, run, k - 1);
      var f, delta :| run[k] == Updated(env, run[k - 1], f, delta);
      UpdateKeeps(env, run[k - 1], f, delta);
    }
  }

  lemma RefitKeepsCertainty(current: Spec, delta: Spec, range: Sign, r: Region)
    requires ConfidenceIn(current, r) == MAX
    ensures var next := Refit(current, delta, range); next.Some? ==> ConfidenceIn(next.value, r) == MAX
  {
    var joined := Confidence.Join(current, Intersection(delta, range));
    OperationsAt(current, Intersection(delta, range), r);
    TrimmedAt(joined, r);
    TrimmedAt(Trimmed(joined), r);
  }

  lemma StepKeepsCertainty(env: Env, s: Store, next: Store, f: string, r: Region)
    requires UpdateStep(env, s, next) && ConfidenceIn(Lookup(s, f), r) == MAX
    ensures ConfidenceIn(Lookup(next, f), r) == MAX
  {
    var g, delta :| next == Updated(env, s, g, delta);
    if g == f {
      RefitKeepsCertainty(Lookup(s, f), delta, RangeFor(env, f), r);
    }
  }

  /** Once certain, a sign stays certain, through joins, removals and all. */
  lemma {:induction false} CertaintyIsKept(env: Env, run: seq<Store>, i: nat, j: nat, f: string, r: Region)
    requires IsHistory(env, run) && i <= j < |run| && ConfidenceIn(Lookup(run[i], f), r) == MAX
    ensures ConfidenceIn(Lookup(run[j], f), r) == MAX
  {
    if i < j {
      CertaintyIsKept(env, run, i, j - 1, f, r);
      assert StepsAt(env, run, j - 1);
      StepKeepsCertainty(env, run[j - 1], run[j], f, r);
    }
  }

  // ----- One level of confidence -----

  /** Every sign that has any confidence has confidence c. */
  predicate OneLevel(c: Level, x: Spec) {
    (x.zero == MIN || x.zero == c) && (x.neg == MIN || x.neg == c) && (x.pos == MIN || x.pos == c)
  }

  /** No doubt whether there are errors at all. */
  predicate Tidy(x: Spec) {
    x.emptyset == MIN || x == EMPTYSET
  }

  predicate Clear(c: Level, x: Spec) {
    OneLevel(c, x) && Tidy(x)
  }

  /** How far a specification has climbed: unknown, none, one sign, two. */
  function Rank(x: Spec): nat {
    if IsUnknown(x) then 0
    else 1 + (if x.zero > MIN then 1 else 0) + (if x.neg > MIN then 1 else 0) + (if x.pos > MIN then 1 else 0)
  }

  lemma LevelOperations(c: Level, x: Spec, y: Spec, s: Sign)
    requires OneLevel(c, x) && OneLevel(c, y)
    ensures OneLevel(c, Confidence.Join(x, y)) && OneLevel(c, Confidence.Meet(x, y)) && OneLevel(c, Intersection(x, s))
    ensures GetMax(x) == MIN || GetMax(x) == c
  {
  }

  lemma TidyOperations(x: Spec, y: Spec, s: Sign)
    requires Tidy(x) && Tidy(y)
    ensures Tidy(Confidence.Join(x, y)) && Tidy(Intersection(x, s))
  {
  }

  /** Where there is one level there is nothing to trim. */
  lemma NothingToTrim(c: Level, x: Spec)
    requires OneLevel(c, x)
    ensures Trimmed(x) == x
  {
  }

  /** At one level, a specification that fills its range is refused: at full
      confidence because it is wrong, and below because nothing is left. */
  lemma FullIsRefused(c: Level, joined: Spec, range: Sign)
    requires Clear(c, joined) && Equals(joined, range) && !MaxEquals(joined, range)
    ensures KeepIfMax(Trimmed(joined)) == UNKNOWN
  {
    EqualsHas(joined, range);
    MaxEqualsHas(joined, range);
    NothingToTrim(c, joined);
    var r: Region :| !(Has(range, r) <==> ConfidenceIn(joined, r) >= MAX);
    match r case Negative => case Null => case Positive =>
  }

  /** At one level, what is stored is what was joined. */
  lemma RefitIsJoin(c: Level, current: Spec, delta: Spec, range: Sign)
    requires Clear(c, current) && Clear(c, delta) && Refit(current, delta, range).Some?
    ensures var inRange := Intersection(delta, range);
            var joined := if IsUnknown(current) then inRange else Confidence.Join(current, inRange);
            Clear(c, inRange) && Clear(c, joined) && Refit(current, delta, range) == Some(joined)
  {
    var inRange := Intersection(delta, range);
    var joined := if IsUnknown(current) then inRange else Confidence.Join(current, inRange);
    LevelOperations(c, delta, delta, range);
    TidyOperations(delta, delta, range);
    LevelOperations(c, current, inRange, range);
    TidyOperations(current, inRange, range);
    if Equals(joined, range) && !MaxEquals(joined, range) {
      NothingToTrim(c, joined);
      FullIsRefused(c, joined, range);
    }
  }

  /** At one level, whichever it is, every change of a specification climbs. */
  lemma RefitClimbs(c: Level, current: Spec, delta: Spec, range: Sign)
    requires Clear(c, current) && Clear(c, delta)
    requires IsUnknown(current) || StrictlyInside(current, range)
    ensures var next := Refit(current, delta, range);
            next.Some? ==>
              && Clear(c, next.value) && Rank(next.value) <= 3
              && (next.value != current ==> Rank(current) < Rank(next.value))
  {
    var next := Refit(current, delta, range);
    if next.Some? {
      RefitIsJoin(c, current, delta, range);
      RefitInside(current, delta, range);
      InsideMeans(next.value, range);
      RankBound(next.value);
      if !IsUnknown(current) { JoinClimbs(c, current, Intersection(delta, range)); }
    }
  }

  lemma RankBound(x: Spec)
    requires exists r: Region :: ConfidenceIn(x, r) == MIN
    ensures Rank(x) <= 3
  {
    var r: Region :| ConfidenceIn(x, r) == MIN;
    match r case Negative => case Null => case Positive =>
  }

  lemma JoinClimbs(c: Level, current: Spec, delta: Spec)
    requires Clear(c, current) && Clear(c, delta)
    requires !IsUnknown(current) && !IsUnknown(Confidence.Join(current, delta))
    ensures Confidence.Join(current, delta) == current || Rank(current) < Rank(Confidence.Join(current, delta))
  {
  }

  /** Inferring the same once more changes nothing. */
  lemma RefitTwice(c: Level, current: Spec, delta: Spec, range: Sign)
    requires Clear(c, current) && Clear(c, delta) && Refit(current, delta, range).Some?
    ensures var next := Refit(current, delta, range).value; Refit(next, delta, range) == Some(next)
  {
    var inRange := Intersection(delta, range);
    var joined := if IsUnknown(current) then inRange else Confidence.Join(current, inRange);
    RefitIsJoin(c, current, delta, range);
    assert Confidence.Join(joined, inRange) == joined;
    assert !Equals(joined, range) by {
      if Equals(joined, range) { FullIsRefused(c, joined, range); }
    }
  }

  lemma TrimmedBelow(x: Spec)
    ensures Confidence.Join(Trimmed(x), x) == x && Confidence.Join(KeepIfMax(x), x) == x
    ensures Confidence.Join(KeepIfMax(Trimmed(x)), x) == x
  {
  }

  /** Inferring for the first time and once more is inferring once, whatever the
      confidences: what was trimmed is trimmed again. */
  lemma FirstRefitTwice(delta: Spec, range: Sign)
    requires Refit(UNKNOWN, delta, range).Some?
    ensures var next := Refit(UNKNOWN, delta, range).value; Refit(next, delta, range) == Some(next)
  {
    var inRange, next := Intersection(delta, range), Refit(UNKNOWN, delta, range).value;
    TrimmedBelow(inRange);
    assert Confidence.Join(inRange, inRange) == inRange;
    assert Confidence.Join(next, inRange) == inRange;
  }

  lemma TrimmedKeepsLevel(c: Level, x: Spec)
    requires OneLevel(c, x)
    ensures OneLevel(c, Trimmed(x)) && OneLevel(c, KeepIfMax(x))
  {
  }

  lemma RefitKeepsLevel(c: Level, current: Spec, delta: Spec, range: Sign)
    requires OneLevel(c, current) && OneLevel(c, delta)
    ensures var next := Refit(current, delta, range); next.Some? ==> OneLevel(c, next.value)
  {
    var inRange := Intersection(delta, range);
    var joined := if IsUnknown(current) then inRange else Confidence.Join(current, inRange);
    LevelOperations(c, delta, delta, range);
    LevelOperations(c, current, inRange, range);
    KeptHasLevel(c, joined, range);
  }

  lemma KeptHasLevel(c: Level, joined: Spec, range: Sign)
    requires OneLevel(c, joined)
    ensures var trimmed := if Equals(joined, range) then Trimmed(joined) else joined;
            OneLevel(c, trimmed) && OneLevel(c, KeepIfMax(trimmed))
  {
    TrimmedKeepsLevel(c, joined);
    TrimmedKeepsLevel(c, Trimmed(joined));
  }
}
