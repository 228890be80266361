/**
 * The oracle's judges: verdicts and the reasons they name, aggregate parity,
 * the null discriminator, the boundary check and the block layout. Each is held
 * to what its declaration asks for, read from the declaration itself, and each
 * reason to the first thing that is not as declared. The facts about columns
 * say what each of them can and cannot see.
 */
module Judges {
  import opened Util
  import opened Cursor

  datatype Check =
    | RegistryAdmission | SchemaExactness | AggregateParity | NullDiscriminator | Boundary
    | Refusal | BlockStructure | Checksum | RecipeSecurity | ServeGate

  datatype Code =
    | NoCode
    | EmptySpec | MissingGroundTruthKey | NotComputed | Mismatch | CorroboratingMismatch
    | NoDeclaration | EmptyWithoutReason | TableNotDeclared | GroundTruthDisagrees | NullCountMismatch
    | NotDiscriminating | NanAsValue
    | NoBoundaryColumns | SourceNotProbed | ColumnAbsent | BoundsDiverged
    | CountMismatch | RowsMissing | LayoutMismatch
    | DialectUnresolvable | NameMismatch | AbsentFromListing | RefusalOmitsRegistry | UnregisteredAccepted
    | NoColumns | ColumnCount | ColumnSetOrOrder | TypeMismatch
    | ModeAccepted | WrongError
    | DataLayerDiffers | BytesOnly
    | NoMutations | MutationAccepted
    | CopiedCold | CopiedWarm | ColdMismatch | ColdNoDecode | WarmMiss | WarmDecoded

  /** The check a code belongs to; no code belongs to two. */
  function CheckOf(code: Code): Option<Check> {
    match code
    case NoCode => None
    case EmptySpec | MissingGroundTruthKey | NotComputed | Mismatch | CorroboratingMismatch => Some(AggregateParity)
    case NoDeclaration | EmptyWithoutReason | TableNotDeclared | GroundTruthDisagrees | NullCountMismatch
       | NotDiscriminating | NanAsValue => Some(NullDiscriminator)
    case NoBoundaryColumns | SourceNotProbed | ColumnAbsent | BoundsDiverged => Some(Boundary)
    case CountMismatch | RowsMissing | LayoutMismatch => Some(BlockStructure)
    case DialectUnresolvable | NameMismatch | AbsentFromListing | RefusalOmitsRegistry | UnregisteredAccepted =>
      Some(RegistryAdmission)
    case NoColumns | ColumnCount | ColumnSetOrOrder | TypeMismatch => Some(SchemaExactness)
    case ModeAccepted | WrongError => Some(Refusal)
    case DataLayerDiffers | BytesOnly => Some(Checksum)
    case NoMutations | MutationAccepted => Some(RecipeSecurity)
    case CopiedCold | CopiedWarm | ColdMismatch | ColdNoDecode | WarmMiss | WarmDecoded => Some(ServeGate)
  }

  /** The (check, code) pairs that own a mechanism. */
  predicate HasMechanism(check: Check, code: Code) { CheckOf(code) == Some(check) }

  datatype Comparison = Comparison(ok: bool, code: Code)

  datatype Status = Pass | Fail | Skipped

  datatype CheckResult = CheckResult(check: Check, status: Status, reason: Code, comparisons: seq<Comparison>)

  /** The code of the first failing comparison that carries one. */
  function FirstCode(cs: seq<Comparison>): Code {
    if cs == [] then NoCode
    else if !cs[0].ok && cs[0].code != NoCode then cs[0].code
    else FirstCode(cs[1..])
  }

  /** What every check result does on construction: a failure without a reason takes one from its comparisons. */
  function Finished(check: Check, status: Status, reason: Code, cs: seq<Comparison>): CheckResult {
    CheckResult(check, status, if status.Fail? && reason == NoCode then FirstCode(cs) else reason, cs)
  }

  predicate AllOk(cs: seq<Comparison>) { forall c | c in cs :: c.ok }

  function Verdict(cs: seq<Comparison>): Status { if AllOk(cs) then Pass else Fail }

  /** Every comparison that failed carries a code of the check that owns a mechanism. */
  predicate Coded(check: Check, cs: seq<Comparison>) {
    forall c | c in cs && !c.ok :: HasMechanism(check, c.code)
  }

  /** The reason is the code of the first comparison that failed. */
  ghost predicate NamesFirst(cs: seq<Comparison>, reason: Code) {
    exists k | 0 <= k < |cs| :: !cs[k].ok && cs[k].code == reason && forall j | 0 <= j < k :: cs[j].ok
  }

  lemma {:induction false} FirstCodeNamesFirst(check: Check, cs: seq<Comparison>)
    requires Coded(check, cs) && !AllOk(cs)
    ensures NamesFirst(cs, FirstCode(cs)) && HasMechanism(check, FirstCode(cs))
  {
    assert cs[0] in cs;
    if cs[0].ok {
      FirstCodeNamesFirst(check, cs[1..]);
      var k :| 0 <= k < |cs[1..]| && !cs[1..][k].ok && cs[1..][k].code == FirstCode(cs[1..])
               && forall j | 0 <= j < k :: cs[1..][j].ok;
      assert cs[k + 1] == cs[1..][k];
      assert forall j | 0 < j < k + 1 :: cs[j] == cs[1..][j - 1];
    } else {
      assert cs[0].code == FirstCode(cs);
    }
  }

  /** A check that judges by its comparisons passes when all hold, and otherwise names the first that does not. */
  lemma VerdictNamesFirst(check: Check, cs: seq<Comparison>)
    requires Coded(check, cs)
    ensures var r := Finished(check, Verdict(cs), NoCode, cs);
            && (r.status.Pass? <==> AllOk(cs))
            && (r.status.Fail? ==> NamesFirst(cs, r.reason) && HasMechanism(check, r.reason))
  {
    if !AllOk(cs) {
      FirstCodeNamesFirst(check, cs);
    }
  }

  /** The first failure of a list is in its first part, unless all of that holds. */
  lemma {:induction false} FirstInTwo(check: Check, a: seq<Comparison>, b: seq<Comparison>)
    requires Coded(check, a)
    ensures FirstCode(a + b) == if AllOk(a) then FirstCode(b) else FirstCode(a)
  {
    if a == [] {
      assert a + b == b;
    } else {
      assert a[0] in a && (a + b)[1..] == a[1..] + b;
      FirstInTwo(check, a[1..], b);
      assert a == [a[0]] + a[1..];
      AllOkAppend([a[0]], a[1..]);
      AllOkOne(a[0]);
    }
  }

  lemma FirstOfOne(c: Comparison)
    ensures FirstCode([c]) == if c.ok then NoCode else c.code
  {
    assert [c][1..] == [] && FirstCode([]) == NoCode;
  }

  lemma FirstOfTwo(a: Comparison, b: Comparison)
    ensures FirstCode([a, b]) == if !a.ok && a.code != NoCode then a.code else if b.ok then NoCode else b.code
  {
    assert [a, b][1..] == [b];
    FirstOfOne(b);
  }

  lemma FirstOfThree(a: Comparison, b: Comparison, c: Comparison)
    ensures FirstCode([a, b, c])
         == if !a.ok && a.code != NoCode then a.code
            else if !b.ok && b.code != NoCode then b.code else if c.ok then NoCode else c.code
  {
    assert [a, b, c][1..] == [b, c];
    FirstOfTwo(b, c);
  }

  // ---- aggregate parity --------------------------------------------------

  datatype Value = Number(x: real) | Word(s: string)

  datatype Aggregate = Aggregate(key: string, corroborating: bool, tolerance: real)

  function Abs(x: real): real { if x < 0.0 then -x else x }

  function Max(a: real, b: real): real { if a < b then b else a }

  /** math.isclose with its default relative tolerance left in place. */
  predicate IsClose(a: real, b: real, tolerance: real) {
    Abs(a - b) <= Max(0.000000001 * Max(Abs(a), Abs(b)), tolerance)
  }

  predicate Agrees(spec: Aggregate, actual: Value, expected: Value) {
    if spec.tolerance > 0.0 && actual.Number? && expected.Number?
    then IsClose(actual.x, expected.x, spec.tolerance) else actual == expected
  }

  function Compared(spec: Aggregate, computed: map<string, Value>, truth: map<string, Value>): Comparison {
    if spec.key !in truth then Comparison(false, MissingGroundTruthKey)
    else if spec.key !in computed then Comparison(false, NotComputed)
    else Comparison(Agrees(spec, computed[spec.key], truth[spec.key]),
                    if spec.corroborating then CorroboratingMismatch else Mismatch)
  }

  /** A missing value gates even when it is only corroborating; a differing one gates when it is not. */
  predicate Gates(spec: Aggregate, computed: map<string, Value>, truth: map<string, Value>) {
    spec.key !in truth || spec.key !in computed
    || (!spec.corroborating && !Agrees(spec, computed[spec.key], truth[spec.key]))
  }

  /** The code of the first gating failure, if there is one. */
  function FirstGating(cs: seq<Comparison>): Code {
    if cs == [] then NoCode
    else if !cs[0].ok && cs[0].code !in {NoCode, CorroboratingMismatch} then cs[0].code
    else FirstGating(cs[1..])
  }

  lemma {:induction false} FirstGatingAppend(cs: seq<Comparison>, c: Comparison)
    ensures FirstGating(cs + [c])
         == if FirstGating(cs) != NoCode then FirstGating(cs)
            else if !c.ok && c.code !in {NoCode, CorroboratingMismatch} then c.code else NoCode
  {
    if cs == [] {
      assert [c][1..] == [];
    } else {
      assert (cs + [c])[1..] == cs[1..] + [c];
      FirstGatingAppend(cs[1..], c);
    }
  }

  /** The difference is at most the bound; no difference is, of a negative one. */
  predicate Near(a: real, b: real, bound: real) { -bound <= a - b <= bound }

  /**
   * What it takes for two values to agree. Two numbers under a tolerance may
   * differ by it, or by a thousand-millionth of either; anything else has to be
   * equal.
   */
  predicate Tolerated(tolerance: real, actual: Value, expected: Value) {
    match (actual, expected)
    case (Number(a), Number(b)) =>
      if tolerance > 0.0 then
        || Near(a, b, tolerance)
        || Near(a, b, a / 1000000000.0) || Near(a, b, -a / 1000000000.0)
        || Near(a, b, b / 1000000000.0) || Near(a, b, -b / 1000000000.0)
      else a == b
    case (_, _) => actual == expected
  }

  /** Both values are there and agree. */
  predicate Matches(spec: Aggregate, computed: map<string, Value>, truth: map<string, Value>) {
    && spec.key in truth && spec.key in computed
    && Tolerated(spec.tolerance, computed[spec.key], truth[spec.key])
  }

  /** Both values are there, and agree unless they need not. */
  predicate Clears(spec: Aggregate, computed: map<string, Value>, truth: map<string, Value>) {
    && spec.key in truth && spec.key in computed
    && (spec.corroborating || Matches(spec, computed, truth))
  }

  /** What a comparison of the aggregate is filed under. */
  function FiledUnder(spec: Aggregate, computed: map<string, Value>, truth: map<string, Value>): Code {
    if spec.key !in truth then MissingGroundTruthKey
    else if spec.key !in computed then NotComputed
    else if spec.corroborating then CorroboratingMismatch else Mismatch
  }

  lemma AgreesExactly(spec: Aggregate, actual: Value, expected: Value)
    ensures Agrees(spec, actual, expected) <==> Tolerated(spec.tolerance, actual, expected)
  {
  }

  predicate ComparedExactly(spec: Aggregate, computed: map<string, Value>, truth: map<string, Value>) {
    && (Gates(spec, computed, truth) <==> !Clears(spec, computed, truth))
    && Compared(spec, computed, truth) == Comparison(Matches(spec, computed, truth), FiledUnder(spec, computed, truth))
  }

  lemma ComparesExactly(spec: Aggregate, computed: map<string, Value>, truth: map<string, Value>)
    ensures ComparedExactly(spec, computed, truth)
  {
    if spec.key in truth && spec.key in computed {
      AgreesExactly(spec, computed[spec.key], truth[spec.key]);
    }
  }

  /**
   * Parity passes exactly when every value is there and those not merely
   * corroborating agree; a failure is named after the first aggregate that
   * gates, never after a corroborating disagreement.
   */
  method CheckAggregateParity(computed: map<string, Value>, truth: map<string, Value>, specs: seq<Aggregate>)
    returns (r: CheckResult)
    ensures r.check == AggregateParity && !r.status.Skipped? && (specs == [] ==> r.reason == EmptySpec)
    ensures r.status.Pass? <==>
      specs != [] && forall i | 0 <= i < |specs| :: Clears(specs[i], computed, truth)
    ensures r.status.Fail? ==> HasMechanism(AggregateParity, r.reason) && r.reason != CorroboratingMismatch
    ensures r.status.Fail? && specs != [] ==>
      exists i | 0 <= i < |specs| :: !Clears(specs[i], computed, truth)
        && r.reason == FiledUnder(specs[i], computed, truth)
        && forall j | 0 <= j < i :: Clears(specs[j], computed, truth)
    ensures specs != [] ==> |r.comparisons| == |specs|
    ensures specs != [] ==> forall i | 0 <= i < |specs| ::
      && (r.comparisons[i].ok <==> Matches(specs[i], computed, truth))
      && r.comparisons[i].code == FiledUnder(specs[i], computed, truth)
  {
    forall i | 0 <= i < |specs| ensures ComparedExactly(specs[i], computed, truth) {
      ComparesExactly(specs[i], computed, truth);
    }
    if specs == [] {
      return Finished(AggregateParity, Fail, EmptySpec, []);
    }
    var comparisons: seq<Comparison>, gatingOk := [], true;
    ghost var first := 0;
    for i := 0 to |specs|
      invariant |comparisons| == i
      invariant forall j | 0 <= j < i :: comparisons[j] == Compared(specs[j], computed, truth)
      invariant gatingOk ==> FirstGating(comparisons) == NoCode
      invariant gatingOk <==> forall j | 0 <= j < i :: !Gates(specs[j], computed, truth)
      invariant !gatingOk ==> 0 <= first < i && Gates(specs[first], computed, truth)
      invariant !gatingOk ==> forall j | 0 <= j < first :: !Gates(specs[j], computed, truth)
      invariant !gatingOk ==> FirstGating(comparisons) == Compared(specs[first], computed, truth).code
    {
      var comparison := Compared(specs[i], computed, truth);
      FirstGatingAppend(comparisons, comparison);
      if Gates(specs[i], computed, truth) {
        if gatingOk {
          first := i;
        }
        gatingOk := false;
      }
      comparisons := comparisons + [comparison];
    }
    return Finished(AggregateParity, if gatingOk then Pass else Fail,
                    if gatingOk then NoCode else FirstGating(comparisons), comparisons);
  }

  /** On these two values the comparison is the one declared: a difference of at most the tolerance. */
  predicate BoundedByTolerance(spec: Aggregate, a: real, b: real) {
    Agrees(spec, Number(a), Number(b)) <==> Abs(a - b) <= spec.tolerance
  }

  lemma SmallValuesAreBounded(spec: Aggregate, size: real, a: real, b: real)
    requires spec.tolerance > 0.0 && size <= spec.tolerance * 1000000000.0 && Abs(a) <= size && Abs(b) <= size
    ensures BoundedByTolerance(spec, a, b)
  {
    assert 0.000000001 * Max(Abs(a), Abs(b)) <= spec.tolerance;
  }

  lemma LargeValuesAreNot(spec: Aggregate, size: real)
    requires spec.tolerance > 0.0 && size > spec.tolerance * 1000000000.0
    ensures var near := size - 0.000000001 * size;
            Abs(size) <= size && Abs(near) <= size && !BoundedByTolerance(spec, size, near)
  {
    var near := size - 0.000000001 * size;
    assert 0.0 < near < size && Abs(size - near) == 0.000000001 * size;
    assert Max(Abs(size), Abs(near)) == size;
  }

  /**
   * A declared tolerance bounds the difference of all values up to a size
   * exactly when that size is at most a thousand million times the tolerance;
   * above it the relative tolerance left in place takes over.
   */
  lemma ToleranceBoundsExactly(spec: Aggregate, size: real)
    requires spec.tolerance > 0.0 && size >= 0.0
    ensures (forall a, b | Abs(a) <= size && Abs(b) <= size :: BoundedByTolerance(spec, a, b))
       <==> size <= spec.tolerance * 1000000000.0
  {
    if size <= spec.tolerance * 1000000000.0 {
      forall a, b | Abs(a) <= size && Abs(b) <= size ensures BoundedByTolerance(spec, a, b) {
        SmallValuesAreBounded(spec, size, a, b);
      }
    } else {
      LargeValuesAreNot(spec, size);
    }
  }

  // ---- the null discriminator --------------------------------------------

  datatype Discriminator = Discriminator(column: string, expected: map<string, int>, truthKey: Option<string>)

  function Lookup<V>(m: map<string, V>, k: string): Option<V> { if k in m then Some(m[k]) else None }

  /** The three comparisons of the artifact's own counts. */
  function CountComparisons(expected: int, actual: Option<int>, noNan: bool, rows: int): seq<Comparison> {
    [Comparison(actual == Some(expected), NullCountMismatch),
     Comparison(rows - (if actual.Some? then actual.value else 0) != rows, NotDiscriminating),
     Comparison(noNan, NanAsValue)]
  }

  /** The comparisons one declared discriminator adds. */
  function DiscriminatorComparisons(
      d: Discriminator, table: string, rows: int, nulls: map<string, int>, nans: map<string, int>, truth: map<string, int>)
    : seq<Comparison>
  {
    if table !in d.expected then [Comparison(false, TableNotDeclared)]
    else
      (if d.truthKey.None? then []
       else [Comparison(Lookup(truth, d.truthKey.value) == Some(d.expected[table]), GroundTruthDisagrees)])
      + CountComparisons(d.expected[table], Lookup(nulls, d.column), d.column in nans ==> nans[d.column] == 0, rows)
  }

  /** Nulls arrive as declared: exactly, at least one, none of them as a NaN, and as the ground truth has it. */
  predicate Discriminates(d: Discriminator, table: string, nulls: map<string, int>, nans: map<string, int>,
                          truth: map<string, int>)
  {
    && table in d.expected && d.expected[table] != 0
    && d.column in nulls && nulls[d.column] == d.expected[table]
    && (d.column in nans ==> nans[d.column] == 0)
    && (d.truthKey.Some? ==> d.truthKey.value in truth && truth[d.truthKey.value] == d.expected[table])
  }

  /** Why one does not, the ground truth before the artifact and its count before its NaNs. */
  function Cause(d: Discriminator, table: string, nulls: map<string, int>, truth: map<string, int>): Code {
    if table !in d.expected then TableNotDeclared
    else if d.truthKey.Some? && !(d.truthKey.value in truth && truth[d.truthKey.value] == d.expected[table])
    then GroundTruthDisagrees
    else if !(d.column in nulls && nulls[d.column] == d.expected[table]) then NullCountMismatch
    else if d.expected[table] == 0 then NotDiscriminating
    else NanAsValue
  }

  predicate AllDiscriminate(ds: seq<Discriminator>, table: string, nulls: map<string, int>, nans: map<string, int>,
                            truth: map<string, int>)
  {
    forall d | d in ds :: Discriminates(d, table, nulls, nans, truth)
  }

  lemma OneMoreDiscriminates(ds: seq<Discriminator>, i: nat, table: string, nulls: map<string, int>,
                             nans: map<string, int>, truth: map<string, int>)
    requires i < |ds|
    ensures AllDiscriminate(ds[..i + 1], table, nulls, nans, truth)
       <==> AllDiscriminate(ds[..i], table, nulls, nans, truth) && Discriminates(ds[i], table, nulls, nans, truth)
  {
    assert ds[..i + 1] == ds[..i] + [ds[i]];
  }

  /** The code is the cause of the first that does not discriminate. */
  ghost predicate Blamed(ds: seq<Discriminator>, table: string, nulls: map<string, int>, nans: map<string, int>,
                         truth: map<string, int>, code: Code)
  {
    exists i | 0 <= i < |ds| ::
      && !Discriminates(ds[i], table, nulls, nans, truth) && code == Cause(ds[i], table, nulls, truth)
      && forall j | 0 <= j < i :: Discriminates(ds[j], table, nulls, nans, truth)
  }

  lemma StillBlamed(ds: seq<Discriminator>, i: nat, table: string, nulls: map<string, int>,
                    nans: map<string, int>, truth: map<string, int>, code: Code)
    requires i < |ds| && Blamed(ds[..i], table, nulls, nans, truth, code)
    ensures Blamed(ds[..i + 1], table, nulls, nans, truth, code)
  {
    var k :| 0 <= k < i && !Discriminates(ds[..i][k], table, nulls, nans, truth)
      && code == Cause(ds[..i][k], table, nulls, truth)
      && forall j | 0 <= j < k :: Discriminates(ds[..i][j], table, nulls, nans, truth);
    var more := ds[..i + 1];
    assert more[k] == ds[..i][k] && forall j | 0 <= j < k :: more[j] == ds[..i][j];
  }

  lemma FirstBlamed(ds: seq<Discriminator>, i: nat, table: string, nulls: map<string, int>,
                    nans: map<string, int>, truth: map<string, int>)
    requires i < |ds| && AllDiscriminate(ds[..i], table, nulls, nans, truth)
    requires !Discriminates(ds[i], table, nulls, nans, truth)
    ensures Blamed(ds[..i + 1], table, nulls, nans, truth, Cause(ds[i], table, nulls, truth))
  {
    var more := ds[..i + 1];
    assert more[i] == ds[i] && forall j | 0 <= j < i :: more[j] == ds[..i][j] && ds[..i][j] in ds[..i];
  }

  /** The comparisons of all that are declared, in their order. */
  function AllCompared(ds: seq<Discriminator>, table: string, rows: int, nulls: map<string, int>,
                       nans: map<string, int>, truth: map<string, int>): seq<Comparison>
  {
    if ds == [] then []
    else
      AllCompared(ds[..|ds| - 1], table, rows, nulls, nans, truth)
      + DiscriminatorComparisons(ds[|ds| - 1], table, rows, nulls, nans, truth)
  }

  lemma {:induction false} AllComparedExactly(ds: seq<Discriminator>, table: string, rows: int, nulls: map<string, int>,
                                              nans: map<string, int>, truth: map<string, int>)
    ensures var cs := AllCompared(ds, table, rows, nulls, nans, truth);
            && Coded(NullDiscriminator, cs)
            && (AllOk(cs) <==> AllDiscriminate(ds, table, nulls, nans, truth))
            && (!AllOk(cs) ==> Blamed(ds, table, nulls, nans, truth, FirstCode(cs)))
  {
    if ds != [] {
      var i := |ds| - 1;
      var cs, own := AllCompared(ds[..i], table, rows, nulls, nans, truth),
                     DiscriminatorComparisons(ds[i], table, rows, nulls, nans, truth);
      AllComparedExactly(ds[..i], table, rows, nulls, nans, truth);
      DiscriminatorExactly(ds[i], table, rows, nulls, nans, truth);
      AllOkAppend(cs, own);
      FirstInTwo(NullDiscriminator, cs, own);
      OneMoreDiscriminates(ds, i, table, nulls, nans, truth);
      assert ds[..i + 1] == ds;
      if !AllOk(cs) {
        StillBlamed(ds, i, table, nulls, nans, truth, FirstCode(cs));
      } else if !AllOk(own) {
        FirstBlamed(ds, i, table, nulls, nans, truth);
      }
    }
  }

  lemma AllComparedJudged(ds: seq<Discriminator>, table: string, rows: int, nulls: map<string, int>,
                          nans: map<string, int>, truth: map<string, int>, r: CheckResult)
    requires r.comparisons == AllCompared(ds, table, rows, nulls, nans, truth)
    requires r == Finished(NullDiscriminator, Verdict(r.comparisons), NoCode, r.comparisons)
    ensures !r.status.Skipped? && (r.status.Pass? <==> AllDiscriminate(ds, table, nulls, nans, truth))
    ensures r.status.Pass? ==> r.reason == NoCode
    ensures r.status.Fail? ==>
      && HasMechanism(NullDiscriminator, r.reason) && NamesFirst(r.comparisons, r.reason)
      && Blamed(ds, table, nulls, nans, truth, r.reason)
      && r.reason != NoDeclaration && r.reason != EmptyWithoutReason
  {
    AllComparedExactly(ds, table, rows, nulls, nans, truth);
    VerdictNamesFirst(NullDiscriminator, r.comparisons);
  }

  lemma AllOkAppend(a: seq<Comparison>, b: seq<Comparison>)
    ensures AllOk(a + b) <==> AllOk(a) && AllOk(b)
  {
    assert forall c :: c in a + b <==> c in a || c in b;
  }

  lemma AllOkOne(c: Comparison)
    ensures AllOk([c]) <==> c.ok
  {
    assert c in [c];
  }

  lemma AllOkTwo(a: Comparison, b: Comparison)
    ensures AllOk([a, b]) <==> a.ok && b.ok
  {
    assert a in [a, b] && b in [a, b];
  }

  lemma AllOkThree(a: Comparison, b: Comparison, c: Comparison)
    ensures AllOk([a, b, c]) <==> a.ok && b.ok && c.ok
  {
    assert a in [a, b, c] && b in [a, b, c] && c in [a, b, c];
  }

  lemma CountsExactly(expected: int, actual: Option<int>, noNan: bool, rows: int)
    ensures AllOk(CountComparisons(expected, actual, noNan, rows)) <==> actual == Some(expected) && expected != 0 && noNan
    ensures Coded(NullDiscriminator, CountComparisons(expected, actual, noNan, rows))
    ensures !AllOk(CountComparisons(expected, actual, noNan, rows)) ==>
      FirstCode(CountComparisons(expected, actual, noNan, rows))
      == if actual != Some(expected) then NullCountMismatch else if expected == 0 then NotDiscriminating else NanAsValue
  {
    var cs := CountComparisons(expected, actual, noNan, rows);
    AllOkThree(cs[0], cs[1], cs[2]);
    FirstOfThree(cs[0], cs[1], cs[2]);
  }

  lemma DiscriminatorExactly(
      d: Discriminator, table: string, rows: int, nulls: map<string, int>, nans: map<string, int>, truth: map<string, int>)
    ensures var cs := DiscriminatorComparisons(d, table, rows, nulls, nans, truth);
            && (AllOk(cs) <==> Discriminates(d, table, nulls, nans, truth))
            && Coded(NullDiscriminator, cs)
            && (!AllOk(cs) ==> FirstCode(cs) == Cause(d, table, nulls, truth))
  {
    if table !in d.expected {
      AllOkOne(Comparison(false, TableNotDeclared));
      FirstOfOne(Comparison(false, TableNotDeclared));
    } else {
      var noNan := d.column in nans ==> nans[d.column] == 0;
      var counts := CountComparisons(d.expected[table], Lookup(nulls, d.column), noNan, rows);
      CountsExactly(d.expected[table], Lookup(nulls, d.column), noNan, rows);
      if d.truthKey.Some? {
        var c := Comparison(Lookup(truth, d.truthKey.value) == Some(d.expected[table]), GroundTruthDisagrees);
        AllOkOne(c);
        FirstOfOne(c);
        AllOkAppend([c], counts);
        FirstInTwo(NullDiscriminator, [c], counts);
      } else {
        assert [] + counts == counts;
      }
    }
  }

  /**
   * Passes exactly when at least one discriminator is declared and each one
   * discriminates; so a declared count of zero can never pass, whatever the
   * artifact holds. An empty declaration is skipped only with a reason.
   */
  method CheckNullDiscriminator(
      rows: int, nulls: map<string, int>, nans: map<string, int>, truth: map<string, int>,
      declared: Option<seq<Discriminator>>, absentReason: string, table: string)
    returns (r: CheckResult)
    ensures r.status.Pass? <==>
      declared.Some? && declared.value != [] && AllDiscriminate(declared.value, table, nulls, nans, truth)
    ensures r.status.Skipped? <==> declared == Some([]) && absentReason != []
    ensures r.status.Fail? ==> HasMechanism(NullDiscriminator, r.reason)
    ensures r.status.Fail? && declared.Some? && declared.value != [] ==>
      NamesFirst(r.comparisons, r.reason) && Blamed(declared.value, table, nulls, nans, truth, r.reason)
    ensures (r.reason == NoDeclaration <==> declared.None?)
         && (r.reason == EmptyWithoutReason <==> declared == Some([]) && absentReason == [])
  {
    if declared.None? {
      return Finished(NullDiscriminator, Fail, NoDeclaration, []);
    }
    if declared.value == [] {
      return if absentReason == [] then Finished(NullDiscriminator, Fail, EmptyWithoutReason, [])
             else Finished(NullDiscriminator, Skipped, NoCode, []);
    }
    var comparisons: seq<Comparison> := [];
    for i := 0 to |declared.value|
      invariant comparisons == AllCompared(declared.value[..i], table, rows, nulls, nans, truth)
    {
      assert declared.value[..i + 1][..i] == declared.value[..i];
      comparisons := comparisons + DiscriminatorComparisons(declared.value[i], table, rows, nulls, nans, truth);
    }
    assert declared.value[..|declared.value|] == declared.value;
    r := Finished(NullDiscriminator, Verdict(comparisons), NoCode, comparisons);
    AllComparedJudged(declared.value, table, rows, nulls, nans, truth, r);
  }

  // ---- the boundary check ------------------------------------------------

  /** min and max of a column; null when it holds no value. */
  type Bound = Option<int>

  function BoundText(b: Bound): string { if b.None? then "None" else IntText(b.value) }

  lemma BoundTextInjective(a: Bound, b: Bound)
    ensures BoundText(a) == BoundText(b) <==> a == b
  {
    if a.Some? {
      IntRoundTrip(a.value);
    }
    if b.Some? {
      IntRoundTrip(b.value);
    }
    assert ParseInt("None").None?;
  }

  predicate Probed(col: string, artifact: map<string, (Bound, Bound)>, source: map<string, (Bound, Bound)>) {
    col in source && col in artifact && artifact[col] == source[col]
  }

  /** The comparisons one boundary column adds. */
  method BoundaryComparisons(col: string, artifact: map<string, (Bound, Bound)>, source: map<string, (Bound, Bound)>)
    returns (cs: seq<Comparison>)
    ensures Coded(Boundary, cs) && (AllOk(cs) <==> Probed(col, artifact, source))
    ensures col in source && col in artifact ==> forall c | c in cs :: c.code == BoundsDiverged
    ensures !AllOk(cs) ==>
      FirstCode(cs) == if col !in source then SourceNotProbed else if col !in artifact then ColumnAbsent else BoundsDiverged
  {
    if col !in source {
      cs := [Comparison(false, SourceNotProbed)];
      AllOkOne(cs[0]);
      FirstOfOne(cs[0]);
    } else if col !in artifact {
      cs := [Comparison(false, ColumnAbsent)];
      AllOkOne(cs[0]);
      FirstOfOne(cs[0]);
    } else {
      var (aMin, aMax) := artifact[col];
      var (sMin, sMax) := source[col];
      BoundsCompared(artifact[col], source[col]);
      cs := [Comparison(BoundText(aMin) == BoundText(sMin), BoundsDiverged),
             Comparison(BoundText(aMax) == BoundText(sMax), BoundsDiverged)];
    }
  }

  lemma BoundsCompared(a: (Bound, Bound), s: (Bound, Bound))
    ensures var cs := [Comparison(BoundText(a.0) == BoundText(s.0), BoundsDiverged),
                       Comparison(BoundText(a.1) == BoundText(s.1), BoundsDiverged)];
            && (AllOk(cs) <==> a == s) && (forall c | c in cs :: c.code == BoundsDiverged)
            && (!AllOk(cs) ==> FirstCode(cs) == BoundsDiverged)
  {
    var x, y := Comparison(BoundText(a.0) == BoundText(s.0), BoundsDiverged),
                Comparison(BoundText(a.1) == BoundText(s.1), BoundsDiverged);
    BoundTextInjective(a.0, s.0);
    BoundTextInjective(a.1, s.1);
    AllOkTwo(x, y);
    FirstOfTwo(x, y);
  }

  /** Passes exactly when a boundary column is declared and each has the source's own bounds. */
  method CheckBoundary(artifact: map<string, (Bound, Bound)>, source: map<string, (Bound, Bound)>, columns: seq<string>)
    returns (r: CheckResult)
    ensures r.status.Pass? <==> columns != [] && forall col | col in columns :: Probed(col, artifact, source)
    ensures r.status.Pass? || (r.status.Fail? && HasMechanism(Boundary, r.reason))
    ensures r.status.Fail? && columns != [] ==> NamesFirst(r.comparisons, r.reason)
    ensures r.status.Fail? && columns != [] && (forall col | col in columns :: col in source && col in artifact) ==>
      r.reason == BoundsDiverged
    ensures r.status.Fail? && columns != [] ==>
      exists i | 0 <= i < |columns| ::
        && !Probed(columns[i], artifact, source) && (forall j | 0 <= j < i :: Probed(columns[j], artifact, source))
        && r.reason == if columns[i] !in source then SourceNotProbed
                       else if columns[i] !in artifact then ColumnAbsent else BoundsDiverged
    ensures columns == [] ==> r.reason == NoBoundaryColumns
  {
    if columns == [] {
      return Finished(Boundary, Fail, NoBoundaryColumns, []);
    }
    var comparisons: seq<Comparison> := [];
    for i := 0 to |columns|
      invariant Coded(Boundary, comparisons)
      invariant AllOk(comparisons) <==> forall j | 0 <= j < i :: Probed(columns[j], artifact, source)
      invariant (forall col | col in columns :: col in source && col in artifact) ==>
        forall c | c in comparisons :: c.code == BoundsDiverged
      invariant !AllOk(comparisons) ==>
        exists j | 0 <= j < i ::
          && !Probed(columns[j], artifact, source) && (forall k | 0 <= k < j :: Probed(columns[k], artifact, source))
          && FirstCode(comparisons) == if columns[j] !in source then SourceNotProbed
                                       else if columns[j] !in artifact then ColumnAbsent else BoundsDiverged
    {
      var more := BoundaryComparisons(columns[i], artifact, source);
      FirstInTwo(Boundary, comparisons, more);
      AllOkAppend(comparisons, more);
      comparisons := comparisons + more;
    }
    VerdictNamesFirst(Boundary, comparisons);
    return Finished(Boundary, Verdict(comparisons), NoCode, comparisons);
  }

  // ---- what aggregates can see -------------------------------------------

  type Column = seq<Option<int>>

  function Shift(c: Column, delta: int): (r: Column)
    ensures |r| == |c|
    ensures forall i | 0 <= i < |c| :: r[i] == if c[i].Some? then Some(c[i].value + delta) else None
  {
    seq(|c|, i requires 0 <= i < |c| => if c[i].Some? then Some(c[i].value + delta) else None)
  }

  /** The values that are not null. */
  function Values(c: Column): seq<int> {
    if c == [] then [] else if c[0].Some? then [c[0].value] + Values(c[1..]) else Values(c[1..])
  }

  function NullCount(c: Column): int { |c| - |Values(c)| }

  /** Values that do not occur again later. */
  function CountDistinct(vs: seq<int>): nat {
    if vs == [] then 0 else (if vs[0] in vs[1..] then 0 else 1) + CountDistinct(vs[1..])
  }

  function Distinct(c: Column): nat { CountDistinct(Values(c)) }

  function Sum(vs: seq<int>): int { if vs == [] then 0 else vs[0] + Sum(vs[1..]) }

  function Least(vs: seq<int>): (m: int)
    requires vs != []
    ensures m in vs && forall v | v in vs :: m <= v
  {
    if |vs| == 1 then vs[0] else (var rest := Least(vs[1..]); assert vs == [vs[0]] + vs[1..]; if vs[0] <= rest then vs[0] else rest)
  }

  function Greatest(vs: seq<int>): (m: int)
    requires vs != []
    ensures m in vs && forall v | v in vs :: v <= m
  {
    if |vs| == 1 then vs[0] else (var rest := Greatest(vs[1..]); assert vs == [vs[0]] + vs[1..]; if vs[0] >= rest then vs[0] else rest)
  }

  function Bounds(c: Column): (Bound, Bound) {
    if Values(c) == [] then (None, None) else (Some(Least(Values(c))), Some(Greatest(Values(c))))
  }

  function Plus(vs: seq<int>, delta: int): (r: seq<int>)
    ensures |r| == |vs| && forall i | 0 <= i < |vs| :: r[i] == vs[i] + delta
  {
    seq(|vs|, i requires 0 <= i < |vs| => vs[i] + delta)
  }

  /** The null count is the number of nulls, and the values are what is left of the column, in its order. */
  lemma {:induction false} NullsCounted(c: Column)
    ensures NullCount(c) == multiset(c)[None] && forall v :: v in Values(c) <==> Some(v) in c
    ensures forall v :: multiset(Values(c))[v] == multiset(c)[Some(v)]
  {
    if c != [] {
      NullsCounted(c[1..]);
      assert c == [c[0]] + c[1..];
    }
  }

  lemma {:induction false} ValuesInTwo(a: Column, b: Column)
    ensures Values(a + b) == Values(a) + Values(b)
  {
    if a == [] {
      assert a + b == b;
    } else {
      assert (a + b)[1..] == a[1..] + b;
      ValuesInTwo(a[1..], b);
    }
  }

  /** The distinct count is the size of the set of values. */
  lemma {:induction false} DistinctCounted(vs: seq<int>)
    ensures CountDistinct(vs) == |set v | v in vs|
  {
    if vs != [] {
      var all, rest := set v | v in vs, set v | v in vs[1..];
      DistinctCounted(vs[1..]);
      assert vs == [vs[0]] + vs[1..];
      assert all == rest + {vs[0]};
      assert vs[0] in vs[1..] ==> all == rest;
    } else {
      assert (set v | v in vs) == {};
    }
  }

  lemma {:induction false} ShiftedValues(c: Column, delta: int)
    ensures Values(Shift(c, delta)) == Plus(Values(c), delta)
  {
    if c != [] {
      assert Shift(c, delta)[1..] == Shift(c[1..], delta);
      ShiftedValues(c[1..], delta);
    }
  }

  lemma PlusMembers(vs: seq<int>, delta: int, v: int)
    ensures v in vs <==> v + delta in Plus(vs, delta)
  {
    var ws := Plus(vs, delta);
    if v in vs {
      var i :| 0 <= i < |vs| && vs[i] == v;
      assert ws[i] == v + delta;
    }
    if v + delta in ws {
      var i :| 0 <= i < |ws| && ws[i] == v + delta;
      assert vs[i] == v;
    }
  }

  lemma {:induction false} PlusDistinct(vs: seq<int>, delta: int)
    ensures CountDistinct(Plus(vs, delta)) == CountDistinct(vs)
  {
    if vs != [] {
      assert Plus(vs, delta)[1..] == Plus(vs[1..], delta);
      PlusMembers(vs[1..], delta, vs[0]);
      PlusDistinct(vs[1..], delta);
    }
  }

  lemma {:induction false} ShiftedSum(vs: seq<int>, delta: int)
    ensures Sum(Plus(vs, delta)) == Sum(vs) + delta * |vs|
  {
    if vs != [] {
      assert Plus(vs, delta)[1..] == Plus(vs[1..], delta);
      ShiftedSum(vs[1..], delta);
    }
  }

  /**
   * What B-2 is for: a uniform shift leaves the row count, the null count and
   * the distinct count as they were. The bounds differ exactly when some value
   * is not null, which is also exactly when the integer sum differs.
   */
  lemma ShiftSeenExactly(c: Column, delta: int)
    requires delta != 0
    ensures |Shift(c, delta)| == |c| && NullCount(Shift(c, delta)) == NullCount(c) && Distinct(Shift(c, delta)) == Distinct(c)
    ensures Bounds(Shift(c, delta)) != Bounds(c) <==> Values(c) != []
    ensures Sum(Values(Shift(c, delta))) != Sum(Values(c)) <==> Values(c) != []
  {
    ShiftedValues(c, delta);
    PlusDistinct(Values(c), delta);
    ShiftedSum(Values(c), delta);
    var vs := Values(c);
    if vs != [] {
      ProductNonzero(delta, |vs|);
      if Bounds(Shift(c, delta)) == Bounds(c) {
        BoundsMove(vs, delta);
      }
    }
  }

  lemma ProductNonzero(a: int, b: nat)
    requires a != 0 && b != 0
    ensures a * b != 0
  {
  }

  lemma BoundsMove(vs: seq<int>, delta: int)
    requires vs != []
    ensures Least(Plus(vs, delta)) == Least(vs) + delta && Greatest(Plus(vs, delta)) == Greatest(vs) + delta
  {
    var ws := Plus(vs, delta);
    var i :| 0 <= i < |vs| && vs[i] == Least(vs);
    var j :| 0 <= j < |ws| && ws[j] == Least(ws);
    var k :| 0 <= k < |vs| && vs[k] == Greatest(vs);
    var l :| 0 <= l < |ws| && ws[l] == Greatest(ws);
    assert ws[i] in ws && vs[j] in vs && ws[k] in ws && vs[l] in vs;
  }

  /** The boundary check refuses every artifact with a boundary column that is shifted and holds a value. */
  method ShiftedColumnFails(artifact: map<string, (Bound, Bound)>, source: map<string, (Bound, Bound)>,
                            columns: seq<string>, name: string, c: Column, delta: int)
    returns (r: CheckResult)
    requires delta != 0 && Values(c) != [] && name in columns
    requires name in artifact && artifact[name] == Bounds(Shift(c, delta))
    requires name in source && source[name] == Bounds(c)
    ensures r.status.Fail? && HasMechanism(Boundary, r.reason)
    ensures (forall col | col in columns :: col in source && col in artifact) ==> r.reason == BoundsDiverged
  {
    ShiftSeenExactly(c, delta);
    r := CheckBoundary(artifact, source, columns);
    assert !Probed(name, artifact, source);
  }

  // ---- the exact-int sum -------------------------------------------------

  const WORD_SIZE := 0x1_0000_0000_0000_0000
  const WORD_MIN := -0x8000_0000_0000_0000

  /** Two's-complement int64. */
  function Wrap(v: int): int { (v - WORD_MIN) % WORD_SIZE + WORD_MIN }

  lemma WrapAdds(a: int, b: int)
    ensures Wrap(Wrap(a) + b) == Wrap(a + b)
  {
    var q := (a - WORD_MIN) / WORD_SIZE;
    assert Wrap(a) == a - q * WORD_SIZE;
    WrapPeriodic(a + b, -q);
  }

  lemma WrapPeriodic(v: int, q: int)
    ensures Wrap(v + q * WORD_SIZE) == Wrap(v)
  {
    var x := v - WORD_MIN;
    assert x + q * WORD_SIZE == (x / WORD_SIZE + q) * WORD_SIZE + x % WORD_SIZE;
  }

  /** The int64 accumulation of already-rounded minor units: each addition may wrap. */
  method SumMinorUnits(units: seq<int>) returns (total: int)
    ensures total == Wrap(Sum(units))
    ensures -0x8000_0000_0000_0000 <= Sum(units) < 0x8000_0000_0000_0000 <==> total == Sum(units)
  {
    total := 0;
    for i := 0 to |units|
      invariant total == Wrap(Sum(units[..i]))
    {
      assert units[..i + 1] == units[..i] + [units[i]];
      SumAppend(units[..i], units[i]);
      WrapAdds(Sum(units[..i]), units[i]);
      total := Wrap(total + units[i]);
    }
    assert units[..|units|] == units;
  }

  lemma {:induction false} SumAppend(vs: seq<int>, v: int)
    ensures Sum(vs + [v]) == Sum(vs) + v
  {
    if vs == [] {
      assert [v][1..] == [];
    } else {
      assert (vs + [v])[1..] == vs[1..] + [v];
      SumAppend(vs[1..], v);
    }
  }

  lemma {:induction false} SumWithout(vs: seq<int>, i: nat)
    requires i < |vs|
    ensures Sum(vs) == vs[i] + Sum(vs[..i] + vs[i + 1..])
  {
    if i > 0 {
      assert (vs[..i] + vs[i + 1..])[1..] == vs[1..][..i - 1] + vs[1..][i..];
      SumWithout(vs[1..], i - 1);
    } else {
      assert vs[..0] + vs[1..] == vs[1..];
    }
  }

  lemma TakeOut(vs: seq<int>, i: nat)
    requires i < |vs|
    ensures multiset(vs[..i] + vs[i + 1..]) == multiset(vs) - multiset{vs[i]}
  {
    assert vs == vs[..i] + [vs[i]] + vs[i + 1..];
  }

  lemma RestsAgree(a: seq<int>, b: seq<int>, i: nat)
    requires a != [] && i < |b| && b[i] == a[0] && multiset(a) == multiset(b)
    ensures multiset(a[1..]) == multiset(b[..i] + b[i + 1..])
  {
    TakeOut(a, 0);
    TakeOut(b, i);
    assert a[..0] + a[1..] == a[1..];
  }

  /** The exact-int sum does not depend on the order the rows were scanned in. */
  lemma {:induction false} SumIgnoresOrder(a: seq<int>, b: seq<int>)
    requires multiset(a) == multiset(b)
    ensures Sum(a) == Sum(b)
    decreases |a|
  {
    if a == [] {
      assert |multiset(b)| == 0;
    } else {
      assert a[0] in multiset(b);
      var i :| 0 <= i < |b| && b[i] == a[0];
      RestsAgree(a, b, i);
      SumWithout(b, i);
      SumIgnoresOrder(a[1..], b[..i] + b[i + 1..]);
    }
  }

  // ---- blocks ------------------------------------------------------------

  /** Full blocks, then at most one shorter block with the rest. */
  predicate IsLayout(sizes: seq<int>, rows: int, block: Positive) {
    && (forall i | 0 <= i < |sizes| - 1 :: sizes[i] == block)
    && (sizes != [] ==> 1 <= sizes[|sizes| - 1] <= block)
    && Sum(sizes) == rows
  }

  lemma {:induction false} SumOfBlocks(sizes: seq<int>, block: Positive)
    requires forall i | 0 <= i < |sizes| :: sizes[i] == block
    ensures Sum(sizes) == block * |sizes|
  {
    if sizes != [] {
      SumOfBlocks(sizes[1..], block);
    }
  }

  lemma LayoutSum(sizes: seq<int>, rows: int, block: Positive)
    requires IsLayout(sizes, rows, block) && sizes != []
    ensures rows == block * (|sizes| - 1) + sizes[|sizes| - 1]
  {
    var front := sizes[..|sizes| - 1];
    assert sizes == front + [sizes[|sizes| - 1]];
    SumAppend(front, sizes[|sizes| - 1]);
    SumOfBlocks(front, block);
  }

  /** A row count has one layout. */
  lemma LayoutUnique(a: seq<int>, b: seq<int>, rows: int, block: Positive)
    requires IsLayout(a, rows, block) && IsLayout(b, rows, block)
    ensures a == b
  {
    if a != [] {
      LayoutSum(a, rows, block);
      Nonnegative(block, |a| - 1);
    }
    if b != [] {
      LayoutSum(b, rows, block);
      Nonnegative(block, |b| - 1);
    }
    if a != [] && b != [] {
      SameQuotient(block, |a| - 1, a[|a| - 1], |b| - 1, b[|b| - 1]);
      assert forall i | 0 <= i < |a| :: a[i] == b[i];
    }
  }

  lemma Nonnegative(a: nat, b: nat)
    ensures a * b >= 0
  {
  }

  lemma OneMoreBlock(block: Positive, p: nat, q: nat)
    requires p < q
    ensures block * q >= block * p + block
  {
    var more: nat := q - p - 1;
    assert block * q == block * p + block + block * more;
    Nonnegative(block, more);
  }

  lemma SameQuotient(block: Positive, p: nat, x: int, q: nat, y: int)
    requires 1 <= x <= block && 1 <= y <= block && block * p + x == block * q + y
    ensures p == q && x == y
  {
    if p < q {
      OneMoreBlock(block, p, q);
    } else if q < p {
      OneMoreBlock(block, q, p);
    }
  }

  /** The layout a row count must produce. */
  method ExpectedBlockRows(rows: int, block: Positive) returns (layout: seq<int>)
    ensures rows <= 0 ==> layout == []
    ensures rows > 0 ==> IsLayout(layout, rows, block)
  {
    if rows <= 0 {
      return [];
    }
    var full, remainder := rows / block, rows % block;
    layout := seq(full, _ => block);
    SumOfBlocks(layout, block);
    if remainder != 0 {
      SumAppend(layout, remainder);
      layout := layout + [remainder];
    }
  }

  function Concat<T>(blocks: seq<seq<T>>): seq<T> {
    if blocks == [] then [] else Concat(blocks[..|blocks| - 1]) + blocks[|blocks| - 1]
  }

  function Sizes<T>(blocks: seq<seq<T>>): (sizes: seq<int>)
    ensures |sizes| == |blocks| && forall i | 0 <= i < |blocks| :: sizes[i] == |blocks[i]|
  {
    seq(|blocks|, i requires 0 <= i < |blocks| => |blocks[i]|)
  }

  /** The batches of one chunk: every row once, in order, in the one layout there is. */
  method WriteChunk<T>(rows: seq<T>, block: Positive) returns (blocks: seq<seq<T>>)
    ensures Concat(blocks) == rows && IsLayout(Sizes(blocks), |rows|, block)
  {
    blocks := [];
    var written := 0;
    while written < |rows|
      invariant written <= |rows| && Concat(blocks) == rows[..written] && Sum(Sizes(blocks)) == written
      invariant forall i | 0 <= i < |blocks| - 1 :: |blocks[i]| == block
      invariant blocks != [] ==> 1 <= |blocks[|blocks| - 1]| <= block
      invariant blocks != [] && written < |rows| ==> |blocks[|blocks| - 1]| == block
    {
      var end := if written + block < |rows| then written + block else |rows|;
      var batch := rows[written..end];
      assert (blocks + [batch])[..|blocks|] == blocks;
      assert rows[..written] + batch == rows[..end];
      assert Sizes(blocks + [batch]) == Sizes(blocks) + [|batch|];
      SumAppend(Sizes(blocks), |batch|);
      blocks := blocks + [batch];
      written := end;
    }
    assert rows[..written] == rows;
  }

  /** Every chunk that holds rows starts on a whole number of blocks. */
  ghost predicate Aligned(sizes: seq<int>, block: Positive) {
    forall i | 0 <= i < |sizes| && sizes[i] > 0 :: Sum(sizes[..i]) % block == 0
  }

  lemma ConcatLast<T>(front: seq<seq<T>>, last: seq<T>)
    ensures Concat(front + [last]) == Concat(front) + last
  {
    assert (front + [last])[..|front|] == front;
  }

  lemma Regrouped<T>(a: seq<T>, b: seq<T>, c: seq<T>)
    ensures (a + b) + c == a + (b + c)
  {
  }

  lemma {:induction false} ConcatTwo<T>(a: seq<seq<T>>, b: seq<seq<T>>)
    ensures Concat(a + b) == Concat(a) + Concat(b)
    decreases |b|
  {
    if b == [] {
      assert a + b == a;
    } else {
      var front, last := b[..|b| - 1], b[|b| - 1];
      assert b == front + [last];
      ConcatTwo(a, front);
      Regrouped(a, front, [last]);
      ConcatLast(a + front, last);
      Regrouped(Concat(a), Concat(front), last);
    }
  }

  lemma {:induction false} SumTwo(a: seq<int>, b: seq<int>)
    ensures Sum(a + b) == Sum(a) + Sum(b)
  {
    if a == [] {
      assert a + b == b;
    } else {
      assert (a + b)[1..] == a[1..] + b;
      SumTwo(a[1..], b);
    }
  }

  /** A layout ends in a full block exactly when its rows are whole blocks. */
  lemma LastIsFull(sizes: seq<int>, rows: int, block: Positive)
    requires IsLayout(sizes, rows, block) && sizes != []
    ensures sizes[|sizes| - 1] == block <==> rows % block == 0
  {
    LayoutSum(sizes, rows, block);
    var k, x := |sizes| - 1, sizes[|sizes| - 1];
    if x < block {
      RemainderOf(block, k, x);
    } else {
      RemainderOf(block, k + 1, 0);
      assert block * k + block == block * (k + 1);
    }
  }

  lemma RemainderOf(block: Positive, k: nat, x: nat)
    requires x < block
    ensures (block * k + x) % block == x
  {
    var v := block * k + x;
    var q := v / block;
    assert v == block * q + v % block;
    if v % block != x {
      if q < k {
        OneMoreBlock(block, q, k);
      } else if k < q {
        OneMoreBlock(block, k, q);
      }
    }
  }

  /** Putting a layout behind other blocks leaves a layout exactly when they are whole, or it is empty. */
  lemma LayoutsJoin(a: seq<int>, m: int, b: seq<int>, n: int, block: Positive)
    requires Sum(a) == m && IsLayout(b, n, block)
    ensures IsLayout(a + b, m + n, block) <==> IsLayout(a, m, block) && (n == 0 || m % block == 0)
  {
    SumTwo(a, b);
    if b == [] {
      assert a + b == a;
    } else {
      LayoutSum(b, n, block);
      Nonnegative(block, |b| - 1);
      if a == [] {
        assert a + b == b;
      } else {
        assert forall i | 0 <= i < |a| :: (a + b)[i] == a[i];
        assert forall i | 0 <= i < |b| :: (a + b)[|a| + i] == b[i];
        if IsLayout(a, m, block) {
          LastIsFull(a, m, block);
        }
      }
    }
  }

  lemma {:induction false} ConcatSize<T>(chunks: seq<seq<T>>)
    ensures |Concat(chunks)| == Sum(Sizes(chunks))
  {
    if chunks != [] {
      var front, last := chunks[..|chunks| - 1], chunks[|chunks| - 1];
      ConcatSize(front);
      assert Sizes(chunks) == Sizes(front) + [|last|];
      SumAppend(Sizes(front), |last|);
    }
  }

  /**
   * The sink's batch loop over a table of any chunks: every row once, in
   * order; and the file has the layout of its row count exactly when every
   * chunk that rows follow holds whole blocks, as a table of one chunk does.
   */
  method WriteIpcFile<T>(chunks: seq<seq<T>>, block: Positive) returns (blocks: seq<seq<T>>)
    ensures Concat(blocks) == Concat(chunks)
    ensures IsLayout(Sizes(blocks), |Concat(chunks)|, block) <==> Aligned(Sizes(chunks), block)
    ensures |chunks| == 1 ==> IsLayout(Sizes(blocks), |Concat(chunks)|, block)
  {
    blocks := [];
    for i := 0 to |chunks|
      invariant Concat(blocks) == Concat(chunks[..i]) && Sum(Sizes(blocks)) == Sum(Sizes(chunks[..i]))
      invariant IsLayout(Sizes(blocks), Sum(Sizes(chunks[..i])), block) <==> Aligned(Sizes(chunks[..i]), block)
    {
      var more := WriteChunk(chunks[i], block);
      OneMoreChunk(chunks, i, blocks, more, block);
      blocks := blocks + more;
    }
    assert chunks[..|chunks|] == chunks;
    ConcatSize(chunks);
    OneChunkIsAligned(chunks, block);
  }

  lemma OneChunkIsAligned<T>(chunks: seq<seq<T>>, block: Positive)
    ensures |chunks| == 1 ==> Aligned(Sizes(chunks), block)
  {
  }

  lemma OneMoreChunk<T>(chunks: seq<seq<T>>, i: nat, blocks: seq<seq<T>>, more: seq<seq<T>>, block: Positive)
    requires i < |chunks| && Concat(more) == chunks[i] && IsLayout(Sizes(more), |chunks[i]|, block)
    requires Concat(blocks) == Concat(chunks[..i]) && Sum(Sizes(blocks)) == Sum(Sizes(chunks[..i]))
    requires IsLayout(Sizes(blocks), Sum(Sizes(chunks[..i])), block) <==> Aligned(Sizes(chunks[..i]), block)
    ensures Concat(blocks + more) == Concat(chunks[..i + 1]) && Sum(Sizes(blocks + more)) == Sum(Sizes(chunks[..i + 1]))
    ensures IsLayout(Sizes(blocks + more), Sum(Sizes(chunks[..i + 1])), block) <==> Aligned(Sizes(chunks[..i + 1]), block)
  {
    ConcatOneMore(chunks, i);
    ConcatTwo(blocks, more);
    SizesOneMore(chunks, i);
    SizesJoin(blocks, more);
    OneMoreSize(Sizes(chunks[..i]), |chunks[i]|, Sizes(blocks), Sizes(more), block);
  }

  lemma ConcatOneMore<T>(chunks: seq<seq<T>>, i: nat)
    requires i < |chunks|
    ensures Concat(chunks[..i + 1]) == Concat(chunks[..i]) + chunks[i]
  {
    ConcatLast(chunks[..i], chunks[i]);
    assert chunks[..i + 1] == chunks[..i] + [chunks[i]];
  }

  lemma SizesOneMore<T>(chunks: seq<seq<T>>, i: nat)
    requires i < |chunks|
    ensures Sizes(chunks[..i + 1]) == Sizes(chunks[..i]) + [|chunks[i]|]
  {
  }

  lemma SizesJoin<T>(a: seq<seq<T>>, b: seq<seq<T>>)
    ensures Sizes(a + b) == Sizes(a) + Sizes(b)
  {
  }

  lemma OneMoreSize(sizes: seq<int>, n: nat, blocks: seq<int>, more: seq<int>, block: Positive)
    requires Sum(blocks) == Sum(sizes) && (IsLayout(blocks, Sum(sizes), block) <==> Aligned(sizes, block))
    requires IsLayout(more, n, block)
    ensures Sum(blocks + more) == Sum(sizes + [n])
    ensures IsLayout(blocks + more, Sum(sizes + [n]), block) <==> Aligned(sizes + [n], block)
  {
    SumAppend(sizes, n);
    SumTwo(blocks, more);
    LayoutsJoin(blocks, Sum(sizes), more, n, block);
    AlignedAppend(sizes, n, block);
  }

  lemma AlignedAppend(sizes: seq<int>, n: int, block: Positive)
    requires n >= 0
    ensures Aligned(sizes + [n], block) <==> Aligned(sizes, block) && (n == 0 || Sum(sizes) % block == 0)
  {
    var more := sizes + [n];
    assert forall i | 0 <= i <= |sizes| :: more[..i] == sizes[..i];
    assert sizes[..|sizes|] == sizes;
    if Aligned(more, block) {
      forall i | 0 <= i < |sizes| && sizes[i] > 0 ensures Sum(sizes[..i]) % block == 0 {
        assert more[i] == sizes[i];
      }
      assert more[|sizes|] == n;
    }
  }

  /** Passes exactly on the layout of the row count; otherwise the first thing that differs is named. */
  method CheckBlockStructure(observed: seq<int>, rows: int, block: Positive) returns (r: CheckResult)
    ensures r.status.Pass? <==> IsLayout(observed, rows, block)
    ensures !r.status.Skipped? && (r.status.Fail? ==> HasMechanism(BlockStructure, r.reason))
    ensures r.reason == RowsMissing ==> Sum(observed) != rows
    ensures r.reason == LayoutMismatch ==> Sum(observed) == rows
    ensures rows > 0 ==> exists l :: IsLayout(l, rows, block) && (r.reason == CountMismatch <==> |observed| != |l|)
  {
    var expected := ExpectedBlockRows(rows, block);
    var comparisons := [
      Comparison(|observed| == |expected|, CountMismatch),
      Comparison(Sum(observed) == rows, RowsMissing),
      Comparison(observed == expected, LayoutMismatch)];
    AllOkThree(comparisons[0], comparisons[1], comparisons[2]);
    FirstOfThree(comparisons[0], comparisons[1], comparisons[2]);
    VerdictNamesFirst(BlockStructure, comparisons);
    OnlyLayout(observed, expected, rows, block);
    return Finished(BlockStructure, Verdict(comparisons), NoCode, comparisons);
  }

  lemma OnlyLayout(observed: seq<int>, expected: seq<int>, rows: int, block: Positive)
    requires (rows <= 0 ==> expected == []) && (rows > 0 ==> IsLayout(expected, rows, block))
    ensures IsLayout(observed, rows, block) <==> observed == expected && Sum(observed) == rows
  {
    if IsLayout(observed, rows, block) {
      if observed != [] {
        LayoutSum(observed, rows, block);
        Nonnegative(block, |observed| - 1);
      }
      if rows > 0 {
        LayoutUnique(observed, expected, rows, block);
      }
    }
  }
}
