/**
 * The oracle's other six judges. Each passes exactly when its predicate holds,
 * and each failure names a mechanism of its own check.
 */
module Oracle {
  import opened Util
  import opened Text
  import opened Judges

  // ---- registry admission ------------------------------------------------

  /** What asking for an unregistered dialect came to: accepted, or refused with a message. */
  type Reply = Option<string>

  /** The message lists every registered dialect. */
  predicate Lists(message: string, registered: seq<string>) {
    forall d | d in registered :: Occurs(d, message)
  }

  function RefusalComparisons(reply: Reply, registered: seq<string>): seq<Comparison> {
    match reply
    case None => [Comparison(false, UnregisteredAccepted)]
    case Some(message) => [Comparison(true, NoCode), Comparison(Lists(message, registered), RefusalOmitsRegistry)]
  }

  predicate RefusesWell(reply: Reply, registered: seq<string>) {
    reply.Some? && Lists(reply.value, registered)
  }

  lemma RefusalExactly(reply: Reply, registered: seq<string>)
    ensures AllOk(RefusalComparisons(reply, registered)) <==> RefusesWell(reply, registered)
    ensures Coded(RegistryAdmission, RefusalComparisons(reply, registered))
    ensures !RefusesWell(reply, registered) ==>
      FirstCode(RefusalComparisons(reply, registered)) == if reply.None? then UnregisteredAccepted else RefusalOmitsRegistry
  {
    match reply
    case None =>
      AllOkOne(Comparison(false, UnregisteredAccepted));
      FirstOfOne(Comparison(false, UnregisteredAccepted));
    case Some(message) =>
      AllOkTwo(Comparison(true, NoCode), Comparison(Lists(message, registered), RefusalOmitsRegistry));
      FirstOfTwo(Comparison(true, NoCode), Comparison(Lists(message, registered), RefusalOmitsRegistry));
  }

  function OwnComparisons(dialect: string, registered: seq<string>, resolved: string): seq<Comparison> {
    [Comparison(resolved == dialect, NameMismatch), Comparison(dialect in registered, AbsentFromListing)]
  }

  function RegistryComparisons(dialect: string, registered: seq<string>, resolved: string, byResolve: Reply, byConfig: Reply)
    : seq<Comparison>
  {
    OwnComparisons(dialect, registered, resolved)
    + (RefusalComparisons(byResolve, registered) + RefusalComparisons(byConfig, registered))
  }

  /** What is wrong first: the dialect itself, then the first surface that does not refuse well. */
  function RegistryCause(dialect: string, registered: seq<string>, resolved: string, byResolve: Reply, byConfig: Reply): Code {
    if resolved != dialect then NameMismatch
    else if dialect !in registered then AbsentFromListing
    else if byResolve.None? then UnregisteredAccepted
    else if !Lists(byResolve.value, registered) then RefusalOmitsRegistry
    else if byConfig.None? then UnregisteredAccepted
    else RefusalOmitsRegistry
  }

  lemma RegistryExactly(dialect: string, registered: seq<string>, resolved: string, byResolve: Reply, byConfig: Reply)
    ensures var cs := RegistryComparisons(dialect, registered, resolved, byResolve, byConfig);
            && Coded(RegistryAdmission, cs)
            && (AllOk(cs) <==> resolved == dialect && dialect in registered
                               && RefusesWell(byResolve, registered) && RefusesWell(byConfig, registered))
            && (!AllOk(cs) ==> FirstCode(cs) == RegistryCause(dialect, registered, resolved, byResolve, byConfig))
  {
    var own := OwnComparisons(dialect, registered, resolved);
    var a, b := RefusalComparisons(byResolve, registered), RefusalComparisons(byConfig, registered);
    AllOkTwo(own[0], own[1]);
    FirstOfTwo(own[0], own[1]);
    RefusalExactly(byResolve, registered);
    RefusalExactly(byConfig, registered);
    AllOkAppend(a, b);
    AllOkAppend(own, a + b);
    FirstInTwo(RegistryAdmission, a, b);
    FirstInTwo(RegistryAdmission, own, a + b);
    assert Coded(RegistryAdmission, own) && Coded(RegistryAdmission, a + b);
  }

  /**
   * Passes exactly when the dialect resolves to a driver of that name, is
   * listed, and an unregistered one is refused on both surfaces with the
   * registry spelled out.
   */
  method CheckRegistryAdmission(dialect: string, registered: seq<string>, resolved: Option<string>,
                                byResolve: Reply, byConfig: Reply)
    returns (r: CheckResult)
    ensures r.status.Pass? <==>
      && resolved == Some(dialect) && dialect in registered
      && RefusesWell(byResolve, registered) && RefusesWell(byConfig, registered)
    ensures !r.status.Skipped? && (r.status.Fail? ==> HasMechanism(RegistryAdmission, r.reason))
    ensures r.status.Fail? ==> NamesFirst(r.comparisons, r.reason)
    ensures r.status.Fail? ==>
      r.reason == if resolved.None? then DialectUnresolvable
                  else RegistryCause(dialect, registered, resolved.value, byResolve, byConfig)
  {
    if resolved.None? {
      var only := [Comparison(false, DialectUnresolvable)];
      assert !only[0].ok && only[0].code == DialectUnresolvable;
      return Finished(RegistryAdmission, Fail, DialectUnresolvable, only);
    }
    var comparisons := RegistryComparisons(dialect, registered, resolved.value, byResolve, byConfig);
    RegistryExactly(dialect, registered, resolved.value, byResolve, byConfig);
    VerdictNamesFirst(RegistryAdmission, comparisons);
    return Finished(RegistryAdmission, Verdict(comparisons), NoCode, comparisons);
  }

  // ---- schema exactness --------------------------------------------------

  type Schema = seq<(string, string)>

  ghost predicate DistinctColumns(s: Schema) {
    forall i, j | 0 <= i < j < |s| :: s[i].0 != s[j].0
  }

  function NamesOf(s: Schema): (names: seq<string>)
    ensures |names| == |s| && forall i | 0 <= i < |s| :: names[i] == s[i].0
  {
    seq(|s|, i requires 0 <= i < |s| => s[i].0)
  }

  const MISSING := "<MISSING>"

  /** The observed type of a column. */
  function TypeIn(s: Schema, name: string): string {
    if s == [] then MISSING else if s[0].0 == name then s[0].1 else TypeIn(s[1..], name)
  }

  lemma {:induction false} TypeAt(s: Schema, i: nat)
    requires DistinctColumns(s) && i < |s|
    ensures TypeIn(s, s[i].0) == s[i].1
  {
    if i > 0 {
      TypeAt(s[1..], i - 1);
    }
  }

  /** The same columns in the same order, with types alike up to the fold. */
  ghost predicate SameColumns(observed: Schema, spec: Schema, fold: string -> string) {
    && |observed| == |spec|
    && forall i | 0 <= i < |spec| :: observed[i].0 == spec[i].0 && fold(observed[i].1) == fold(spec[i].1)
  }

  /** Passes exactly on the declared columns, in order, with their types up to the string-width fold. */
  method CheckSchemaExactness(observed: Schema, spec: Schema, fold: string -> string) returns (r: CheckResult)
    requires DistinctColumns(observed)
    ensures r.status.Pass? <==> spec != [] && SameColumns(observed, spec, fold)
    ensures !r.status.Skipped? && (r.status.Fail? ==> HasMechanism(SchemaExactness, r.reason))
    ensures r.status.Fail? && spec != [] ==> NamesFirst(r.comparisons, r.reason)
    ensures r.status.Fail? ==>
      r.reason == if spec == [] then NoColumns
                  else if |observed| != |spec| then ColumnCount
                  else if NamesOf(observed) != NamesOf(spec) then ColumnSetOrOrder
                  else TypeMismatch
  {
    if spec == [] {
      return Finished(SchemaExactness, Fail, NoColumns, []);
    }
    var comparisons := ShapeComparisons(observed, spec);
    for i := 0 to |spec|
      invariant |comparisons| == 2 + i && comparisons[..2] == ShapeComparisons(observed, spec)
      invariant forall j | 0 <= j < i :: comparisons[2 + j] == TypeComparison(observed, spec[j], fold)
    {
      comparisons := comparisons + [TypeComparison(observed, spec[i], fold)];
    }
    r := Finished(SchemaExactness, Verdict(comparisons), NoCode, comparisons);
    SchemaJudged(observed, spec, fold, comparisons[2..], r);
  }

  function ShapeComparisons(observed: Schema, spec: Schema): seq<Comparison> {
    [Comparison(|observed| == |spec|, ColumnCount), Comparison(NamesOf(observed) == NamesOf(spec), ColumnSetOrOrder)]
  }

  function TypeComparison(observed: Schema, column: (string, string), fold: string -> string): Comparison {
    Comparison(fold(TypeIn(observed, column.0)) == fold(column.1), TypeMismatch)
  }

  lemma {:induction false} AllOneCode(check: Check, cs: seq<Comparison>, code: Code)
    requires (forall c | c in cs :: c.code == code) && HasMechanism(check, code)
    ensures Coded(check, cs) && (!AllOk(cs) ==> FirstCode(cs) == code)
  {
    if !AllOk(cs) {
      FirstCodeNamesFirst(check, cs);
    }
  }

  lemma ShapeExactly(observed: Schema, spec: Schema)
    ensures var cs := ShapeComparisons(observed, spec);
            && Coded(SchemaExactness, cs)
            && (AllOk(cs) <==> NamesOf(observed) == NamesOf(spec))
            && (!AllOk(cs) ==> FirstCode(cs) == if |observed| != |spec| then ColumnCount else ColumnSetOrOrder)
  {
    var cs := ShapeComparisons(observed, spec);
    AllOkTwo(cs[0], cs[1]);
    FirstOfTwo(cs[0], cs[1]);
  }

  lemma SchemaJudged(observed: Schema, spec: Schema, fold: string -> string, types: seq<Comparison>, r: CheckResult)
    requires DistinctColumns(observed) && |types| == |spec|
    requires forall j | 0 <= j < |spec| :: types[j] == TypeComparison(observed, spec[j], fold)
    requires r.comparisons == ShapeComparisons(observed, spec) + types
    requires r == Finished(SchemaExactness, Verdict(r.comparisons), NoCode, r.comparisons)
    ensures !r.status.Skipped? && (r.status.Pass? <==> SameColumns(observed, spec, fold))
    ensures r.status.Fail? ==>
      && HasMechanism(SchemaExactness, r.reason) && NamesFirst(r.comparisons, r.reason)
      && r.reason == if |observed| != |spec| then ColumnCount
                     else if NamesOf(observed) != NamesOf(spec) then ColumnSetOrOrder
                     else TypeMismatch
  {
    var shape := ShapeComparisons(observed, spec);
    ComparedColumns(observed, spec, fold, types);
    ColumnsCause(observed, spec, fold, types);
    VerdictNamesFirst(SchemaExactness, shape + types);
  }

  lemma ComparedColumns(observed: Schema, spec: Schema, fold: string -> string, types: seq<Comparison>)
    requires DistinctColumns(observed) && |types| == |spec|
    requires forall j | 0 <= j < |spec| :: types[j] == TypeComparison(observed, spec[j], fold)
    ensures AllOk(ShapeComparisons(observed, spec) + types) <==> SameColumns(observed, spec, fold)
  {
    ShapeExactly(observed, spec);
    TypesExactly(observed, spec, fold, types);
    AllOkAppend(ShapeComparisons(observed, spec), types);
    SameByName(observed, spec, fold);
  }

  lemma ColumnsCause(observed: Schema, spec: Schema, fold: string -> string, types: seq<Comparison>)
    requires |types| == |spec| && forall j | 0 <= j < |spec| :: types[j] == TypeComparison(observed, spec[j], fold)
    ensures var cs := ShapeComparisons(observed, spec) + types;
            && Coded(SchemaExactness, cs)
            && (!AllOk(cs) ==>
                  FirstCode(cs) == if |observed| != |spec| then ColumnCount
                                   else if NamesOf(observed) != NamesOf(spec) then ColumnSetOrOrder
                                   else TypeMismatch)
  {
    var shape := ShapeComparisons(observed, spec);
    ShapeExactly(observed, spec);
    TypesExactly(observed, spec, fold, types);
    AllOneCode(SchemaExactness, types, TypeMismatch);
    AllOkAppend(shape, types);
    FirstInTwo(SchemaExactness, shape, types);
  }

  lemma TypesExactly(observed: Schema, spec: Schema, fold: string -> string, types: seq<Comparison>)
    requires |types| == |spec| && forall j | 0 <= j < |spec| :: types[j] == TypeComparison(observed, spec[j], fold)
    ensures forall c | c in types :: c.code == TypeMismatch
    ensures AllOk(types) <==> forall j | 0 <= j < |spec| :: fold(TypeIn(observed, spec[j].0)) == fold(spec[j].1)
  {
    if AllOk(types) {
      forall j | 0 <= j < |spec| ensures fold(TypeIn(observed, spec[j].0)) == fold(spec[j].1) {
        assert types[j] in types;
      }
    }
  }

  lemma SameByName(observed: Schema, spec: Schema, fold: string -> string)
    requires DistinctColumns(observed)
    ensures SameColumns(observed, spec, fold) <==>
      NamesOf(observed) == NamesOf(spec) && forall j | 0 <= j < |spec| :: fold(TypeIn(observed, spec[j].0)) == fold(spec[j].1)
  {
    assert SameColumns(observed, spec, fold) ==> NamesOf(observed) == NamesOf(spec);
    if NamesOf(observed) == NamesOf(spec) {
      forall j | 0 <= j < |spec| ensures observed[j].0 == spec[j].0 && TypeIn(observed, spec[j].0) == observed[j].1 {
        assert NamesOf(observed)[j] == NamesOf(spec)[j];
        TypeAt(observed, j);
      }
    }
  }

  // ---- refusal of incremental mode ---------------------------------------

  /** Passes exactly when the mode is refused with a message that names the cause. */
  method CheckRefusal(reply: Reply, cause: string) returns (r: CheckResult)
    ensures r.status.Pass? <==> reply.Some? && Occurs(cause, reply.value)
    ensures !r.status.Skipped? && (r.status.Fail? ==> HasMechanism(Refusal, r.reason) && NamesFirst(r.comparisons, r.reason))
    ensures (r.reason == ModeAccepted <==> reply.None?) && (r.status.Pass? ==> AllOk(r.comparisons) && r.reason == NoCode)
  {
    match reply
    case None =>
      r := Finished(Refusal, Fail, ModeAccepted, [Comparison(false, ModeAccepted)]);
      assert !r.comparisons[0].ok && r.comparisons[0].code == r.reason;
    case Some(message) =>
      var matched := Occurs(cause, message);
      r := Finished(Refusal, if matched then Pass else Fail, if matched then NoCode else WrongError,
                    [Comparison(true, NoCode), Comparison(matched, WrongError)]);
      assert !matched ==> !r.comparisons[1].ok && r.comparisons[1].code == r.reason;
  }

  // ---- checksum ----------------------------------------------------------

  /** What two pulls of one lane are compared by. */
  datatype Pulled = Pulled(
    sha: string, rows: int, schema: map<string, string>, blocks: seq<int>, aggregates: map<string, Value>)

  /** The layers that carry data. */
  predicate SameData(a: Pulled, b: Pulled) {
    a.rows == b.rows && a.schema == b.schema && a.blocks == b.blocks && a.aggregates == b.aggregates
  }

  /**
   * Passes exactly on equal, nonempty digests. A failure names the data layer
   * when one differs, though the digest comparison comes first and carries the
   * other code, and the bytes only when no layer does.
   */
  method CheckChecksum(first: Pulled, second: Pulled) returns (r: CheckResult)
    ensures r.status.Pass? <==> first.sha != [] && first.sha == second.sha
    ensures r.status.Fail? ==> HasMechanism(Checksum, r.reason)
    ensures r.status.Fail? ==> r.reason == if SameData(first, second) then BytesOnly else DataLayerDiffers
    ensures r.status.Fail? ==> FirstCode(r.comparisons) == BytesOnly && !AllOk(r.comparisons)
    ensures r.status.Pass? ==> AllOk(r.comparisons) && r.reason == NoCode
    ensures !r.status.Skipped?
  {
    if first.sha != [] && first.sha == second.sha {
      return Finished(Checksum, Pass, NoCode, [Comparison(true, NoCode)]);
    }
    var layers := [Comparison(first.rows == second.rows, DataLayerDiffers),
                   Comparison(first.schema == second.schema, DataLayerDiffers),
                   Comparison(first.blocks == second.blocks, DataLayerDiffers),
                   Comparison(first.aggregates == second.aggregates, DataLayerDiffers)];
    FourLayers(layers);
    var comparisons := [Comparison(false, BytesOnly)] + layers;
    assert comparisons[0] in comparisons;
    return Finished(Checksum, Fail, if AllOk(layers) then BytesOnly else DataLayerDiffers, comparisons);
  }

  /** An ordered schema as the dict it is compared as. */
  function AsDict(s: Schema): map<string, string> {
    map i | 0 <= i < |s| :: s[i].0 := TypeIn(s, s[i].0)
  }

  lemma InDict(s: Schema, c: (string, string))
    requires DistinctColumns(s)
    ensures c in s <==> c.0 in AsDict(s) && AsDict(s)[c.0] == c.1
  {
    if c in s {
      var i :| 0 <= i < |s| && s[i] == c;
      TypeAt(s, i);
    }
    if c.0 in AsDict(s) && AsDict(s)[c.0] == c.1 {
      var i :| 0 <= i < |s| && s[i].0 == c.0;
      TypeAt(s, i);
    }
  }

  /** Two schemas are one dict exactly when they have the same columns, in whatever order. */
  lemma SameDictExactly(a: Schema, b: Schema)
    requires DistinctColumns(a) && DistinctColumns(b)
    ensures AsDict(a) == AsDict(b) <==> forall c :: c in a <==> c in b
  {
    if AsDict(a) == AsDict(b) {
      forall c ensures c in a <==> c in b {
        InDict(a, c);
        InDict(b, c);
      }
    }
    if forall c :: c in a <==> c in b {
      forall n ensures (n in AsDict(a) <==> n in AsDict(b)) && (n in AsDict(a) ==> AsDict(a)[n] == AsDict(b)[n]) {
        if n in AsDict(a) {
          InDict(a, (n, AsDict(a)[n]));
          InDict(b, (n, AsDict(a)[n]));
        }
        if n in AsDict(b) {
          InDict(b, (n, AsDict(b)[n]));
          InDict(a, (n, AsDict(b)[n]));
        }
      }
    }
  }

  /**
   * Two pulls that differ in nothing but the order of their columns: to the
   * schema judge the second is another artifact, whatever the fold, and to the
   * checksum judge only its bytes differ.
   */
  method ReorderedIsBytesOnly(first: Pulled, second: Pulled, a: Schema, b: Schema, fold: string -> string)
    returns (schema: CheckResult, checksum: CheckResult)
    requires DistinctColumns(a) && DistinctColumns(b)
    requires (forall c :: c in a <==> c in b) && NamesOf(a) != NamesOf(b)
    requires first.schema == AsDict(a) && second == first.(sha := second.sha, schema := AsDict(b))
    requires first.sha != second.sha
    ensures schema.status.Fail? && checksum.status.Fail? && checksum.reason == BytesOnly
  {
    SameDictExactly(a, b);
    assert SameColumns(b, a, fold) ==> NamesOf(b) == NamesOf(a);
    schema := CheckSchemaExactness(b, a, fold);
    checksum := CheckChecksum(first, second);
  }

  /** Two columns, and the same two the other way round. */
  lemma ReorderedInput()
    ensures var a, b := [("a", "int32"), ("b", "string")], [("b", "string"), ("a", "int32")];
            && DistinctColumns(a) && DistinctColumns(b) && AsDict(a) == AsDict(b)
            && forall fold: string -> string :: !SameColumns(b, a, fold)
  {
    var a, b := [("a", "int32"), ("b", "string")], [("b", "string"), ("a", "int32")];
    assert a[0].0[0] == 'a' && a[1].0[0] == 'b';
    SameDictExactly(a, b);
    assert b[0].0 != a[0].0;
  }

  lemma FourLayers(cs: seq<Comparison>)
    requires |cs| == 4
    ensures AllOk(cs) <==> cs[0].ok && cs[1].ok && cs[2].ok && cs[3].ok
  {
    assert cs[0] in cs && cs[1] in cs && cs[2] in cs && cs[3] in cs;
  }

  // ---- zero-copy serve gate ----------------------------------------------

  /** Counter deltas of one pass. */
  datatype Counters = Counters(copied: nat, zeroCopy: nat, decoded: nat, hits: nat, misses: nat)

  /** Percent of lookups that missed; none when there were none. */
  function MissRate(c: Counters): real {
    if c.hits + c.misses == 0 then 0.0 else 100.0 * c.misses as real / (c.hits + c.misses) as real
  }

  lemma MissRateIsZero(c: Counters)
    ensures MissRate(c) == 0.0 <==> c.misses == 0
  {
    if c.misses > 0 {
      assert 100.0 * c.misses as real > 0.0 && (c.hits + c.misses) as real > 0.0;
    }
  }

  /** Nothing copied on either pass, the cold one decoding in place, the warm one missing and decoding nothing. */
  predicate ServesInPlace(cold: Counters, warm: Counters) {
    && cold.copied == 0 && warm.copied == 0
    && cold.zeroCopy == cold.decoded > 0
    && warm.misses == 0 && warm.decoded == 0
  }

  /** What is wrong first: copies, then the cold pass, then the warm one. */
  function ServeCause(cold: Counters, warm: Counters): Code {
    if cold.copied > 0 then CopiedCold
    else if warm.copied > 0 then CopiedWarm
    else if cold.zeroCopy != cold.decoded then ColdMismatch
    else if cold.decoded == 0 then ColdNoDecode
    else if warm.misses > 0 then WarmMiss
    else WarmDecoded
  }

  method CheckServeGate(cold: Option<Counters>, warm: Option<Counters>) returns (r: CheckResult)
    ensures r.status.Skipped? <==> cold.None? || warm.None?
    ensures cold.Some? && warm.Some? ==> (r.status.Pass? <==> ServesInPlace(cold.value, warm.value))
    ensures r.status.Fail? ==> HasMechanism(ServeGate, r.reason) && NamesFirst(r.comparisons, r.reason)
    ensures r.status.Fail? ==> cold.Some? && warm.Some? && r.reason == ServeCause(cold.value, warm.value)
  {
    if cold.None? || warm.None? {
      return Finished(ServeGate, Skipped, NoCode, []);
    }
    var comparisons := ServeComparisons(cold.value, warm.value);
    ServeExactly(cold.value, warm.value);
    VerdictNamesFirst(ServeGate, comparisons);
    return Finished(ServeGate, Verdict(comparisons), NoCode, comparisons);
  }

  function ColdComparisons(cold: Counters, warm: Counters): seq<Comparison> {
    [Comparison(cold.copied == 0, CopiedCold), Comparison(warm.copied == 0, CopiedWarm),
     Comparison(cold.zeroCopy == cold.decoded, ColdMismatch)]
  }

  function WarmComparisons(cold: Counters, missRate: real, warm: Counters): seq<Comparison> {
    [Comparison(cold.decoded > 0, ColdNoDecode), Comparison(missRate == 0.0, WarmMiss),
     Comparison(warm.decoded == 0, WarmDecoded)]
  }

  function ServeComparisons(cold: Counters, warm: Counters): seq<Comparison> {
    ColdComparisons(cold, warm) + WarmComparisons(cold, MissRate(warm), warm)
  }

  lemma ColdExactly(cold: Counters, warm: Counters)
    ensures Coded(ServeGate, ColdComparisons(cold, warm))
    ensures AllOk(ColdComparisons(cold, warm)) <==> cold.copied == 0 && warm.copied == 0 && cold.zeroCopy == cold.decoded
    ensures !AllOk(ColdComparisons(cold, warm)) ==>
      FirstCode(ColdComparisons(cold, warm))
      == if cold.copied > 0 then CopiedCold else if warm.copied > 0 then CopiedWarm else ColdMismatch
  {
    var cs := ColdComparisons(cold, warm);
    AllOkThree(cs[0], cs[1], cs[2]);
    FirstOfThree(cs[0], cs[1], cs[2]);
  }

  lemma WarmExactly(cold: Counters, missRate: real, warm: Counters)
    ensures Coded(ServeGate, WarmComparisons(cold, missRate, warm))
    ensures AllOk(WarmComparisons(cold, missRate, warm)) <==> cold.decoded > 0 && missRate == 0.0 && warm.decoded == 0
    ensures !AllOk(WarmComparisons(cold, missRate, warm)) ==>
      FirstCode(WarmComparisons(cold, missRate, warm))
      == if cold.decoded == 0 then ColdNoDecode else if missRate != 0.0 then WarmMiss else WarmDecoded
  {
    var cs := WarmComparisons(cold, missRate, warm);
    AllOkThree(cs[0], cs[1], cs[2]);
    FirstOfThree(cs[0], cs[1], cs[2]);
  }

  lemma ServeExactly(cold: Counters, warm: Counters)
    ensures Coded(ServeGate, ServeComparisons(cold, warm))
    ensures AllOk(ServeComparisons(cold, warm)) <==> ServesInPlace(cold, warm)
    ensures !AllOk(ServeComparisons(cold, warm)) ==> FirstCode(ServeComparisons(cold, warm)) == ServeCause(cold, warm)
  {
    MissRateIsZero(warm);
    ColdExactly(cold, warm);
    WarmExactly(cold, MissRate(warm), warm);
    AllOkAppend(ColdComparisons(cold, warm), WarmComparisons(cold, MissRate(warm), warm));
    FirstInTwo(ServeGate, ColdComparisons(cold, warm), WarmComparisons(cold, MissRate(warm), warm));
  }

  // ---- recipe security ---------------------------------------------------

  /** Passes exactly when mutations were attempted and every one was refused. */
  method CheckRecipeSecurity(refused: Option<seq<bool>>) returns (r: CheckResult)
    ensures r.status.Skipped? <==> refused.None?
    ensures r.status.Pass? <==> refused.Some? && refused.value != [] && forall x | x in refused.value :: x
    ensures r.status.Fail? ==> HasMechanism(RecipeSecurity, r.reason)
    ensures (r.reason == NoMutations <==> refused == Some([]))
         && (r.reason == MutationAccepted <==> refused.Some? && exists x | x in refused.value :: !x)
  {
    if refused.None? {
      return Finished(RecipeSecurity, Skipped, NoCode, []);
    }
    if refused.value == [] {
      return Finished(RecipeSecurity, Fail, NoMutations, []);
    }
    var outcomes := refused.value;
    var cs := seq(|outcomes|, i requires 0 <= i < |outcomes| => Comparison(outcomes[i], MutationAccepted));
    assert forall i | 0 <= i < |outcomes| :: cs[i] in cs && cs[i].ok == outcomes[i] && outcomes[i] in outcomes;
    VerdictNamesFirst(RecipeSecurity, cs);
    return Finished(RecipeSecurity, Verdict(cs), NoCode, cs);
  }
}
