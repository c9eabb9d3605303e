/** Aggregation requests: a filter and a formula over the log's records. */
module Aggregates {
  import opened Wrappers
  import opened Aggregation
  import opened Requests

  datatype Aggregate = MaxFn | MinFn | MeanFn | SumFn | CountFn

  /** The dynamic type of a formula's result: `count` returns an int, the others a float. */
  datatype Result = IntResult(n: int) | FloatResult(x: Extended)

  /** How many records have the field, whatever its type. */
  function CountValid(records: seq<Record>, field: string): nat {
    if records == [] then 0
    else CountValid(records[..|records| - 1], field) + (if field in records[|records| - 1] then 1 else 0)
  }

  /** A formula that is one call. None: the call panics on a field it cannot read. */
  function Evaluated(fn: Aggregate, records: seq<Record>, field: string): Option<Result> {
    if fn == CountFn then Some(IntResult(CountValid(records, field)))
    else if Readable(records, field) then Some(FloatResult(ValueOf(fn, Values(records, field))))
    else None
  }

  /** The type assertion on the result. */
  function AsFloat(r: Option<Result>): Option<Extended> {
    match r
    case Some(FloatResult(x)) => Some(x)
    case _ => None
  }

  /** None is an error: no elements, a panic, or a result that is no float. */
  function Aggregated(fn: Aggregate, records: seq<Record>, field: string): Option<Extended> {
    if records == [] then None else AsFloat(Evaluated(fn, records, field))
  }

  function ValueOf(fn: Aggregate, v: seq<real>): Extended {
    match fn
    case MaxFn => Largest(v)
    case MinFn => Smallest(v)
    case MeanFn => Finite(Mean(v))
    case _ => Finite(Sum(v))
  }

  function AsExtended(r: Option<real>): Option<Extended> {
    match r
    case None => None
    case Some(x) => Some(Finite(x))
  }

  function FloatOf(x: Option<Extended>): Option<Result> {
    match x
    case None => None
    case Some(v) => Some(FloatResult(v))
  }

  method CountOf(records: seq<Record>, field: string) returns (count: int)
    ensures count == CountValid(records, field)
  {
    count := 0;
    for i := 0 to |records|
      invariant count == CountValid(records[..i], field)
    {
      assert records[..i + 1][..i] == records[..i];
      if field in records[i] {
        count := count + 1;
      }
    }
    assert records[..|records|] == records;
  }

  method RunFormula(records: seq<Record>, fn: Aggregate, field: string) returns (r: Option<Result>)
    ensures r == Evaluated(fn, records, field)
  {
    match fn {
      case MaxFn =>
        var x := MaxOf(records, field);
        r := FloatOf(x);
      case MinFn =>
        var x := MinOf(records, field);
        r := FloatOf(x);
      case MeanFn =>
        var m := MeanOf(records, field);
        r := FloatOf(AsExtended(m));
      case SumFn =>
        var s := SumOf(records, field);
        r := FloatOf(AsExtended(s));
      case CountFn =>
        var n := CountOf(records, field);
        r := Some(IntResult(n));
    }
  }

  method PerformWithDynamicField(records: seq<Record>, fn: Aggregate, field: string) returns (r: Option<Extended>)
    ensures r == Aggregated(fn, records, field)
  {
    if |records| == 0 {
      return None;
    }
    var result := RunFormula(records, fn, field);
    r := AsFloat(result);
  }

  /** `count` is the number of records that have the field. */
  lemma {:induction false} CountIsKept(records: seq<Record>, field: string)
    ensures CountValid(records, field) == |Kept((r: Record) => if field in r then Keep else Drop, records)|
  {
    if records != [] {
      CountIsKept(records[..|records| - 1], field);
    }
  }

  /** Exactly when a formula of one call has an answer: `count` on its own never has. */
  lemma AnswersIff(fn: Aggregate, records: seq<Record>, field: string)
    ensures Aggregated(fn, records, field).Some? <==> fn != CountFn && records != [] && Readable(records, field)
  {
  }

  // --------------------------------------------------------------- plan mode

  function PlanOf(r: Record): Option<string> {
    if "Plan" !in r || !r["Plan"].Text? then None
    else
      var p := r["Plan"].text;
      Some(if |p| > 2 && p[..2] == "PL" then p[2..] else p)
  }

  function PlanCount(records: seq<Record>, plan: string): nat {
    if records == [] then 0
    else PlanCount(records[..|records| - 1], plan) + (if PlanOf(records[|records| - 1]) == Some(plan) then 1 else 0)
  }

  /** No plan occurs more often; without any plan, the empty text. */
  ghost predicate MostFrequent(records: seq<Record>, plan: string) {
    && (forall p :: PlanCount(records, p) <= PlanCount(records, plan))
    && (PlanCount(records, plan) == 0 ==> plan == "")
  }

  method CountPlans(records: seq<Record>) returns (counts: map<string, nat>)
    ensures forall p :: p in counts <==> PlanCount(records, p) > 0
    ensures forall p | p in counts :: counts[p] == PlanCount(records, p)
  {
    counts := map[];
    for i := 0 to |records|
      invariant forall p :: p in counts <==> PlanCount(records[..i], p) > 0
      invariant forall p | p in counts :: counts[p] == PlanCount(records[..i], p)
    {
      assert records[..i + 1][..i] == records[..i];
      match PlanOf(records[i]) {
        case None =>
        case Some(p) => counts := counts[p := (if p in counts then counts[p] else 0) + 1];
      }
    }
    assert records[..|records|] == records;
  }

  /** The range over the map may be in any order: ties may go either way. */
  method MostFrequentPlan(records: seq<Record>) returns (plan: string)
    ensures MostFrequent(records, plan)
  {
    var counts := CountPlans(records);
    plan := "";
    var maxCount := 0;
    var left := counts.Keys;
    while left != {}
      invariant left <= counts.Keys
      invariant maxCount == 0 ==> plan == ""
      invariant maxCount > 0 ==> plan in counts && counts[plan] == maxCount
      invariant forall p | p in counts && p !in left :: counts[p] <= maxCount
      decreases left
    {
      var p :| p in left;
      left := left - {p};
      if counts[p] > maxCount {
        plan, maxCount := p, counts[p];
      }
    }
    forall p ensures PlanCount(records, p) <= PlanCount(records, plan) {
      assert PlanCount(records, p) > 0 ==> p in counts;
    }
  }

  // --------------------------------------------------------------- a request

  type FloatReader = string -> Option<real>

  /** The formula that is recognised by its text. */
  const ALL_PLANS: string := "max(allPlans)"

  /** Compiling the text of a filter or of a formula; None is an error. */
  type FilterCompiler = string -> Option<Filter>
  type FormulaCompiler = string -> Option<(Aggregate, string)>

  /** The answer to a request after its text has been taken apart. */
  ghost predicate Answers(f: Filter, formula: string, formulaOf: FormulaCompiler, records: seq<Record>,
                          parseFloat: FloatReader,
                          r: Option<Extended>) {
    if Fails(f, records) then r == None
    else if formula == ALL_PLANS then exists p :: MostFrequent(records, p) && r == AsExtended(parseFloat(p))
    else
      match formulaOf(formula)
      case None => r == None
      case Some((fn, field)) => r == Aggregated(fn, Kept(f, records), field)
  }

  method NewPerformAggregation(input: string, filterOf: FilterCompiler, formulaOf: FormulaCompiler,
                               records: seq<Record>,
                               parseFloat: FloatReader)
    returns (r: Option<Extended>)
    ensures match NewParseInput(input)
            case None => r == None
            case Some(q) =>
              match filterOf(q.filter)
              case None => r == None
              case Some(f) => Answers(f, q.formula, formulaOf, records, parseFloat, r)
  {
    var request := NewParseInput(input);
    if request == None {
      return None;
    }
    var filter := filterOf(request.value.filter);
    if filter == None {
      return None;
    }
    var filtered := EvaluateFilterCondition(filter.value, records);
    if filtered == None {
      return None;
    }
    if request.value.formula == ALL_PLANS {
      var plan := MostFrequentPlan(records);
      return AsExtended(parseFloat(plan));
    }
    match formulaOf(request.value.formula) {
      case None => r := None;
      case Some((fn, field)) => r := PerformWithDynamicField(filtered.value, fn, field);
    }
  }

  // ------------------------------------------------------------- main results

  /** The answer to a request does not depend on the order of the log. */
  lemma OrderIndependent(f: Filter, fn: Aggregate, field: string, a: seq<Record>, b: seq<Record>)
    requires Permuted(a, b)
    ensures Fails(f, a) <==> Fails(f, b)
    ensures Aggregated(fn, Kept(f, a), field) == Aggregated(fn, Kept(f, b), field)
  {
    KeptPermuted(f, a, b);
    if Fails(f, a) {
      FailsPermuted(f, a, b);
    }
    if Fails(f, b) {
      FailsPermuted(f, b, a);
    }
    KeptAgree(fn, field, Kept(f, a), Kept(f, b));
  }

  lemma KeptAgree(fn: Aggregate, field: string, x: seq<Record>, y: seq<Record>)
    requires Permuted(x, y)
    ensures Aggregated(fn, x, field) == Aggregated(fn, y, field)
  {
    assert |multiset(x)| == |x| && |multiset(y)| == |y|;
    if Readable(x, field) {
      ValuesPermuted(x, y, field);
      AggregatesPermuted(Values(x, field), Values(y, field));
    } else if Readable(y, field) {
      ValuesPermuted(y, x, field);
    }
  }

  lemma {:induction false} PlanCountConcat(a: seq<Record>, b: seq<Record>, p: string)
    ensures PlanCount(a + b, p) == PlanCount(a, p) + PlanCount(b, p)
    decreases |b|
  {
    if b == [] {
      assert a + b == a;
    } else {
      PlanCountConcat(a, b[..|b| - 1], p);
      assert (a + b)[..|a + b| - 1] == a + b[..|b| - 1];
    }
  }

  lemma {:induction false} PlanCountPermuted(a: seq<Record>, b: seq<Record>, p: string)
    requires Permuted(a, b)
    ensures PlanCount(a, p) == PlanCount(b, p)
    decreases |a|
  {
    if a == [] {
      assert |multiset(b)| == |b|;
    } else {
      var i := LastOut(a, b);
      var x := [b[i]];
      PlanCountPermuted(a[..|a| - 1], b[..i] + b[i + 1..], p);
      assert b == b[..i] + (x + b[i + 1..]);
      PlanCountConcat(b[..i], x + b[i + 1..], p);
      PlanCountConcat(x, b[i + 1..], p);
      PlanCountConcat(b[..i], b[i + 1..], p);
      assert x[..0] == [];
    }
  }

  lemma PlansOrderIndependent(a: seq<Record>, b: seq<Record>, plan: string)
    requires Permuted(a, b)
    ensures MostFrequent(a, plan) <==> MostFrequent(b, plan)
  {
    forall p ensures PlanCount(a, p) == PlanCount(b, p) {
      PlanCountPermuted(a, b, p);
    }
  }

  /** How the answers over two batches give the answer over both. */
  function Combined(fn: Aggregate, x: Extended, m: nat, y: Extended, n: nat): Extended
    requires fn == MaxFn || fn == MinFn || (x.Finite? && y.Finite? && m + n > 0)
  {
    match fn
    case MaxFn => Max(x, y)
    case MinFn => Min(x, y)
    case MeanFn => Finite((x.value * m as real + y.value * n as real) / (m + n) as real)
    case _ => Finite(x.value + y.value)
  }

  /** The answer over two batches: with nothing kept of one, that of the other. */
  function CombinedAnswer(fn: Aggregate, x: Option<Extended>, m: nat, y: Option<Extended>, n: nat): Option<Extended> {
    if m == 0 then y
    else if n == 0 then x
    else
      match (x, y)
      case (Some(a), Some(b)) =>
        if fn == MaxFn || fn == MinFn || (a.Finite? && b.Finite?) then Some(Combined(fn, a, m, b, n)) else None
      case _ => None
  }

  /** Answers over a log are combined from those over its batches, for all batches. */
  lemma BatchesCombine(f: Filter, fn: Aggregate, field: string, a: seq<Record>, b: seq<Record>)
    ensures Aggregated(fn, Kept(f, a + b), field)
         == CombinedAnswer(fn, Aggregated(fn, Kept(f, a), field), |Kept(f, a)|,
                           Aggregated(fn, Kept(f, b), field), |Kept(f, b)|)
  {
    KeptConcat(f, a, b);
    KeptCombine(fn, field, Kept(f, a), Kept(f, b));
  }

  lemma KeptCombine(fn: Aggregate, field: string, x: seq<Record>, y: seq<Record>)
    ensures Aggregated(fn, x + y, field)
         == CombinedAnswer(fn, Aggregated(fn, x, field), |x|, Aggregated(fn, y, field), |y|)
  {
    if x == [] {
      assert x + y == y;
    } else if y == [] {
      assert x + y == x;
    } else if fn != CountFn {
      ReadableBoth(x, y, field);
      if Readable(x + y, field) {
        ValuesConcat(x, y, field);
        ValuesCombine(fn, Values(x, field), Values(y, field));
      }
    }
  }

  lemma ReadableBoth(x: seq<Record>, y: seq<Record>, field: string)
    ensures Readable(x + y, field) <==> Readable(x, field) && Readable(y, field)
  {
    if Readable(x + y, field) {
      assert forall i | 0 <= i < |x| :: x[i] == (x + y)[i];
      assert forall i | 0 <= i < |y| :: y[i] == (x + y)[|x| + i];
    }
  }

  lemma ValuesConcat(x: seq<Record>, y: seq<Record>, field: string)
    requires Readable(x, field) && Readable(y, field)
    ensures Readable(x + y, field) && Values(x + y, field) == Values(x, field) + Values(y, field)
  {
  }

  lemma ValuesCombine(fn: Aggregate, u: seq<real>, v: seq<real>)
    requires u != [] && v != []
    ensures fn == MaxFn || fn == MinFn || (ValueOf(fn, u).Finite? && ValueOf(fn, v).Finite?)
    ensures ValueOf(fn, u + v) == Combined(fn, ValueOf(fn, u), |u|, ValueOf(fn, v), |v|)
  {
    if fn == MeanFn {
      MeanConcat(u, v);
    } else {
      AggregatesConcat(u, v);
    }
  }

  lemma OneRecord(f: Filter, r: Record, p: string)
    ensures Kept(f, [r]) == if f(r) == Keep then [r] else []
    ensures PlanCount([r], p) == if PlanOf(r) == Some(p) then 1 else 0
  {
    KeptOne(f, r);
    assert [r][..0] == [];
  }

  /** The most frequent plan is unique when one plan is ahead of all others. */
  lemma OnlyMostFrequent(records: seq<Record>, plan: string)
    requires forall p | p != plan :: PlanCount(records, p) < PlanCount(records, plan)
    ensures forall p :: MostFrequent(records, p) <==> p == plan
  {
    assert PlanCount(records, plan + "x") < PlanCount(records, plan);
    forall p ensures MostFrequent(records, p) <==> p == plan {
      if MostFrequent(records, p) {
        assert PlanCount(records, plan) <= PlanCount(records, p);
      }
    }
  }

  /** Plan mode does not use the filter: on a log where most records have plan 2, it
      answers 2 even when the filter keeps only the record with plan 1. */
  lemma PlanModeIgnoresFilter(f: Filter, one: Record, two: Record)
    requires PlanOf(one) == Some("1") && PlanOf(two) == Some("2") && f(one) == Keep && f(two) == Drop
    ensures var records := [two] + ([one] + [two]);
            && !Fails(f, records) && Kept(f, records) == [one]
            && (forall p :: MostFrequent(records, p) <==> p == "2")
            && (forall p :: MostFrequent(Kept(f, records), p) <==> p == "1")
  {
    var records := [two] + ([one] + [two]);
    OneRecord(f, one, "");
    OneRecord(f, two, "");
    KeptConcat(f, [two], [one] + [two]);
    KeptConcat(f, [one], [two]);
    forall p
      ensures PlanCount(records, p) == if p == "2" then 2 else if p == "1" then 1 else 0
      ensures PlanCount([one], p) == if p == "1" then 1 else 0
    {
      OneRecord(f, one, p);
      OneRecord(f, two, p);
      PlanCountConcat([two], [one] + [two], p);
      PlanCountConcat([one], [two], p);
    }
    OnlyMostFrequent(records, "2");
    OnlyMostFrequent([one], "1");
  }

  // ------------------------------------------------- when the filter is respected

  /** On every log that the filter can be evaluated on, plan mode may answer what it
      might answer on the records that are kept. */
  ghost predicate RespectsFilter(f: Filter) {
    forall records, p | !Fails(f, records) :: MostFrequent(records, p) <==> MostFrequent(Kept(f, records), p)
  }

  /** The filter keeps every record with a plan, unless it fails on it. */
  ghost predicate KeepsPlans(f: Filter) {
    forall r | PlanOf(r).Some? && f(r) != Fail :: f(r) == Keep
  }

  /** The filter fails on every record whose plan is not the empty text. */
  ghost predicate FailsOnPlans(f: Filter) {
    forall r | PlanOf(r).Some? && PlanOf(r) != Some("") :: f(r) == Fail
  }

  lemma {:induction false} KeptPlanCount(f: Filter, records: seq<Record>, p: string)
    requires KeepsPlans(f) && !Fails(f, records)
    ensures PlanCount(Kept(f, records), p) == PlanCount(records, p)
  {
    if records != [] {
      var n := |records| - 1;
      var last := if f(records[n]) == Keep then [records[n]] else [];
      assert f(records[n]) != Fail;
      assert forall i | 0 <= i < n :: records[..n][i] == records[i];
      KeptPlanCount(f, records[..n], p);
      PlanCountConcat(Kept(f, records[..n]), last, p);
      OneRecord(f, records[n], p);
    }
  }

  lemma {:induction false} NoOtherPlan(f: Filter, records: seq<Record>, p: string)
    requires FailsOnPlans(f) && p != "" && forall i | 0 <= i < |records| :: f(records[i]) != Fail
    ensures PlanCount(records, p) == 0
  {
    if records != [] {
      NoOtherPlan(f, records[..|records| - 1], p);
    }
  }

  lemma {:induction false} KeptEvaluates(f: Filter, records: seq<Record>)
    requires !Fails(f, records)
    ensures forall i | 0 <= i < |Kept(f, records)| :: f(Kept(f, records)[i]) != Fail
  {
    if records != [] {
      assert forall i | 0 <= i < |records| - 1 :: records[..|records| - 1][i] == records[i];
      KeptEvaluates(f, records[..|records| - 1]);
    }
  }

  lemma OnlyTheEmptyPlan(records: seq<Record>, p: string)
    requires forall q | q != "" :: PlanCount(records, q) == 0
    ensures MostFrequent(records, p) <==> p == ""
  {
    if p != "" {
      assert PlanCount(records, p) == 0;
    }
  }

  lemma Respected(f: Filter)
    requires KeepsPlans(f) || FailsOnPlans(f)
    ensures RespectsFilter(f)
  {
    forall records, p | !Fails(f, records) ensures MostFrequent(records, p) <==> MostFrequent(Kept(f, records), p) {
      if KeepsPlans(f) {
        forall q ensures PlanCount(Kept(f, records), q) == PlanCount(records, q) {
          KeptPlanCount(f, records, q);
        }
      } else {
        KeptEvaluates(f, records);
        forall q | q != "" ensures PlanCount(records, q) == 0 && PlanCount(Kept(f, records), q) == 0 {
          NoOtherPlan(f, records, q);
          NoOtherPlan(f, Kept(f, records), q);
        }
        OnlyTheEmptyPlan(records, p);
        OnlyTheEmptyPlan(Kept(f, records), p);
      }
    }
  }

  /** A dropped record with a plan other than the empty text is counted all the same. */
  lemma DroppedPlanCounts(f: Filter, r: Record, plan: string)
    requires PlanOf(r) == Some(plan) && plan != "" && f(r) == Drop
    ensures !RespectsFilter(f)
  {
    OneRecord(f, r, plan);
    forall p ensures PlanCount([r], p) <= 1 {
      OneRecord(f, r, p);
    }
    assert !Fails(f, [r]);
    assert MostFrequent([r], plan) && !MostFrequent(Kept(f, [r]), plan);
  }

  /** Two dropped records with the empty plan outnumber a kept one with another plan. */
  lemma DroppedBlankCounts(f: Filter, r: Record, s: Record, plan: string)
    requires PlanOf(r) == Some("") && f(r) == Drop && PlanOf(s) == Some(plan) && plan != "" && f(s) == Keep
    ensures !RespectsFilter(f)
  {
    var records := [r] + ([r] + [s]);
    KeptConcat(f, [r], [r] + [s]);
    KeptConcat(f, [r], [s]);
    forall p
      ensures PlanCount(records, p) == if p == "" then 2 else if p == plan then 1 else 0
      ensures PlanCount([s], p) == if p == plan then 1 else 0
    {
      OneRecord(f, r, p);
      OneRecord(f, s, p);
      PlanCountConcat([r], [r] + [s], p);
      PlanCountConcat([r], [s], p);
    }
    OneRecord(f, r, "");
    OneRecord(f, s, "");
    assert !Fails(f, records) && Kept(f, records) == [s];
    assert PlanCount(records, "") == 2;
    assert MostFrequent(records, "");
    assert PlanCount([s], plan) > PlanCount([s], "");
    assert !MostFrequent(Kept(f, records), "");
  }

  /** Exactly when plan mode respects the filter: the filter keeps every record with a plan
      that it does not fail on, or it fails on every record whose plan is not empty. */
  lemma PlanModeRespectsFilterIff(f: Filter)
    ensures RespectsFilter(f) <==> KeepsPlans(f) || FailsOnPlans(f)
  {
    if KeepsPlans(f) || FailsOnPlans(f) {
      Respected(f);
    } else {
      var r :| PlanOf(r).Some? && f(r) == Drop;
      var s :| PlanOf(s).Some? && PlanOf(s) != Some("") && f(s) != Fail;
      if PlanOf(r) != Some("") {
        DroppedPlanCounts(f, r, PlanOf(r).value);
      } else if f(s) == Drop {
        DroppedPlanCounts(f, s, PlanOf(s).value);
      } else {
        DroppedBlankCounts(f, r, s, PlanOf(s).value);
      }
    }
  }

  /** So a filter that never fails is respected exactly if it keeps every record with a plan. */
  lemma TotalFilterRespectedIff(f: Filter)
    requires forall r :: f(r) != Fail
    ensures RespectsFilter(f) <==> forall r | PlanOf(r).Some? :: f(r) == Keep
  {
    PlanModeRespectsFilterIff(f);
    var one: Record := map["Plan" := Text("1")];
    assert PlanOf(one) == Some("1");
  }
}
