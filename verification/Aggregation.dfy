/** Filtered aggregation over the records of a log. */
module Aggregation {
  import opened Wrappers

  datatype Field = Whole(int) | Number(real) | Text(text: string) | Flag(bool)

  type Record = map<string, Field>

  /** What the filter makes of a record: an error stops the whole evaluation; anything
      but true drops the record. */
  datatype Verdict = Keep | Drop | Fail

  type Filter = Record -> Verdict

  predicate Fails(f: Filter, records: seq<Record>) {
    exists i | 0 <= i < |records| :: f(records[i]) == Fail
  }

  function Kept(f: Filter, records: seq<Record>): seq<Record> {
    if records == [] then []
    else Kept(f, records[..|records| - 1]) +
         (if f(records[|records| - 1]) == Keep then [records[|records| - 1]] else [])
  }

  method EvaluateFilterCondition(f: Filter, records: seq<Record>) returns (kept: Option<seq<Record>>)
    ensures kept == if Fails(f, records) then None else Some(Kept(f, records))
  {
    var elements := [];
    for i := 0 to |records|
      invariant !Fails(f, records[..i])
      invariant elements == Kept(f, records[..i])
    {
      var verdict := f(records[i]);
      assert records[..i + 1][..i] == records[..i];
      if verdict == Fail {
        return None;
      }
      if verdict == Keep {
        elements := elements + [records[i]];
      }
    }
    assert records[..|records|] == records;
    kept := Some(elements);
  }

  // ----------------------------------------------------------------- numbers

  /** The values that `math.Max` and `math.Min` start from are infinite. */
  datatype Extended = MinusInfinity | Finite(value: real) | PlusInfinity

  predicate AtMost(a: Extended, b: Extended) {
    a == MinusInfinity || b == PlusInfinity || (a.Finite? && b.Finite? && a.value <= b.value)
  }

  function Max(a: Extended, b: Extended): Extended {
    if AtMost(a, b) then b else a
  }

  function Min(a: Extended, b: Extended): Extended {
    if AtMost(a, b) then a else b
  }

  predicate Numeric(x: Field) {
    x.Whole? || x.Number?
  }

  function FieldValue(x: Field): real
    requires Numeric(x)
  {
    match x
    case Whole(i) => i as real
    case Number(r) => r
  }

  /** Reading the field of every record works: otherwise the evaluation panics. */
  predicate Readable(records: seq<Record>, field: string) {
    forall i | 0 <= i < |records| :: field in records[i] && Numeric(records[i][field])
  }

  function Values(records: seq<Record>, field: string): (r: seq<real>)
    requires Readable(records, field)
    ensures |r| == |records|
  {
    seq(|records|, i requires 0 <= i < |records| => FieldValue(records[i][field]))
  }

  function Sum(v: seq<real>): real {
    if v == [] then 0.0 else Sum(v[..|v| - 1]) + v[|v| - 1]
  }

  function Largest(v: seq<real>): Extended {
    if v == [] then MinusInfinity else Max(Largest(v[..|v| - 1]), Finite(v[|v| - 1]))
  }

  function Smallest(v: seq<real>): Extended {
    if v == [] then PlusInfinity else Min(Smallest(v[..|v| - 1]), Finite(v[|v| - 1]))
  }

  function Mean(v: seq<real>): real {
    if v == [] then 0.0 else Sum(v) / |v| as real
  }

  // ---------------------------------------------------- the aggregate closures

  method MaxOf(records: seq<Record>, field: string) returns (r: Option<Extended>)
    ensures r == if Readable(records, field) then Some(Largest(Values(records, field))) else None
  {
    var maxVal := MinusInfinity;
    for i := 0 to |records|
      invariant Readable(records[..i], field) && maxVal == Largest(Values(records[..i], field))
    {
      if field !in records[i] || !Numeric(records[i][field]) {
        return None;
      }
      assert Values(records[..i + 1], field)[..i] == Values(records[..i], field);
      maxVal := Max(maxVal, Finite(FieldValue(records[i][field])));
    }
    assert records[..|records|] == records;
    r := Some(maxVal);
  }

  method MinOf(records: seq<Record>, field: string) returns (r: Option<Extended>)
    ensures r == if Readable(records, field) then Some(Smallest(Values(records, field))) else None
  {
    var minVal := PlusInfinity;
    for i := 0 to |records|
      invariant Readable(records[..i], field) && minVal == Smallest(Values(records[..i], field))
    {
      if field !in records[i] || !Numeric(records[i][field]) {
        return None;
      }
      assert Values(records[..i + 1], field)[..i] == Values(records[..i], field);
      minVal := Min(minVal, Finite(FieldValue(records[i][field])));
    }
    assert records[..|records|] == records;
    r := Some(minVal);
  }

  method SumOf(records: seq<Record>, field: string) returns (r: Option<real>)
    ensures r == if Readable(records, field) then Some(Sum(Values(records, field))) else None
  {
    var total := 0.0;
    for i := 0 to |records|
      invariant Readable(records[..i], field) && total == Sum(Values(records[..i], field))
    {
      if field !in records[i] || !Numeric(records[i][field]) {
        return None;
      }
      assert Values(records[..i + 1], field)[..i] == Values(records[..i], field);
      total := total + FieldValue(records[i][field]);
    }
    assert records[..|records|] == records;
    r := Some(total);
  }

  method MeanOf(records: seq<Record>, field: string) returns (r: Option<real>)
    ensures r == if Readable(records, field) then Some(Mean(Values(records, field))) else None
  {
    var total, count := 0.0, 0;
    for i := 0 to |records|
      invariant Readable(records[..i], field) && total == Sum(Values(records[..i], field)) && count == i
    {
      if field !in records[i] || !Numeric(records[i][field]) {
        return None;
      }
      assert Values(records[..i + 1], field)[..i] == Values(records[..i], field);
      total := total + FieldValue(records[i][field]);
      count := count + 1;
    }
    assert records[..|records|] == records;
    if count == 0 {
      return Some(0.0);
    }
    r := Some(total / count as real);
  }

  // ------------------------------------------------------- laws of the values

  /** The largest value is one of them and at least all of them. */
  lemma {:induction false} LargestIsMaximum(v: seq<real>)
    ensures v == [] <==> Largest(v) == MinusInfinity
    ensures v != [] ==> Largest(v).Finite? && Largest(v).value in v
    ensures forall i | 0 <= i < |v| :: AtMost(Finite(v[i]), Largest(v))
  {
    if v != [] {
      var rest, last := v[..|v| - 1], v[|v| - 1];
      LargestIsMaximum(rest);
      assert Largest(v) == Max(Largest(rest), Finite(last));
      forall i | 0 <= i < |v| ensures AtMost(Finite(v[i]), Largest(v)) {
        if i < |rest| {
          assert AtMost(Finite(rest[i]), Largest(rest));
        }
      }
      assert last in v && (rest != [] ==> Largest(rest).value in v);
    }
  }

  lemma {:induction false} SmallestIsMinimum(v: seq<real>)
    ensures v == [] <==> Smallest(v) == PlusInfinity
    ensures v != [] ==> Smallest(v).Finite? && Smallest(v).value in v
    ensures forall i | 0 <= i < |v| :: AtMost(Smallest(v), Finite(v[i]))
  {
    if v != [] {
      var rest, last := v[..|v| - 1], v[|v| - 1];
      SmallestIsMinimum(rest);
      assert Smallest(v) == Min(Smallest(rest), Finite(last));
      forall i | 0 <= i < |v| ensures AtMost(Smallest(v), Finite(v[i])) {
        if i < |rest| {
          assert AtMost(Smallest(rest), Finite(rest[i]));
        }
      }
      assert last in v && (rest != [] ==> Smallest(rest).value in v);
    }
  }

  lemma {:induction false} SumBounds(v: seq<real>, low: real, high: real)
    requires forall i | 0 <= i < |v| :: low <= v[i] <= high
    ensures low * |v| as real <= Sum(v) <= high * |v| as real
  {
    if v != [] {
      SumBounds(v[..|v| - 1], low, high);
      var n := (|v| - 1) as real;
      assert |v| as real == n + 1.0;
      assert low * (n + 1.0) == low * n + low && high * (n + 1.0) == high * n + high;
    }
  }

  lemma TimesKeepsOrder(x: real, y: real, n: real)
    ensures n > 0.0 && x > y ==> x * n > y * n
  {
    if n > 0.0 && x > y {
      assert (x - y) * n > 0.0;
    }
  }

  lemma Quotient(low: real, sum: real, high: real, n: real)
    requires n > 0.0 && low * n <= sum <= high * n
    ensures low <= sum / n <= high && sum / n * n == sum
  {
    TimesKeepsOrder(low, sum / n, n);
    TimesKeepsOrder(sum / n, high, n);
  }

  lemma BetweenExtremes(v: seq<real>)
    requires v != []
    ensures Smallest(v).Finite? && Largest(v).Finite?
    ensures forall i | 0 <= i < |v| :: Smallest(v).value <= v[i] <= Largest(v).value
  {
    SmallestIsMinimum(v);
    LargestIsMaximum(v);
    forall i | 0 <= i < |v| ensures Smallest(v).value <= v[i] <= Largest(v).value {
      assert AtMost(Finite(v[i]), Largest(v)) && AtMost(Smallest(v), Finite(v[i]));
    }
  }

  lemma MeanBetweenBounds(v: seq<real>, low: real, high: real)
    requires v != [] && forall i | 0 <= i < |v| :: low <= v[i] <= high
    ensures low <= Mean(v) <= high
    ensures Mean(v) * |v| as real == Sum(v)
  {
    SumBounds(v, low, high);
    Quotient(low, Sum(v), high, |v| as real);
  }

  /** The mean lies between the extremes, and counts up to the sum. */
  lemma MeanBetween(v: seq<real>)
    requires v != []
    ensures Smallest(v).Finite? && Largest(v).Finite?
    ensures Smallest(v).value <= Mean(v) <= Largest(v).value
    ensures Mean(v) * |v| as real == Sum(v)
  {
    BetweenExtremes(v);
    MeanBetweenBounds(v, Smallest(v).value, Largest(v).value);
  }

  /** Aggregates of two batches combine to the aggregate of both. */
  lemma {:induction false} AggregatesConcat(a: seq<real>, b: seq<real>)
    ensures Sum(a + b) == Sum(a) + Sum(b)
    ensures Largest(a + b) == Max(Largest(a), Largest(b))
    ensures Smallest(a + b) == Min(Smallest(a), Smallest(b))
    decreases |b|
  {
    if b == [] {
      assert a + b == a;
    } else {
      var rest := b[..|b| - 1];
      AggregatesConcat(a, rest);
      assert (a + b)[..|a + b| - 1] == a + rest;
    }
  }

  lemma MeanConcat(a: seq<real>, b: seq<real>)
    requires a != [] && b != []
    ensures Mean(a + b) == (Mean(a) * |a| as real + Mean(b) * |b| as real) / (|a| + |b|) as real
  {
    AggregatesConcat(a, b);
    MeanBetween(a);
    MeanBetween(b);
  }

  // -------------------------------------------------------------- permutations

  predicate Permuted<T(==)>(a: seq<T>, b: seq<T>) {
    multiset(a) == multiset(b)
  }

  lemma RemoveAt<T>(a: seq<T>, i: nat)
    requires i < |a|
    ensures multiset(a[..i] + a[i + 1..]) == multiset(a) - multiset{a[i]}
  {
    assert a == a[..i] + [a[i]] + a[i + 1..];
  }

  lemma LastOut<T>(a: seq<T>, b: seq<T>) returns (i: nat)
    requires Permuted(a, b) && a != []
    ensures i < |b| && b[i] == a[|a| - 1] && Permuted(a[..|a| - 1], b[..i] + b[i + 1..])
  {
    var x := a[|a| - 1];
    assert x in multiset(b);
    i :| 0 <= i < |b| && b[i] == x;
    RemoveAt(a, |a| - 1);
    RemoveAt(b, i);
    assert a[..|a| - 1] + a[|a|..] == a[..|a| - 1];
  }

  lemma AggregatesSplit(b: seq<real>, i: nat)
    requires i < |b|
    ensures var rest := b[..i] + b[i + 1..];
            && Sum(b) == Sum(rest) + b[i]
            && Largest(b) == Max(Largest(rest), Finite(b[i]))
            && Smallest(b) == Min(Smallest(rest), Finite(b[i]))
  {
    var x := [b[i]];
    assert x[..0] == [];
    assert b == b[..i] + (x + b[i + 1..]);
    AggregatesConcat(b[..i], x + b[i + 1..]);
    AggregatesConcat(x, b[i + 1..]);
    AggregatesConcat(b[..i], b[i + 1..]);
    assert Largest(x) == Finite(b[i]) && Smallest(x) == Finite(b[i]) && Sum(x) == b[i];
  }

  /** The aggregates do not depend on the order of the values. */
  lemma {:induction false} AggregatesPermuted(a: seq<real>, b: seq<real>)
    requires Permuted(a, b)
    ensures Sum(a) == Sum(b) && Largest(a) == Largest(b) && Smallest(a) == Smallest(b) && |a| == |b|
    ensures Mean(a) == Mean(b)
    decreases |a|
  {
    assert |multiset(a)| == |a| && |multiset(b)| == |b|;
    if a != [] {
      var i := LastOut(a, b);
      AggregatesPermuted(a[..|a| - 1], b[..i] + b[i + 1..]);
      AggregatesSplit(b, i);
    } else {
      assert b == [];
    }
  }

  lemma {:induction false} KeptConcat(f: Filter, a: seq<Record>, b: seq<Record>)
    ensures Kept(f, a + b) == Kept(f, a) + Kept(f, b)
    decreases |b|
  {
    if b == [] {
      assert a + b == a;
    } else {
      KeptConcat(f, a, b[..|b| - 1]);
      assert (a + b)[..|a + b| - 1] == a + b[..|b| - 1];
    }
  }

  lemma KeptOne(f: Filter, r: Record)
    ensures Kept(f, [r]) == if f(r) == Keep then [r] else []
  {
    assert [r][..0] == [];
  }

  lemma SplitAt<T>(b: seq<T>, i: nat)
    requires i < |b|
    ensures b == b[..i] + ([b[i]] + b[i + 1..])
  {
  }

  lemma MoveOut<T>(a: seq<T>, x: seq<T>, c: seq<T>)
    ensures multiset(a + (x + c)) == multiset(a + c) + multiset(x)
  {
  }

  lemma KeptSplit(f: Filter, b: seq<Record>, i: nat)
    requires i < |b|
    ensures var one := if f(b[i]) == Keep then [b[i]] else [];
            multiset(Kept(f, b)) == multiset(Kept(f, b[..i] + b[i + 1..])) + multiset(one)
  {
    var x, rest := [b[i]], b[i + 1..];
    SplitAt(b, i);
    KeptConcat(f, b[..i], x + rest);
    KeptConcat(f, x, rest);
    KeptOne(f, b[i]);
    KeptConcat(f, b[..i], rest);
    MoveOut(Kept(f, b[..i]), Kept(f, x), Kept(f, rest));
  }

  lemma FailsPermuted(f: Filter, a: seq<Record>, b: seq<Record>)
    requires Permuted(a, b) && Fails(f, a)
    ensures Fails(f, b)
  {
    var i :| 0 <= i < |a| && f(a[i]) == Fail;
    assert a[i] in multiset(b);
    var j :| 0 <= j < |b| && b[j] == a[i];
  }

  /** Filtering commutes with permuting the log, and with appending batches. */
  lemma {:induction false} KeptPermuted(f: Filter, a: seq<Record>, b: seq<Record>)
    requires Permuted(a, b)
    ensures Permuted(Kept(f, a), Kept(f, b))
    decreases |a|
  {
    if a == [] {
      assert |multiset(b)| == |b|;
    } else {
      var i := LastOut(a, b);
      KeptPermuted(f, a[..|a| - 1], b[..i] + b[i + 1..]);
      KeptSplit(f, b, i);
    }
  }

  lemma {:induction false} ValuesPermuted(a: seq<Record>, b: seq<Record>, field: string)
    requires Permuted(a, b) && Readable(a, field)
    ensures Readable(b, field) && Permuted(Values(a, field), Values(b, field))
    decreases |a|
  {
    forall i | 0 <= i < |b| ensures field in b[i] && Numeric(b[i][field]) {
      assert b[i] in multiset(a);
    }
    if a == [] {
      assert |multiset(b)| == |b|;
    } else {
      var i := LastOut(a, b);
      var a', b' := a[..|a| - 1], b[..i] + b[i + 1..];
      ValuesPermuted(a', b', field);
      var va, vb := Values(a, field), Values(b, field);
      assert va == Values(a', field) + [FieldValue(b[i][field])];
      assert vb[..i] + vb[i + 1..] == Values(b', field);
      RemoveAt(vb, i);
    }
  }
}
