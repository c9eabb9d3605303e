/** Decisions on the projected record and on the full record agree, record by record
    and over whole logs. */
module LightAgrees {
  import opened Wrappers
  import opened GoExpr
  import opened Light
  import DmnCompiler
  import DmnReads
  import Encryption
  import LinkedLog
  import LogNode

  /** The two structs generated from a sample record and a table's inputs. */
  datatype Structs = Structs(full: seq<FieldDecl>, light: seq<FieldDecl>)

  ghost predicate Generated(s: Structs, sample: JsonRecord, inputs: seq<InputInfo>) {
    exists fields, fieldMap :: GeneratedFrom(s, sample, inputs, fields, fieldMap)
  }

  ghost predicate GeneratedFrom(s: Structs, sample: JsonRecord, inputs: seq<InputInfo>, fields: seq<FieldDecl>,
                                fieldMap: FieldMap) {
    && IsStructOf(fields, sample) && IsFieldMapOf(fieldMap, sample)
    && s == Structs(fields + Extras(fieldMap, inputs), LightFields(Extended(fieldMap, inputs), inputs))
  }

  /** The generator's main program. */
  method GenerateStructs(sample: JsonRecord, inputs: seq<InputInfo>) returns (s: Structs)
    ensures Generated(s, sample, inputs)
  {
    var fields, fieldMap := DeriveStruct(sample);
    var m, extras := ExtendWithContext(fieldMap, inputs);
    var light := DeriveStructLight(m, inputs);
    s := Structs(fields + extras, light);
    assert GeneratedFrom(s, sample, inputs, fields, fieldMap);
  }

  /** The field of a label in the light struct is a field of the full one, and both
      structs lack the labels that neither the sample nor a context provides. */
  lemma FieldsCorrespond(s: Structs, sample: JsonRecord, inputs: seq<InputInfo>, fields: seq<FieldDecl>,
                         fieldMap: FieldMap)
    requires GeneratedFrom(s, sample, inputs, fields, fieldMap)
    requires TitlesDiffer(sample.Keys + Labels(inputs))
    ensures forall x :: x in s.light ==> x in s.full && x.tag in Labels(inputs)
    ensures forall x :: x in s.full && x.tag in Labels(inputs) ==> x in s.light
    ensures forall x :: x in s.full ==> x.name == Title(x.tag) && x.tag in sample.Keys + Labels(inputs)
    ensures forall x :: x in s.full ==> x.typ == if x.tag in sample then ParseType(sample[x.tag]) else FloatType
  {
    var names := sample.Keys + Labels(inputs);
    var m := Extended(fieldMap, inputs);
    forall a, b | a in Labels(inputs) && b in Labels(inputs) && Title(a) == Title(b) ensures a == b {
      assert a in names && b in names;
    }
    forall a, b | a in sample.Keys && b in sample.Keys && Title(a) == Title(b) ensures a == b {
      assert a in names && b in names;
    }
    FieldMapExact(fieldMap, sample);
    ExtendedHas(fieldMap, inputs);
    LightHas(m, inputs);
    forall x | x in Extras(fieldMap, inputs) ensures x.tag !in sample {
      assert x.tag in sample ==> Title(x.tag) in fieldMap;
    }
    forall x | x in s.light ensures x in s.full && x.tag in Labels(inputs) {
      if Title(x.tag) in fieldMap {
        assert FieldFrom(Title(x.tag), fieldMap[Title(x.tag)], sample, {});
        var k :| k in sample && Title(k) == Title(x.tag);
        assert k in names && x.tag in names;
        assert x == FieldDecl(Title(k), ParseType(sample[k]), k);
      } else {
        var y :| y in Extras(fieldMap, inputs) && y.name == Title(x.tag);
        assert y.tag in names && x.tag in names;
        assert x == y;
      }
    }
    forall x | x in s.full && x.tag in Labels(inputs) ensures x in s.light {
      if x in fields {
        assert Title(x.tag) in fieldMap;
      } else {
        assert x in Extras(fieldMap, inputs);
        assert x.name in m && x.name !in fieldMap;
      }
    }
  }

  lemma UniformByType(fields: seq<FieldDecl>, sample: JsonRecord)
    requires forall x :: x in fields ==> x.typ == if x.tag in sample then ParseType(sample[x.tag]) else FloatType
    ensures Uniform(fields)
  {
  }

  /** Both structs read the labels of a record alike. */
  lemma ProjectionAgrees(s: Structs, sample: JsonRecord, inputs: seq<InputInfo>, record: JsonRecord, dates: DateReader)
    requires Generated(s, sample, inputs) && TitlesDiffer(sample.Keys + Labels(inputs))
    requires Unmarshal(s.full, record).Some?
    ensures Unmarshal(s.light, record).Some?
    ensures DmnReads.Agree(InputsOf(dates, Unmarshal(s.full, record).value),
                           InputsOf(dates, Unmarshal(s.light, record).value),
                           Labels(inputs))
  {
    var fields, fieldMap :| GeneratedFrom(s, sample, inputs, fields, fieldMap);
    FieldsCorrespond(s, sample, inputs, fields, fieldMap);
    UniformByType(s.full, sample);
    UniformByType(s.light, sample);
    PartDecodes(s.full, s.light, record);
    var a, b := Unmarshal(s.full, record).value, Unmarshal(s.light, record).value;
    forall k | k in Labels(inputs) ensures (k in a <==> k in b) && (k in a ==> a[k] == b[k]) {
      SameAt(s, record, k, inputs);
    }
    InputsAgree(dates, a, b, Labels(inputs));
  }

  lemma InputsAgree(dates: DateReader, a: StructValue, b: StructValue, keys: set<string>)
    requires forall k | k in keys :: (k in a <==> k in b) && (k in a ==> a[k] == b[k])
    ensures DmnReads.Agree(InputsOf(dates, a), InputsOf(dates, b), keys)
  {
  }

  lemma PartDecodes(fields: seq<FieldDecl>, part: seq<FieldDecl>, record: JsonRecord)
    requires Unmarshal(fields, record).Some? && forall x :: x in part ==> x in fields
    ensures Unmarshal(part, record).Some?
  {
    UnmarshalHas(fields, record);
    forall i | 0 <= i < |part| ensures StoreAt(record, part[i]).Some? {
      assert part[i] in fields;
      var j :| 0 <= j < |fields| && fields[j] == part[i];
    }
    UnmarshalSucceeds(part, record);
  }

  lemma SameAt(s: Structs, record: JsonRecord, k: string, inputs: seq<InputInfo>)
    requires Uniform(s.full) && Uniform(s.light) && Unmarshal(s.full, record).Some? && Unmarshal(s.light, record).Some?
    requires k in Labels(inputs)
    requires forall x :: x in s.light ==> x in s.full
    requires forall x :: x in s.full && x.tag in Labels(inputs) ==> x in s.light
    ensures var a, b := Unmarshal(s.full, record).value, Unmarshal(s.light, record).value;
            (k in a <==> k in b) && (k in a ==> a[k] == b[k])
  {
    UnmarshalHas(s.full, record);
    UnmarshalHas(s.light, record);
    forall j | 0 <= j < |s.light| && s.light[j].tag == k ensures k in Unmarshal(s.full, record).value {
      assert s.light[j] in s.full;
      var i :| 0 <= i < |s.full| && s.full[i] == s.light[j];
    }
    if i :| 0 <= i < |s.full| && s.full[i].tag == k {
      assert s.full[i] in s.light;
      var j :| 0 <= j < |s.light| && s.light[j] == s.full[i];
      UnmarshalAt(s.full, record, i);
      UnmarshalAt(s.light, record, j);
    }
  }

  // ---------------------------------------------------------------- decisions

  /** A generated decision function. */
  datatype Compiled = Compiled(table: DmnCompiler.DecisionTable, file: GoFile)
  {
    ghost predicate Wf() {
      DmnCompiler.IsFileOf(file, table)
    }

    function Decide(inputs: Inputs): Option<seq<Returned>> {
      Execute(file, inputs)
    }
  }

  /** The table's inputs are the ones that the structs were generated for. Where an
      interval cell reads the name inside a label, that name is a label, too. */
  ghost predicate Fits(d: Compiled, inputs: seq<InputInfo>) {
    && d.Wf()
    && DmnReads.Covers(d.table, Labels(inputs))
  }

  /** For every record and every table, the decision on the light record is the one on
      the full record. */
  lemma LightDecides(s: Structs, sample: JsonRecord, inputs: seq<InputInfo>, record: JsonRecord, dates: DateReader,
                     d: Compiled)
    requires Generated(s, sample, inputs) && TitlesDiffer(sample.Keys + Labels(inputs)) && Fits(d, inputs)
    requires Unmarshal(s.full, record).Some?
    ensures Unmarshal(s.light, record).Some?
    ensures d.Decide(InputsOf(dates, Unmarshal(s.light, record).value))
        == d.Decide(InputsOf(dates, Unmarshal(s.full, record).value))
  {
    ProjectionAgrees(s, sample, inputs, record, dates);
    DmnReads.SameDecision(d.table, d.file, Labels(inputs),
                          InputsOf(dates, Unmarshal(s.light, record).value),
                          InputsOf(dates, Unmarshal(s.full, record).value));
  }

  // ---------------------------------------------------------------- whole logs

  /** One upload of a file: its records go under the key and, projected, under the light
      key. The two resolves are separate: each finds its head or comes back empty. */
  datatype Upload = Upload(
    records: seq<JsonRecord>,
    fullDraws: seq<LogNode.Draw>,
    lightDraws: seq<LogNode.Draw>,
    fullTimely: bool,
    lightTimely: bool)

  predicate Timely(u: Upload, light: bool) {
    if light then u.lightTimely else u.fullTimely
  }

  function AsStruct(fields: seq<FieldDecl>, records: seq<JsonRecord>): seq<StructValue>
    requires forall i | 0 <= i < |records| :: Unmarshal(fields, records[i]).Some?
  {
    seq(|records|, i requires 0 <= i < |records| => Unmarshal(fields, records[i]).value)
  }

  predicate Decodable(fields: seq<FieldDecl>, records: seq<JsonRecord>) {
    forall i | 0 <= i < |records| :: Unmarshal(fields, records[i]).Some?
  }

  predicate DrawsWf(draws: seq<LogNode.Draw>, n: nat) {
    |draws| == n && forall i | 0 <= i < n :: |draws[i].nonce| == Encryption.NONCE_SIZE
  }

  predicate UploadWf(u: Upload) {
    DrawsWf(u.fullDraws, |u.records|) && DrawsWf(u.lightDraws, |u.records|)
  }

  /** A file that does not decode into the struct is not uploaded. */
  function PutOf(c: LogNode.Codec<StructValue>, fields: seq<FieldDecl>, key: string, records: seq<JsonRecord>,
                 draws: seq<LogNode.Draw>, timely: bool): seq<LogNode.Put>
    requires |draws| == |records|
  {
    if Decodable(fields, records)
    then [LogNode.Put(key, LogNode.EncodeAll(c, AsStruct(fields, records), draws), timely)]
    else []
  }

  function PutsOf(c: LogNode.Codec<StructValue>, s: Structs, key: string, lightKey: string,
                  uploads: seq<Upload>): seq<LogNode.Put>
    requires forall i | 0 <= i < |uploads| :: UploadWf(uploads[i])
  {
    if uploads == [] then []
    else
      var n := |uploads| - 1;
      var u := uploads[n];
      assert UploadWf(uploads[n]);
      PutsOf(c, s, key, lightKey, uploads[..n])
      + PutOf(c, s.full, key, u.records, u.fullDraws, u.fullTimely)
      + PutOf(c, s.light, lightKey, u.records, u.lightDraws, u.lightTimely)
  }

  /** The records that a reader gets: newest upload first, back to the last one that
      found no head. */
  function Newest(uploads: seq<Upload>, light: bool): seq<JsonRecord> {
    if uploads == [] then []
    else
      var u := uploads[|uploads| - 1];
      u.records + if Timely(u, light) then Newest(uploads[..|uploads| - 1], light) else []
  }

  lemma {:induction false} NewestDecodable(fields: seq<FieldDecl>, uploads: seq<Upload>, light: bool)
    requires forall i | 0 <= i < |uploads| :: Decodable(fields, uploads[i].records)
    ensures Decodable(fields, Newest(uploads, light))
    decreases |uploads|
  {
    if uploads != [] {
      NewestDecodable(fields, uploads[..|uploads| - 1], light);
      assert Decodable(fields, uploads[|uploads| - 1].records);
    }
  }

  // ---------------------------------------------------- when the logs line up

  /** The oldest upload that a reader reaches: the last one whose resolve came back
      empty, or the first of all. */
  function Reach(uploads: seq<Upload>, light: bool): (n: nat)
    requires uploads != []
    ensures n < |uploads|
  {
    var n := |uploads| - 1;
    if n == 0 || !Timely(uploads[n], light) then n else Reach(uploads[..n], light)
  }

  /** The records of the uploads from the newest back to the `j`-th. */
  function Back(uploads: seq<Upload>, j: nat): seq<JsonRecord> {
    if |uploads| <= j then [] else uploads[|uploads| - 1].records + Back(uploads[..|uploads| - 1], j)
  }

  lemma {:induction false} NewestIsBack(uploads: seq<Upload>, light: bool)
    requires uploads != []
    ensures Newest(uploads, light) == Back(uploads, Reach(uploads, light))
    decreases |uploads|
  {
    var n := |uploads| - 1;
    if n > 0 && Timely(uploads[n], light) {
      NewestIsBack(uploads[..n], light);
    } else {
      assert Back(uploads[..n], n) == [];
    }
  }

  lemma {:induction false} BackFurther(uploads: seq<Upload>, i: nat, j: nat)
    requires i <= j <= |uploads|
    ensures Back(uploads, i) == Back(uploads, j) + Back(uploads[..j], i)
    decreases |uploads|
  {
    if |uploads| == j {
      assert uploads[..j] == uploads;
      assert [] + Back(uploads, i) == Back(uploads, i);
    } else {
      var n := |uploads| - 1;
      BackFurther(uploads[..n], i, j);
      assert uploads[..n][..j] == uploads[..j];
      assert uploads[n].records + (Back(uploads[..n], j) + Back(uploads[..j], i))
          == uploads[n].records + Back(uploads[..n], j) + Back(uploads[..j], i);
    }
  }

  lemma {:induction false} BackEmpty(uploads: seq<Upload>, j: nat)
    ensures Back(uploads, j) == [] <==> forall k | j <= k < |uploads| :: uploads[k].records == []
    decreases |uploads|
  {
    if |uploads| > j {
      BackEmpty(uploads[..|uploads| - 1], j);
      assert forall k | 0 <= k < |uploads| - 1 :: uploads[..|uploads| - 1][k] == uploads[k];
    }
  }

  function Least(a: nat, b: nat): nat {
    if a < b then a else b
  }

  /** No record lies between the oldest uploads that the two readers reach. */
  predicate LineUp(uploads: seq<Upload>)
    requires uploads != []
  {
    var a, b := Reach(uploads, false), Reach(uploads, true);
    forall k | Least(a, b) <= k < a + b - Least(a, b) :: uploads[k].records == []
  }

  lemma BackCompared(uploads: seq<Upload>, i: nat, j: nat)
    requires i <= j <= |uploads|
    ensures Back(uploads, j) <= Back(uploads, i)
    ensures |Back(uploads, j)| == |Back(uploads, i)| <==> forall k | i <= k < j :: uploads[k].records == []
  {
    BackFurther(uploads, i, j);
    BackEmpty(uploads[..j], i);
    assert forall k | 0 <= k < j :: uploads[..j][k] == uploads[k];
  }

  /** One reader gets what the other gets and perhaps more; they get the same exactly if
      the uploads line up. */
  lemma NewestCompared(uploads: seq<Upload>)
    requires uploads != []
    ensures Newest(uploads, false) <= Newest(uploads, true) || Newest(uploads, true) <= Newest(uploads, false)
    ensures |Newest(uploads, false)| == |Newest(uploads, true)| <==> LineUp(uploads)
  {
    var a, b := Reach(uploads, false), Reach(uploads, true);
    NewestIsBack(uploads, false);
    NewestIsBack(uploads, true);
    if a <= b {
      BackCompared(uploads, a, b);
    } else {
      BackCompared(uploads, b, a);
    }
  }

  lemma ExpectedPut(c: LogNode.Codec<StructValue>, puts: seq<LogNode.Put>, fields: seq<FieldDecl>, key: string,
                    records: seq<JsonRecord>, draws: seq<LogNode.Draw>, timely: bool)
    requires LogNode.Faithful(c) && Decodable(fields, records) && DrawsWf(draws, |records|)
    ensures var put := PutOf(c, fields, key, records, draws, timely);
            && LogNode.Expected(c, puts + put, key)
                == AsStruct(fields, records) + (if timely then LogNode.Expected(c, puts, key) else [])
            && forall other | other != key :: LogNode.Expected(c, puts + put, other) == LogNode.Expected(c, puts, other)
  {
    var put := PutOf(c, fields, key, records, draws, timely);
    assert (puts + put)[..|puts|] == puts;
    LogNode.DecodeEncoded(c, AsStruct(fields, records), draws);
  }

  lemma StructConcat(fields: seq<FieldDecl>, a: seq<JsonRecord>, b: seq<JsonRecord>)
    requires Decodable(fields, a) && Decodable(fields, b)
    ensures Decodable(fields, a + b) && AsStruct(fields, a + b) == AsStruct(fields, a) + AsStruct(fields, b)
  {
  }

  /** What the two keys hold after the uploads. */
  ghost predicate Hold(c: LogNode.Codec<StructValue>, s: Structs, key: string, lightKey: string, uploads: seq<Upload>)
    requires forall i | 0 <= i < |uploads| :: UploadWf(uploads[i])
  {
    && Decodable(s.full, Newest(uploads, false)) && Decodable(s.light, Newest(uploads, true))
    && LogNode.Expected(c, PutsOf(c, s, key, lightKey, uploads), key) == AsStruct(s.full, Newest(uploads, false))
    && LogNode.Expected(c, PutsOf(c, s, key, lightKey, uploads), lightKey) == AsStruct(s.light, Newest(uploads, true))
  }

  lemma {:induction false} LogsHold(c: LogNode.Codec<StructValue>, s: Structs, key: string, lightKey: string,
                                    uploads: seq<Upload>)
    requires LogNode.Faithful(c) && key != lightKey && forall i | 0 <= i < |uploads| :: UploadWf(uploads[i])
    requires forall i | 0 <= i < |uploads| ::
        Decodable(s.full, uploads[i].records) && Decodable(s.light, uploads[i].records)
    ensures Hold(c, s, key, lightKey, uploads)
    decreases |uploads|
  {
    NewestDecodable(s.full, uploads, false);
    NewestDecodable(s.light, uploads, true);
    if uploads != [] {
      var n := |uploads| - 1;
      var u, before := uploads[n], uploads[..n];
      assert UploadWf(uploads[n]) && Decodable(s.full, u.records) && Decodable(s.light, u.records);
      LogsHold(c, s, key, lightKey, before);
      var puts := PutsOf(c, s, key, lightKey, before);
      ExpectedPut(c, puts, s.full, key, u.records, u.fullDraws, u.fullTimely);
      var more := PutOf(c, s.full, key, u.records, u.fullDraws, u.fullTimely);
      ExpectedPut(c, puts + more, s.light, lightKey, u.records, u.lightDraws, u.lightTimely);
      StructConcat(s.full, u.records, Newest(before, false));
      StructConcat(s.light, u.records, Newest(before, true));
      assert u.records + [] == u.records;
    }
  }

  lemma ReadsBoth(h: LinkedLog.Address, c: LogNode.Codec<StructValue>, s: Structs, key: string, lightKey: string,
                  uploads: seq<Upload>)
    requires LinkedLog.CollisionFree(h) && LogNode.Faithful(c) && key != lightKey && uploads != []
    requires forall i | 0 <= i < |uploads| :: UploadWf(uploads[i])
    requires forall i | 0 <= i < |uploads| ::
        Decodable(s.full, uploads[i].records) && Decodable(s.light, uploads[i].records)
    ensures Hold(c, s, key, lightKey, uploads)
    ensures var w := LogNode.AfterPuts(h, PutsOf(c, s, key, lightKey, uploads));
            && LogNode.Reads(h, c, w, key, AsStruct(s.full, Newest(uploads, false)))
            && LogNode.Reads(h, c, w, lightKey, AsStruct(s.light, Newest(uploads, true)))
  {
    var puts, n := PutsOf(c, s, key, lightKey, uploads), |uploads| - 1;
    assert UploadWf(uploads[n]) && Decodable(s.full, uploads[n].records) && Decodable(s.light, uploads[n].records);
    assert puts[|puts| - 1].key == lightKey && puts[|puts| - 2].key == key;
    LogNode.LogExact(h, c, puts, key);
    LogNode.LogExact(h, c, puts, lightKey);
    LogsHold(c, s, key, lightKey, uploads);
  }

  /** Decisions over a list of records read from a log. */
  ghost predicate SameDecisions(d: Compiled, dates: DateReader, light: seq<StructValue>, full: seq<StructValue>) {
    |full| == |light| &&
    forall i | 0 <= i < |full| :: d.Decide(InputsOf(dates, light[i])) == d.Decide(InputsOf(dates, full[i]))
  }

  lemma AllDecodable(s: Structs, sample: JsonRecord, inputs: seq<InputInfo>, records: seq<JsonRecord>,
                     dates: DateReader)
    requires Generated(s, sample, inputs) && TitlesDiffer(sample.Keys + Labels(inputs)) && Decodable(s.full, records)
    ensures Decodable(s.light, records)
  {
    forall j | 0 <= j < |records| ensures Unmarshal(s.light, records[j]).Some? {
      ProjectionAgrees(s, sample, inputs, records[j], dates);
    }
  }

  /** Over whole logs: after any uploads, whatever their resolves find, a reader of the
      light key decides as a reader of the full key on the records that both get, in the
      same order; and they get the same records exactly if the uploads line up. */
  lemma LightLogDecides(h: LinkedLog.Address, c: LogNode.Codec<StructValue>, s: Structs, sample: JsonRecord,
                        inputs: seq<InputInfo>, key: string, lightKey: string, uploads: seq<Upload>,
                        dates: DateReader, d: Compiled)
    returns (full: seq<StructValue>, light: seq<StructValue>)
    requires LinkedLog.CollisionFree(h) && LogNode.Faithful(c) && key != lightKey && uploads != []
    requires Generated(s, sample, inputs) && TitlesDiffer(sample.Keys + Labels(inputs)) && Fits(d, inputs)
    requires forall i | 0 <= i < |uploads| :: UploadWf(uploads[i]) && Decodable(s.full, uploads[i].records)
    ensures var w := LogNode.AfterPuts(h, PutsOf(c, s, key, lightKey, uploads));
            LogNode.Reads(h, c, w, key, full) && LogNode.Reads(h, c, w, lightKey, light)
    ensures var n := Least(|full|, |light|); SameDecisions(d, dates, light[..n], full[..n])
    ensures SameDecisions(d, dates, light, full) <==> LineUp(uploads)
  {
    forall i | 0 <= i < |uploads| ensures Decodable(s.light, uploads[i].records) {
      AllDecodable(s, sample, inputs, uploads[i].records, dates);
    }
    ReadsBoth(h, c, s, key, lightKey, uploads);
    var a, b := Newest(uploads, false), Newest(uploads, true);
    NewestCompared(uploads);
    full, light := AsStruct(s.full, a), AsStruct(s.light, b);
    PrefixDecides(s, sample, inputs, a, b, dates, d);
  }

  lemma PrefixDecides(s: Structs, sample: JsonRecord, inputs: seq<InputInfo>, a: seq<JsonRecord>, b: seq<JsonRecord>,
                      dates: DateReader, d: Compiled)
    requires Generated(s, sample, inputs) && TitlesDiffer(sample.Keys + Labels(inputs)) && Fits(d, inputs)
    requires Decodable(s.full, a) && Decodable(s.light, b) && (a <= b || b <= a)
    ensures var full, light := AsStruct(s.full, a), AsStruct(s.light, b);
            var n := Least(|full|, |light|);
            && SameDecisions(d, dates, light[..n], full[..n])
            && (SameDecisions(d, dates, light, full) <==> |full| == |light|)
  {
    forall i | 0 <= i < Least(|a|, |b|)
      ensures d.Decide(InputsOf(dates, AsStruct(s.light, b)[i])) == d.Decide(InputsOf(dates, AsStruct(s.full, a)[i]))
    {
      SameRecord(a, b, i);
      RecordDecides(s, sample, inputs, a, b, dates, d, i);
    }
    PrefixSame(d, dates, AsStruct(s.light, b), AsStruct(s.full, a));
  }

  lemma SameRecord(a: seq<JsonRecord>, b: seq<JsonRecord>, i: nat)
    requires (a <= b || b <= a) && i < Least(|a|, |b|)
    ensures a[i] == b[i]
  {
  }

  lemma RecordDecides(s: Structs, sample: JsonRecord, inputs: seq<InputInfo>, a: seq<JsonRecord>, b: seq<JsonRecord>,
                      dates: DateReader, d: Compiled, i: nat)
    requires Generated(s, sample, inputs) && TitlesDiffer(sample.Keys + Labels(inputs)) && Fits(d, inputs)
    requires Decodable(s.full, a) && Decodable(s.light, b) && i < Least(|a|, |b|) && a[i] == b[i]
    ensures d.Decide(InputsOf(dates, AsStruct(s.light, b)[i])) == d.Decide(InputsOf(dates, AsStruct(s.full, a)[i]))
  {
    LightDecides(s, sample, inputs, a[i], dates, d);
  }

  lemma PrefixSame(d: Compiled, dates: DateReader, light: seq<StructValue>, full: seq<StructValue>)
    requires forall i | 0 <= i < Least(|light|, |full|) ::
               d.Decide(InputsOf(dates, light[i])) == d.Decide(InputsOf(dates, full[i]))
    ensures var n := Least(|full|, |light|);
            && SameDecisions(d, dates, light[..n], full[..n])
            && (SameDecisions(d, dates, light, full) <==> |full| == |light|)
  {
  }
}
