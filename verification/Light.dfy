/** The full struct derived from a sample record, and its `Light` projection. */
module Light {
  import opened Wrappers
  import opened GoExpr

  // ----------------------------------------------------------------- records

  datatype Json =
    | JString(s: string) | JNumber(r: real) | JBool(b: bool) | JStrings(items: seq<string>)
    | JArray | JObject | JNull

  type JsonRecord = map<string, Json>

  datatype FieldType = StringType | BoolType | FloatType | StringsType | SliceType | AnyType

  datatype FieldDecl = FieldDecl(name: string, typ: FieldType, tag: string)

  function ParseType(j: Json): FieldType {
    match j
    case JString(_) => StringType
    case JBool(_) => BoolType
    case JNumber(_) => FloatType
    case JStrings(_) => StringsType
    case JArray => SliceType
    case _ => AnyType
  }

  function Upper(c: char): char {
    if 'a' <= c <= 'z' then c - 'a' + 'A' else c
  }

  predicate IsSeparator(c: char) {
    !('a' <= c <= 'z' || 'A' <= c <= 'Z' || '0' <= c <= '9' || c == '_')
  }

  /** `strings.Title`: the first letter of every word is made upper case. */
  function TitleAfter(s: string, prev: char): string {
    if s == "" then "" else [if IsSeparator(prev) then Upper(s[0]) else s[0]] + TitleAfter(s[1..], s[0])
  }

  function Title(s: string): string {
    TitleAfter(s, ' ')
  }

  // ----------------------------------------------------------------- structs

  /** The fields come in the order in which the sample's keys are ranged over. */
  ghost predicate IsStructOf(fields: seq<FieldDecl>, sample: JsonRecord) {
    && (forall i | 0 <= i < |fields| ::
          fields[i].tag in sample &&
          fields[i] == FieldDecl(Title(fields[i].tag), ParseType(sample[fields[i].tag]), fields[i].tag))
    && (forall k | k in sample :: FieldDecl(Title(k), ParseType(sample[k]), k) in fields)
  }

  /** No two keys get the same field name: otherwise the struct does not compile. */
  ghost predicate TitlesDiffer(names: set<string>) {
    forall a, b | a in names && b in names && Title(a) == Title(b) :: a == b
  }

  type FieldMap = map<string, FieldType>

  /** Each title has the type of some key with it; which one depends on the range. */
  ghost predicate IsFieldMapOf(fieldMap: FieldMap, sample: JsonRecord) {
    && (forall k | k in sample :: Title(k) in fieldMap)
    && (forall f | f in fieldMap :: FieldFrom(f, fieldMap[f], sample, {}))
  }

  ghost predicate FieldFrom(f: string, typ: FieldType, sample: JsonRecord, left: set<string>) {
    exists k :: k in sample && k !in left && Title(k) == f && ParseType(sample[k]) == typ
  }

  /** With different titles there is no choice. */
  lemma FieldMapExact(fieldMap: FieldMap, sample: JsonRecord)
    requires IsFieldMapOf(fieldMap, sample) && TitlesDiffer(sample.Keys)
    ensures forall k | k in sample :: Title(k) in fieldMap && fieldMap[Title(k)] == ParseType(sample[k])
  {
    forall k | k in sample ensures Title(k) in fieldMap && fieldMap[Title(k)] == ParseType(sample[k]) {
      assert FieldFrom(Title(k), fieldMap[Title(k)], sample, {});
      var j :| j in sample && Title(j) == Title(k) && ParseType(sample[j]) == fieldMap[Title(k)];
      assert j in sample.Keys && k in sample.Keys;
    }
  }

  method DeriveStruct(sample: JsonRecord) returns (fields: seq<FieldDecl>, fieldMap: FieldMap)
    ensures IsStructOf(fields, sample) && IsFieldMapOf(fieldMap, sample)
  {
    fields, fieldMap := [], map[];
    var left := sample.Keys;
    while left != {}
      invariant left <= sample.Keys
      invariant forall i | 0 <= i < |fields| ::
        fields[i].tag in sample &&
        fields[i] == FieldDecl(Title(fields[i].tag), ParseType(sample[fields[i].tag]), fields[i].tag)
      invariant forall k | k in sample && k !in left ::
        FieldDecl(Title(k), ParseType(sample[k]), k) in fields && Title(k) in fieldMap
      invariant forall f | f in fieldMap :: FieldFrom(f, fieldMap[f], sample, left)
      decreases left
    {
      var key :| key in left;
      ghost var before, more := fieldMap, left;
      var typ := ParseType(sample[key]);
      fieldMap := fieldMap[Title(key) := typ];
      fields := fields + [FieldDecl(Title(key), typ, key)];
      left := left - {key};
      forall f | f in fieldMap ensures FieldFrom(f, fieldMap[f], sample, left) {
        if f == Title(key) {
          assert key in sample && key !in left;
        } else {
          assert FieldFrom(f, before[f], sample, more);
        }
      }
    }
  }

  datatype InputInfo = InputInfo(name: string, typeRef: string)

  /** Context inputs that the sample lacks are added to the field map. */
  function Extended(fieldMap: FieldMap, inputs: seq<InputInfo>): FieldMap {
    if inputs == [] then fieldMap
    else
      var m, last := Extended(fieldMap, inputs[..|inputs| - 1]), inputs[|inputs| - 1];
      if Title(last.name) !in m && last.typeRef == "context" then m[Title(last.name) := FloatType] else m
  }

  function Extras(fieldMap: FieldMap, inputs: seq<InputInfo>): seq<FieldDecl> {
    if inputs == [] then []
    else
      var before, last := inputs[..|inputs| - 1], inputs[|inputs| - 1];
      Extras(fieldMap, before)
      + if Title(last.name) !in Extended(fieldMap, before) && last.typeRef == "context"
        then [FieldDecl(Title(last.name), FloatType, last.name)] else []
  }

  method ExtendWithContext(fieldMap: FieldMap, inputs: seq<InputInfo>) returns (m: FieldMap, extras: seq<FieldDecl>)
    ensures m == Extended(fieldMap, inputs) && extras == Extras(fieldMap, inputs)
  {
    m, extras := fieldMap, [];
    for i := 0 to |inputs|
      invariant m == Extended(fieldMap, inputs[..i]) && extras == Extras(fieldMap, inputs[..i])
    {
      assert inputs[..i + 1][..i] == inputs[..i];
      var field := Title(inputs[i].name);
      if field !in m && inputs[i].typeRef == "context" {
        m := m[field := FloatType];
        extras := extras + [FieldDecl(field, FloatType, inputs[i].name)];
      }
    }
    assert inputs[..|inputs|] == inputs;
  }

  function LightFields(m: FieldMap, inputs: seq<InputInfo>): seq<FieldDecl> {
    if inputs == [] then []
    else
      var inputName := inputs[|inputs| - 1].name;
      LightFields(m, inputs[..|inputs| - 1])
      + if Title(inputName) in m then [FieldDecl(Title(inputName), m[Title(inputName)], inputName)] else []
  }

  method DeriveStructLight(m: FieldMap, inputs: seq<InputInfo>) returns (fields: seq<FieldDecl>)
    ensures fields == LightFields(m, inputs)
  {
    fields := [];
    for i := 0 to |inputs|
      invariant fields == LightFields(m, inputs[..i])
    {
      assert inputs[..i + 1][..i] == inputs[..i];
      var field := Title(inputs[i].name);
      if field in m {
        fields := fields + [FieldDecl(field, m[field], inputs[i].name)];
      }
    }
    assert inputs[..|inputs|] == inputs;
  }

  // ---------------------------------------------------------- struct values

  datatype Stored =
    | AString(s: string) | ABool(b: bool) | AFloat(r: real) | SomeStrings(items: seq<string>)
    | ASlice | Any(j: Json)

  type StructValue = map<string, Stored>

  function ZeroOf(t: FieldType): Stored {
    match t
    case StringType => AString("")
    case BoolType => ABool(false)
    case FloatType => AFloat(0.0)
    case StringsType => SomeStrings([])
    case SliceType => ASlice
    case AnyType => Any(JNull)
  }

  /** Decoding one value into a field; None is a type error. */
  function Store(j: Json, t: FieldType): Option<Stored> {
    match (j, t)
    case (_, AnyType) => Some(Any(j))
    case (JNull, _) => Some(ZeroOf(t))
    case (JString(s), StringType) => Some(AString(s))
    case (JBool(b), BoolType) => Some(ABool(b))
    case (JNumber(r), FloatType) => Some(AFloat(r))
    case (JStrings(v), StringsType) => Some(SomeStrings(v))
    case (JStrings(_), SliceType) => Some(ASlice)
    case (JArray, SliceType) => Some(ASlice)
    case _ => None
  }

  function StoreAt(record: JsonRecord, f: FieldDecl): Option<Stored> {
    if f.tag in record then Store(record[f.tag], f.typ) else Some(ZeroOf(f.typ))
  }

  function Unmarshal(fields: seq<FieldDecl>, record: JsonRecord): Option<StructValue> {
    if fields == [] then Some(map[])
    else
      var n := |fields| - 1;
      match (Unmarshal(fields[..n], record), StoreAt(record, fields[n]))
      case (Some(m), Some(x)) => Some(m[fields[n].tag := x])
      case _ => None
  }

  /** The reader of dates of the form `2006-01-02`. */
  type DateReader = string -> Option<int>

  /** What the decision function gets for a field; None: a value of a type that no
      condition asserts. */
  function InputOf(dates: DateReader, x: Stored): Option<GoExpr.Value> {
    match x
    case AString(s) => (match dates(s) case Some(t) => Some(Instant(t)) case None => Some(Str(s)))
    case ABool(b) => Some(Bool(b))
    case AFloat(r) => Some(Num(r))
    case SomeStrings(v) => Some(Str(if v == [] then "" else v[0]))
    case ASlice => Some(Str(""))
    case Any(JString(s)) => Some(Str(s))
    case Any(JNumber(r)) => Some(Num(r))
    case Any(JBool(b)) => Some(Bool(b))
    case Any(_) => None
  }

  function InputsOf(dates: DateReader, v: StructValue): Inputs {
    map k | k in v && InputOf(dates, v[k]).Some? :: InputOf(dates, v[k]).value
  }

  method CreateInputsFromDataInput(dates: DateReader, fields: seq<FieldDecl>, v: StructValue) returns (inputs: Inputs)
    requires forall k :: k in v <==> exists i :: 0 <= i < |fields| && fields[i].tag == k
    ensures inputs == InputsOf(dates, v)
  {
    inputs := map[];
    for i := 0 to |fields|
      invariant forall k :: k in inputs <==>
                              k in v && InputOf(dates, v[k]).Some? && exists j :: 0 <= j < i && fields[j].tag == k
      invariant forall k | k in inputs :: inputs[k] == InputOf(dates, v[k]).value
    {
      var tag := fields[i].tag;
      match InputOf(dates, v[tag]) {
        case None =>
        case Some(x) => inputs := inputs[tag := x];
      }
    }
  }

  // ---------------------------------------------------------- the projection

  /** Fields with the same tag have the same type. */
  ghost predicate Uniform(fields: seq<FieldDecl>) {
    forall i, j | 0 <= i < |fields| && 0 <= j < |fields| && fields[i].tag == fields[j].tag ::
        fields[i].typ == fields[j].typ
  }

  lemma {:induction false} UnmarshalHas(fields: seq<FieldDecl>, record: JsonRecord)
    requires Unmarshal(fields, record).Some?
    ensures forall k :: k in Unmarshal(fields, record).value <==> exists i :: 0 <= i < |fields| && fields[i].tag == k
    ensures forall i | 0 <= i < |fields| :: StoreAt(record, fields[i]).Some?
    decreases |fields|
  {
    if fields != [] {
      var n := |fields| - 1;
      UnmarshalHas(fields[..n], record);
      forall k ensures k in Unmarshal(fields, record).value <==> exists i :: 0 <= i < |fields| && fields[i].tag == k {
        if k in Unmarshal(fields[..n], record).value {
          var i :| 0 <= i < n && fields[..n][i].tag == k;
          assert fields[i].tag == k;
        }
        if i :| 0 <= i < |fields| && fields[i].tag == k {
          assert i < n ==> fields[..n][i].tag == k;
        }
      }
      forall i | 0 <= i < |fields| ensures StoreAt(record, fields[i]).Some? {
        assert i < n ==> fields[..n][i] == fields[i];
      }
    }
  }

  lemma {:induction false} UnmarshalAt(fields: seq<FieldDecl>, record: JsonRecord, i: nat)
    requires Unmarshal(fields, record).Some? && Uniform(fields) && i < |fields|
    ensures fields[i].tag in Unmarshal(fields, record).value
    ensures StoreAt(record, fields[i]) == Some(Unmarshal(fields, record).value[fields[i].tag])
    decreases |fields|
  {
    var n := |fields| - 1;
    if fields[i].tag != fields[n].tag {
      assert fields[..n][i] == fields[i];
      UnmarshalAt(fields[..n], record, i);
    }
  }

  lemma {:induction false} UnmarshalSucceeds(fields: seq<FieldDecl>, record: JsonRecord)
    requires forall i | 0 <= i < |fields| :: StoreAt(record, fields[i]).Some?
    ensures Unmarshal(fields, record).Some?
    decreases |fields|
  {
    if fields != [] {
      UnmarshalSucceeds(fields[..|fields| - 1], record);
    }
  }

  function Labels(inputs: seq<InputInfo>): set<string> {
    set i | 0 <= i < |inputs| :: inputs[i].name
  }

  lemma LabelsLast(inputs: seq<InputInfo>)
    requires inputs != []
    ensures Labels(inputs) == Labels(inputs[..|inputs| - 1]) + {inputs[|inputs| - 1].name}
  {
    var n := |inputs| - 1;
    assert forall i | 0 <= i < n :: inputs[..n][i] == inputs[i];
  }

  lemma {:induction false} ExtendedHas(fieldMap: FieldMap, inputs: seq<InputInfo>)
    requires TitlesDiffer(Labels(inputs))
    ensures forall f | f in fieldMap :: f in Extended(fieldMap, inputs) && Extended(fieldMap, inputs)[f] == fieldMap[f]
    ensures forall x :: x in Extras(fieldMap, inputs) ==>
        x == FieldDecl(Title(x.tag), FloatType, x.tag) && x.tag in Labels(inputs)
    ensures forall x :: x in Extras(fieldMap, inputs) ==> x.name !in fieldMap
    ensures forall f | f in Extended(fieldMap, inputs) && f !in fieldMap ::
              Extended(fieldMap, inputs)[f] == FloatType && exists x :: x in Extras(fieldMap, inputs) && x.name == f
    ensures forall x :: x in Extras(fieldMap, inputs) ==> x.name in Extended(fieldMap, inputs)
    decreases |inputs|
  {
    if inputs != [] {
      var n := |inputs| - 1;
      LabelsLast(inputs);
      ExtendedHas(fieldMap, inputs[..n]);
      var last := FieldDecl(Title(inputs[n].name), FloatType, inputs[n].name);
      forall f | f in Extended(fieldMap, inputs) && f !in fieldMap
        ensures Extended(fieldMap, inputs)[f] == FloatType && exists x :: x in Extras(fieldMap, inputs) && x.name == f
      {
        if f in Extended(fieldMap, inputs[..n]) {
          var x :| x in Extras(fieldMap, inputs[..n]) && x.name == f;
          assert x in Extras(fieldMap, inputs);
        } else {
          assert last in Extras(fieldMap, inputs);
        }
      }
    }
  }

  lemma {:induction false} LightHas(m: FieldMap, inputs: seq<InputInfo>)
    ensures forall x :: x in LightFields(m, inputs) <==>
                          && x.tag in Labels(inputs) && Title(x.tag) in m
                          && x == FieldDecl(Title(x.tag), m[Title(x.tag)], x.tag)
    decreases |inputs|
  {
    if inputs != [] {
      var n := |inputs| - 1;
      assert Labels(inputs) == Labels(inputs[..n]) + {inputs[n].name} by {
        assert forall i | 0 <= i < n :: inputs[..n][i] == inputs[i];
      }
      LightHas(m, inputs[..n]);
    }
  }
}
