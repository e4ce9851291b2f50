/** What a Kamelet says, as a pure value: every slice, pointer and map replaced by its contents,
    nil by None. The region of a value holds all cells it is read from. */
module KameletValues {
  import opened Options
  import opened GoHeap
  import opened KameletTypes
  import opened Conditions
  import opened KameletDeepCopy

  type Bytes = Option<seq<byte>>
  type Strings = Option<seq<string>>
  type Headers = Option<map<string, HeaderSpec>>

  datatype RangeValue<T> = RangeValue(max: Option<T>, min: Option<T>)

  datatype BoundsValue = BoundsValue(
    value: RangeValue<Number>, multipleOf: Option<Number>,
    lengths: RangeValue<int64>, items: RangeValue<int64>, properties: RangeValue<int64>)

  datatype ExamplesValue = ExamplesValue(
    default: Option<Bytes>, enumeration: Option<seq<Bytes>>, example: Option<Bytes>, xDescriptors: Strings)

  datatype PropValue = PropValue(text: PropText, bounds: BoundsValue, examples: ExamplesValue)

  datatype SchemaValue = SchemaValue(
    text: SchemaText, properties: Option<map<string, PropValue>>, required: Strings,
    example: Option<Bytes>, externalDocs: Option<ExternalDocumentation>)

  datatype DataTypeValue = DataTypeValue(
    text: DataTypeText, dependencies: Strings, headers: Headers, schema: Option<SchemaValue>)

  datatype DataTypesValue = DataTypesValue(
    default: string, types: Option<map<string, DataTypeValue>>, headers: Headers)

  datatype EventValue = EventValue(mediaType: string, schema: Option<SchemaValue>)

  datatype SourceValue = SourceValue(
    data: DataText, rawContent: Bytes, text: SourceText, interceptors: Strings, propertyNames: Strings)

  datatype BaseValue = BaseValue(
    definition: Option<SchemaValue>, sources: Option<seq<SourceValue>>, template: Option<Bytes>,
    types: Option<map<string, EventValue>>, dataTypes: Option<map<string, DataTypesValue>>, dependencies: Strings)

  datatype StatusValue = StatusValue(
    observedGeneration: int64, phase: string, conditions: Option<seq<KameletCondition>>,
    properties: Option<seq<KameletProperty>>)

  datatype KameletValue = KameletValue(
    typeMeta: TypeMeta, objectMeta: ObjectMeta, base: BaseValue, versions: Option<map<string, BaseValue>>,
    status: StatusValue)

  // ----- cells

  ghost function ReadSlice<T>(s: Slice<T>, A: set<object>): Option<seq<T>>
    reads A
  {
    if s.Slice? && s.arr in A && s.len <= s.arr.Length then Some(s.arr[..s.len]) else None
  }

  ghost function ReadRef<T>(r: Ref?<T>, A: set<object>): Option<T>
    reads A
  {
    if r != null && r in A then Some(r.v) else None
  }

  ghost function ReadMap<K, V>(m: MapRef?<K, V>, A: set<object>): Option<map<K, V>>
    reads A
  {
    if m != null && m in A then Some(m.m) else None
  }

  ghost function ReadJsonRef(r: Ref?<JSON>, A: set<object>): Option<Bytes>
    reads A
  {
    if r != null && r in A then Some(ReadSlice(r.v.raw, A)) else None
  }

  ghost function ReadJsonSlice(s: Slice<JSON>, A: set<object>): Option<seq<Bytes>>
    reads A
  {
    if s.Slice? && s.arr in A && s.len <= s.arr.Length
    then Some(seq(s.len, i requires 0 <= i < s.len reads A => ReadSlice(s.arr[i].raw, A))) else None
  }

  // ----- schemas

  ghost function ReadRange<T>(r: Range<T>, A: set<object>): RangeValue<T>
    reads A
  {
    RangeValue(ReadRef(r.max, A), ReadRef(r.min, A))
  }

  ghost function ReadBounds(b: PropBounds, A: set<object>): BoundsValue
    reads A
  {
    BoundsValue(
      ReadRange(b.value, A), ReadRef(b.multipleOf, A), ReadRange(b.lengths, A), ReadRange(b.items, A),
      ReadRange(b.properties, A))
  }

  ghost function ReadExamples(e: PropExamples, A: set<object>): ExamplesValue
    reads A
  {
    ExamplesValue(
      ReadJsonRef(e.default, A), ReadJsonSlice(e.enumeration, A), ReadJsonRef(e.example, A),
      ReadSlice(e.xDescriptors, A))
  }

  ghost function ReadProp(p: JSONSchemaProp, A: set<object>): PropValue
    reads A
  {
    PropValue(p.text, ReadBounds(p.bounds, A), ReadExamples(p.examples, A))
  }

  ghost function ReadPropTable(t: MapRef?<string, JSONSchemaProp>, A: set<object>): Option<map<string, PropValue>>
    reads A
  {
    if t != null && t in A then Some(map k | k in t.m :: ReadProp(t.m[k], A)) else None
  }

  ghost function ReadSchema(r: Ref?<JSONSchemaProps>, A: set<object>): Option<SchemaValue>
    reads A
  {
    if r != null && r in A then
      Some(SchemaValue(
        r.v.text, ReadPropTable(r.v.properties, A), ReadSlice(r.v.required, A), ReadJsonRef(r.v.example, A),
        ReadRef(r.v.externalDocs, A)))
    else None
  }

  // ----- the parts of a specification

  ghost function ReadDataType(d: DataTypeSpec, A: set<object>): DataTypeValue
    reads A
  {
    DataTypeValue(d.text, ReadSlice(d.dependencies, A), ReadMap(d.headers, A), ReadSchema(d.schema, A))
  }

  ghost function ReadDataTypeTable(t: MapRef?<string, DataTypeSpec>, A: set<object>): Option<map<string, DataTypeValue>>
    reads A
  {
    if t != null && t in A then Some(map k | k in t.m :: ReadDataType(t.m[k], A)) else None
  }

  ghost function ReadDataTypes(d: DataTypesSpec, A: set<object>): DataTypesValue
    reads A
  {
    DataTypesValue(d.default, ReadDataTypeTable(d.types, A), ReadMap(d.headers, A))
  }

  ghost function ReadSlotTable(t: MapRef?<string, DataTypesSpec>, A: set<object>): Option<map<string, DataTypesValue>>
    reads A
  {
    if t != null && t in A then Some(map k | k in t.m :: ReadDataTypes(t.m[k], A)) else None
  }

  ghost function ReadEvent(e: EventTypeSpec, A: set<object>): EventValue
    reads A
  {
    EventValue(e.mediaType, ReadSchema(e.schema, A))
  }

  ghost function ReadEventTable(t: MapRef?<string, EventTypeSpec>, A: set<object>): Option<map<string, EventValue>>
    reads A
  {
    if t != null && t in A then Some(map k | k in t.m :: ReadEvent(t.m[k], A)) else None
  }

  ghost function ReadSource(s: SourceSpec, A: set<object>): SourceValue
    reads A
  {
    SourceValue(
      s.data, ReadSlice(s.rawContent, A), s.text, ReadSlice(s.interceptors, A), ReadSlice(s.propertyNames, A))
  }

  ghost function ReadSources(s: Slice<SourceSpec>, A: set<object>): Option<seq<SourceValue>>
    reads A
  {
    if s.Slice? && s.arr in A && s.len <= s.arr.Length
    then Some(seq(s.len, i requires 0 <= i < s.len reads A => ReadSource(s.arr[i], A))) else None
  }

  ghost function ReadTemplate(r: Ref?<Template>, A: set<object>): Option<Bytes>
    reads A
  {
    if r != null && r in A then Some(ReadSlice(r.v.raw, A)) else None
  }

  ghost function ReadBase(b: KameletSpecBase, A: set<object>): BaseValue
    reads A
  {
    BaseValue(
      ReadSchema(b.definition, A), ReadSources(b.sources, A), ReadTemplate(b.template, A),
      ReadEventTable(b.types, A), ReadSlotTable(b.dataTypes, A), ReadSlice(b.dependencies, A))
  }

  ghost function ReadVersionTable(t: MapRef?<string, KameletSpecBase>, A: set<object>): Option<map<string, BaseValue>>
    reads A
  {
    if t != null && t in A then Some(map k | k in t.m :: ReadBase(t.m[k], A)) else None
  }

  // ----- the whole

  ghost function ReadStatus(s: KameletStatus, A: set<object>): StatusValue
    requires s in A
    reads A
  {
    StatusValue(s.observedGeneration, s.phase, ReadSlice(s.conditions, A), ReadSlice(s.properties, A))
  }

  /** The value of a Kamelet all of whose cells lie in the region. */
  ghost function Value(k: Kamelet, A: set<object>): KameletValue
    requires MirrorKamelet(k, A, k, A)
    reads A
  {
    KameletValue(
      k.typeMeta, k.objectMeta, ReadBase(k.spec.base, A - {k}), ReadVersionTable(k.spec.versions, A - {k}),
      ReadStatus(k.status, A - {k}))
  }
}
