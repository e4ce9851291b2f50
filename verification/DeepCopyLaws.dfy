/** Laws of deep equality, and what separation of the copies gives a caller.

    Deep equality is equality of the values that are read from the two regions. So two copies of
    one value are copies of each other, and a copy can be copied again. */
module DeepCopyLaws {
  import opened GoHeap
  import opened KameletTypes
  import opened Conditions
  import opened SchemaDeepCopy
  import opened KameletDeepCopy
  import opened KameletValues

  // ----- MirrorX(a, A, b, B) says that the regions cover a and b, and that their values agree

  lemma SliceMirrors<T>(a: Slice<T>, A: set<object>, b: Slice<T>, B: set<object>)
    ensures MirrorSlice(a, A, b, B) <==>
            MirrorSlice(a, A, a, A) && MirrorSlice(b, B, b, B) && ReadSlice(a, A) == ReadSlice(b, B)
  {}

  lemma RefMirrors<T>(a: Ref?<T>, A: set<object>, b: Ref?<T>, B: set<object>)
    ensures MirrorRef(a, A, b, B) <==>
            MirrorRef(a, A, a, A) && MirrorRef(b, B, b, B) && ReadRef(a, A) == ReadRef(b, B)
  {}

  lemma MapMirrors<K, V>(a: MapRef?<K, V>, A: set<object>, b: MapRef?<K, V>, B: set<object>)
    ensures MirrorMap(a, A, b, B) <==>
            MirrorMap(a, A, a, A) && MirrorMap(b, B, b, B) && ReadMap(a, A) == ReadMap(b, B)
  {}

  lemma JsonRefMirrors(a: Ref?<JSON>, A: set<object>, b: Ref?<JSON>, B: set<object>)
    ensures MirrorJsonRef(a, A, b, B) <==>
            MirrorJsonRef(a, A, a, A) && MirrorJsonRef(b, B, b, B) && ReadJsonRef(a, A) == ReadJsonRef(b, B)
  {
    if a != null && b != null {
      SliceMirrors(a.v.raw, A, b.v.raw, B);
    }
  }

  lemma JsonSliceMirrors(a: Slice<JSON>, A: set<object>, b: Slice<JSON>, B: set<object>)
    ensures MirrorJsonSlice(a, A, b, B) <==>
            MirrorJsonSlice(a, A, a, A) && MirrorJsonSlice(b, B, b, B) && ReadJsonSlice(a, A) == ReadJsonSlice(b, B)
  {
    hide MirrorSlice, ReadSlice;
    if MirrorJsonSlice(a, A, b, B) && a.Slice? {
      forall i | 0 <= i < a.len
        ensures MirrorSlice(a.arr[i].raw, A, a.arr[i].raw, A) && MirrorSlice(b.arr[i].raw, B, b.arr[i].raw, B)
        ensures ReadSlice(a.arr[i].raw, A) == ReadSlice(b.arr[i].raw, B)
      {
        SliceMirrors(a.arr[i].raw, A, b.arr[i].raw, B);
      }
      assert ReadJsonSlice(a, A).value == ReadJsonSlice(b, B).value;
    }
    if
      && MirrorJsonSlice(a, A, a, A) && MirrorJsonSlice(b, B, b, B)
      && ReadJsonSlice(a, A) == ReadJsonSlice(b, B) && a.Slice?
    {
      var v, w := ReadJsonSlice(a, A).value, ReadJsonSlice(b, B).value;
      assert |v| == a.len && |w| == b.len;
      forall i | 0 <= i < a.len
        ensures MirrorSlice(a.arr[i].raw, A, b.arr[i].raw, B)
      {
        assert v[i] == w[i];
        SliceMirrors(a.arr[i].raw, A, b.arr[i].raw, B);
      }
    }
  }

  lemma RangeMirrors<T>(a: Range<T>, A: set<object>, b: Range<T>, B: set<object>)
    ensures MirrorRange(a, A, b, B) <==>
            MirrorRange(a, A, a, A) && MirrorRange(b, B, b, B) && ReadRange(a, A) == ReadRange(b, B)
  {
    RefMirrors(a.max, A, b.max, B);
    RefMirrors(a.min, A, b.min, B);
  }

  lemma BoundsMirror(a: PropBounds, A: set<object>, b: PropBounds, B: set<object>)
    ensures MirrorBounds(a, A, b, B) <==>
            MirrorBounds(a, A, a, A) && MirrorBounds(b, B, b, B) && ReadBounds(a, A) == ReadBounds(b, B)
  {
    hide MirrorRange, MirrorRef, ReadRange, ReadRef;
    RangeMirrors(a.value, A, b.value, B);
    RefMirrors(a.multipleOf, A, b.multipleOf, B);
    RangeMirrors(a.lengths, A, b.lengths, B);
    RangeMirrors(a.items, A, b.items, B);
    RangeMirrors(a.properties, A, b.properties, B);
  }

  lemma ExamplesMirror(a: PropExamples, A: set<object>, b: PropExamples, B: set<object>)
    ensures MirrorExamples(a, A, b, B) <==>
            MirrorExamples(a, A, a, A) && MirrorExamples(b, B, b, B) && ReadExamples(a, A) == ReadExamples(b, B)
  {
    hide MirrorJsonRef, MirrorJsonSlice, MirrorSlice, ReadJsonRef, ReadJsonSlice, ReadSlice;
    JsonRefMirrors(a.default, A, b.default, B);
    JsonSliceMirrors(a.enumeration, A, b.enumeration, B);
    JsonRefMirrors(a.example, A, b.example, B);
    SliceMirrors(a.xDescriptors, A, b.xDescriptors, B);
  }

  lemma PropMirrors(a: JSONSchemaProp, A: set<object>, b: JSONSchemaProp, B: set<object>)
    ensures MirrorProp(a, A, b, B) <==>
            MirrorProp(a, A, a, A) && MirrorProp(b, B, b, B) && ReadProp(a, A) == ReadProp(b, B)
  {
    hide MirrorBounds, MirrorExamples, ReadBounds, ReadExamples;
    BoundsMirror(a.bounds, A, b.bounds, B);
    ExamplesMirror(a.examples, A, b.examples, B);
  }

  lemma PropTableMirrors(
      a: MapRef?<string, JSONSchemaProp>, A: set<object>, b: MapRef?<string, JSONSchemaProp>, B: set<object>)
    ensures MirrorPropTable(a, A, b, B) <==>
            && MirrorPropTable(a, A, a, A) && MirrorPropTable(b, B, b, B)
            && ReadPropTable(a, A) == ReadPropTable(b, B)
  {
    hide MirrorProp, ReadProp;
    if MirrorPropTable(a, A, b, B) && a != null {
      forall k | k in a.m
        ensures MirrorProp(a.m[k], A, a.m[k], A) && MirrorProp(b.m[k], B, b.m[k], B)
        ensures ReadProp(a.m[k], A) == ReadProp(b.m[k], B)
      {
        PropMirrors(a.m[k], A, b.m[k], B);
      }
      assert (map k | k in a.m :: ReadProp(a.m[k], A)) == (map k | k in b.m :: ReadProp(b.m[k], B));
    }
    if MirrorPropTable(a, A, a, A) && MirrorPropTable(b, B, b, B) && ReadPropTable(a, A) == ReadPropTable(b, B)
      && a != null {
      var v, w := ReadPropTable(a, A).value, ReadPropTable(b, B).value;
      assert v.Keys == a.m.Keys && w.Keys == b.m.Keys;
      forall k | k in a.m
        ensures MirrorProp(a.m[k], A, b.m[k], B)
      {
        assert v[k] == w[k];
        PropMirrors(a.m[k], A, b.m[k], B);
      }
    }
  }

  lemma SchemaMirrors(a: Ref?<JSONSchemaProps>, A: set<object>, b: Ref?<JSONSchemaProps>, B: set<object>)
    ensures MirrorSchema(a, A, b, B) <==>
            MirrorSchema(a, A, a, A) && MirrorSchema(b, B, b, B) && ReadSchema(a, A) == ReadSchema(b, B)
  {
    hide MirrorPropTable, MirrorSlice, MirrorJsonRef, MirrorRef, ReadPropTable, ReadSlice, ReadJsonRef, ReadRef;
    if a != null && b != null {
      PropTableMirrors(a.v.properties, A, b.v.properties, B);
      SliceMirrors(a.v.required, A, b.v.required, B);
      JsonRefMirrors(a.v.example, A, b.v.example, B);
      RefMirrors(a.v.externalDocs, A, b.v.externalDocs, B);
    }
  }

  lemma DataTypeMirrors(a: DataTypeSpec, A: set<object>, b: DataTypeSpec, B: set<object>)
    ensures MirrorDataType(a, A, b, B) <==>
            MirrorDataType(a, A, a, A) && MirrorDataType(b, B, b, B) && ReadDataType(a, A) == ReadDataType(b, B)
  {
    hide MirrorSlice, MirrorMap, MirrorSchema, ReadSlice, ReadMap, ReadSchema;
    SliceMirrors(a.dependencies, A, b.dependencies, B);
    MapMirrors(a.headers, A, b.headers, B);
    SchemaMirrors(a.schema, A, b.schema, B);
  }

  lemma DataTypeTableMirrors(
      a: MapRef?<string, DataTypeSpec>, A: set<object>, b: MapRef?<string, DataTypeSpec>, B: set<object>)
    ensures MirrorDataTypeTable(a, A, b, B) <==>
            && MirrorDataTypeTable(a, A, a, A) && MirrorDataTypeTable(b, B, b, B)
            && ReadDataTypeTable(a, A) == ReadDataTypeTable(b, B)
  {
    hide MirrorDataType, ReadDataType;
    if MirrorDataTypeTable(a, A, b, B) && a != null {
      forall k | k in a.m
        ensures MirrorDataType(a.m[k], A, a.m[k], A) && MirrorDataType(b.m[k], B, b.m[k], B)
        ensures ReadDataType(a.m[k], A) == ReadDataType(b.m[k], B)
      {
        DataTypeMirrors(a.m[k], A, b.m[k], B);
      }
      assert (map k | k in a.m :: ReadDataType(a.m[k], A)) == (map k | k in b.m :: ReadDataType(b.m[k], B));
    }
    if
      && MirrorDataTypeTable(a, A, a, A) && MirrorDataTypeTable(b, B, b, B)
      && ReadDataTypeTable(a, A) == ReadDataTypeTable(b, B) && a != null
    {
      var v, w := ReadDataTypeTable(a, A).value, ReadDataTypeTable(b, B).value;
      assert v.Keys == a.m.Keys && w.Keys == b.m.Keys;
      forall k | k in a.m
        ensures MirrorDataType(a.m[k], A, b.m[k], B)
      {
        assert v[k] == w[k];
        DataTypeMirrors(a.m[k], A, b.m[k], B);
      }
    }
  }

  lemma DataTypesMirror(a: DataTypesSpec, A: set<object>, b: DataTypesSpec, B: set<object>)
    ensures MirrorDataTypes(a, A, b, B) <==>
            MirrorDataTypes(a, A, a, A) && MirrorDataTypes(b, B, b, B) && ReadDataTypes(a, A) == ReadDataTypes(b, B)
  {
    hide MirrorDataTypeTable, MirrorMap, ReadDataTypeTable, ReadMap;
    DataTypeTableMirrors(a.types, A, b.types, B);
    MapMirrors(a.headers, A, b.headers, B);
  }

  lemma SlotTableMirrors(
      a: MapRef?<string, DataTypesSpec>, A: set<object>, b: MapRef?<string, DataTypesSpec>, B: set<object>)
    ensures MirrorSlotTable(a, A, b, B) <==>
            && MirrorSlotTable(a, A, a, A) && MirrorSlotTable(b, B, b, B)
            && ReadSlotTable(a, A) == ReadSlotTable(b, B)
  {
    hide MirrorDataTypes, ReadDataTypes;
    if MirrorSlotTable(a, A, b, B) && a != null {
      forall k | k in a.m
        ensures MirrorDataTypes(a.m[k], A, a.m[k], A) && MirrorDataTypes(b.m[k], B, b.m[k], B)
        ensures ReadDataTypes(a.m[k], A) == ReadDataTypes(b.m[k], B)
      {
        DataTypesMirror(a.m[k], A, b.m[k], B);
      }
      assert (map k | k in a.m :: ReadDataTypes(a.m[k], A)) == (map k | k in b.m :: ReadDataTypes(b.m[k], B));
    }
    if MirrorSlotTable(a, A, a, A) && MirrorSlotTable(b, B, b, B) && ReadSlotTable(a, A) == ReadSlotTable(b, B)
      && a != null {
      var v, w := ReadSlotTable(a, A).value, ReadSlotTable(b, B).value;
      assert v.Keys == a.m.Keys && w.Keys == b.m.Keys;
      forall k | k in a.m
        ensures MirrorDataTypes(a.m[k], A, b.m[k], B)
      {
        assert v[k] == w[k];
        DataTypesMirror(a.m[k], A, b.m[k], B);
      }
    }
  }

  lemma EventMirrors(a: EventTypeSpec, A: set<object>, b: EventTypeSpec, B: set<object>)
    ensures MirrorEvent(a, A, b, B) <==>
            MirrorEvent(a, A, a, A) && MirrorEvent(b, B, b, B) && ReadEvent(a, A) == ReadEvent(b, B)
  {
    hide MirrorSchema, ReadSchema;
    SchemaMirrors(a.schema, A, b.schema, B);
  }

  lemma EventTableMirrors(
      a: MapRef?<string, EventTypeSpec>, A: set<object>, b: MapRef?<string, EventTypeSpec>, B: set<object>)
    ensures MirrorEventTable(a, A, b, B) <==>
            && MirrorEventTable(a, A, a, A) && MirrorEventTable(b, B, b, B)
            && ReadEventTable(a, A) == ReadEventTable(b, B)
  {
    hide MirrorEvent, ReadEvent;
    if MirrorEventTable(a, A, b, B) && a != null {
      forall k | k in a.m
        ensures MirrorEvent(a.m[k], A, a.m[k], A) && MirrorEvent(b.m[k], B, b.m[k], B)
        ensures ReadEvent(a.m[k], A) == ReadEvent(b.m[k], B)
      {
        EventMirrors(a.m[k], A, b.m[k], B);
      }
      assert (map k | k in a.m :: ReadEvent(a.m[k], A)) == (map k | k in b.m :: ReadEvent(b.m[k], B));
    }
    if MirrorEventTable(a, A, a, A) && MirrorEventTable(b, B, b, B) && ReadEventTable(a, A) == ReadEventTable(b, B)
      && a != null {
      var v, w := ReadEventTable(a, A).value, ReadEventTable(b, B).value;
      assert v.Keys == a.m.Keys && w.Keys == b.m.Keys;
      forall k | k in a.m
        ensures MirrorEvent(a.m[k], A, b.m[k], B)
      {
        assert v[k] == w[k];
        EventMirrors(a.m[k], A, b.m[k], B);
      }
    }
  }

  lemma SourceMirrors(a: SourceSpec, A: set<object>, b: SourceSpec, B: set<object>)
    ensures MirrorSource(a, A, b, B) <==>
            MirrorSource(a, A, a, A) && MirrorSource(b, B, b, B) && ReadSource(a, A) == ReadSource(b, B)
  {
    hide MirrorSlice, ReadSlice;
    SliceMirrors(a.rawContent, A, b.rawContent, B);
    SliceMirrors(a.interceptors, A, b.interceptors, B);
    SliceMirrors(a.propertyNames, A, b.propertyNames, B);
  }

  lemma SourcesMirror(a: Slice<SourceSpec>, A: set<object>, b: Slice<SourceSpec>, B: set<object>)
    ensures MirrorSources(a, A, b, B) <==>
            MirrorSources(a, A, a, A) && MirrorSources(b, B, b, B) && ReadSources(a, A) == ReadSources(b, B)
  {
    hide MirrorSource, ReadSource;
    if MirrorSources(a, A, b, B) && a.Slice? {
      forall i | 0 <= i < a.len
        ensures MirrorSource(a.arr[i], A, a.arr[i], A) && MirrorSource(b.arr[i], B, b.arr[i], B)
        ensures ReadSource(a.arr[i], A) == ReadSource(b.arr[i], B)
      {
        SourceMirrors(a.arr[i], A, b.arr[i], B);
      }
      assert ReadSources(a, A).value == ReadSources(b, B).value;
    }
    if MirrorSources(a, A, a, A) && MirrorSources(b, B, b, B) && ReadSources(a, A) == ReadSources(b, B) && a.Slice? {
      var v, w := ReadSources(a, A).value, ReadSources(b, B).value;
      assert |v| == a.len && |w| == b.len;
      forall i | 0 <= i < a.len
        ensures MirrorSource(a.arr[i], A, b.arr[i], B)
      {
        assert v[i] == w[i];
        SourceMirrors(a.arr[i], A, b.arr[i], B);
      }
    }
  }

  lemma TemplateMirrors(a: Ref?<Template>, A: set<object>, b: Ref?<Template>, B: set<object>)
    ensures MirrorTemplate(a, A, b, B) <==>
            MirrorTemplate(a, A, a, A) && MirrorTemplate(b, B, b, B) && ReadTemplate(a, A) == ReadTemplate(b, B)
  {
    if a != null && b != null {
      SliceMirrors(a.v.raw, A, b.v.raw, B);
    }
  }

  lemma BaseMirrors(a: KameletSpecBase, A: set<object>, b: KameletSpecBase, B: set<object>)
    ensures MirrorBase(a, A, b, B) <==>
            MirrorBase(a, A, a, A) && MirrorBase(b, B, b, B) && ReadBase(a, A) == ReadBase(b, B)
  {
    hide MirrorSchema, MirrorSources, MirrorTemplate, MirrorEventTable, MirrorSlotTable, MirrorSlice;
    hide ReadSchema, ReadSources, ReadTemplate, ReadEventTable, ReadSlotTable, ReadSlice;
    SchemaMirrors(a.definition, A, b.definition, B);
    SourcesMirror(a.sources, A, b.sources, B);
    TemplateMirrors(a.template, A, b.template, B);
    EventTableMirrors(a.types, A, b.types, B);
    SlotTableMirrors(a.dataTypes, A, b.dataTypes, B);
    SliceMirrors(a.dependencies, A, b.dependencies, B);
  }

  lemma VersionTableMirrors(
      a: MapRef?<string, KameletSpecBase>, A: set<object>, b: MapRef?<string, KameletSpecBase>, B: set<object>)
    ensures MirrorVersionTable(a, A, b, B) <==>
            && MirrorVersionTable(a, A, a, A) && MirrorVersionTable(b, B, b, B)
            && ReadVersionTable(a, A) == ReadVersionTable(b, B)
  {
    hide MirrorBase, ReadBase;
    if MirrorVersionTable(a, A, b, B) && a != null {
      forall k | k in a.m
        ensures MirrorBase(a.m[k], A, a.m[k], A) && MirrorBase(b.m[k], B, b.m[k], B)
        ensures ReadBase(a.m[k], A) == ReadBase(b.m[k], B)
      {
        BaseMirrors(a.m[k], A, b.m[k], B);
      }
      assert (map k | k in a.m :: ReadBase(a.m[k], A)) == (map k | k in b.m :: ReadBase(b.m[k], B));
    }
    if
      && MirrorVersionTable(a, A, a, A) && MirrorVersionTable(b, B, b, B)
      && ReadVersionTable(a, A) == ReadVersionTable(b, B) && a != null
    {
      var v, w := ReadVersionTable(a, A).value, ReadVersionTable(b, B).value;
      assert v.Keys == a.m.Keys && w.Keys == b.m.Keys;
      forall k | k in a.m
        ensures MirrorBase(a.m[k], A, b.m[k], B)
      {
        assert v[k] == w[k];
        BaseMirrors(a.m[k], A, b.m[k], B);
      }
    }
  }

  lemma StatusMirrors(a: KameletStatus, A: set<object>, b: KameletStatus, B: set<object>)
    ensures MirrorStatus(a, A, b, B) <==>
            && MirrorStatus(a, A, a, A) && MirrorStatus(b, B, b, B)
            && ReadStatus(a, A) == ReadStatus(b, B)
  {
    hide MirrorSlice, ReadSlice;
    SliceMirrors(a.conditions, A, b.conditions, B);
    SliceMirrors(a.properties, A, b.properties, B);
  }

  /** Deep equality of Kamelets is equality of what they say. */
  lemma KameletMirrors(a: Kamelet, A: set<object>, b: Kamelet, B: set<object>)
    ensures MirrorKamelet(a, A, b, B) <==>
            && MirrorKamelet(a, A, a, A) && MirrorKamelet(b, B, b, B)
            && Value(a, A) == Value(b, B)
  {
    hide MirrorBase, MirrorVersionTable, MirrorStatus, ReadBase, ReadVersionTable, ReadStatus;
    BaseMirrors(a.spec.base, A - {a}, b.spec.base, B - {b});
    VersionTableMirrors(a.spec.versions, A - {a}, b.spec.versions, B - {b});
    StatusMirrors(a.status, A - {a}, b.status, B - {b});
  }

  // ----- two copies of one value are copies of each other

  lemma MirrorSchemaEuclid(
      a: Ref?<JSONSchemaProps>, A: set<object>, b: Ref?<JSONSchemaProps>, B: set<object>,
      c: Ref?<JSONSchemaProps>, C: set<object>)
    requires MirrorSchema(a, A, b, B) && MirrorSchema(a, A, c, C)
    ensures MirrorSchema(b, B, c, C)
  {
    hide MirrorSchema, ReadSchema;
    SchemaMirrors(a, A, b, B);
    SchemaMirrors(a, A, c, C);
    SchemaMirrors(b, B, c, C);
  }

  lemma MirrorBaseEuclid(
      a: KameletSpecBase, A: set<object>, b: KameletSpecBase, B: set<object>, c: KameletSpecBase, C: set<object>)
    requires MirrorBase(a, A, b, B) && MirrorBase(a, A, c, C)
    ensures MirrorBase(b, B, c, C)
  {
    hide MirrorBase, ReadBase;
    BaseMirrors(a, A, b, B);
    BaseMirrors(a, A, c, C);
    BaseMirrors(b, B, c, C);
  }

  lemma MirrorKameletEuclid(
      a: Kamelet, A: set<object>, b: Kamelet, B: set<object>, c: Kamelet, C: set<object>)
    requires MirrorKamelet(a, A, b, B) && MirrorKamelet(a, A, c, C)
    ensures MirrorKamelet(b, B, c, C)
  {
    hide MirrorKamelet, Value;
    KameletMirrors(a, A, b, B);
    KameletMirrors(a, A, c, C);
    KameletMirrors(b, B, c, C);
  }

  // ----- writes

  /** Whatever is written, if it is confined to a region apart from that of a Kamelet, the Kamelet
      still says the same. With a copy for the Kamelet and the region of the source for the writes
      this is one half of separation; the other way round it is the other half. */
  twostate lemma WritesElsewhere(k: Kamelet, A: set<object>, W: set<object>)
    requires old(MirrorKamelet(k, A, k, A)) && A !! W
    requires forall o: object :: old(allocated(o)) && o !in W ==> unchanged(o)
    ensures MirrorKamelet(k, A, k, A) && Value(k, A) == old(Value(k, A))
  {
    hide MirrorKamelet, Value;
  }

  /** Two copies live in regions of their own, apart from the source and from each other, and say
      what the source said. After any writes to the cells of the source both still do; after any
      writes to the cells of one copy the source and the other copy still do. */
  method WritesStayOnOneSide(k: Kamelet, ghost A: set<object>, throughSource: bool)
    returns (first: Kamelet, ghost B: set<object>, second: Kamelet, ghost C: set<object>)
    requires MirrorKamelet(k, A, k, A)
    modifies A
    ensures fresh(B) && fresh(C) && A !! B && A !! C && B !! C && first in B && second in C
    ensures MirrorKamelet(second, C, second, C) && Value(second, C) == old(Value(k, A))
    ensures throughSource ==> MirrorKamelet(first, B, first, B) && Value(first, B) == old(Value(k, A))
    ensures throughSource ==> MirrorKamelet(first, B, second, C)
    ensures !throughSource ==> MirrorKamelet(k, A, k, A) && Value(k, A) == old(Value(k, A))
    ensures !throughSource ==> MirrorKamelet(k, A, second, C)
  {
    first, B := DeepCopy(k, A);
    second, C := DeepCopy(k, A);
    assert first in B && second in C;
    hide MirrorKamelet, Value;
    KameletMirrors(k, A, first, B);
    KameletMirrors(k, A, second, C);
    if throughSource {
      modify A;
      KameletMirrors(first, B, second, C);
    } else {
      modify B;
      KameletMirrors(k, A, second, C);
    }
  }
}
