/** Deep copy of a Kamelet and CloneWithVersion. See SchemaDeepCopy for what MirrorX means. */
module KameletDeepCopy {
  import opened GoHeap
  import opened KameletTypes
  import opened Conditions
  import opened SchemaDeepCopy

  // ----- data types

  ghost predicate MirrorDataType(a: DataTypeSpec, A: set<object>, b: DataTypeSpec, B: set<object>)
    reads A, B
  {
    && a.text == b.text
    && MirrorSlice(a.dependencies, A, b.dependencies, B)
    && MirrorMap(a.headers, A, b.headers, B)
    && MirrorSchema(a.schema, A, b.schema, B)
  }

  lemma MirrorDataTypeGrows(a: DataTypeSpec, A: set<object>, b: DataTypeSpec, B: set<object>, B': set<object>)
    requires MirrorDataType(a, A, b, B) && B <= B'
    ensures MirrorDataType(a, A, b, B')
  {
    MirrorSchemaGrows(a.schema, A, b.schema, B, B');
  }

  method CopyDataType(src: DataTypeSpec, ghost A: set<object>) returns (out: DataTypeSpec, ghost B: set<object>)
    requires MirrorDataType(src, A, src, A)
    ensures fresh(B) && MirrorDataType(src, A, out, B)
  {
    hide MirrorSchema;
    var dependencies, B0 := CopySlice(src.dependencies, A);
    var headers, B1 := CopyMap(src.headers, A);
    var schema, B2 := CopySchema(src.schema, A);
    out := src.(dependencies := dependencies, headers := headers, schema := schema);
    B := B0 + B1 + B2;
    MirrorSchemaGrows(src.schema, A, schema, B2, B);
  }

  // ----- the data types of one slot

  ghost predicate MirrorDataTypeTable(
      a: MapRef?<string, DataTypeSpec>, A: set<object>, b: MapRef?<string, DataTypeSpec>, B: set<object>)
    reads A, B
  {
    (a == null) == (b == null) &&
    (a != null && b != null ==>
      && a in A && b in B
      && a.m.Keys == b.m.Keys
      && forall k :: k in a.m ==> MirrorDataType(a.m[k], A, b.m[k], B))
  }

  lemma MirrorDataTypeTableGrows(a: MapRef?<string, DataTypeSpec>, A: set<object>,
                          b: MapRef?<string, DataTypeSpec>, B: set<object>, B': set<object>)
    requires MirrorDataTypeTable(a, A, b, B) && B <= B'
    ensures MirrorDataTypeTable(a, A, b, B')
  {
    if a != null {
      forall k | k in a.m
        ensures MirrorDataType(a.m[k], A, b.m[k], B')
      {
        MirrorDataTypeGrows(a.m[k], A, b.m[k], B, B');
      }
    }
  }

  method CopyDataTypeTable(src: MapRef?<string, DataTypeSpec>, ghost A: set<object>)
    returns (out: MapRef?<string, DataTypeSpec>, ghost B: set<object>)
    requires MirrorDataTypeTable(src, A, src, A)
    ensures fresh(B) && MirrorDataTypeTable(src, A, out, B)
  {
    hide MirrorDataType;
    out, B := src, {};
    if src != null {
      var table := new MapRef<string, DataTypeSpec>();
      var todo := src.m.Keys;
      while todo != {}
        invariant fresh(B) && fresh(table) && table !in B
        invariant todo <= src.m.Keys && table.m.Keys == src.m.Keys - todo
        invariant forall k :: k in table.m ==> MirrorDataType(src.m[k], A, table.m[k], B)
      {
        var key :| key in todo;
        var value, C := CopyDataType(src.m[key], A);
        forall k | k in table.m
          ensures MirrorDataType(src.m[k], A, table.m[k], B + C)
        {
          MirrorDataTypeGrows(src.m[k], A, table.m[k], B, B + C);
        }
        MirrorDataTypeGrows(src.m[key], A, value, C, B + C);
        table.m := table.m[key := value];
        todo, B := todo - {key}, B + C;
      }
      forall k | k in table.m
        ensures MirrorDataType(src.m[k], A, table.m[k], B + {table})
      {
        MirrorDataTypeGrows(src.m[k], A, table.m[k], B, B + {table});
      }
      out, B := table, B + {table};
    }
  }

  ghost predicate MirrorDataTypes(a: DataTypesSpec, A: set<object>, b: DataTypesSpec, B: set<object>)
    reads A, B
  {
    && a.default == b.default
    && MirrorDataTypeTable(a.types, A, b.types, B)
    && MirrorMap(a.headers, A, b.headers, B)
  }

  lemma MirrorDataTypesGrows(a: DataTypesSpec, A: set<object>, b: DataTypesSpec, B: set<object>, B': set<object>)
    requires MirrorDataTypes(a, A, b, B) && B <= B'
    ensures MirrorDataTypes(a, A, b, B')
  {
    MirrorDataTypeTableGrows(a.types, A, b.types, B, B');
  }

  method CopyDataTypes(src: DataTypesSpec, ghost A: set<object>) returns (out: DataTypesSpec, ghost B: set<object>)
    requires MirrorDataTypes(src, A, src, A)
    ensures fresh(B) && MirrorDataTypes(src, A, out, B)
  {
    hide MirrorDataTypeTable;
    var types, B0 := CopyDataTypeTable(src.types, A);
    var headers, B1 := CopyMap(src.headers, A);
    out, B := src.(types := types, headers := headers), B0 + B1;
    MirrorDataTypeTableGrows(src.types, A, types, B0, B);
  }

  // ----- the slots of a Kamelet

  ghost predicate MirrorSlotTable(
      a: MapRef?<string, DataTypesSpec>, A: set<object>, b: MapRef?<string, DataTypesSpec>, B: set<object>)
    reads A, B
  {
    (a == null) == (b == null) &&
    (a != null && b != null ==>
      && a in A && b in B
      && a.m.Keys == b.m.Keys
      && forall k :: k in a.m ==> MirrorDataTypes(a.m[k], A, b.m[k], B))
  }

  lemma MirrorSlotTableGrows(a: MapRef?<string, DataTypesSpec>, A: set<object>,
                          b: MapRef?<string, DataTypesSpec>, B: set<object>, B': set<object>)
    requires MirrorSlotTable(a, A, b, B) && B <= B'
    ensures MirrorSlotTable(a, A, b, B')
  {
    if a != null {
      forall k | k in a.m
        ensures MirrorDataTypes(a.m[k], A, b.m[k], B')
      {
        MirrorDataTypesGrows(a.m[k], A, b.m[k], B, B');
      }
    }
  }

  method CopySlotTable(src: MapRef?<string, DataTypesSpec>, ghost A: set<object>)
    returns (out: MapRef?<string, DataTypesSpec>, ghost B: set<object>)
    requires MirrorSlotTable(src, A, src, A)
    ensures fresh(B) && MirrorSlotTable(src, A, out, B)
  {
    hide MirrorDataTypes;
    out, B := src, {};
    if src != null {
      var table := new MapRef<string, DataTypesSpec>();
      var todo := src.m.Keys;
      while todo != {}
        invariant fresh(B) && fresh(table) && table !in B
        invariant todo <= src.m.Keys && table.m.Keys == src.m.Keys - todo
        invariant forall k :: k in table.m ==> MirrorDataTypes(src.m[k], A, table.m[k], B)
      {
        var key :| key in todo;
        var value, C := CopyDataTypes(src.m[key], A);
        forall k | k in table.m
          ensures MirrorDataTypes(src.m[k], A, table.m[k], B + C)
        {
          MirrorDataTypesGrows(src.m[k], A, table.m[k], B, B + C);
        }
        MirrorDataTypesGrows(src.m[key], A, value, C, B + C);
        table.m := table.m[key := value];
        todo, B := todo - {key}, B + C;
      }
      forall k | k in table.m
        ensures MirrorDataTypes(src.m[k], A, table.m[k], B + {table})
      {
        MirrorDataTypesGrows(src.m[k], A, table.m[k], B, B + {table});
      }
      out, B := table, B + {table};
    }
  }

  // ----- event types

  ghost predicate MirrorEvent(a: EventTypeSpec, A: set<object>, b: EventTypeSpec, B: set<object>)
    reads A, B
  {
    a.mediaType == b.mediaType && MirrorSchema(a.schema, A, b.schema, B)
  }

  lemma MirrorEventGrows(a: EventTypeSpec, A: set<object>, b: EventTypeSpec, B: set<object>, B': set<object>)
    requires MirrorEvent(a, A, b, B) && B <= B'
    ensures MirrorEvent(a, A, b, B')
  {
    MirrorSchemaGrows(a.schema, A, b.schema, B, B');
  }

  method CopyEvent(src: EventTypeSpec, ghost A: set<object>) returns (out: EventTypeSpec, ghost B: set<object>)
    requires MirrorEvent(src, A, src, A)
    ensures fresh(B) && MirrorEvent(src, A, out, B)
  {
    out := src;
    var schema;
    schema, B := CopySchema(src.schema, A);
    out := out.(schema := schema);
  }

  // ----- the deprecated event types

  ghost predicate MirrorEventTable(
      a: MapRef?<string, EventTypeSpec>, A: set<object>, b: MapRef?<string, EventTypeSpec>, B: set<object>)
    reads A, B
  {
    (a == null) == (b == null) &&
    (a != null && b != null ==>
      && a in A && b in B
      && a.m.Keys == b.m.Keys
      && forall k :: k in a.m ==> MirrorEvent(a.m[k], A, b.m[k], B))
  }

  lemma MirrorEventTableGrows(a: MapRef?<string, EventTypeSpec>, A: set<object>,
                          b: MapRef?<string, EventTypeSpec>, B: set<object>, B': set<object>)
    requires MirrorEventTable(a, A, b, B) && B <= B'
    ensures MirrorEventTable(a, A, b, B')
  {
    if a != null {
      forall k | k in a.m
        ensures MirrorEvent(a.m[k], A, b.m[k], B')
      {
        MirrorEventGrows(a.m[k], A, b.m[k], B, B');
      }
    }
  }

  method CopyEventTable(src: MapRef?<string, EventTypeSpec>, ghost A: set<object>)
    returns (out: MapRef?<string, EventTypeSpec>, ghost B: set<object>)
    requires MirrorEventTable(src, A, src, A)
    ensures fresh(B) && MirrorEventTable(src, A, out, B)
  {
    hide MirrorEvent;
    out, B := src, {};
    if src != null {
      var table := new MapRef<string, EventTypeSpec>();
      var todo := src.m.Keys;
      while todo != {}
        invariant fresh(B) && fresh(table) && table !in B
        invariant todo <= src.m.Keys && table.m.Keys == src.m.Keys - todo
        invariant forall k :: k in table.m ==> MirrorEvent(src.m[k], A, table.m[k], B)
      {
        var key :| key in todo;
        var value, C := CopyEvent(src.m[key], A);
        forall k | k in table.m
          ensures MirrorEvent(src.m[k], A, table.m[k], B + C)
        {
          MirrorEventGrows(src.m[k], A, table.m[k], B, B + C);
        }
        MirrorEventGrows(src.m[key], A, value, C, B + C);
        table.m := table.m[key := value];
        todo, B := todo - {key}, B + C;
      }
      forall k | k in table.m
        ensures MirrorEvent(src.m[k], A, table.m[k], B + {table})
      {
        MirrorEventGrows(src.m[k], A, table.m[k], B, B + {table});
      }
      out, B := table, B + {table};
    }
  }

  // ----- sources and template

  ghost predicate MirrorSource(a: SourceSpec, A: set<object>, b: SourceSpec, B: set<object>)
    reads A, B
  {
    && a.data == b.data && a.text == b.text
    && MirrorSlice(a.rawContent, A, b.rawContent, B)
    && MirrorSlice(a.interceptors, A, b.interceptors, B)
    && MirrorSlice(a.propertyNames, A, b.propertyNames, B)
  }

  ghost predicate MirrorSources(a: Slice<SourceSpec>, A: set<object>, b: Slice<SourceSpec>, B: set<object>)
    reads A, B
  {
    a.Nil? == b.Nil? &&
    (a.Slice? ==>
      && a.arr in A && a.len <= a.arr.Length
      && b.arr in B && b.len <= b.arr.Length
      && a.len == b.len
      && forall i :: 0 <= i < a.len ==> MirrorSource(a.arr[i], A, b.arr[i], B))
  }

  method CopySource(src: SourceSpec, ghost A: set<object>) returns (out: SourceSpec, ghost B: set<object>)
    requires MirrorSource(src, A, src, A)
    ensures fresh(B) && MirrorSource(src, A, out, B)
  {
    var rawContent, B0 := CopySlice(src.rawContent, A);
    var interceptors, B1 := CopySlice(src.interceptors, A);
    var propertyNames, B2 := CopySlice(src.propertyNames, A);
    out := src.(rawContent := rawContent, interceptors := interceptors, propertyNames := propertyNames);
    B := B0 + B1 + B2;
  }

  lemma MirrorSourceGrows(a: SourceSpec, A: set<object>, b: SourceSpec, B: set<object>, B': set<object>)
    requires MirrorSource(a, A, b, B) && B <= B'
    ensures MirrorSource(a, A, b, B')
  {}

  lemma MirrorSourcesGrows(a: Slice<SourceSpec>, A: set<object>, b: Slice<SourceSpec>, B: set<object>, B': set<object>)
    requires MirrorSources(a, A, b, B) && B <= B'
    ensures MirrorSources(a, A, b, B')
  {
    if a.Slice? {
      forall i | 0 <= i < a.len
        ensures MirrorSource(a.arr[i], A, b.arr[i], B')
      {
        MirrorSourceGrows(a.arr[i], A, b.arr[i], B, B');
      }
    }
  }

  method CopySources(src: Slice<SourceSpec>, ghost A: set<object>)
    returns (out: Slice<SourceSpec>, ghost B: set<object>)
    requires MirrorSources(src, A, src, A)
    ensures fresh(B) && MirrorSources(src, A, out, B)
  {
    hide MirrorSource;
    out, B := src, {};
    if src.Slice? {
      var cells := new SourceSpec[src.len];
      for i := 0 to src.len
        invariant fresh(cells) && fresh(B) && cells !in B
        invariant forall j :: 0 <= j < i ==> MirrorSource(src.arr[j], A, cells[j], B)
      {
        var value, C := CopySource(src.arr[i], A);
        forall j | 0 <= j < i
          ensures MirrorSource(src.arr[j], A, cells[j], B + C)
        {
          MirrorSourceGrows(src.arr[j], A, cells[j], B, B + C);
        }
        MirrorSourceGrows(src.arr[i], A, value, C, B + C);
        cells[i] := value;
        B := B + C;
      }
      forall j | 0 <= j < src.len
        ensures MirrorSource(src.arr[j], A, cells[j], B + {cells})
      {
        MirrorSourceGrows(src.arr[j], A, cells[j], B, B + {cells});
      }
      out, B := Slice(cells, src.len), B + {cells};
    }
  }

  ghost predicate MirrorTemplate(a: Ref?<Template>, A: set<object>, b: Ref?<Template>, B: set<object>)
    reads A, B
  {
    (a == null) == (b == null) &&
    (a != null && b != null ==> a in A && b in B && MirrorSlice(a.v.raw, A, b.v.raw, B))
  }

  lemma MirrorTemplateGrows(a: Ref?<Template>, A: set<object>, b: Ref?<Template>, B: set<object>, B': set<object>)
    requires MirrorTemplate(a, A, b, B) && B <= B'
    ensures MirrorTemplate(a, A, b, B')
  {}

  method CopyTemplate(src: Ref?<Template>, ghost A: set<object>) returns (out: Ref?<Template>, ghost B: set<object>)
    requires MirrorTemplate(src, A, src, A)
    ensures fresh(B) && MirrorTemplate(src, A, out, B)
  {
    out, B := src, {};
    if src != null {
      var raw;
      raw, B := CopySlice(src.v.raw, A);
      out := new Ref(Template(raw));
      B := B + {out};
    }
  }

  // ----- KameletSpecBase and KameletSpec

  ghost predicate MirrorBase(a: KameletSpecBase, A: set<object>, b: KameletSpecBase, B: set<object>)
    reads A, B
  {
    && MirrorSchema(a.definition, A, b.definition, B)
    && MirrorSources(a.sources, A, b.sources, B)
    && MirrorTemplate(a.template, A, b.template, B)
    && MirrorEventTable(a.types, A, b.types, B)
    && MirrorSlotTable(a.dataTypes, A, b.dataTypes, B)
    && MirrorSlice(a.dependencies, A, b.dependencies, B)
  }

  lemma MirrorBaseGrows(a: KameletSpecBase, A: set<object>, b: KameletSpecBase, B: set<object>, B': set<object>)
    requires MirrorBase(a, A, b, B) && B <= B'
    ensures MirrorBase(a, A, b, B')
  {
    MirrorSchemaGrows(a.definition, A, b.definition, B, B');
    MirrorSourcesGrows(a.sources, A, b.sources, B, B');
    MirrorEventTableGrows(a.types, A, b.types, B, B');
    MirrorSlotTableGrows(a.dataTypes, A, b.dataTypes, B, B');
  }

  method CopySchemas(src: KameletSpecBase, ghost A: set<object>)
    returns (definition: Ref?<JSONSchemaProps>, types: MapRef?<string, EventTypeSpec>,
             dataTypes: MapRef?<string, DataTypesSpec>, ghost B: set<object>)
    requires MirrorBase(src, A, src, A)
    ensures fresh(B)
    ensures MirrorSchema(src.definition, A, definition, B)
    ensures MirrorEventTable(src.types, A, types, B)
    ensures MirrorSlotTable(src.dataTypes, A, dataTypes, B)
  {
    hide MirrorSchema, MirrorEventTable, MirrorSlotTable, MirrorSources, MirrorTemplate, MirrorSlice;
    ghost var B0, B1, B2;
    definition, B0 := CopySchema(src.definition, A);
    types, B1 := CopyEventTable(src.types, A);
    dataTypes, B2 := CopySlotTable(src.dataTypes, A);
    B := B0 + B1 + B2;
    MirrorSchemaGrows(src.definition, A, definition, B0, B);
    MirrorEventTableGrows(src.types, A, types, B1, B);
    MirrorSlotTableGrows(src.dataTypes, A, dataTypes, B2, B);
  }

  method CopyBase(src: KameletSpecBase, ghost A: set<object>) returns (out: KameletSpecBase, ghost B: set<object>)
    requires MirrorBase(src, A, src, A)
    ensures fresh(B) && MirrorBase(src, A, out, B)
  {
    hide MirrorSchema, MirrorSources, MirrorTemplate, MirrorEventTable, MirrorSlotTable, MirrorSlice;
    var definition, types, dataTypes, B0 := CopySchemas(src, A);
    var sources, B1 := CopySources(src.sources, A);
    var template, B2 := CopyTemplate(src.template, A);
    var dependencies, B3 := CopySlice(src.dependencies, A);
    out := KameletSpecBase(definition, sources, template, types, dataTypes, dependencies);
    B := B0 + B1 + B2 + B3;
    MirrorSchemaGrows(src.definition, A, definition, B0, B);
    MirrorSourcesGrows(src.sources, A, sources, B1, B);
    MirrorTemplateGrows(src.template, A, template, B2, B);
    MirrorEventTableGrows(src.types, A, types, B0, B);
    MirrorSlotTableGrows(src.dataTypes, A, dataTypes, B0, B);
    MirrorSliceGrows(src.dependencies, A, dependencies, B3, B);
  }

  // ----- the versions

  ghost predicate MirrorVersionTable(
      a: MapRef?<string, KameletSpecBase>, A: set<object>, b: MapRef?<string, KameletSpecBase>,
      B: set<object>)
    reads A, B
  {
    (a == null) == (b == null) &&
    (a != null && b != null ==>
      && a in A && b in B
      && a.m.Keys == b.m.Keys
      && forall k :: k in a.m ==> MirrorBase(a.m[k], A, b.m[k], B))
  }

  lemma MirrorVersionTableGrows(a: MapRef?<string, KameletSpecBase>, A: set<object>,
                          b: MapRef?<string, KameletSpecBase>, B: set<object>, B': set<object>)
    requires MirrorVersionTable(a, A, b, B) && B <= B'
    ensures MirrorVersionTable(a, A, b, B')
  {
    if a != null {
      forall k | k in a.m
        ensures MirrorBase(a.m[k], A, b.m[k], B')
      {
        MirrorBaseGrows(a.m[k], A, b.m[k], B, B');
      }
    }
  }

  method CopyVersionTable(src: MapRef?<string, KameletSpecBase>, ghost A: set<object>)
    returns (out: MapRef?<string, KameletSpecBase>, ghost B: set<object>)
    requires MirrorVersionTable(src, A, src, A)
    ensures fresh(B) && MirrorVersionTable(src, A, out, B)
  {
    hide MirrorBase;
    out, B := src, {};
    if src != null {
      var table := new MapRef<string, KameletSpecBase>();
      var todo := src.m.Keys;
      while todo != {}
        invariant fresh(B) && fresh(table) && table !in B
        invariant todo <= src.m.Keys && table.m.Keys == src.m.Keys - todo
        invariant forall k :: k in table.m ==> MirrorBase(src.m[k], A, table.m[k], B)
      {
        var key :| key in todo;
        var value, C := CopyBase(src.m[key], A);
        forall k | k in table.m
          ensures MirrorBase(src.m[k], A, table.m[k], B + C)
        {
          MirrorBaseGrows(src.m[k], A, table.m[k], B, B + C);
        }
        MirrorBaseGrows(src.m[key], A, value, C, B + C);
        table.m := table.m[key := value];
        todo, B := todo - {key}, B + C;
      }
      forall k | k in table.m
        ensures MirrorBase(src.m[k], A, table.m[k], B + {table})
      {
        MirrorBaseGrows(src.m[k], A, table.m[k], B, B + {table});
      }
      out, B := table, B + {table};
    }
  }

  ghost predicate MirrorSpec(a: KameletSpec, A: set<object>, b: KameletSpec, B: set<object>)
    reads A, B
  {
    MirrorBase(a.base, A, b.base, B) && MirrorVersionTable(a.versions, A, b.versions, B)
  }

  lemma MirrorSpecGrows(a: KameletSpec, A: set<object>, b: KameletSpec, B: set<object>, B': set<object>)
    requires MirrorSpec(a, A, b, B) && B <= B'
    ensures MirrorSpec(a, A, b, B')
  {
    MirrorBaseGrows(a.base, A, b.base, B, B');
    MirrorVersionTableGrows(a.versions, A, b.versions, B, B');
  }

  method CopySpec(src: KameletSpec, ghost A: set<object>) returns (out: KameletSpec, ghost B: set<object>)
    requires MirrorSpec(src, A, src, A)
    ensures fresh(B) && MirrorSpec(src, A, out, B)
  {
    hide MirrorBase, MirrorVersionTable;
    var base, B0 := CopyBase(src.base, A);
    var versions, B1 := CopyVersionTable(src.versions, A);
    out, B := KameletSpec(base, versions), B0 + B1;
    MirrorBaseGrows(src.base, A, base, B0, B);
    MirrorVersionTableGrows(src.versions, A, versions, B1, B);
  }

  // ----- KameletStatus and Kamelet

  ghost predicate MirrorStatus(a: KameletStatus, A: set<object>, b: KameletStatus, B: set<object>)
    reads A, B
  {
    && a in A && b in B
    && a.observedGeneration == b.observedGeneration && a.phase == b.phase
    && MirrorSlice(a.conditions, A, b.conditions, B)
    && MirrorSlice(a.properties, A, b.properties, B)
  }

  lemma MirrorStatusGrows(a: KameletStatus, A: set<object>, b: KameletStatus, B: set<object>, B': set<object>)
    requires MirrorStatus(a, A, b, B) && B <= B'
    ensures MirrorStatus(a, A, b, B')
  {}

  method CopyStatus(src: KameletStatus, ghost A: set<object>) returns (out: KameletStatus, ghost B: set<object>)
    requires MirrorStatus(src, A, src, A)
    ensures fresh(B) && MirrorStatus(src, A, out, B)
  {
    var conditions, B0 := CopySlice(src.conditions, A);
    var properties, B1 := CopySlice(src.properties, A);
    out := new KameletStatus(src.observedGeneration, src.phase, conditions, properties);
    B := B0 + B1 + {out};
  }

  /** The status is a struct inside the Kamelet: it has an address but is never re-seated. */
  class Kamelet {
    var typeMeta: TypeMeta
    var objectMeta: ObjectMeta
    var spec: KameletSpec
    const status: KameletStatus

    constructor (typeMeta: TypeMeta, objectMeta: ObjectMeta, spec: KameletSpec, status: KameletStatus)
      ensures this.typeMeta == typeMeta && this.objectMeta == objectMeta
      ensures this.spec == spec && this.status == status
    {
      this.typeMeta, this.objectMeta, this.spec, this.status := typeMeta, objectMeta, spec, status;
    }
  }

  ghost predicate MirrorKamelet(a: Kamelet, A: set<object>, b: Kamelet, B: set<object>)
    reads A, B
  {
    && a in A && b in B
    && a.typeMeta == b.typeMeta && a.objectMeta == b.objectMeta
    && MirrorSpec(a.spec, A - {a}, b.spec, B - {b})
    && MirrorStatus(a.status, A - {a}, b.status, B - {b})
  }

  /** A deep copy of a nil pointer is nil. Otherwise every cell of the copy is new, the copy
      is equal to the source at every depth and, there being nothing the method may modify,
      the source is as it was. */
  method DeepCopy(src: Kamelet?, ghost A: set<object>) returns (out: Kamelet?, ghost B: set<object>)
    requires src != null ==> MirrorKamelet(src, A, src, A)
    ensures fresh(B)
    ensures src == null ==> out == null
    ensures src != null ==> out != null && MirrorKamelet(src, A, out, B)
  {
    out, B := null, {};
    if src != null {
      hide MirrorSpec, MirrorStatus;
      var spec, status;
      spec, status, B := CopyParts(src.spec, src.status, A - {src});
      out := new Kamelet(src.typeMeta, src.objectMeta, spec, status);
      ghost var R := B;
      B := R + {out};
      assert B - {out} == R;
    }
  }

  method CopyParts(src: KameletSpec, srcStatus: KameletStatus, ghost A: set<object>)
    returns (spec: KameletSpec, status: KameletStatus, ghost B: set<object>)
    requires MirrorSpec(src, A, src, A) && MirrorStatus(srcStatus, A, srcStatus, A)
    ensures fresh(B) && MirrorSpec(src, A, spec, B) && MirrorStatus(srcStatus, A, status, B)
  {
    hide MirrorSpec, MirrorStatus;
    ghost var B0, B1;
    spec, B0 := CopySpec(src, A);
    status, B1 := CopyStatus(srcStatus, A);
    B := B0 + B1;
    MirrorSpecGrows(src, A, spec, B0, B);
    MirrorStatusGrows(srcStatus, A, status, B1, B);
  }

  // ----- CloneWithVersion

  datatype CloneResult = Clone(kamelet: Kamelet) | VersionNotFound(version: string, namespace: string, name: string)

  predicate HasVersion(spec: KameletSpec, version: string)
    reads spec.versions
  {
    spec.versions != null && version in spec.versions.m
  }

  /** The clone keeps the metadata, the name included. Its status is always a copy. Its main
      specification is a copy when no version is named; for a named version it is the very
      struct the source holds for that version, references included. */
  method CloneWithVersion(k: Kamelet, version: string, ghost A: set<object>)
    returns (result: CloneResult, ghost B: set<object>)
    requires MirrorKamelet(k, A, k, A)
    ensures fresh(B)
    ensures result.VersionNotFound? <==> version != "" && !HasVersion(k.spec, version)
    ensures result.VersionNotFound? ==>
              result == VersionNotFound(version, k.objectMeta.namespace, k.objectMeta.name)
    ensures result.Clone? ==>
              var c := result.kamelet;
              && c in B && c.spec.versions == null
              && c.typeMeta == k.typeMeta && c.objectMeta == k.objectMeta
              && MirrorStatus(k.status, A - {k}, c.status, B - {c})
              && (version == "" ==> MirrorBase(k.spec.base, A - {k}, c.spec.base, B - {c}))
              && (version != "" ==> c.spec.base == k.spec.versions.m[version])
  {
    hide MirrorBase, MirrorVersionTable, MirrorStatus;
    var clone;
    clone, B := DeepCopy(k, A);
    if version != "" {
      if k.spec.versions == null || version !in k.spec.versions.m {
        result := VersionNotFound(version, k.objectMeta.namespace, k.objectMeta.name);
        return;
      }
      clone.spec := clone.spec.(base := k.spec.versions.m[version]);
    }
    clone.spec := clone.spec.(versions := null);
    result := Clone(clone);
  }
}
