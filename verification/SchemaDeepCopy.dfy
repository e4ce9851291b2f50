/** Deep copy of the JSON schema part of a Kamelet.

    MirrorX(a, A, b, B) says that b is a deep copy of a: equal at every depth, nil exactly
    where a is nil, every cell reachable from a lies in region A and every cell reachable
    from b lies in region B. MirrorX(a, A, a, A) just says that A covers the cells of a. */
module SchemaDeepCopy {
  import opened GoHeap
  import opened KameletTypes

  // ----- JSON

  ghost predicate MirrorJsonRef(a: Ref?<JSON>, A: set<object>, b: Ref?<JSON>, B: set<object>)
    reads A, B
  {
    (a == null) == (b == null) &&
    (a != null && b != null ==> a in A && b in B && MirrorSlice(a.v.raw, A, b.v.raw, B))
  }

  ghost predicate MirrorJsonSlice(a: Slice<JSON>, A: set<object>, b: Slice<JSON>, B: set<object>)
    reads A, B
  {
    a.Nil? == b.Nil? &&
    (a.Slice? ==>
      && a.arr in A && a.len <= a.arr.Length
      && b.arr in B && b.len <= b.arr.Length
      && a.len == b.len
      && forall i :: 0 <= i < a.len ==> MirrorSlice(a.arr[i].raw, A, b.arr[i].raw, B))
  }

  /** *out = new(JSON); (*in).DeepCopyInto(*out) */
  method CopyJsonRef(src: Ref?<JSON>, ghost A: set<object>) returns (out: Ref?<JSON>, ghost B: set<object>)
    requires MirrorJsonRef(src, A, src, A)
    ensures fresh(B) && MirrorJsonRef(src, A, out, B)
  {
    out, B := src, {};
    if src != null {
      var raw;
      raw, B := CopySlice(src.v.raw, A);
      out := new Ref(JSON(raw));
      B := B + {out};
    }
  }

  method CopyJsonSlice(src: Slice<JSON>, ghost A: set<object>) returns (out: Slice<JSON>, ghost B: set<object>)
    requires MirrorJsonSlice(src, A, src, A)
    ensures fresh(B) && MirrorJsonSlice(src, A, out, B)
  {
    out, B := src, {};
    if src.Slice? {
      var cells := new JSON[src.len];
      B := {cells};
      for i := 0 to src.len
        invariant cells in B && fresh(B)
        invariant forall j :: 0 <= j < i ==> MirrorSlice(src.arr[j].raw, A, cells[j].raw, B - {cells})
      {
        var raw;
        ghost var R;
        raw, R := CopySlice(src.arr[i].raw, A);
        cells[i] := JSON(raw);
        B := B + R;
      }
      out := Slice(cells, src.len);
    }
  }

  // ----- JSONSchemaProp

  ghost predicate MirrorRange<T>(a: Range<T>, A: set<object>, b: Range<T>, B: set<object>)
    reads A, B
  {
    MirrorRef(a.max, A, b.max, B) && MirrorRef(a.min, A, b.min, B)
  }

  ghost predicate MirrorBounds(a: PropBounds, A: set<object>, b: PropBounds, B: set<object>)
    reads A, B
  {
    && MirrorRange(a.value, A, b.value, B)
    && MirrorRef(a.multipleOf, A, b.multipleOf, B)
    && MirrorRange(a.lengths, A, b.lengths, B)
    && MirrorRange(a.items, A, b.items, B)
    && MirrorRange(a.properties, A, b.properties, B)
  }

  ghost predicate MirrorExamples(a: PropExamples, A: set<object>, b: PropExamples, B: set<object>)
    reads A, B
  {
    && MirrorJsonRef(a.default, A, b.default, B)
    && MirrorJsonSlice(a.enumeration, A, b.enumeration, B)
    && MirrorJsonRef(a.example, A, b.example, B)
    && MirrorSlice(a.xDescriptors, A, b.xDescriptors, B)
  }

  ghost predicate MirrorProp(a: JSONSchemaProp, A: set<object>, b: JSONSchemaProp, B: set<object>)
    reads A, B
  {
    && a.text == b.text
    && MirrorBounds(a.bounds, A, b.bounds, B)
    && MirrorExamples(a.examples, A, b.examples, B)
  }

  lemma MirrorPropGrows(a: JSONSchemaProp, A: set<object>, b: JSONSchemaProp, B: set<object>, B': set<object>)
    requires MirrorProp(a, A, b, B) && B <= B'
    ensures MirrorProp(a, A, b, B')
  {
    assert MirrorBounds(a.bounds, A, b.bounds, B');
    assert MirrorExamples(a.examples, A, b.examples, B');
  }

  method CopyRange<T>(src: Range<T>, ghost A: set<object>) returns (out: Range<T>, ghost B: set<object>)
    requires MirrorRange(src, A, src, A)
    ensures fresh(B) && MirrorRange(src, A, out, B)
  {
    var max, B0 := CopyRef(src.max, A);
    var min, B1 := CopyRef(src.min, A);
    out, B := Range(max, min), B0 + B1;
  }

  method CopyBounds(src: PropBounds, ghost A: set<object>) returns (out: PropBounds, ghost B: set<object>)
    requires MirrorBounds(src, A, src, A)
    ensures fresh(B) && MirrorBounds(src, A, out, B)
  {
    var value, B0 := CopyRange(src.value, A);
    var multipleOf, B1 := CopyRef(src.multipleOf, A);
    var lengths, B2 := CopyRange(src.lengths, A);
    var items, B3 := CopyRange(src.items, A);
    var properties, B4 := CopyRange(src.properties, A);
    out, B := PropBounds(value, multipleOf, lengths, items, properties), B0 + B1 + B2 + B3 + B4;
  }

  method CopyExamples(src: PropExamples, ghost A: set<object>) returns (out: PropExamples, ghost B: set<object>)
    requires MirrorExamples(src, A, src, A)
    ensures fresh(B) && MirrorExamples(src, A, out, B)
  {
    var default, B0 := CopyJsonRef(src.default, A);
    var enumeration, B1 := CopyJsonSlice(src.enumeration, A);
    var example, B2 := CopyJsonRef(src.example, A);
    var xDescriptors, B3 := CopySlice(src.xDescriptors, A);
    out, B := PropExamples(default, enumeration, example, xDescriptors), B0 + B1 + B2 + B3;
  }

  /** JSONSchemaProp.DeepCopyInto: out starts as *in and then each reference is replaced. */
  method CopyProp(src: JSONSchemaProp, ghost A: set<object>) returns (out: JSONSchemaProp, ghost B: set<object>)
    requires MirrorProp(src, A, src, A)
    ensures fresh(B) && MirrorProp(src, A, out, B)
  {
    var bounds, B0 := CopyBounds(src.bounds, A);
    var examples, B1 := CopyExamples(src.examples, A);
    out, B := src.(bounds := bounds, examples := examples), B0 + B1;
  }

  // ----- the properties of a schema

  ghost predicate MirrorPropTable(
      a: MapRef?<string, JSONSchemaProp>, A: set<object>, b: MapRef?<string, JSONSchemaProp>,
      B: set<object>)
    reads A, B
  {
    (a == null) == (b == null) &&
    (a != null && b != null ==>
      && a in A && b in B
      && a.m.Keys == b.m.Keys
      && forall k :: k in a.m ==> MirrorProp(a.m[k], A, b.m[k], B))
  }

  method CopyPropTable(src: MapRef?<string, JSONSchemaProp>, ghost A: set<object>)
    returns (out: MapRef?<string, JSONSchemaProp>, ghost B: set<object>)
    requires MirrorPropTable(src, A, src, A)
    ensures fresh(B) && MirrorPropTable(src, A, out, B)
  {
    hide MirrorProp;
    out, B := src, {};
    if src != null {
      var table := new MapRef<string, JSONSchemaProp>();
      var todo := src.m.Keys;
      while todo != {}
        invariant fresh(B) && fresh(table) && table !in B
        invariant todo <= src.m.Keys && table.m.Keys == src.m.Keys - todo
        invariant forall k :: k in table.m ==> MirrorProp(src.m[k], A, table.m[k], B)
      {
        var key :| key in todo;
        var value, C := CopyProp(src.m[key], A);
        forall k | k in table.m
          ensures MirrorProp(src.m[k], A, table.m[k], B + C)
        {
          MirrorPropGrows(src.m[k], A, table.m[k], B, B + C);
        }
        MirrorPropGrows(src.m[key], A, value, C, B + C);
        table.m := table.m[key := value];
        todo, B := todo - {key}, B + C;
      }
      forall k | k in table.m
        ensures MirrorProp(src.m[k], A, table.m[k], B + {table})
      {
        MirrorPropGrows(src.m[k], A, table.m[k], B, B + {table});
      }
      out, B := table, B + {table};
    }
  }

  lemma MirrorPropTableGrows(
      a: MapRef?<string, JSONSchemaProp>, A: set<object>, b: MapRef?<string, JSONSchemaProp>,
      B: set<object>, B': set<object>)
    requires MirrorPropTable(a, A, b, B) && B <= B'
    ensures MirrorPropTable(a, A, b, B')
  {
    if a != null {
      forall k | k in a.m
        ensures MirrorProp(a.m[k], A, b.m[k], B')
      {
        MirrorPropGrows(a.m[k], A, b.m[k], B, B');
      }
    }
  }

  // ----- JSONSchemaProps

  ghost predicate MirrorSchema(a: Ref?<JSONSchemaProps>, A: set<object>, b: Ref?<JSONSchemaProps>, B: set<object>)
    reads A, B
  {
    (a == null) == (b == null) &&
    (a != null && b != null ==>
      && a in A && b in B
      && a.v.text == b.v.text
      && MirrorPropTable(a.v.properties, A, b.v.properties, B)
      && MirrorSlice(a.v.required, A, b.v.required, B)
      && MirrorJsonRef(a.v.example, A, b.v.example, B)
      && MirrorRef(a.v.externalDocs, A, b.v.externalDocs, B))
  }

  lemma MirrorSchemaGrows(
      a: Ref?<JSONSchemaProps>, A: set<object>, b: Ref?<JSONSchemaProps>, B: set<object>, B': set<object>)
    requires MirrorSchema(a, A, b, B) && B <= B'
    ensures MirrorSchema(a, A, b, B')
  {
    if a != null {
      MirrorPropTableGrows(a.v.properties, A, b.v.properties, B, B');
    }
  }

  /** *out = new(JSONSchemaProps); (*in).DeepCopyInto(*out) */
  method CopySchema(src: Ref?<JSONSchemaProps>, ghost A: set<object>)
    returns (out: Ref?<JSONSchemaProps>, ghost B: set<object>)
    requires MirrorSchema(src, A, src, A)
    ensures fresh(B) && MirrorSchema(src, A, out, B)
  {
    hide MirrorPropTable;
    out, B := src, {};
    if src != null {
      var properties, B0 := CopyPropTable(src.v.properties, A);
      var required, B1 := CopySlice(src.v.required, A);
      var example, B2 := CopyJsonRef(src.v.example, A);
      var externalDocs, B3 := CopyRef(src.v.externalDocs, A);
      out := new Ref(src.v.(properties := properties, required := required, example := example,
                            externalDocs := externalDocs));
      B := B0 + B1 + B2 + B3 + {out};
      MirrorPropTableGrows(src.v.properties, A, properties, B0, B);
    }
  }
}
