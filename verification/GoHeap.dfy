/** The parts of Go's memory model that the API types rest on: slices over a shared
    backing array, pointers, and maps, each of them nil or a mutable cell. */
module GoHeap {

  /** A slice header. The capacity is the length of the backing array. */
  datatype Slice<T> = Nil | Slice(arr: array<T>, len: nat)

  /** The cell a pointer of type *T points at. */
  class Ref<T> {
    var v: T

    constructor (v: T)
      ensures this.v == v
    {
      this.v := v;
    }
  }

  /** A Go map: assigning it copies the reference, not the entries. */
  class MapRef<K(==), V> {
    var m: map<K, V>

    constructor ()
      ensures m == map[]
    {
      m := map[];
    }
  }

  /** The array behind a slice, as a set of cells. */
  function Backing<T>(s: Slice<T>): set<object> {
    if s.Nil? then {} else {s.arr}
  }

  predicate Fits<T>(s: Slice<T>) {
    s.Slice? ==> s.len <= s.arr.Length
  }

  function Elements<T>(s: Slice<T>): seq<T>
    requires Fits(s)
    reads Backing(s)
  {
    if s.Nil? then [] else s.arr[..s.len]
  }

  /** Go's append of one element: it writes into the backing array while there is spare
      capacity and otherwise moves to a new array, of any larger size. */
  method Append<T(0)>(s: Slice<T>, x: T) returns (out: Slice<T>)
    requires Fits(s)
    modifies Backing(s)
    ensures out.Slice? && Fits(out) && Elements(out) == old(Elements(s)) + [x]
    ensures if s.Slice? && s.len < s.arr.Length
            then out.arr == s.arr && forall j :: 0 <= j < s.arr.Length && j != s.len ==> s.arr[j] == old(s.arr[j])
            else fresh(out.arr) && (s.Slice? ==> s.arr[..] == old(s.arr[..]))
  {
    if s.Slice? && s.len < s.arr.Length {
      s.arr[s.len] := x;
      out := Slice(s.arr, s.len + 1);
    } else {
      var len := if s.Nil? then 0 else s.len;
      var capacity: nat :| len < capacity;
      var cells := new T[capacity];
      for i := 0 to len
        invariant fresh(cells)
        invariant s.Slice? ==> s.arr[..] == old(s.arr[..]) && cells[..i] == s.arr[..i]
      {
        cells[i] := s.arr[i];
      }
      cells[len] := x;
      out := Slice(cells, len + 1);
    }
  }

  /** Both slices are nil, or both are not and hold the same elements; the first one
      lives in region A, the second one in region B. */
  ghost predicate MirrorSlice<T>(a: Slice<T>, A: set<object>, b: Slice<T>, B: set<object>)
    reads A, B
  {
    a.Nil? == b.Nil? &&
    (a.Slice? ==>
      && a.arr in A && a.len <= a.arr.Length
      && b.arr in B && b.len <= b.arr.Length
      && a.arr[..a.len] == b.arr[..b.len])
  }

  lemma MirrorSliceGrows<T>(a: Slice<T>, A: set<object>, b: Slice<T>, B: set<object>, B': set<object>)
    requires MirrorSlice(a, A, b, B) && B <= B'
    ensures MirrorSlice(a, A, b, B')
  {}

  /** The same for pointers to values that hold no references. */
  ghost predicate MirrorRef<T>(a: Ref?<T>, A: set<object>, b: Ref?<T>, B: set<object>)
    reads A, B
  {
    (a == null) == (b == null) &&
    (a != null && b != null ==> a in A && b in B && a.v == b.v)
  }

  /** The same for maps whose values hold no references. */
  ghost predicate MirrorMap<K, V>(a: MapRef?<K, V>, A: set<object>, b: MapRef?<K, V>, B: set<object>)
    reads A, B
  {
    (a == null) == (b == null) &&
    (a != null && b != null ==> a in A && b in B && a.m == b.m)
  }

  /** make([]T, len(src)) followed by copy: nil stays nil, an empty slice stays empty. */
  method CopySlice<T(0)>(src: Slice<T>, ghost A: set<object>) returns (out: Slice<T>, ghost B: set<object>)
    requires MirrorSlice(src, A, src, A)
    ensures fresh(B) && MirrorSlice(src, A, out, B)
  {
    out, B := src, {};
    if src.Slice? {
      var cells := new T[src.len];
      for i := 0 to src.len
        invariant fresh(cells)
        invariant cells[..i] == src.arr[..i]
      {
        cells[i] := src.arr[i];
      }
      assert cells[..] == cells[..src.len];
      out, B := Slice(cells, src.len), {cells};
    }
  }

  /** new(T) followed by **out = **in. */
  method CopyRef<T>(src: Ref?<T>, ghost A: set<object>) returns (out: Ref?<T>, ghost B: set<object>)
    requires MirrorRef(src, A, src, A)
    ensures fresh(B) && MirrorRef(src, A, out, B)
  {
    out, B := src, {};
    if src != null {
      var cell := new Ref(src.v);
      out, B := cell, {cell};
    }
  }

  /** make(map) followed by the entry-by-entry loop, in whatever order the keys come. */
  method CopyMap<K(==), V>(src: MapRef?<K, V>, ghost A: set<object>) returns (out: MapRef?<K, V>, ghost B: set<object>)
    requires MirrorMap(src, A, src, A)
    ensures fresh(B) && MirrorMap(src, A, out, B)
  {
    out, B := src, {};
    if src != null {
      var table := new MapRef<K, V>();
      var todo := src.m.Keys;
      while todo != {}
        invariant fresh(table)
        invariant todo <= src.m.Keys && table.m.Keys == src.m.Keys - todo
        invariant forall k :: k in table.m ==> table.m[k] == src.m[k]
      {
        var k :| k in todo;
        table.m := table.m[k := src.m[k]];
        todo := todo - {k};
      }
      out, B := table, {table};
    }
  }
}
