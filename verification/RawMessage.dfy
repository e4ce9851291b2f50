/** Raw encoded JSON: a byte slice that marshals as itself. */
module RawMessage {
  import opened GoHeap
  import KameletTypes

  type byte = KameletTypes.byte
  type Raw = KameletTypes.RawMessage

  /** The text null. */
  const NULL: seq<byte> := [0x6E, 0x75, 0x6C, 0x6C]

  /** The encoding of a message. */
  function Encoding(m: Raw): seq<byte>
    requires Fits(m)
    reads Backing(m)
  {
    if m.Nil? then NULL else Elements(m)
  }

  /** A message that is not nil is handed out as it is, without a copy. */
  method MarshalJSON(m: Raw) returns (out: Raw)
    requires Fits(m)
    ensures out.Slice? && Fits(out) && Elements(out) == Encoding(m)
    ensures if m.Nil? then fresh(out.arr) && Elements(out) == [0x6E, 0x75, 0x6C, 0x6C] else out == m
  {
    if m.Slice? {
      return m;
    }
    var cells := new byte[|NULL|](i requires 0 <= i < |NULL| => NULL[i]);
    assert cells[..] == NULL;
    out := Slice(cells, |NULL|);
  }

  /** Overwrites the message with a copy of the data. The storage of the message is used again
      when it is large enough, so whoever shares it sees the new bytes. Marshalling gives the
      data back, unless both the message was nil and the data is empty. */
  method UnmarshalJSON(m: Ref?<Raw>, data: Raw) returns (ok: bool)
    requires Fits(data) && (m != null ==> Fits(m.v))
    modifies m, if m == null then {} else Backing(m.v)
    ensures ok <==> m != null
    ensures ok ==> Fits(m.v) && Elements(m.v) == old(Elements(data))
    ensures ok ==> (m.v.Nil? <==> old(m.v).Nil? && old(Elements(data)) == [])
    ensures ok ==> (Encoding(m.v) == old(Elements(data)) <==> !(old(m.v).Nil? && old(Elements(data)) == []))
    ensures ok && m.v.Slice? ==>
              var n := |old(Elements(data))|;
              if old(m.v).Slice? && n <= old(m.v).arr.Length
              then m.v.arr == old(m.v).arr && m.v.arr[n..] == old(m.v.arr[n..])
              else fresh(m.v.arr) && (old(m.v).Slice? ==> old(m.v).arr[..] == old(m.v.arr[..]))
  {
    if m == null {
      return false;
    }
    ok := true;
    var n := if data.Nil? then 0 else data.len;
    if m.v.Nil? && n == 0 {
      return;
    }
    var cells;
    if m.v.Slice? && n <= m.v.arr.Length {
      cells := m.v.arr;
    } else {
      var capacity: nat :| n <= capacity;
      cells := new byte[capacity];
    }
    for i := 0 to n
      invariant forall j :: 0 <= j < i ==> cells[j] == old(data.arr[j])
      invariant n > 0 ==> forall j :: i <= j < n ==> data.arr[j] == old(data.arr[j])
      invariant forall j :: n <= j < cells.Length && !fresh(cells) ==> cells[j] == old(cells[j])
      invariant old(m.v).Slice? && old(m.v).arr != cells ==> old(m.v).arr[..] == old(m.v.arr[..])
    {
      cells[i] := data.arr[i];
    }
    m.v := Slice(cells, n);
  }

  /** The printed message; a nil pointer prints as nothing. */
  method String(m: Ref?<Raw>) returns (s: seq<byte>)
    requires m != null ==> Fits(m.v)
    ensures s == if m == null then [] else Encoding(m.v)
    ensures m != null ==> s == if m.v.Nil? then [0x6E, 0x75, 0x6C, 0x6C] else Elements(m.v)
  {
    if m == null {
      return [];
    }
    var b := MarshalJSON(m.v);
    s := b.arr[..b.len];
  }
}
