/** A uniform buffer laid out as named fields (src/buffer/buf_struct.rs):
    the field table, the size the buffer is created with, and writes of a
    field's bytes into the buffer's memory. */
module BufStructs {
  import opened Collections

  /** Where one field lives in the buffer, in bytes. */
  datatype BufField = BufField(offset: nat, size: nat)

  /** What a write can run into where the source panics. */
  datatype WriteError = UnknownField | SizeMismatch | MapFailed | Overflow

  /** The (name, field) pairs of a field iterator, in iteration order. */
  function Entries(items: seq<(string, nat, nat)>): seq<(string, BufField)> {
    seq(|items|, i requires 0 <= i < |items| => (items[i].0, BufField(items[i].1, items[i].2)))
  }

  /** The offset and size `from_fields` keeps while scanning the fields: those
      of the last field whose offset is the greatest, or (0, 0) for none. */
  function FarField(items: seq<(string, nat, nat)>): (far: (nat, nat))
    ensures forall i | 0 <= i < |items| :: items[i].1 <= far.0
    ensures items == [] ==> far == (0, 0)
    ensures items != [] ==> exists i | 0 <= i < |items| ::
      (&& items[i].1 == far.0 && items[i].2 == far.1
       && forall j | i < j < |items| :: items[j].1 < far.0)
  {
    if items == [] then (0, 0)
    else
      var n := |items| - 1;
      assert forall j | 0 <= j < n :: items[..n][j] == items[j];
      var prev := FarField(items[..n]);
      if items[n].1 >= prev.0 then (items[n].1, items[n].2) else prev
  }

  /** The byte size `from_fields` asks for: the end of that far field. */
  function RequestedSize(items: seq<(string, nat, nat)>): nat {
    FarField(items).0 + FarField(items).1
  }

  /** Fields given in increasing offset order without overlap all fit: the
      requested size reaches the end of every field. */
  lemma {:induction false} OrderedFieldsFit(items: seq<(string, nat, nat)>, i: nat)
    requires forall j | 0 <= j < |items| - 1 :: items[j].1 + items[j].2 <= items[j + 1].1
    requires forall j | 0 <= j < |items| - 1 :: items[j].1 < items[j + 1].1
    requires i < |items|
    ensures items[i].1 + items[i].2 <= RequestedSize(items)
  {
    var n := |items| - 1;
    assert FarField(items) == (items[n].1, items[n].2) by {
      assert forall j | 0 <= j < n :: items[..n][j] == items[j];
      assert FarField(items[..n]).0 <= items[n].1 by {
        if n > 0 {
          OffsetsIncrease(items, n);
        }
      }
    }
    if i < n {
      OffsetsIncrease(items, n);
      assert items[i].1 + items[i].2 <= items[i + 1].1;
      if i + 1 < n {
        OffsetsIncreaseFrom(items, i + 1, n);
      }
    }
  }

  /** In a strictly increasing sequence of offsets, the last is the greatest. */
  lemma {:induction false} OffsetsIncrease(items: seq<(string, nat, nat)>, n: nat)
    requires n < |items|
    requires forall j | 0 <= j < |items| - 1 :: items[j].1 < items[j + 1].1
    ensures forall j | 0 <= j < n :: items[j].1 < items[n].1
    ensures n > 0 ==> FarField(items[..n]).0 < items[n].1
  {
    forall j | 0 <= j < n
      ensures items[j].1 < items[n].1
    {
      OffsetsIncreaseFrom(items, j + 1, n);
    }
    if n > 0 {
      var far := FarField(items[..n]);
      var i :| 0 <= i < n && items[..n][i].1 == far.0;
      assert items[..n][i] == items[i];
    }
  }

  lemma {:induction false} OffsetsIncreaseFrom(items: seq<(string, nat, nat)>, i: nat, n: nat)
    requires i <= n < |items|
    requires forall j | 0 <= j < |items| - 1 :: items[j].1 < items[j + 1].1
    ensures items[i].1 <= items[n].1
    decreases n - i
  {
    if i < n {
      OffsetsIncreaseFrom(items, i + 1, n);
    }
  }

  /** Once offsets overlap, the requested size can fall short of a field: a
      300-byte field at 0 and a 4-byte field at 256 give 260 bytes. */
  lemma OverlapFallsShort()
    ensures RequestedSize([("a", 0, 300), ("b", 256, 4)]) == 260
    ensures RequestedSize([("b", 256, 4), ("a", 0, 300)]) == 260
  {
    var x: seq<(string, nat, nat)> := [("a", 0, 300), ("b", 256, 4)];
    assert x[..1][..0] == [];
    var y: seq<(string, nat, nat)> := [("b", 256, 4), ("a", 0, 300)];
    assert y[..1][..0] == [];
  }

  /** Two fields with the same offset: the size depends on which of them the
      map yields last, so it depends on the hash order. */
  lemma EqualOffsetsDependOnOrder()
    ensures RequestedSize([("a", 256, 4), ("b", 256, 64)]) == 320
    ensures RequestedSize([("b", 256, 64), ("a", 256, 4)]) == 260
  {
    var x: seq<(string, nat, nat)> := [("a", 256, 4), ("b", 256, 64)];
    assert x[..1][..0] == [];
    var y: seq<(string, nat, nat)> := [("b", 256, 64), ("a", 256, 4)];
    assert y[..1][..0] == [];
  }

  /** The bytes `s` with `data` copied in at `offset`. */
  function Splice(s: seq<bv8>, offset: nat, data: seq<bv8>): (r: seq<bv8>)
    requires offset + |data| <= |s|
    ensures |r| == |s|
    ensures r[offset..offset + |data|] == data
    ensures forall i | 0 <= i < |s| && !(offset <= i < offset + |data|) :: r[i] == s[i]
  {
    s[..offset] + data + s[offset + |data|..]
  }

  /** Copies into disjoint ranges can be made in either order. */
  lemma SpliceCommute(s: seq<bv8>, o1: nat, d1: seq<bv8>, o2: nat, d2: seq<bv8>)
    requires o1 + |d1| <= |s| && o2 + |d2| <= |s|
    requires o1 + |d1| <= o2 || o2 + |d2| <= o1
    ensures Splice(Splice(s, o1, d1), o2, d2) == Splice(Splice(s, o2, d2), o1, d1)
  {
    var a := Splice(Splice(s, o1, d1), o2, d2);
    var b := Splice(Splice(s, o2, d2), o1, d1);
    forall i | 0 <= i < |s|
      ensures a[i] == b[i]
    {
      if o1 <= i < o1 + |d1| {
        assert Splice(s, o1, d1)[i] == d1[i - o1];
        assert b[i] == b[o1..o1 + |d1|][i - o1];
      } else if o2 <= i < o2 + |d2| {
        assert Splice(s, o2, d2)[i] == d2[i - o2];
        assert a[i] == a[o2..o2 + |d2|][i - o2];
      }
    }
  }

  class BufStruct {
    /** The field table; it never changes after creation. */
    const fields: map<string, BufField>
    /** The byte size the buffer was created with. */
    const size: nat
    /** The buffer's device memory, as bytes: the allocation the driver
        reports for the buffer, which is at least its size. */
    const mem: array<bv8>

    ghost predicate Valid()
      reads this
    {
      mem.Length >= size
    }

    /** `BufStruct::from_fields`: inserts the fields by name (a later field of
        the same name replaces an earlier one) and sizes the buffer to end
        with the field of greatest offset, the later one on a tie. `alloc` is
        the allocation size the driver reports for a buffer of that size,
        which is never less than it. */
    constructor FromFields(items: seq<(string, nat, nat)>, alloc: nat)
      requires alloc >= RequestedSize(items)
      ensures Valid() && fresh(mem)
      ensures fields == Assoc(Entries(items))
      ensures size == RequestedSize(items)
      ensures mem.Length == alloc
    {
      var table: map<string, BufField> := map[];
      var farOffset: nat, farSize: nat := 0, 0;
      var i := 0;
      while i < |items|
        invariant 0 <= i <= |items|
        invariant table == Assoc(Entries(items[..i]))
        invariant (farOffset, farSize) == FarField(items[..i])
      {
        var (id, offset, sz) := items[i];
        assert Entries(items[..i + 1]) == Entries(items[..i]) + [(id, BufField(offset, sz))];
        AssocSnoc(Entries(items[..i]), (id, BufField(offset, sz)));
        assert items[..i + 1][..i] == items[..i];
        table := table[id := BufField(offset, sz)];
        if offset >= farOffset {
          farOffset, farSize := offset, sz;
        }
        i := i + 1;
      }
      assert items[..i] == items;
      fields := table;
      size := farOffset + farSize;
      mem := new bv8[alloc];
    }

    /** `BufStruct::map_write`, with the closure copying `payload` to the start
        of the mapped range: the field's range is mapped (a range past the
        end of the allocation fails to map) and the payload must fit in it. */
    method MapWrite(name: string, payload: seq<bv8>) returns (r: Result<(), WriteError>)
      requires Valid()
      modifies mem
      ensures name !in fields ==> r == Err(UnknownField)
      ensures name in fields && fields[name].offset + fields[name].size > mem.Length ==> r == Err(MapFailed)
      ensures name in fields && fields[name].offset + fields[name].size <= mem.Length && |payload| > fields[name].size
        ==> r == Err(Overflow)
      ensures r.Ok? <==>
        name in fields && fields[name].offset + fields[name].size <= mem.Length && |payload| <= fields[name].size
      ensures r.Ok? ==> mem[..] == Splice(old(mem[..]), fields[name].offset, payload)
      ensures r.Err? ==> mem[..] == old(mem[..])
    {
      if name !in fields {
        return Err(UnknownField);
      }
      var field := fields[name];
      if field.offset + field.size > mem.Length {
        return Err(MapFailed);
      }
      if |payload| > field.size {
        return Err(Overflow);
      }
      var k := 0;
      while k < |payload|
        invariant 0 <= k <= |payload|
        invariant forall i | 0 <= i < mem.Length ::
          mem[i] == if field.offset <= i < field.offset + k then payload[i - field.offset] else old(mem[i])
      {
        mem[field.offset + k] := payload[k];
        k := k + 1;
      }
      var spliced := Splice(old(mem[..]), field.offset, payload);
      forall i | 0 <= i < mem.Length
        ensures mem[i] == spliced[i]
      {
        if field.offset <= i < field.offset + |payload| {
          assert spliced[i] == spliced[field.offset..field.offset + |payload|][i - field.offset];
        }
      }
      r := Ok(());
    }

    /** `BufStruct::write`: rejects a payload whose byte length differs from
        the field size, then copies it over the whole field. */
    method Write(name: string, data: seq<bv8>) returns (r: Result<(), WriteError>)
      requires Valid()
      modifies mem
      ensures name !in fields ==> r == Err(UnknownField)
      ensures name in fields && |data| != fields[name].size ==> r == Err(SizeMismatch)
      ensures name in fields && |data| == fields[name].size && fields[name].offset + |data| > mem.Length
        ==> r == Err(MapFailed)
      ensures r.Ok? <==> name in fields && |data| == fields[name].size && fields[name].offset + |data| <= mem.Length
      ensures name in fields && |data| == fields[name].size && fields[name].offset + |data| <= size ==> r.Ok?
      ensures r.Ok? ==> mem[..] == Splice(old(mem[..]), fields[name].offset, data)
      ensures r.Ok? ==> mem[fields[name].offset..fields[name].offset + |data|] == data
      ensures r.Err? ==> mem[..] == old(mem[..])
    {
      if name !in fields {
        return Err(UnknownField);
      }
      if |data| != fields[name].size {
        return Err(SizeMismatch);
      }
      r := MapWrite(name, data);
      if r.Ok? {
        assert mem[fields[name].offset..fields[name].offset + |data|]
          == mem[..][fields[name].offset..fields[name].offset + |data|];
      }
    }
  }
}
