/** The procedures of src/orb.h that write memory: the z-string and
    variable-buffer writers, and the partition, a byte array holding
    elements up to the end index `pEnd`, where a free area's header sits.

    Each procedure is proved against the byte layouts and the element-level
    operations of OrbLayout. `memcpy` and `memmove` are parallel array
    assignments. */
module Orb {
  import opened OrbLayout

  /** memcpy(buf + at, s, |s|). */
  method MemCopy(buf: array<byte>, at: nat, s: seq<byte>)
    requires at + |s| <= buf.Length
    modifies buf
    ensures buf[..] == Splice(old(buf[..]), at, s)
  {
    forall j | at <= j < at + |s| {
      buf[j] := s[j - at];
    }
    ghost var r := Splice(old(buf[..]), at, s);
    assert forall j | 0 <= j < buf.Length :: buf[j] == r[j] by {
      forall j | 0 <= j < buf.Length ensures buf[j] == r[j] {
        if j < at {
          assert r[j] == old(buf[..])[..at][j];
        } else if j < at + |s| {
          assert r[j] == s[j - at];
        }
      }
    }
  }

  /** memmove(buf + dst, buf + src, n) towards lower addresses. */
  method MemMove(buf: array<byte>, dst: nat, src: nat, n: nat)
    requires dst <= src && src + n <= buf.Length
    modifies buf
    ensures buf[..] == MoveDown(old(buf[..]), dst, src, n)
  {
    forall j | dst <= j < dst + n {
      buf[j] := buf[src + (j - dst)];
    }
    ghost var r := MoveDown(old(buf[..]), dst, src, n);
    assert forall j | 0 <= j < buf.Length :: buf[j] == r[j] by {
      forall j | 0 <= j < buf.Length ensures buf[j] == r[j] {
        if j < dst {
          assert r[j] == old(buf[..])[..dst][j];
        } else if j < dst + n {
          assert r[j] == old(buf[..])[src .. src + n][j - dst];
        }
      }
    }
  }

  /** get_zstring (orb.h:44-53): the z-string at `at` of `zBuf` copied to
      the start of `cBuf` and ended with a zero. */
  method GetZStringTo(zBuf: array<byte>, at: nat, cBuf: array<byte>)
    requires at < zBuf.Length && at + 1 + zBuf[at] <= zBuf.Length && cBuf.Length >= 256 && zBuf != cBuf
    modifies cBuf
    ensures cBuf[..] == Splice(old(cBuf[..]), 0, GetZString(zBuf[..], at) + [0])
  {
    var size := zBuf[at];
    MemCopy(cBuf, 0, zBuf[at + 1 .. at + 1 + size]);
    ghost var c := cBuf[..];
    cBuf[size] := 0;
    assert cBuf[..] == Splice(c, size, [0]);
    SpliceAdjacent(old(cBuf[..]), 0, zBuf[at + 1 .. at + 1 + size], [0]);
  }

  /** set_zstring (orb.h:56-68): the length byte, then the first `size`
      bytes of `s`. The length is a byte, so the source's test for a length
      above 255 never fires and is not modelled. */
  method SetZString(zBuf: array<byte>, at: nat, size: byte, s: seq<byte>) returns (err: byte)
    requires size <= |s| && at + 1 + size <= zBuf.Length
    modifies zBuf
    ensures err == 0 && zBuf[..] == Splice(old(zBuf[..]), at, ZString(s[..size]))
  {
    zBuf[at] := size;
    assert zBuf[..] == Splice(old(zBuf[..]), at, [size]);
    MemCopy(zBuf, at + 1, s[..size]);
    SpliceAdjacent(old(zBuf[..]), at, [size], s[..size]);
    err := 0;
  }

  /** is_valid_var_name (orb.h:79-92) on the C string `name`: a letter
      first, then letters and digits up to the terminator. */
  method IsValidVarName(name: seq<byte>) returns (b: bool)
    requires NoZero(name)
    ensures b == ValidVarName(name)
  {
    var c := name + [0];
    if !IsAlpha(c[0]) {
      return false;
    }
    var i := 1;
    while c[i] != 0
      invariant 1 <= i <= |name|
      invariant forall k :: 1 <= k < i ==> IsAlnum(name[k])
      decreases |name| - i
    {
      if !IsAlnum(c[i]) {
        return false;
      }
      i := i + 1;
    }
    b := true;
  }

  /** load_var (orb.h:137-157): an invalid name is refused with 3 before
      anything is written; otherwise the record of the type, the name (its
      length taken as a byte, as `strlen` is stored into a `uint8_t`) and
      the first `size` bytes of the value. set_zstring never fails, so the
      source's early return after the name is not modelled. */
  method LoadVar(vBuf: array<byte>, typ: byte, name: seq<byte>, size: byte, value: seq<byte>) returns (err: byte)
    requires NoZero(name) && size <= |value| && 3 + |name| % 256 + size <= vBuf.Length
    modifies vBuf
    ensures !ValidVarName(name) ==> err == 3 && vBuf[..] == old(vBuf[..])
    ensures ValidVarName(name) ==>
      err == 0 && vBuf[..] == Splice(old(vBuf[..]), 0, VarRecord(typ, name[..|name| % 256], value[..size]))
  {
    var nameSize: byte := |name| % 256;
    var valid := IsValidVarName(name);
    if !valid {
      return 3;
    }
    ghost var n, v := ZString(name[..nameSize]), ZString(value[..size]);
    vBuf[0] := typ;
    assert vBuf[..] == Splice(old(vBuf[..]), 0, [typ]);
    err := SetZString(vBuf, 1, nameSize, name);
    SpliceAdjacent(old(vBuf[..]), 0, [typ], n);
    err := SetZString(vBuf, 2 + nameSize, size, value);
    SpliceAdjacent(old(vBuf[..]), 0, [typ] + n, v);
  }

  /** The partition (orb.h:34-39): `pSize` bytes from `pStart`, elements
      up to `pEnd`. `elems` is what the elements before `pEnd` are. */
  class Partition {
    const pSize: nat
    const mem: array<byte>
    var pEnd: nat
    ghost var elems: seq<Elem>

    /** The bytes before `pEnd` are the elements, one after the other, and
        at `pEnd` is a free area's header giving the bytes left. */
    ghost predicate Valid()
      reads this, mem
    {
      mem.Length == pSize < 65536 && pEnd + 3 <= pSize &&
      mem[..pEnd] == Flatten(elems) && Small(elems) && NamesReadable(elems) &&
      mem[pEnd] == TypeEmpty && U16(mem[pEnd + 1], mem[pEnd + 2]) == pSize - pEnd
    }

    /** alloc_partition (orb.h:193-201) with the size as a parameter: the
        memory is allocated, its contents are not yet a partition. */
    constructor (size: nat)
      requires 3 <= size < 65536
      ensures pSize == size && mem.Length == size && fresh(mem)
    {
      pSize := size;
      mem := new byte[size];
      pEnd := 0;
      elems := [];
    }

    /** get_element_size (orb.h:73-76). */
    function ElementSize(p: nat): nat
      reads this, mem
      requires p + 3 <= mem.Length
    {
      U16(mem[p + 1], mem[p + 2])
    }

    /** init_empty_area (orb.h:204-208): a free area's header at `p`. */
    method InitEmptyArea(p: nat, size: nat) returns (r: nat)
      requires p + 3 <= mem.Length
      modifies mem
      ensures r == p && mem[..] == Splice(old(mem[..]), p, Header(TypeEmpty, size))
    {
      mem[p], mem[p + 1], mem[p + 2] := TypeEmpty, Lo(size), Hi(size);
      r := p;
    }

    /** init_partition (orb.h:211-214): one free area over the whole
        partition, and no elements. */
    method InitPartition()
      requires mem.Length == pSize && 3 <= pSize < 65536
      modifies this, mem
      ensures Valid() && elems == [] && pEnd == 0
    {
      pEnd := InitEmptyArea(0, pSize);
      elems := [];
      U16LoHi(pSize);
    }

    /** add_element (orb.h:217-226): the element of type `typ` and body
        `eBuf` written at `p`; the result is the index just past it. */
    method AddElement(p: nat, typ: byte, eBuf: seq<byte>) returns (next: nat)
      requires p + 3 + |eBuf| <= mem.Length
      modifies mem
      ensures next == p + Size(Elem(typ, eBuf))
      ensures mem[..] == Splice(old(mem[..]), p, Encode(Elem(typ, eBuf)))
    {
      mem[p], mem[p + 1], mem[p + 2] := typ, Lo(|eBuf| + 3), Hi(|eBuf| + 3);
      ghost var h := Header(typ, |eBuf| + 3);
      assert mem[..] == Splice(old(mem[..]), p, h);
      MemCopy(mem, p + 3, eBuf);
      SpliceAdjacent(old(mem[..]), p, h, eBuf);
      next := p + |eBuf| + 3;
    }

    /** compact_partition (orb.h:229-252) from `p`, which ends the bytes
        `x` of the elements already passed; `rest` are the elements from
        `p` to `pEnd`. The deleted ones are dropped, the others keep their
        order, and the end moves down by the dropped bytes. */
    method CompactFrom(p: nat, ghost x: seq<byte>, ghost rest: seq<Elem>) returns (ok: bool)
      requires mem.Length == pSize && pEnd <= pSize
      requires p == |x| && mem[..pEnd] == x + Flatten(rest) && Small(rest)
      modifies this`pEnd, mem
      ensures ok && pEnd == old(pEnd) - DeletedBytes(rest) && mem[..pEnd] == x + Flatten(Live(rest))
      decreases |rest|, 1
    {
      if p == pEnd {
        return true;
      }
      assert rest != [];
      ghost var e, tail := rest[0], rest[1..];
      SmallTail(rest);
      LiveCons(rest);
      ghost var m, end := mem[..], pEnd;
      assert m[..end] == x + (Encode(e) + Flatten(tail));
      ElemAt(m[..end], p, x, e, Flatten(tail));
      var typ := mem[p];
      var size := ElementSize(p);
      if typ == TypeDeleted {
        MoveThree(m, end, x, Encode(e), Flatten(tail));
        ok := DropHead(p, size, x, tail);
      } else {
        ConcatAssoc(x, Encode(e), Flatten(tail));
        ok := SkipHead(p, size, x, e, tail);
      }
    }

    /** Compaction steps over the kept element `e` at `p`, of `size`
        bytes, and goes on after it over `tail`. */
    method SkipHead(p: nat, size: nat, ghost x: seq<byte>, ghost e: Elem, ghost tail: seq<Elem>) returns (ok: bool)
      requires mem.Length == pSize && pEnd <= pSize && p == |x| && Small(tail) && size == Size(e)
      requires mem[..pEnd] == x + Encode(e) + Flatten(tail)
      modifies this`pEnd, mem
      ensures ok && pEnd == old(pEnd) - DeletedBytes(tail) && mem[..pEnd] == x + (Encode(e) + Flatten(Live(tail)))
      decreases |tail|, 2
    {
      ok := CompactFrom(p + size, x + Encode(e), tail);
      ConcatAssoc(x, Encode(e), Flatten(Live(tail)));
    }

    /** The deleted element at `p`, of `size` bytes, is overwritten by the
        bytes after it up to `pEnd` (a memmove), the end moves down, and
        compaction goes on from `p` over `tail`, the elements that
        followed it. */
    method DropHead(p: nat, size: nat, ghost x: seq<byte>, ghost tail: seq<Elem>) returns (ok: bool)
      requires mem.Length == pSize && pEnd <= pSize && p == |x| && Small(tail)
      requires p + size <= pEnd
      requires MoveDown(mem[..], p, p + size, pEnd - p - size)[..pEnd - size] == x + Flatten(tail)
      modifies this`pEnd, mem
      ensures ok && pEnd == old(pEnd) - size - DeletedBytes(tail) && mem[..pEnd] == x + Flatten(Live(tail))
      decreases |tail|, 2
    {
      MemMove(mem, p, p + size, pEnd - p - size);
      pEnd := pEnd - size;
      assert mem[..pEnd] == x + Flatten(tail);
      ok := CompactFrom(p, x, tail);
    }

    /** compact_partition from the start, followed by the free area's
        header at the new end: every deleted element is gone, the others
        keep their order, and the end moves down by the deleted bytes. */
    method CompactPartition() returns (ok: bool)
      requires Valid()
      modifies this, mem
      ensures Valid() && ok
      ensures elems == Live(old(elems)) && pEnd == old(pEnd) - DeletedBytes(old(elems))
    {
      assert mem[..pEnd] == [] + Flatten(elems);
      ok := CompactFrom(0, [], elems);
      assert mem[..pEnd] == Flatten(Live(elems));
      LiveKeeps(elems);
      elems := Live(elems);
      ghost var m1 := mem[..];
      pEnd := InitEmptyArea(pEnd, pSize - pEnd);
      SpliceAt(m1, pEnd, Header(TypeEmpty, pSize - pEnd));
      U16LoHi(pSize - pEnd);
    }

    /** The type and size of element `k`, which starts at `p`. */
    method ReadElement(p: nat, ghost k: nat) returns (typ: byte, size: nat)
      requires mem.Length == pSize && pEnd <= pSize && mem[..pEnd] == Flatten(elems) && Small(elems)
      requires k < |elems| && p == |Flatten(elems[..k])|
      ensures 3 <= size && p + size <= pEnd && p + size == |Flatten(elems[..k + 1])|
      ensures typ == elems[k].typ && size == Size(elems[k]) && mem[p + 3 .. p + size] == elems[k].body
    {
      FlattenSplit(elems, k);
      assert elems[k] in elems;
      typ, size := ReadAt(p, Flatten(elems[..k]), elems[k], Flatten(elems[k + 1..]));
      FlattenSnoc(elems, k);
    }

    /** The type and size of the element `e` at `p`, between the bytes `a`
        and `c`. */
    method ReadAt(p: nat, ghost a: seq<byte>, ghost e: Elem, ghost c: seq<byte>) returns (typ: byte, size: nat)
      requires mem.Length == pSize && pEnd <= pSize && mem[..pEnd] == a + (Encode(e) + c) && p == |a| && Size(e) < 65536
      ensures typ == e.typ && size == Size(e) && p + size <= pEnd && mem[p + 3 .. p + size] == e.body
    {
      ElemAt(mem[..pEnd], p, a, e, c);
      typ := mem[p];
      size := ElementSize(p);
    }

    /** delete_var's scan (orb.h:312-329): the offset `p` of the first
        variable element whose name, read as a C string, is `name`, or
        `pEnd` when there is none; `k` is its index among the elements.
        `name` is a C string without its terminator, so it holds no zero. */
    method FindVar(name: seq<byte>) returns (p: nat, ghost k: nat)
      requires NoZero(name)
      requires mem.Length == pSize && pEnd <= pSize
      requires mem[..pEnd] == Flatten(elems) && Small(elems) && NamesReadable(elems)
      ensures k <= |elems| && p == |Flatten(elems[..k])| && (p < pEnd <==> k < |elems|)
      ensures FindNamed(elems, name) == if k < |elems| then Some(k) else None
    {
      p, k := 0, 0;
      assert elems[..|elems|] == elems;
      while p < pEnd
        invariant k <= |elems| && p == |Flatten(elems[..k])|
        invariant forall j :: 0 <= j < k ==> !Named(elems[j], name)
        decreases pEnd - p
      {
        var typ, size := ReadElement(p, k);
        if typ == TypeVariable {
          assert elems[k] in elems;
          var v := mem[p + 3 .. p + size];
          if CStr(VarName(v)) == name {
            FindNamedAt(elems, k, name);
            return;
          }
        }
        assert !Named(elems[k], name);
        p, k := p + size, k + 1;
      }
      if k < |elems| {
        FlattenSplit(elems, k);
      }
      FindNamedAt(elems, k, name);
    }

    /** delete_var (orb.h:310-333): the first variable element whose name,
        read as a C string, is `name` becomes a deleted element of the same
        size. */
    method DeleteVar(name: seq<byte>) returns (found: bool)
      requires NoZero(name) && Valid()
      modifies this, mem
      ensures Valid() && pEnd == old(pEnd)
      ensures found == FindNamed(old(elems), name).Some?
      ensures elems == DeleteVarSpec(old(elems), name)
    {
      var p;
      ghost var k;
      p, k := FindVar(name);
      if p < pEnd {
        MarkDeleted(p, k);
        return true;
      }
      return false;
    }

    /** delete_var's write (orb.h:320-321): element `k`, at `p`, becomes a
        deleted element; its size and bytes after the type stay. */
    method MarkDeleted(p: nat, ghost k: nat)
      requires Valid() && k < |elems| && p == |Flatten(elems[..k])|
      modifies this, mem
      ensures Valid() && pEnd == old(pEnd)
      ensures elems == old(elems)[k := Elem(TypeDeleted, old(elems)[k].body)]
    {
      ghost var f := mem[..pEnd];
      FlattenRetype(elems, k, TypeDeleted, f, p);
      mem[p] := TypeDeleted;
      assert mem[..pEnd] == f[p := TypeDeleted];
      assert elems[k] in elems;
      UpdateKeeps(elems, k, Elem(TypeDeleted, elems[k].body));
      elems := elems[k := Elem(TypeDeleted, elems[k].body)];
    }

    /** add_var's scan (orb.h:272-291): the offset `p` of the first
        deleted element of exactly `eSize` bytes, or `pEnd` when there is
        none; `k` is its index among the elements. */
    method FindSlotFor(eSize: nat) returns (p: nat, ghost k: nat)
      requires mem.Length == pSize && pEnd <= pSize && mem[..pEnd] == Flatten(elems) && Small(elems)
      ensures k <= |elems| && p == |Flatten(elems[..k])| && (p < pEnd <==> k < |elems|)
      ensures FindSlot(elems, eSize) == if k < |elems| then Some(k) else None
    {
      p, k := 0, 0;
      assert elems[..|elems|] == elems;
      while p < pEnd
        invariant k <= |elems| && p == |Flatten(elems[..k])|
        invariant forall j :: 0 <= j < k ==> !SlotFits(elems[j], eSize)
        decreases pEnd - p
      {
        var typ, size := ReadElement(p, k);
        if typ == TypeDeleted && size == eSize {
          FindSlotAt(elems, k, eSize);
          return;
        }
        p, k := p + size, k + 1;
      }
      if k < |elems| {
        FlattenSplit(elems, k);
      }
      FindSlotAt(elems, k, eSize);
    }

    /** add_var's append (orb.h:263-270): the variable element of body
        `body` at the end, and a free area's header after it. */
    method AppendVar(body: seq<byte>)
      requires Valid() && Storable(Elem(TypeVariable, body)) && |body| + 6 <= ElementSize(pEnd)
      modifies this, mem
      ensures Valid() && elems == old(elems) + [Elem(TypeVariable, body)]
    {
      ghost var e := Elem(TypeVariable, body);
      ghost var m, end := mem[..], pEnd;
      var pPos := AddElement(pEnd, TypeVariable, body);
      pEnd := InitEmptyArea(pPos, pSize - pPos);
      AppendAt(m, end, Flatten(elems), Encode(e), Header(TypeEmpty, pSize - pPos));
      FlattenAppend(elems, [e]);
      assert Flatten([e]) == Encode(e) + Flatten([]);
      AppendKeeps(elems, e);
      elems := elems + [e];
      U16LoHi(pSize - pPos);
    }

    /** add_var's reuse (orb.h:282-287): the variable element of body
        `body` written over element `k`, a deleted element of its size at
        `p`. */
    method ReuseSlot(p: nat, ghost k: nat, body: seq<byte>)
      requires Valid() && Storable(Elem(TypeVariable, body))
      requires k < |elems| && p == |Flatten(elems[..k])| && Size(elems[k]) == |body| + 3
      modifies this, mem
      ensures Valid() && pEnd == old(pEnd) && elems == old(elems)[k := Elem(TypeVariable, body)]
    {
      ghost var e := Elem(TypeVariable, body);
      ghost var es := elems[k := e];
      FlattenSplit(elems, k);
      FlattenSplit(es, k);
      assert es[..k] == elems[..k] && es[k + 1..] == elems[k + 1..];
      WriteAt(p, Flatten(elems[..k]), elems[k], Flatten(elems[k + 1..]), TypeVariable, body);
      UpdateKeeps(elems, k, e);
      elems := es;
    }

    /** The element of type `typ` and body `body` written at `p` over the
        element `d` of the same size, between the bytes `a` and `c`. */
    method WriteAt(p: nat, ghost a: seq<byte>, ghost d: Elem, ghost c: seq<byte>, typ: byte, body: seq<byte>)
      requires mem.Length == pSize && pEnd <= pSize && mem[..pEnd] == a + (Encode(d) + c)
      requires p == |a| && Size(d) == |body| + 3
      modifies mem
      ensures mem[..pEnd] == a + (Encode(Elem(typ, body)) + c) && mem[pEnd..] == old(mem[pEnd..])
    {
      ghost var m := mem[..];
      ReplaceMiddle(a, Encode(d), c, Encode(Elem(typ, body)));
      var next := AddElement(p, typ, body);
      SpliceWithin(m, pEnd, p, Encode(Elem(typ, body)));
    }

    /** add_var (orb.h:255-307) for the record in `v`: append at the end if
        the free area holds the element and a free area's header after it;
        otherwise reuse the first deleted element of exactly its size;
        otherwise compact, fail with 5 if it still does not fit, and try
        again. compact_partition never fails, so the source's error 4 is
        not modelled. */
    method AddVar(v: seq<byte>) returns (err: byte)
      requires Valid() && Loaded(v)
      modifies this, mem
      ensures Valid()
      ensures (elems, err) == AddVarSpec(old(elems), Elem(TypeVariable, v[..VarSize(v)]), pSize)
      decreases if VarSize(v) + 6 <= pSize - pEnd then 0 else 2
    {
      var vSize := VarSize(v);
      var eSize := vSize + 3;
      ghost var e := Elem(TypeVariable, v[..vSize]);
      assert Storable(e);
      if eSize + 3 <= ElementSize(pEnd) {
        AppendVar(v[..vSize]);
        return 0;
      }
      var p;
      ghost var k;
      p, k := FindSlotFor(eSize);
      if p < pEnd {
        ReuseSlot(p, k, v[..vSize]);
        return 0;
      }
      err := CompactAndRetry(v);
    }

    /** The end of add_var (orb.h:293-306), when neither the free area nor
        a deleted element takes the record: compact, fail with 5 if the
        free area is still too small, otherwise add the record again. */
    method CompactAndRetry(v: seq<byte>) returns (err: byte)
      requires Valid() && Loaded(v)
      requires var e := Elem(TypeVariable, v[..VarSize(v)]);
        Room(elems, pSize) < Size(e) && FindSlot(elems, Size(e)) == None
      modifies this, mem
      ensures Valid()
      ensures (elems, err) == AddVarSpec(old(elems), Elem(TypeVariable, v[..VarSize(v)]), pSize)
      decreases 1
    {
      ghost var es, e := elems, Elem(TypeVariable, v[..VarSize(v)]);
      var ok := CompactPartition();
      if VarSize(v) + 6 > ElementSize(pEnd) {
        return 5;
      }
      err := AddVar(v);
      AddVarRetry(es, e, pSize);
    }
  }
}
