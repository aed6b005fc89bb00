/** What the byte layouts and the element-level partition operations of
    src/orb.h promise: records read back as they were written, add_var and
    delete_var keep the partition's bytes inside it and add or remove
    exactly one live element, and two ways the code as written departs
    from that. */
module OrbFacts {
  import opened OrbLayout

  // ---------- z-strings and variable records ----------

  /** A z-string reads back, wherever it lies, as the bytes it was made
      of (set_zstring, then get_zstring). */
  lemma ZStringRoundTrip(pre: seq<byte>, s: seq<byte>, post: seq<byte>)
    requires |s| < 256
    ensures var z := pre + ZString(s) + post;
      |pre| < |z| && |pre| + 1 + z[|pre|] <= |z| && GetZString(z, |pre|) == s
  {
    var z := pre + ZString(s) + post;
    assert z[|pre|] == ZString(s)[0] == |s|;
    assert z[|pre| + 1 .. |pre| + 1 + |s|] == ZString(s)[1..];
  }

  /** The buffer load_var leaves (the record written over the start of
      `buf`) reads back through get_var_type, get_var_name, get_var_zstr
      and get_var_size, and the record add_var copies is exactly the one
      written. */
  lemma VarRecordReadBack(buf: seq<byte>, typ: byte, name: seq<byte>, value: seq<byte>)
    requires |name| < 256 && |value| < 256 && 3 + |name| + |value| <= |buf|
    ensures var r := VarRecord(typ, name, value);
      var v := Splice(buf, 0, r);
      Loaded(v) && VarTypeOf(v) == typ && VarName(v) == name &&
      VarZStr(v) == 2 + |name| && GetZString(v, VarZStr(v)) == value &&
      VarSize(v) == |r| == |name| + |value| + 3 && v[..VarSize(v)] == r
  {
    var r := VarRecord(typ, name, value);
    var v := Splice(buf, 0, r);
    assert v[..|r|] == r;
    assert r == ([typ] + ZString(name)) + ZString(value);
    ZStringRoundTrip([typ], name, ZString(value) + buf[|r|..]);
    ZStringRoundTrip([typ] + ZString(name), value, buf[|r|..]);
    assert v == [typ] + ZString(name) + (ZString(value) + buf[|r|..]);
    assert v == [typ] + ZString(name) + ZString(value) + buf[|r|..];
  }

  // ---------- variable names ----------

  /** A name is_valid_var_name accepts holds no zero byte, does not start
      with a digit and holds no underscore, although orb.c:34 allows
      one. */
  lemma ValidNameChars(name: seq<byte>)
    requires ValidVarName(name)
    ensures NoZero(name) && !(48 <= name[0] <= 57)
    ensures forall k :: 0 <= k < |name| ==> name[k] != 0x5F
  {
    forall k | 0 <= k < |name| ensures name[k] != 0 && name[k] != 0x5F {
      if k > 0 {
        assert IsAlnum(name[k]);
      }
    }
  }

  /** is_valid_var_name refuses the empty name, "1a" and "a_b", and
      accepts the nine-letter "abcdefghi": the eight-character limit of
      orb.c:36 is not enforced. */
  lemma NameExamples()
    ensures !ValidVarName([]) && !ValidVarName([0x31, 0x61]) && !ValidVarName([0x61, 0x5F, 0x62])
    ensures ValidVarName([0x61, 0x62, 0x63, 0x64, 0x65, 0x66, 0x67, 0x68, 0x69])
  {
    var n := [0x61, 0x5F, 0x62];
    assert !IsAlnum(n[1]);
  }

  // ---------- live elements ----------

  /** The element as a live element: none when it is deleted. */
  function Kept(e: Elem): multiset<Elem> {
    if e.typ == TypeDeleted then multiset{} else multiset{e}
  }

  /** The live elements of `es`, by its first element. */
  lemma LiveFirst(es: seq<Elem>)
    requires es != []
    ensures multiset(Live(es)) == Kept(es[0]) + multiset(Live(es[1..]))
  {
    if es[0].typ != TypeDeleted {
      assert Live(es) == [es[0]] + Live(es[1..]);
    }
  }

  /** Compacting twice removes nothing more. */
  lemma {:induction false} LiveIdempotent(es: seq<Elem>)
    ensures Live(Live(es)) == Live(es)
    decreases |es|
  {
    if es != [] {
      LiveIdempotent(es[1..]);
      if es[0].typ != TypeDeleted {
        var l := [es[0]] + Live(es[1..]);
        assert l[0] == es[0] && l[1..] == Live(es[1..]);
      }
    }
  }

  /** The live elements and the deleted bytes together make up all the
      elements' bytes: compaction frees exactly the deleted bytes. */
  lemma {:induction false} LiveSize(es: seq<Elem>)
    ensures |Flatten(Live(es))| + DeletedBytes(es) == |Flatten(es)|
    decreases |es|
  {
    if es != [] {
      LiveSize(es[1..]);
      if es[0].typ != TypeDeleted {
        var l := [es[0]] + Live(es[1..]);
        assert l[0] == es[0] && l[1..] == Live(es[1..]);
      }
    }
  }

  /** A live element appended stays last among the live ones. */
  lemma {:induction false} LiveAppend(es: seq<Elem>, e: Elem)
    requires e.typ != TypeDeleted
    ensures Live(es + [e]) == Live(es) + [e]
    decreases |es|
  {
    if es == [] {
      assert Live([e]) == [e] + Live([]);
    } else {
      assert (es + [e])[0] == es[0] && (es + [e])[1..] == es[1..] + [e];
      LiveAppend(es[1..], e);
    }
  }

  /** The live elements of two runs of elements in a row. */
  lemma {:induction false} LiveConcat(a: seq<Elem>, b: seq<Elem>)
    ensures Live(a + b) == Live(a) + Live(b)
    decreases |a|
  {
    if a == [] {
      assert a + b == b;
    } else {
      var ab := a + b;
      assert ab[0] == a[0] && ab[1..] == a[1..] + b;
      LiveConcat(a[1..], b);
      if a[0].typ != TypeDeleted {
        assert Live(ab) == [a[0]] + Live(a[1..] + b);
        assert Live(a) == [a[0]] + Live(a[1..]);
      }
    }
  }

  /** The live elements around element `k`. */
  lemma LiveAround(es: seq<Elem>, k: nat)
    requires k < |es|
    ensures multiset(Live(es)) == multiset(Live(es[..k])) + Kept(es[k]) + multiset(Live(es[k + 1..]))
  {
    SplitAt(es, k);
    LiveConcat(es[..k], [es[k]] + es[k + 1..]);
    LiveConcat([es[k]], es[k + 1..]);
    assert Live([es[k]]) == if es[k].typ == TypeDeleted then [] else [es[k]];
  }

  /** Replacing element `k` by `e` replaces its live part by `e`'s. */
  lemma LiveReplace(es: seq<Elem>, k: nat, e: Elem)
    requires k < |es|
    ensures multiset(Live(es[k := e])) + Kept(es[k]) == multiset(Live(es)) + Kept(e)
  {
    var es' := es[k := e];
    LiveAround(es, k);
    LiveAround(es', k);
    assert es'[..k] == es[..k] && es'[k + 1..] == es[k + 1..] && es'[k] == e;
    var a, c := multiset(Live(es[..k])), multiset(Live(es[k + 1..]));
    Swap(a, Kept(e), c, Kept(es[k]));
  }

  /** The last two of four multisets added up change places. */
  lemma Swap(a: multiset<Elem>, b: multiset<Elem>, c: multiset<Elem>, d: multiset<Elem>)
    ensures a + b + c + d == a + d + c + b
  {
    assert forall y :: (a + b + c + d)[y] == a[y] + b[y] + c[y] + d[y];
  }

  /** Replacing element `k` by one of the same size leaves the length of
      the elements' bytes alone. */
  lemma ReplaceSameSize(es: seq<Elem>, k: nat, e: Elem)
    requires k < |es| && Size(e) == Size(es[k])
    ensures |Flatten(es[k := e])| == |Flatten(es)|
  {
    FlattenUpdate(es, k, e, Flatten(es), |Flatten(es[..k])|);
  }

  // ---------- add_var and delete_var on elements ----------

  /** add_var keeps the partition's bytes inside it: if the elements left
      room for the free area's header, they still do. */
  lemma AddVarFits(es: seq<Elem>, e: Elem, pSize: nat)
    requires Room(es, pSize) >= 0
    ensures Room(AddVarSpec(es, e, pSize).0, pSize) >= 0
  {
    if Size(e) <= Room(es, pSize) {
      FlattenAppend(es, [e]);
      assert Flatten([e]) == Encode(e) + Flatten([]);
    } else if FindSlot(es, Size(e)).Some? {
      ReplaceSameSize(es, FindSlot(es, Size(e)).value, e);
    } else if Size(e) <= Room(Live(es), pSize) {
      FlattenAppend(Live(es), [e]);
      assert Flatten([e]) == Encode(e) + Flatten([]);
    } else {
      LiveSize(es);
    }
  }

  /** add_var fails, with 5 and nothing else, exactly when no deleted
      element has the record's size and even the compacted partition has
      no room for it; on success the record is one more live element and
      every live element stays; on failure the partition is left
      compacted. */
  lemma AddVarOutcome(es: seq<Elem>, e: Elem, pSize: nat)
    requires e.typ != TypeDeleted
    ensures var (r, err) := AddVarSpec(es, e, pSize);
      (err == 0 || err == 5) &&
      (err == 5 <==> FindSlot(es, Size(e)) == None && Room(Live(es), pSize) < Size(e)) &&
      (err == 0 ==> multiset(Live(r)) == multiset(Live(es)) + multiset{e}) &&
      (err == 5 ==> r == Live(es))
  {
    LiveSize(es);
    if Size(e) <= Room(es, pSize) {
      LiveAppend(es, e);
    } else if FindSlot(es, Size(e)).Some? {
      var k := FindSlot(es, Size(e)).value;
      LiveReplace(es, k, e);
    } else if Size(e) <= Room(Live(es), pSize) {
      LiveAppend(Live(es), e);
      LiveIdempotent(es);
    }
  }

  /** delete_var leaves the elements' bytes as long as they were, so the
      end does not move; when a variable called `name` exists, the first
      one stops being live and no other live element changes. */
  lemma DeleteVarOutcome(es: seq<Elem>, name: seq<byte>)
    ensures |Flatten(DeleteVarSpec(es, name))| == |Flatten(es)|
    ensures FindNamed(es, name) == None ==> DeleteVarSpec(es, name) == es
    ensures FindNamed(es, name).Some? ==>
      multiset(Live(DeleteVarSpec(es, name))) + multiset{es[FindNamed(es, name).value]} == multiset(Live(es))
  {
    if FindNamed(es, name).Some? {
      var k := FindNamed(es, name).value;
      var d := Elem(TypeDeleted, es[k].body);
      ReplaceSameSize(es, k, d);
      LiveReplace(es, k, d);
    }
  }

  /** No element of `es` is a variable called `name`. */
  predicate Unnamed(es: seq<Elem>, name: seq<byte>) {
    forall j :: 0 <= j < |es| ==> !Named(es[j], name)
  }

  /** Compaction keeps the absence of a name. */
  lemma UnnamedLive(es: seq<Elem>, name: seq<byte>)
    requires Unnamed(es, name)
    ensures Unnamed(Live(es), name)
  {
    forall j | 0 <= j < |Live(es)| ensures !Named(Live(es)[j], name) {
      var y := Live(es)[j];
      LiveIn(es);
      assert y in Live(es);
      var i :| 0 <= i < |es| && es[i] == y;
    }
  }

  /** A variable added under a name no variable had is what delete_var's
      scan then finds under that name. */
  lemma AddThenFind(es: seq<Elem>, e: Elem, pSize: nat, name: seq<byte>)
    requires Named(e, name) && FindNamed(es, name) == None
    ensures var (r, err) := AddVarSpec(es, e, pSize);
      err == 0 ==> FindNamed(r, name).Some? && r[FindNamed(r, name).value] == e
  {
    if Size(e) <= Room(es, pSize) {
      FindNamedAt(es + [e], |es|, name);
    } else if FindSlot(es, Size(e)).Some? {
      var k := FindSlot(es, Size(e)).value;
      FindNamedAt(es[k := e], k, name);
    } else if Size(e) <= Room(Live(es), pSize) {
      UnnamedLive(es, name);
      FindNamedAt(Live(es) + [e], |Live(es)|, name);
    }
  }

  /** Adding a variable under a new name and deleting it by that name
      gives back the live elements there were. */
  lemma AddThenDelete(es: seq<Elem>, e: Elem, pSize: nat, name: seq<byte>, r: seq<Elem>)
    requires Named(e, name) && FindNamed(es, name) == None && AddVarSpec(es, e, pSize) == (r, 0)
    ensures multiset(Live(DeleteVarSpec(r, name))) == multiset(Live(es))
  {
    AddVarOutcome(es, e, pSize);
    AddThenFind(es, e, pSize, name);
    var k := FindNamed(r, name).value;
    DeleteVarOutcome(r, name);
    Cancel(multiset(Live(DeleteVarSpec(r, name))), multiset(Live(es)), e);
  }

  /** The same element taken from two equal sums leaves equal parts. */
  lemma Cancel(a: multiset<Elem>, b: multiset<Elem>, e: Elem)
    requires a + multiset{e} == b + multiset{e}
    ensures a == b
  {
    assert forall y :: a[y] == (a + multiset{e})[y] - multiset{e}[y];
  }

  // ---------- the code as written ----------

  /** compact_partition as written does not rewrite the free area's
      header at the new end. With a deleted element of 6 bytes first in a
      12-byte partition, the end moves to 0, but the header read there
      still says type 0xFF and 6 bytes although 12 are free, so add_var's
      retry refuses a 9-byte element (a 6-byte record) with 5. */
  lemma StaleHeader(m: seq<byte>)
    requires m == [0xFF, 6, 0, 0, 0, 0, 0, 6, 0, 0, 0, 0]
    ensures var r := Compact(m, 0, 6);
      r.end == 0 && r.mem[0] == TypeDeleted && U16(r.mem[1], r.mem[2]) == 6 &&
      U16(r.mem[1], r.mem[2]) < 9 <= 12 - r.end - 3
  {
    CompactDropUnfold(m, 0, 6, 6);
    assert MoveDown(m, 0, 6, 0) == m;
  }

  /** The same partition with the header rewritten: add_var on its
      elements appends the 9-byte element after compaction. Its body is the
      6-byte record of a variable named "a" with a 2-byte value. */
  lemma StaleHeaderCorrected()
    ensures var es := [Elem(TypeDeleted, [0, 0, 0])];
      var e := Elem(TypeVariable, [1, 1, 0x61, 2, 0, 0]);
      Flatten(es) == [0xFF, 6, 0, 0, 0, 0] && Storable(e) && Loaded(e.body) && VarSize(e.body) == 6 &&
      AddVarSpec(es, e, 12) == ([e], 0)
  {
    var es := [Elem(TypeDeleted, [0, 0, 0])];
    var e := Elem(TypeVariable, [1, 1, 0x61, 2, 0, 0]);
    assert Flatten(es) == Encode(es[0]) + Flatten([]);
    assert Live(es) == [] && Live(es) + [e] == [e];
    assert FindSlot(es, Size(e)) == None;
    assert Room(es, 12) == 3 && Room(Live(es), 12) == 9;
  }

  /** add_var's append test as written: the record's element against the
      whole free area, the free area's own header included. */
  predicate AppendTestAsWritten(pSize: nat, pEnd: nat, eSize: nat) {
    eSize <= pSize - pEnd
  }

  /** The test lets through exactly the elements that leave no room for
      the next free area's header, which init_empty_area then writes past
      the end of the partition: for instance a 9-byte element with 119 of
      128 bytes used. */
  lemma AppendOverflow(pSize: nat, pEnd: nat, eSize: nat)
    requires pEnd + 3 <= pSize
    ensures AppendTestAsWritten(pSize, pEnd, eSize) && pEnd + eSize + 3 > pSize <==>
      pSize - pEnd - 3 < eSize <= pSize - pEnd
    ensures AppendTestAsWritten(128, 119, 9) && 119 + 9 + 3 > 128
  {
  }
}
