/** The byte layouts of src/orb.h, documented at src/orb.c:11-70: z-strings,
    variable records and the partition's elements, with the compaction of
    the partition stated on bytes.

    Sizes are stored as two bytes, low byte first. */
module OrbLayout {
  type byte = b: int | 0 <= b < 256

  datatype Option<T> = None | Some(value: T)

  /** The element types (orb.c:43-47). */
  const TypeEmpty: byte := 0x00
  const TypeVariable: byte := 0x01
  const TypeCode: byte := 0x02
  const TypeDeleted: byte := 0xFF

  /** DEF_PARTITION_SIZE and DEF_VAR_BUF_SIZE (orb.h:11, 14). */
  const DefPartitionSize: nat := 128
  const DefVarBufSize: nat := 266

  /** The two bytes of a 16-bit store: anything wider is truncated. */
  function Lo(n: nat): byte { n % 256 }
  function Hi(n: nat): byte { (n / 256) % 256 }

  /** A 16-bit load. */
  function U16(lo: byte, hi: byte): nat { lo + 256 * hi }

  lemma U16LoHi(n: nat)
    requires n < 65536
    ensures U16(Lo(n), Hi(n)) == n
  {
  }

  // ---------- z-strings ----------

  /** A z-string: a length byte, then that many bytes (orb.c:11-16). */
  function ZString(s: seq<byte>): (z: seq<byte>)
    requires |s| < 256
    ensures |z| == |s| + 1 && z[0] == |s|
  {
    [|s|] + s
  }

  /** get_zstring (orb.h:44-53): the bytes of the z-string at `at`. */
  function GetZString(z: seq<byte>, at: nat): (s: seq<byte>)
    requires at < |z| && at + 1 + z[at] <= |z|
    ensures |s| == z[at]
  {
    z[at + 1 .. at + 1 + z[at]]
  }

  /** A C string's view of bytes: everything before the first zero byte. */
  function CStr(s: seq<byte>): (r: seq<byte>)
    ensures |r| <= |s| && r == s[..|r|]
    ensures forall k :: 0 <= k < |r| ==> r[k] != 0
    ensures |r| < |s| ==> s[|r|] == 0
  {
    if s == [] || s[0] == 0 then [] else [s[0]] + CStr(s[1..])
  }

  /** Bytes with no zero among them: a C string without its terminator. */
  predicate NoZero(s: seq<byte>) {
    forall k :: 0 <= k < |s| ==> s[k] != 0
  }

  // ---------- variable names ----------

  /** isalpha and isalnum in the C locale. */
  predicate IsAlpha(c: byte) { 65 <= c <= 90 || 97 <= c <= 122 }
  predicate IsAlnum(c: byte) { IsAlpha(c) || 48 <= c <= 57 }

  /** What is_valid_var_name (orb.h:79-92) accepts: a letter, then letters
      and digits only. */
  predicate ValidVarName(name: seq<byte>) {
    |name| > 0 && IsAlpha(name[0]) && forall k :: 1 <= k < |name| ==> IsAlnum(name[k])
  }

  // ---------- variable records ----------

  /** The record load_var writes (orb.c:19-31, orb.h:137-157): type, name
      z-string, value z-string. */
  function VarRecord(typ: byte, name: seq<byte>, value: seq<byte>): seq<byte>
    requires |name| < 256 && |value| < 256
  {
    [typ] + ZString(name) + ZString(value)
  }

  /** A buffer that holds a record: both length bytes and the value lie
      inside it. */
  predicate Loaded(v: seq<byte>) {
    |v| >= 2 && 2 + v[1] < |v| && 3 + v[1] + v[2 + v[1]] <= |v|
  }

  /** get_var_size (orb.h:95-99). */
  function VarSize(v: seq<byte>): nat
    requires |v| >= 2 && 2 + v[1] < |v|
  {
    v[1] as int + v[2 + v[1]] as int + 3
  }

  /** get_var_type (orb.h:102-104). */
  function VarTypeOf(v: seq<byte>): byte
    requires |v| >= 1
  {
    v[0]
  }

  /** get_var_name (orb.h:107-109). */
  function VarName(v: seq<byte>): seq<byte>
    requires |v| >= 2 && 2 + v[1] <= |v|
  {
    GetZString(v, 1)
  }

  /** get_var_zstr (orb.h:132-134): where the value z-string starts. */
  function VarZStr(v: seq<byte>): nat
    requires |v| >= 2
  {
    2 + v[1] as int
  }

  // ---------- partition elements ----------

  /** An element of the partition: its type and the bytes after its
      three-byte header. */
  datatype Elem = Elem(typ: byte, body: seq<byte>)

  /** The element size field counts the header (orb.c:48-50). */
  function Size(e: Elem): nat { |e.body| + 3 }

  function Header(typ: byte, size: nat): seq<byte> {
    [typ, Lo(size), Hi(size)]
  }

  /** The bytes of one element (add_element, orb.h:217-226). */
  function Encode(e: Elem): (b: seq<byte>)
    ensures |b| == Size(e)
  {
    Header(e.typ, Size(e)) + e.body
  }

  /** Elements laid out one after the other. */
  function Flatten(es: seq<Elem>): (b: seq<byte>)
    decreases |es|
  {
    if es == [] then [] else Encode(es[0]) + Flatten(es[1..])
  }

  /** Every size fits its 16-bit field. */
  predicate Small(es: seq<Elem>) {
    forall e | e in es :: Size(e) < 65536
  }

  /** Every variable element holds a readable name z-string. */
  predicate NamesReadable(es: seq<Elem>) {
    forall e | e in es :: e.typ == TypeVariable ==> |e.body| >= 2 && 2 + e.body[1] <= |e.body|
  }

  /** The elements that are not deleted, in order. */
  function Live(es: seq<Elem>): seq<Elem>
    decreases |es|
  {
    if es == [] then []
    else if es[0].typ == TypeDeleted then Live(es[1..])
    else [es[0]] + Live(es[1..])
  }

  /** The live elements are elements of `es`, none of them deleted. */
  lemma {:induction false} LiveIn(es: seq<Elem>)
    ensures forall e | e in Live(es) :: e in es && e.typ != TypeDeleted
    decreases |es|
  {
    if es != [] {
      LiveIn(es[1..]);
      forall e | e in Live(es) ensures e in es && e.typ != TypeDeleted {
        if e in Live(es[1..]) {
          assert e in es[1..];
        } else {
          assert Live(es) == [es[0]] + Live(es[1..]);
        }
      }
    }
  }

  /** Compaction keeps every size in its field and every name readable. */
  lemma LiveKeeps(es: seq<Elem>)
    requires Small(es) && NamesReadable(es)
    ensures Small(Live(es)) && NamesReadable(Live(es))
  {
    LiveIn(es);
  }

  /** The total size of the deleted elements. */
  function DeletedBytes(es: seq<Elem>): nat
    decreases |es|
  {
    if es == [] then 0
    else (if es[0].typ == TypeDeleted then Size(es[0]) else 0) + DeletedBytes(es[1..])
  }

  lemma {:induction false} FlattenAppend(a: seq<Elem>, b: seq<Elem>)
    ensures Flatten(a + b) == Flatten(a) + Flatten(b)
    decreases |a|
  {
    if a == [] {
      assert a + b == b;
    } else {
      assert (a + b)[0] == a[0] && (a + b)[1..] == a[1..] + b;
      FlattenAppend(a[1..], b);
    }
  }

  /** The element `e` in bytes `f` after `a`, which ends at `p`: its
      header and body. */
  lemma ElemAt(f: seq<byte>, p: nat, a: seq<byte>, e: Elem, c: seq<byte>)
    requires f == a + (Encode(e) + c) && p == |a| && Size(e) < 65536
    ensures p + Size(e) <= |f| && f[p] == e.typ && U16(f[p + 1], f[p + 2]) == Size(e)
    ensures f[p + 3 .. p + Size(e)] == e.body && f[p .. p + Size(e)] == Encode(e)
  {
    var b := Encode(e);
    assert f[p .. p + |b|] == b;
    assert f[p + 3 .. p + |b|] == b[3..];
    assert f[p] == b[0] && f[p + 1] == b[1] && f[p + 2] == b[2];
    U16LoHi(Size(e));
  }

  /** The bytes of the partition around element `k`. */
  lemma FlattenSplit(es: seq<Elem>, k: nat)
    requires k < |es|
    ensures Flatten(es) == Flatten(es[..k]) + (Encode(es[k]) + Flatten(es[k + 1..]))
  {
    SplitAt(es, k);
    FlattenAround(es[..k], es[k], es[k + 1..]);
  }

  /** A sequence is the part before index `k`, the element at `k`, and the
      part after it. */
  lemma SplitAt<T>(s: seq<T>, k: nat)
    requires k < |s|
    ensures s == s[..k] + ([s[k]] + s[k + 1..])
  {
    assert s[k..] == [s[k]] + s[k + 1..];
  }

  /** The bytes of `a`, then `e`, then `c`. */
  lemma FlattenAround(a: seq<Elem>, e: Elem, c: seq<Elem>)
    ensures Flatten(a + ([e] + c)) == Flatten(a) + (Encode(e) + Flatten(c))
  {
    var t := [e] + c;
    FlattenAppend(a, t);
    assert t[0] == e && t[1..] == c;
  }

  /** The bytes of the first `k + 1` elements are those of the first `k`
      and element `k`'s. */
  lemma FlattenSnoc(es: seq<Elem>, k: nat)
    requires k < |es|
    ensures |Flatten(es[..k + 1])| == |Flatten(es[..k])| + Size(es[k])
  {
    assert es[..k + 1] == es[..k] + [es[k]];
    FlattenAppend(es[..k], [es[k]]);
    assert Flatten([es[k]]) == Encode(es[k]);
  }

  /** Replacing element `k` by one of the same size replaces its bytes and
      nothing else. */
  lemma FlattenUpdate(es: seq<Elem>, k: nat, e: Elem, f: seq<byte>, p: nat)
    requires k < |es| && Size(e) == Size(es[k]) && f == Flatten(es) && p == |Flatten(es[..k])|
    ensures p + Size(e) <= |f| && Flatten(es[k := e]) == Splice(f, p, Encode(e))
  {
    var es' := es[k := e];
    FlattenSplit(es, k);
    FlattenSplit(es', k);
    assert es'[..k] == es[..k] && es'[k + 1..] == es[k + 1..];
    ReplaceMiddle(Flatten(es[..k]), Encode(es[k]), Flatten(es[k + 1..]), Encode(e));
  }

  /** In `a + (b + c)`, a piece `b'` as long as `b` put in `b`'s place. */
  lemma ReplaceMiddle(a: seq<byte>, b: seq<byte>, c: seq<byte>, b': seq<byte>)
    requires |b'| == |b|
    ensures |a| + |b'| <= |a + (b + c)| && a + (b' + c) == Splice(a + (b + c), |a|, b')
  {
    var f := a + (b + c);
    assert f[..|a|] == a && f[|a| + |b|..] == c;
  }

  /** Changing the type of element `k` changes one byte of the partition. */
  lemma FlattenRetype(es: seq<Elem>, k: nat, t: byte, f: seq<byte>, p: nat)
    requires k < |es| && f == Flatten(es) && p == |Flatten(es[..k])|
    ensures p < |f| && Flatten(es[k := Elem(t, es[k].body)]) == f[p := t]
  {
    var e := es[k];
    var e' := Elem(t, e.body);
    FlattenUpdate(es, k, e', f, p);
    FlattenSplit(es, k);
    RetypeMiddle(Flatten(es[..k]), Encode(e), Flatten(es[k + 1..]), Encode(e'));
  }

  /** In `a + (b + c)`, a piece that differs from `b` in its first byte
      only, put in `b`'s place. */
  lemma RetypeMiddle(a: seq<byte>, b: seq<byte>, c: seq<byte>, b': seq<byte>)
    requires |b'| == |b| > 0 && b'[1..] == b[1..]
    ensures |a| < |a + (b + c)| && Splice(a + (b + c), |a|, b') == (a + (b + c))[|a| := b'[0]]
  {
    var f := a + (b + c);
    var g := Splice(f, |a|, b');
    assert forall i | 0 <= i < |f| :: g[i] == f[|a| := b'[0]][i] by {
      forall i | 0 <= i < |f| ensures g[i] == f[|a| := b'[0]][i] {
        if |a| < i < |a| + |b| {
          assert g[i] == b'[i - |a|] == b[i - |a|];
        }
      }
    }
  }

  /** Bytes `f` with the piece at `p` replaced by `b` of the same length. */
  function Splice(f: seq<byte>, p: nat, b: seq<byte>): (r: seq<byte>)
    requires p + |b| <= |f|
    ensures |r| == |f|
  {
    f[..p] + b + f[p + |b|..]
  }

  /** Writing bytes into memory that begins with `f` writes them into `f`. */
  lemma SpliceWithin(m: seq<byte>, end: nat, p: nat, b: seq<byte>)
    requires end <= |m| && p + |b| <= end
    ensures Splice(m, p, b)[..end] == Splice(m[..end], p, b)
    ensures Splice(m, p, b)[end..] == m[end..]
  {
    assert Splice(m, p, b)[..end] == m[..p] + b + m[p + |b| .. end];
  }

  /** What a write at `p` leaves before and after the piece it writes. */
  lemma SpliceAt(m: seq<byte>, p: nat, b: seq<byte>)
    requires p + |b| <= |m|
    ensures Splice(m, p, b)[..p] == m[..p] && Splice(m, p, b)[p .. p + |b|] == b
    ensures Splice(m, p, b)[p + |b|..] == m[p + |b|..]
  {
  }

  /** Two writes side by side are one write of both pieces. */
  lemma SpliceAdjacent(f: seq<byte>, p: nat, a: seq<byte>, b: seq<byte>)
    requires p + |a| + |b| <= |f|
    ensures Splice(Splice(f, p, a), p + |a|, b) == Splice(f, p, a + b)
  {
    var g := Splice(f, p, a);
    assert g[..p + |a|] == f[..p] + a;
    assert g[p + |a| + |b|..] == f[p + |a| + |b|..];
  }

  /** Bytes `b` written at the end of `f`, then `h` after them. */
  lemma AppendAt(m: seq<byte>, end: nat, f: seq<byte>, b: seq<byte>, h: seq<byte>)
    requires end + |b| + |h| <= |m| && m[..end] == f
    ensures var m' := Splice(Splice(m, end, b), end + |b|, h);
      m'[..end + |b|] == f + b && m'[end + |b| .. end + |b| + |h|] == h
  {
    SpliceAdjacent(m, end, b, h);
    var m' := Splice(m, end, b + h);
    assert m'[..end + |b|] == f + b;
    assert m'[end + |b| .. end + |b| + |h|] == (b + h)[|b|..];
  }

  /** An element whose size fits its field and, for a variable, whose
      name z-string lies inside it. */
  predicate Storable(e: Elem) {
    Size(e) < 65536 && (e.typ == TypeVariable ==> |e.body| >= 2 && 2 + e.body[1] <= |e.body|)
  }

  lemma UpdateKeeps(es: seq<Elem>, k: nat, e: Elem)
    requires k < |es| && Small(es) && NamesReadable(es) && Storable(e)
    ensures Small(es[k := e]) && NamesReadable(es[k := e])
  {
    forall y | y in es[k := e] ensures y == e || y in es {
      var i :| 0 <= i < |es| && es[k := e][i] == y;
      if i != k {
        assert y == es[i];
      }
    }
  }

  lemma AppendKeeps(es: seq<Elem>, e: Elem)
    requires Small(es) && NamesReadable(es) && Storable(e)
    ensures Small(es + [e]) && NamesReadable(es + [e])
  {
  }

  // ---------- the partition operations on elements ----------

  /** Whether `e` is a deleted element of exactly `size` bytes. */
  predicate SlotFits(e: Elem, size: nat) {
    e.typ == TypeDeleted && Size(e) == size
  }

  /** The first deleted element of exactly `size` bytes (add_var's scan,
      orb.h:272-291). */
  function FindSlot(es: seq<Elem>, size: nat): (r: Option<nat>)
    ensures r.Some? ==>
      r.value < |es| && SlotFits(es[r.value], size) && forall j :: 0 <= j < r.value ==> !SlotFits(es[j], size)
    ensures r.None? ==> forall j :: 0 <= j < |es| ==> !SlotFits(es[j], size)
    decreases |es|
  {
    if es == [] then None
    else if SlotFits(es[0], size) then Some(0)
    else match FindSlot(es[1..], size)
      case None => None
      case Some(k) => Some(k + 1)
  }

  /** The name of a variable element as strcmp sees it: the bytes of its
      name z-string up to the first zero (get_var_name, orb.h:107-109). */
  function ElemName(e: Elem): seq<byte>
    requires |e.body| >= 2 && 2 + e.body[1] <= |e.body|
  {
    CStr(GetZString(e.body, 1))
  }

  /** Whether `e` is a variable element called `name`. */
  predicate Named(e: Elem, name: seq<byte>) {
    e.typ == TypeVariable && |e.body| >= 2 && 2 + e.body[1] <= |e.body| && ElemName(e) == name
  }

  /** The first variable element called `name` (delete_var's scan,
      orb.h:310-333). */
  function FindNamed(es: seq<Elem>, name: seq<byte>): (r: Option<nat>)
    ensures r.Some? ==>
      r.value < |es| && Named(es[r.value], name) && forall j :: 0 <= j < r.value ==> !Named(es[j], name)
    ensures r.None? ==> forall j :: 0 <= j < |es| ==> !Named(es[j], name)
    decreases |es|
  {
    if es == [] then None
    else if Named(es[0], name) then Some(0)
    else match FindNamed(es[1..], name)
      case None => None
      case Some(k) => Some(k + 1)
  }

  /** The first variable called `name` is at `k` when none before it is. */
  lemma FindNamedAt(es: seq<Elem>, k: nat, name: seq<byte>)
    requires k <= |es| && forall j :: 0 <= j < k ==> !Named(es[j], name)
    requires k < |es| ==> Named(es[k], name)
    ensures FindNamed(es, name) == if k < |es| then Some(k) else None
  {
  }

  /** The first slot of `size` bytes is at `k` when none before it is. */
  lemma FindSlotAt(es: seq<Elem>, k: nat, size: nat)
    requires k <= |es| && forall j :: 0 <= j < k ==> !SlotFits(es[j], size)
    requires k < |es| ==> SlotFits(es[k], size)
    ensures FindSlot(es, size) == if k < |es| then Some(k) else None
  {
  }

  /** delete_var (orb.h:310-333) on elements: the first variable called
      `name` becomes a deleted element of the same size. */
  function DeleteVarSpec(es: seq<Elem>, name: seq<byte>): seq<Elem> {
    match FindNamed(es, name)
    case None => es
    case Some(k) => es[k := Elem(TypeDeleted, es[k].body)]
  }

  /** The bytes left after the elements, less the free area's header. */
  function Room(es: seq<Elem>, pSize: nat): int {
    pSize - |Flatten(es)| - 3
  }

  /** add_var (orb.h:255-307) on elements, with the end-append test
      corrected to leave room for the free area's header: append when the
      element fits, otherwise take the first deleted element of its size,
      otherwise compact and append if it fits now, else fail with 5. */
  function AddVarSpec(es: seq<Elem>, e: Elem, pSize: nat): (seq<Elem>, byte) {
    if Size(e) <= Room(es, pSize) then (es + [e], 0)
    else match FindSlot(es, Size(e))
      case Some(k) => (es[k := e], 0)
      case None =>
        if Size(e) <= Room(Live(es), pSize) then (Live(es) + [e], 0)
        else (Live(es), 5)
  }

  /** When neither the free area nor a slot takes `e` but compaction
      makes room, add_var's retry appends it to the compacted elements. */
  lemma AddVarRetry(es: seq<Elem>, e: Elem, pSize: nat)
    requires Room(es, pSize) < Size(e) && FindSlot(es, Size(e)) == None && Size(e) <= Room(Live(es), pSize)
    ensures AddVarSpec(es, e, pSize) == AddVarSpec(Live(es), e, pSize) == (Live(es) + [e], 0)
  {
  }

  // ---------- compaction on bytes ----------

  /** Partition bytes with the current end of the elements. */
  datatype Image = Image(mem: seq<byte>, end: nat)

  /** memmove(dst, src, n) towards lower addresses. */
  function MoveDown(m: seq<byte>, dst: nat, src: nat, n: nat): (r: seq<byte>)
    requires dst <= src && src + n <= |m|
    ensures |r| == |m|
  {
    m[..dst] + m[src .. src + n] + m[dst + n..]
  }

  /** compact_partition (orb.h:229-252) from the element at `p`: a deleted
      element is overwritten by everything after it up to the end, and the
      end moves down; any other element is stepped over. The free area's
      header is not rewritten. On bytes that are not a tiling of elements
      (a zero size, an element running past the end) the source does not
      terminate or writes out of range; there the function stops. */
  function Compact(m: seq<byte>, p: nat, end: nat): (r: Image)
    ensures |r.mem| == |m|
    decreases end - p
  {
    if p >= end || end > |m| || p + 3 > end then Image(m, end)
    else
      var size := U16(m[p + 1], m[p + 2]);
      if size == 0 || p + size > end then Image(m, end)
      else if m[p] == TypeDeleted then Compact(MoveDown(m, p, p + size, end - p - size), p, end - size)
      else Compact(m, p + size, end)
  }

  /** Bytes that begin with `a`, `b` and `c` in a row. */
  lemma SplitThree(m: seq<byte>, end: nat, a: seq<byte>, b: seq<byte>, c: seq<byte>)
    requires end <= |m| && m[..end] == a + (b + c)
    ensures |a| + |b| + |c| == end && m[..|a|] == a && m[|a| .. |a| + |b|] == b && m[|a| + |b| .. end] == c
  {
    assert m[..|a|] == (a + (b + c))[..|a|];
    assert m[|a| .. end] == b + c;
    assert m[|a| .. |a| + |b|] == (b + c)[..|b|];
    assert m[|a| + |b| .. end] == (b + c)[|b|..];
  }

  /** Associativity on its own: the compaction methods call it rather than
      assert it inline, where the `Flatten` terms in scope make the step
      costly. */
  lemma ConcatAssoc(a: seq<byte>, b: seq<byte>, c: seq<byte>)
    ensures a + (b + c) == a + b + c
  {
  }

  /** Moving `c` down over `b` leaves `a` and `c` in a row and the bytes
      from the old end of `c`, less the size of `b`, on as they were. */
  lemma MoveThree(m: seq<byte>, end: nat, a: seq<byte>, b: seq<byte>, c: seq<byte>)
    requires end <= |m| && m[..end] == a + (b + c)
    ensures |a| + |b| + |c| == end
    ensures var m' := MoveDown(m, |a|, |a| + |b|, |c|);
      m'[..end - |b|] == a + c && m'[end - |b|..] == m[end - |b|..]
  {
    SplitThree(m, end, a, b, c);
    var m' := MoveDown(m, |a|, |a| + |b|, |c|);
    assert m'[..end - |b|] == m[..|a|] + m[|a| + |b| .. end];
  }

  /** The element `e` whose bytes follow `a`: its header can be read back,
      and moving what follows it down over it leaves `a` and the rest in a
      row. */
  lemma HeadStep(m: seq<byte>, end: nat, a: seq<byte>, e: Elem, c: seq<byte>)
    requires end <= |m| && m[..end] == a + (Encode(e) + c) && Size(e) < 65536
    ensures var p := |a|;
      p + Size(e) + |c| == end && m[p] == e.typ && U16(m[p + 1], m[p + 2]) == Size(e) &&
      m[..end] == a + Encode(e) + c &&
      (e.typ == TypeDeleted ==>
        MoveDown(m, p, p + Size(e), end - p - Size(e))[..end - Size(e)] == a + c &&
        MoveDown(m, p, p + Size(e), end - p - Size(e))[end - Size(e)..] == m[end - Size(e)..])
  {
    var b := Encode(e);
    SplitThree(m, end, a, b, c);
    assert a + (b + c) == a + b + c;
    assert m[|a|] == b[0] && m[|a| + 1] == b[1] && m[|a| + 2] == b[2];
    U16LoHi(Size(e));
    if e.typ == TypeDeleted {
      MoveThree(m, end, a, b, c);
    }
  }

  /** What compaction does from `p + n` it does from a kept element at `p`
      of size `n`. */
  lemma CompactSkip(m: seq<byte>, p: nat, end: nat, q: nat, y: seq<byte>, k: nat)
    requires p + 3 <= end <= |m| && p + 3 <= q <= end && U16(m[p + 1], m[p + 2]) == q - p && m[p] != TypeDeleted
    requires var r := Compact(m, q, end);
      r.end <= end && r.mem[..r.end] == y && r.end == k && r.mem[end..] == m[end..]
    ensures var r := Compact(m, p, end);
      r.end <= end && r.mem[..r.end] == y && r.end == k && r.mem[end..] == m[end..]
  {
    CompactSkipUnfold(m, p, end, q);
  }

  lemma CompactSkipUnfold(m: seq<byte>, p: nat, end: nat, q: nat)
    requires p + 3 <= end <= |m| && p + 3 <= q <= end && U16(m[p + 1], m[p + 2]) == q - p && m[p] != TypeDeleted
    ensures Compact(m, p, end) == Compact(m, q, end)
  {
  }

  /** What compaction does from `p` on the bytes moved down over a deleted
      element at `p` of size `n`, it does from that element. */
  lemma CompactDrop(m: seq<byte>, m': seq<byte>, p: nat, end: nat, n: nat, y: seq<byte>, k: nat)
    requires p + 3 <= end <= |m| && 3 <= n && p + n <= end && U16(m[p + 1], m[p + 2]) == n && m[p] == TypeDeleted
    requires m' == MoveDown(m, p, p + n, end - p - n) && m'[end - n..] == m[end - n..]
    requires Compact(m', p, end - n).end == k <= end - n
    requires Compact(m', p, end - n).mem[..k] == y
    requires Compact(m', p, end - n).mem[end - n..] == m'[end - n..]
    ensures var r := Compact(m, p, end);
      r.end <= end && r.mem[..r.end] == y && r.end == k && r.mem[end..] == m[end..]
  {
    CompactDropUnfold(m, p, end, n);
    var r := Compact(m', p, end - n);
    assert r.mem[end..] == r.mem[end - n..][n..];
  }

  lemma CompactDropUnfold(m: seq<byte>, p: nat, end: nat, n: nat)
    requires p + 3 <= end <= |m| && 3 <= n && p + n <= end && U16(m[p + 1], m[p + 2]) == n && m[p] == TypeDeleted
    ensures Compact(m, p, end) == Compact(MoveDown(m, p, p + n, end - p - n), p, end - n)
  {
    var size := U16(m[p + 1], m[p + 2]);
    assert !(size == 0 || p + size > end) && m[p] == TypeDeleted;
  }

  /** The kept elements of `rest` and its deleted bytes, by its first
      element. */
  lemma LiveCons(rest: seq<Elem>)
    requires rest != []
    ensures rest[0].typ == TypeDeleted ==>
      Live(rest) == Live(rest[1..]) && DeletedBytes(rest) == Size(rest[0]) + DeletedBytes(rest[1..])
    ensures rest[0].typ != TypeDeleted ==>
      Flatten(Live(rest)) == Encode(rest[0]) + Flatten(Live(rest[1..])) && DeletedBytes(rest) == DeletedBytes(rest[1..])
  {
    if rest[0].typ != TypeDeleted {
      var l := [rest[0]] + Live(rest[1..]);
      assert Live(rest) == l && l[0] == rest[0] && l[1..] == Live(rest[1..]);
    }
  }

  /** The elements after the first of `rest` are small when `rest`'s are. */
  lemma SmallTail(rest: seq<Elem>)
    requires rest != [] && Small(rest)
    ensures Size(rest[0]) < 65536 && Small(rest[1..])
  {
    assert rest[0] in rest;
    forall y | y in rest[1..] ensures Size(y) < 65536 {
      assert y in rest;
    }
  }

  /** Compaction from the end `p` of a prefix `x` removes the deleted
      elements that follow, keeps the others' bytes in order, and leaves
      the bytes from the old end on as they were. */
  lemma {:induction false} CompactTiles(m: seq<byte>, end: nat, p: nat, x: seq<byte>, rest: seq<Elem>)
    requires end <= |m| && p == |x| && m[..end] == x + Flatten(rest) && Small(rest)
    ensures var r := Compact(m, p, end);
      r.end <= end && r.mem[..r.end] == x + Flatten(Live(rest)) &&
      r.end == end - DeletedBytes(rest) && r.mem[end..] == m[end..]
    decreases |rest|, 1
  {
    if rest == [] {
      assert m[..end] == x;
    } else {
      SmallTail(rest);
      assert Flatten(rest) == Encode(rest[0]) + Flatten(rest[1..]);
      HeadStep(m, end, x, rest[0], Flatten(rest[1..]));
      if rest[0].typ == TypeDeleted {
        CompactDeleted(m, end, p, x, rest);
      } else {
        CompactKept(m, end, p, x, rest);
      }
    }
  }

  /** CompactTiles when the first element of `rest` is deleted. */
  lemma {:induction false} CompactDeleted(m: seq<byte>, end: nat, p: nat, x: seq<byte>, rest: seq<Elem>)
    requires end <= |m| && p == |x| && rest != [] && Small(rest[1..]) && rest[0].typ == TypeDeleted
    requires var n := Size(rest[0]);
      p + 3 <= end && p + n <= end && m[p] == TypeDeleted && U16(m[p + 1], m[p + 2]) == n &&
      MoveDown(m, p, p + n, end - p - n)[..end - n] == x + Flatten(rest[1..]) &&
      MoveDown(m, p, p + n, end - p - n)[end - n..] == m[end - n..]
    ensures var r := Compact(m, p, end);
      r.end <= end && r.mem[..r.end] == x + Flatten(Live(rest)) &&
      r.end == end - DeletedBytes(rest) && r.mem[end..] == m[end..]
    decreases |rest|, 0
  {
    var n := Size(rest[0]);
    var m', end' := MoveDown(m, p, p + n, end - p - n), end - n;
    CompactTiles(m', end', p, x, rest[1..]);
    var y, k := x + Flatten(Live(rest[1..])), end' - DeletedBytes(rest[1..]);
    var r := Compact(m', p, end');
    assert r.end == k <= end' && r.mem[..k] == y && r.mem[end'..] == m'[end'..];
    CompactDrop(m, m', p, end, n, y, k);
    LiveCons(rest);
  }

  /** CompactTiles when the first element of `rest` is kept. */
  lemma {:induction false} CompactKept(m: seq<byte>, end: nat, p: nat, x: seq<byte>, rest: seq<Elem>)
    requires end <= |m| && p == |x| && rest != [] && Small(rest[1..]) && rest[0].typ != TypeDeleted
    requires var n := Size(rest[0]);
      p + 3 <= end && p + n <= end && m[p] == rest[0].typ && U16(m[p + 1], m[p + 2]) == n &&
      m[..end] == x + Encode(rest[0]) + Flatten(rest[1..])
    ensures var r := Compact(m, p, end);
      r.end <= end && r.mem[..r.end] == x + Flatten(Live(rest)) &&
      r.end == end - DeletedBytes(rest) && r.mem[end..] == m[end..]
    decreases |rest|, 0
  {
    var b := Encode(rest[0]);
    var q := p + |b|;
    CompactTiles(m, end, q, x + b, rest[1..]);
    var y, k := x + b + Flatten(Live(rest[1..])), end - DeletedBytes(rest[1..]);
    CompactSkip(m, p, end, q, y, k);
    LiveCons(rest);
    assert x + b + Flatten(Live(rest[1..])) == x + (b + Flatten(Live(rest[1..])));
  }
}
