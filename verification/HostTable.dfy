/** Laying a table out in one host buffer, and moving the resulting views to the device. */
module HostTable {
  import opened Common

  newtype Byte = x: int | 0 <= x < 256

  const PADDING: nat := 64
  const ADDRESS_MODULUS: int := 0x1_0000_0000_0000_0000
  const MASK_WORD: int := 4

  /** `Nested` stands for every type that is neither fixed-width nor a string. */
  datatype DType = FixedWidth(width: nat) | StringType | Nested

  /** A device column: the bytes it views, if it has a data pointer, and its bitmask allocation. */
  datatype Column = Column(
    dtype: DType, size: nat, data: Option<seq<Byte>>, mask: seq<Byte>, nullCount: nat, children: seq<Column>)

  /** A column view over an address space; `None` is the null pointer. */
  datatype View = View(
    dtype: DType, size: nat, data: Option<int>, mask: Option<int>, nullCount: nat, children: seq<View>)

  // ---- sizes ----

  function PadSize(size: nat): nat {
    (size + (PADDING - 1)) / PADDING * PADDING
  }

  /** `get_data_size`; `None` is the exception for an unexpected type. */
  function DataSize(c: Column): Option<nat>
    requires c.data.Some?
  {
    match c.dtype
    case FixedWidth(width) => Some(width * c.size)
    case StringType => Some(|c.data.value|)
    case Nested => None
  }

  function Plus(a: Option<nat>, b: Option<nat>): Option<nat> {
    if a.Some? && b.Some? then Some(a.value + b.value) else None
  }

  function OwnSize(c: Column): Option<nat> {
    var data := if c.data.None? then Some(0) else if DataSize(c).None? then None else Some(PadSize(DataSize(c).value));
    Plus(data, Some(if c.nullCount > 0 then |c.mask| else 0))
  }

  function ColumnSize(c: Column): Option<nat>
    decreases c
  {
    Plus(OwnSize(c), BufferSize(c.children))
  }

  /** `host_buffer_size` */
  function BufferSize(cs: seq<Column>): Option<nat>
    decreases cs
  {
    if cs == [] then Some(0) else Plus(ColumnSize(cs[0]), BufferSize(cs[1..]))
  }

  /** The source's pointers are good for the sizes it computes from a column's type. */
  ghost predicate Viewed(c: Column)
    decreases c
  {
    && (c.data.Some? && c.dtype.FixedWidth? ==> |c.data.value| == c.dtype.width * c.size)
    && AllViewed(c.children)
  }

  ghost predicate AllViewed(cs: seq<Column>)
    decreases cs
  {
    cs != [] ==> Viewed(cs[0]) && AllViewed(cs[1..])
  }

  // ---- what the buffer must hold ----

  function Zeros(n: nat): (z: seq<Byte>)
    ensures |z| == n
  {
    seq(n, _ => 0)
  }

  function DataImage(c: Column): seq<Byte> {
    if c.data.None? then [] else c.data.value + Zeros(PadSize(|c.data.value|) - |c.data.value|)
  }

  function MaskImage(c: Column): seq<Byte> {
    if c.nullCount > 0 then c.mask else []
  }

  function OwnImage(c: Column): seq<Byte> {
    DataImage(c) + MaskImage(c)
  }

  function Image(c: Column): seq<Byte>
    decreases c
  {
    OwnImage(c) + Images(c.children)
  }

  function Images(cs: seq<Column>): seq<Byte>
    decreases cs
  {
    if cs == [] then [] else Image(cs[0]) + Images(cs[1..])
  }

  function DataAt(c: Column, a: int): Option<int> {
    if c.data.Some? then Some(a) else None
  }

  function MaskAt(c: Column, a: int): Option<int> {
    if c.nullCount > 0 then Some(a + |DataImage(c)|) else None
  }

  /** The view of a column whose bytes start at address `a`. */
  function Layout(c: Column, a: int): View
    decreases c
  {
    View(c.dtype, c.size, DataAt(c, a), MaskAt(c, a), c.nullCount, Layouts(c.children, a + |OwnImage(c)|))
  }

  function Layouts(cs: seq<Column>, a: int): seq<View>
    decreases cs
  {
    if cs == [] then [] else [Layout(cs[0], a)] + Layouts(cs[1..], a + |Image(cs[0])|)
  }

  lemma {:induction false} OwnSizeIsExact(c: Column)
    requires Viewed(c) && OwnSize(c).Some?
    ensures |OwnImage(c)| == OwnSize(c).value
  {
  }

  /** The sizes the size functions report are those of the bytes to write. */
  lemma {:induction false} SizeIsExact(c: Column)
    requires Viewed(c) && ColumnSize(c).Some?
    ensures |Image(c)| == ColumnSize(c).value
    decreases c
  {
    OwnSizeIsExact(c);
    SizesAreExact(c.children);
  }

  lemma {:induction false} SizesAreExact(cs: seq<Column>)
    requires AllViewed(cs) && BufferSize(cs).Some?
    ensures |Images(cs)| == BufferSize(cs).value
    decreases cs
  {
    if cs != [] {
      SizeIsExact(cs[0]);
      SizesAreExact(cs[1..]);
    }
  }

  // ---- writing ----

  /** `PastEnd` is padding that runs over the end of the buffer, which the source does not check. */
  datatype Outcome = Written | BufferOverflow | UnexpectedType | PastEnd

  /** What writing the data of a column at `at` comes to. */
  ghost function DataOutcome(c: Column, at: nat, length: nat): Outcome {
    if c.data.None? then Written
    else if DataSize(c).None? then UnexpectedType
    else if at + |c.data.value| > length then BufferOverflow
    else if at + |DataImage(c)| > length then PastEnd
    else Written
  }

  ghost function OwnOutcome(c: Column, at: nat, length: nat): Outcome {
    if DataOutcome(c, at, length) != Written then DataOutcome(c, at, length)
    else if at + |OwnImage(c)| > length then BufferOverflow
    else Written
  }

  /** A column and all below it, in the order they are written. */
  ghost function Preorder(c: Column): seq<Column>
    decreases c
  {
    [c] + PreorderAll(c.children)
  }

  ghost function PreorderAll(cs: seq<Column>): seq<Column>
    decreases cs
  {
    if cs == [] then [] else Preorder(cs[0]) + PreorderAll(cs[1..])
  }

  ghost function OwnImages(list: seq<Column>): seq<Byte> {
    if list == [] then [] else OwnImage(list[0]) + OwnImages(list[1..])
  }

  /** What the first column that does not fit comes to. */
  ghost function FirstFailure(list: seq<Column>, at: nat, length: nat): Outcome {
    if list == [] then Written
    else if OwnOutcome(list[0], at, length) != Written then OwnOutcome(list[0], at, length)
    else FirstFailure(list[1..], at + |OwnImage(list[0])|, length)
  }

  lemma {:induction false} FailureJoins(x: seq<Column>, y: seq<Column>, at: nat, length: nat)
    ensures FirstFailure(x + y, at, length)
         == if FirstFailure(x, at, length) != Written then FirstFailure(x, at, length)
            else FirstFailure(y, at + |OwnImages(x)|, length)
    ensures OwnImages(x + y) == OwnImages(x) + OwnImages(y)
    decreases |x|
  {
    hide OwnOutcome, OwnImage;
    if x == [] {
      assert x + y == y;
    } else {
      FailureJoins(x[1..], y, at + |OwnImage(x[0])|, length);
      assert (x + y)[1..] == x[1..] + y;
    }
  }

  lemma {:induction false} PreorderImage(c: Column)
    ensures OwnImages(Preorder(c)) == Image(c)
    decreases c
  {
    hide OwnImage;
    PreorderImages(c.children);
    assert Preorder(c)[1..] == PreorderAll(c.children);
  }

  lemma {:induction false} PreorderImages(cs: seq<Column>)
    ensures OwnImages(PreorderAll(cs)) == Images(cs)
    decreases cs
  {
    hide OwnImage;
    if cs != [] {
      PreorderImage(cs[0]);
      PreorderImages(cs[1..]);
      FailureJoins(Preorder(cs[0]), PreorderAll(cs[1..]), 0, 0);
    }
  }

  /** The data of the column fits, but the zeros behind it do not. */
  ghost predicate PadsOver(c: Column, at: nat, length: nat) {
    c.data.Some? && DataSize(c).Some? && at + |c.data.value| <= length < at + PadSize(|c.data.value|)
  }

  /** Column `k` is the one, and all before it were written. */
  ghost predicate PadsOverAt(list: seq<Column>, k: nat, at: nat, length: nat) {
    && k < |list| && FirstFailure(list[..k], at, length) == Written
    && PadsOver(list[k], at + |OwnImages(list[..k])|, length)
  }

  lemma {:induction false} PadsOverAtFirst(list: seq<Column>, at: nat, length: nat)
    requires list != []
    ensures PadsOverAt(list, 0, at, length) <==> OwnOutcome(list[0], at, length) == PastEnd
  {
    assert list[..0] == [];
    var c := list[0];
    assert c.data.Some? ==> |DataImage(c)| == PadSize(|c.data.value|);
  }

  lemma {:induction false} PadsOverAtNext(list: seq<Column>, k: nat, at: nat, length: nat)
    requires k + 1 < |list|
    ensures PadsOverAt(list, k + 1, at, length)
       <==> OwnOutcome(list[0], at, length) == Written && PadsOverAt(list[1..], k, at + |OwnImage(list[0])|, length)
  {
    hide OwnOutcome, OwnImage, PadsOver;
    var prefix := list[..k + 1];
    assert prefix[0] == list[0] && prefix[1..] == list[1..][..k] && list[k + 1] == list[1..][k];
  }

  lemma {:induction false} PadsOverAtBound(list: seq<Column>, k: nat, at: nat, length: nat)
    requires PadsOverAt(list, k, at, length)
    ensures k < |list|
  {
  }

  /** Padding runs over the end exactly when the first column that does not fit pads over it. */
  lemma {:induction false} PastEndExactly(list: seq<Column>, at: nat, length: nat)
    ensures FirstFailure(list, at, length) == PastEnd <==> exists k :: PadsOverAt(list, k, at, length)
    decreases |list|
  {
    if list != [] {
      var rest, next := list[1..], at + |OwnImage(list[0])|;
      PastEndExactly(rest, next, length);
      PadsOverAtFirst(list, at, length);
      hide PadsOverAt, OwnOutcome, OwnImage;
      if k: nat :| PadsOverAt(list, k, at, length) {
        if k > 0 {
          PadsOverAtBound(list, k, at, length);
          PadsOverAtNext(list, k - 1, at, length);
        }
      }
      if k: nat :| PadsOverAt(rest, k, next, length) {
        PadsOverAtBound(rest, k, next, length);
        PadsOverAtNext(list, k, at, length);
      }
    }
  }

  /** There is room for `size` bytes at `at`. */
  ghost predicate Fits(size: Option<nat>, at: nat, length: nat) {
    size.Some? && at + size.value <= length
  }

  method CopyToHost(src: seq<Byte>, buf: array<Byte>, dest: nat) returns (outcome: Outcome, end: nat)
    requires dest <= buf.Length
    modifies buf
    ensures outcome == if dest + |src| > buf.Length then BufferOverflow else Written
    ensures outcome.Written? ==> end == dest + |src| && buf[dest..end] == src && buf[end..] == old(buf[end..])
    ensures buf[..dest] == old(buf[..dest])
  {
    if dest + |src| > buf.Length {
      return BufferOverflow, dest;
    }
    forall i | 0 <= i < |src| {
      buf[dest + i] := src[i];
    }
    return Written, dest + |src|;
  }

  /** The data of a column and the zeros behind it. */
  method WriteData(c: Column, buf: array<Byte>, start: nat) returns (outcome: Outcome, end: nat)
    requires start <= buf.Length && Viewed(c) && c.data.Some?
    modifies buf
    ensures outcome == DataOutcome(c, start, buf.Length)
    ensures outcome.Written? ==> end == start + |DataImage(c)| && buf[start..end] == DataImage(c)
    ensures outcome.Written? ==> buf[end..] == old(buf[end..])
    ensures buf[..start] == old(buf[..start])
  {
    var size := DataSize(c);
    if size.None? {
      return UnexpectedType, start;
    }
    var paddedEnd := start + PadSize(size.value);
    outcome, end := CopyToHost(c.data.value, buf, start);
    if outcome != Written {
      return;
    }
    ghost var copied := end;
    while end != paddedEnd
      invariant copied <= end <= paddedEnd && end <= buf.Length
      invariant buf[..start] == old(buf[..start]) && buf[start..copied] == c.data.value
      invariant (forall i :: copied <= i < end ==> buf[i] == 0) && buf[end..] == old(buf[end..])
      decreases paddedEnd - end
    {
      if end == buf.Length {
        return PastEnd, end;
      }
      assert buf[end + 1..] == buf[end..][1..] == old(buf[end..])[1..];
      buf[end] := 0;
      end := end + 1;
    }
    assert buf[start..end] == buf[start..copied] + buf[copied..end];
  }

  /** The data and the bitmask of one column. */
  method WriteOwn(c: Column, buf: array<Byte>, start: nat, base: nat)
    returns (outcome: Outcome, end: nat, data: Option<int>, mask: Option<int>)
    requires start <= buf.Length && Viewed(c)
    modifies buf
    ensures outcome == OwnOutcome(c, start, buf.Length) && (outcome.Written? <==> Fits(OwnSize(c), start, buf.Length))
    ensures outcome.Written? ==> end == start + |OwnImage(c)| <= buf.Length && buf[start..end] == OwnImage(c)
    ensures outcome.Written? ==> data == DataAt(c, base + start) && mask == MaskAt(c, base + start)
    ensures outcome.Written? ==> buf[end..] == old(buf[end..])
    ensures buf[..start] == old(buf[..start])
  {
    outcome, end, data, mask := Written, start, None, None;
    if c.data.Some? {
      data := Some(base + end);
      outcome, end := WriteData(c, buf, end);
      if outcome != Written {
        return;
      }
    }
    ghost var dataEnd := end;
    if c.nullCount > 0 {
      mask := Some(base + end);
      outcome, end := CopyToHost(c.mask, buf, end);
      assert buf[..start] == buf[..dataEnd][..start];
      assert buf[start..dataEnd] == buf[..dataEnd][start..] == DataImage(c);
      if outcome != Written {
        return;
      }
    }
    assert buf[start..end] == buf[start..dataEnd] + buf[dataEnd..end];
  }

  /** Writes a column and its children, and appends its view. */
  method BuildHostColumnView(c: Column, buf: array<Byte>, start: nat, base: nat, hostCols: seq<View>)
    returns (outcome: Outcome, end: nat, cols: seq<View>)
    requires start <= buf.Length && Viewed(c)
    modifies buf
    ensures outcome == FirstFailure(Preorder(c), start, buf.Length)
    ensures outcome.Written? <==> Fits(ColumnSize(c), start, buf.Length)
    ensures outcome.Written? ==> end == start + |Image(c)| <= buf.Length && buf[start..end] == Image(c)
    ensures outcome.Written? ==> buf[end..] == old(buf[end..]) && cols == hostCols + [Layout(c, base + start)]
    ensures buf[..start] == old(buf[..start])
    decreases c
  {
    hide OwnImage, OwnSize, OwnOutcome, Images, Layouts, BufferSize, DataAt, MaskAt;
    cols := hostCols;
    assert Preorder(c)[0] == c && Preorder(c)[1..] == PreorderAll(c.children);
    var hostData, hostMask;
    outcome, end, hostData, hostMask := WriteOwn(c, buf, start, base);
    if outcome != Written {
      return;
    }
    OwnSizeIsExact(c);
    ghost var ownEnd := end;
    var children;
    outcome, end, children := BuildHostColumns(c.children, buf, end, base);
    assert buf[..start] == buf[..ownEnd][..start];
    if outcome != Written {
      return;
    }
    assert buf[start..end] == buf[start..ownEnd] + buf[ownEnd..end];
    assert buf[start..ownEnd] == buf[..ownEnd][start..];
    cols := cols + [View(c.dtype, c.size, hostData, hostMask, c.nullCount, children)];
  }

  /** The loop over child columns, and over the columns of a table. */
  method BuildHostColumns(cs: seq<Column>, buf: array<Byte>, start: nat, base: nat)
    returns (outcome: Outcome, end: nat, cols: seq<View>)
    requires start <= buf.Length && AllViewed(cs)
    modifies buf
    ensures outcome == FirstFailure(PreorderAll(cs), start, buf.Length)
    ensures outcome.Written? <==> Fits(BufferSize(cs), start, buf.Length)
    ensures outcome.Written? ==> end == start + |Images(cs)| <= buf.Length && buf[start..end] == Images(cs)
    ensures outcome.Written? ==> buf[end..] == old(buf[end..]) && cols == Layouts(cs, base + start)
    ensures buf[..start] == old(buf[..start])
    decreases cs
  {
    hide Image, Layout, ColumnSize, Viewed, BufferSize, Images, Layouts, AllViewed, Preorder, OwnImages, FirstFailure;
    NoColumns(base);
    outcome, end, cols := Written, start, [];
    ghost var rest := cs;
    for i := 0 to |cs|
      invariant rest == cs[i..] && AllViewed(rest)
      invariant start <= end <= buf.Length && outcome.Written?
      invariant FirstFailure(PreorderAll(cs), start, buf.Length) == FirstFailure(PreorderAll(rest), end, buf.Length)
      invariant Fits(BufferSize(cs), start, buf.Length) <==> Fits(BufferSize(rest), end, buf.Length)
      invariant buf[..start] == old(buf[..start]) && buf[start..end] + Images(rest) == Images(cs)
      invariant cols + Layouts(rest, base + end) == Layouts(cs, base + start)
      invariant buf[end..] == old(buf[end..])
    {
      ghost var before, written, laid := end, buf[start..end], cols;
      RestFits(rest, end, buf.Length);
      FailureJoins(Preorder(rest[0]), PreorderAll(rest[1..]), end, buf.Length);
      PreorderImage(rest[0]);
      FirstAndRest(rest, base + end);
      label next:
      outcome, end, cols := BuildHostColumnView(cs[i], buf, end, base, cols);
      KeepsPrefix(old@next(buf[..]), buf[..], start, before);
      if outcome != Written {
        return;
      }
      SizeIsExact(cs[i]);
      assert buf[end..] == old@next(buf[before..])[end - before..] == old(buf[before..])[end - before..];
      assert buf[start..end] == written + Image(cs[i]);
      assert written + (Image(cs[i]) + Images(rest[1..])) == written + Image(cs[i]) + Images(rest[1..]);
      assert laid + ([Layout(cs[i], base + before)] + Layouts(rest[1..], base + end))
          == cols + Layouts(rest[1..], base + end);
      rest := rest[1..];
    }
    assert rest == [];
  }

  lemma {:induction false} RestFits(rest: seq<Column>, at: nat, length: nat)
    requires rest != []
    ensures Fits(BufferSize(rest), at, length)
        ==> Fits(ColumnSize(rest[0]), at, length)
    ensures Fits(ColumnSize(rest[0]), at, length)
        ==> (Fits(BufferSize(rest), at, length)
             <==> Fits(BufferSize(rest[1..]), at + ColumnSize(rest[0]).value, length))
  {
    hide ColumnSize;
  }

  lemma {:induction false} FirstAndRest(cs: seq<Column>, a: int)
    requires cs != [] && AllViewed(cs)
    ensures Viewed(cs[0]) && AllViewed(cs[1..])
    ensures Images(cs) == Image(cs[0]) + Images(cs[1..])
    ensures Layouts(cs, a) == [Layout(cs[0], a)] + Layouts(cs[1..], a + |Image(cs[0])|)
  {
    hide Image, Layout, Viewed;
  }

  lemma {:induction false} NoColumns(base: nat)
    ensures BufferSize([]) == Some(0) && Images([]) == [] && forall a :: Layouts([], a) == []
    ensures PreorderAll([]) == [] && forall at, length :: FirstFailure([], at, length) == Written
  {
  }

  lemma {:induction false} KeepsPrefix(a: seq<Byte>, b: seq<Byte>, start: nat, end: nat)
    requires start <= end <= |a| == |b| && a[..end] == b[..end]
    ensures a[..start] == b[..start] && a[start..end] == b[start..end]
  {
    assert a[..end][..start] == a[..start] && b[..end][..start] == b[..start];
    assert a[..end][start..] == a[start..end] && b[..end][start..] == b[start..end];
  }

  /** Lays out a table; a buffer of `host_buffer_size` bytes is exactly what never fails. */
  method ToHostTable(table: seq<Column>, buf: array<Byte>, base: nat)
    returns (outcome: Outcome, cols: seq<View>)
    requires AllViewed(table)
    modifies buf
    ensures outcome == FirstFailure(PreorderAll(table), 0, buf.Length)
    ensures outcome.Written? <==> Fits(BufferSize(table), 0, buf.Length)
    ensures outcome.Written? ==> |Images(table)| <= buf.Length && buf[..|Images(table)|] == Images(table)
    ensures outcome.Written? ==> buf[|Images(table)|..] == old(buf[|Images(table)|..])
    ensures outcome.Written? ==> cols == Layouts(table, base)
  {
    var end;
    outcome, end, cols := BuildHostColumns(table, buf, 0, base);
    if outcome.Written? {
      assert buf[..end] == buf[0..end];
    }
  }

  // ---- reading a table back through its views ----

  /** Through the view, memory shows the column: its bytes, its bitmask, and all its children. */
  ghost predicate Shows(v: View, memory: int -> Byte, c: Column)
    decreases c
  {
    && v.dtype == c.dtype && v.size == c.size && v.nullCount == c.nullCount
    && (v.data.Some? <==> c.data.Some?)
    && (c.data.Some? ==> forall i :: 0 <= i < |c.data.value| ==> memory(v.data.value + i) == c.data.value[i])
    && (v.mask.Some? <==> c.nullCount > 0)
    && (c.nullCount > 0 ==> forall i :: 0 <= i < |c.mask| ==> memory(v.mask.value + i) == c.mask[i])
    && AllShow(v.children, memory, c.children)
  }

  ghost predicate AllShow(vs: seq<View>, memory: int -> Byte, cs: seq<Column>)
    decreases cs
  {
    && |vs| == |cs|
    && (cs != [] ==> Shows(vs[0], memory, cs[0]) && AllShow(vs[1..], memory, cs[1..]))
  }

  /** The bytes stand in memory from address `a` on. */
  ghost predicate StandsAt(bytes: seq<Byte>, memory: int -> Byte, a: int) {
    forall i :: 0 <= i < |bytes| ==> memory(a + i) == bytes[i]
  }

  lemma {:induction false} StandsInParts(x: seq<Byte>, y: seq<Byte>, memory: int -> Byte, a: int)
    requires StandsAt(x + y, memory, a)
    ensures StandsAt(x, memory, a) && StandsAt(y, memory, a + |x|)
  {
    forall i | 0 <= i < |x| ensures memory(a + i) == x[i] {
      assert (x + y)[i] == x[i];
    }
    forall i | 0 <= i < |y| ensures memory(a + |x| + i) == y[i] {
      assert (x + y)[|x| + i] == y[i];
      assert a + |x| + i == a + (|x| + i);
    }
  }

  lemma {:induction false} LayoutShows(c: Column, memory: int -> Byte, a: int)
    requires StandsAt(Image(c), memory, a)
    ensures Shows(Layout(c, a), memory, c)
    decreases c
  {
    StandsInParts(OwnImage(c), Images(c.children), memory, a);
    StandsInParts(DataImage(c), MaskImage(c), memory, a);
    if c.data.Some? {
      StandsInParts(c.data.value, Zeros(PadSize(|c.data.value|) - |c.data.value|), memory, a);
    }
    LayoutsShow(c.children, memory, a + |OwnImage(c)|);
  }

  /** Views laid over the bytes of a table show the table: no region overwrites another. */
  lemma {:induction false} LayoutsShow(cs: seq<Column>, memory: int -> Byte, a: int)
    requires StandsAt(Images(cs), memory, a)
    ensures AllShow(Layouts(cs, a), memory, cs)
    decreases cs
  {
    if cs != [] {
      StandsInParts(Image(cs[0]), Images(cs[1..]), memory, a);
      LayoutShows(cs[0], memory, a);
      LayoutsShow(cs[1..], memory, a + |Image(cs[0])|);
      assert Layouts(cs, a)[1..] == Layouts(cs[1..], a + |Image(cs[0])|);
    }
  }

  // ---- moving views to the device ----

  /** `data += offset` on a byte pointer. */
  function MoveData(address: int, offset: int): int {
    (address + offset) % ADDRESS_MODULUS
  }

  /** `mask += offset / sizeof(*mask)`: the offset becomes unsigned before it is divided. */
  function MoveMask(address: int, offset: int): int {
    (address + offset % ADDRESS_MODULUS / MASK_WORD * MASK_WORD) % ADDRESS_MODULUS
  }

  /** A mask pointer moves like a data pointer exactly when the offset is a whole number of words. */
  lemma {:induction false} MaskMovesLikeData(address: int, offset: int)
    ensures MoveMask(address, offset) == MoveData(address, offset) <==> offset % MASK_WORD == 0
  {
    var unsigned := offset % ADDRESS_MODULUS;
    var lost := unsigned % MASK_WORD;
    assert unsigned / MASK_WORD * MASK_WORD == unsigned - lost;
    assert lost == offset % MASK_WORD;
    SameResidue(address + offset, address + unsigned - lost, lost);
  }

  /** Two numbers a small amount apart, up to whole turns, have one residue only if the amount is zero. */
  lemma {:induction false} SameResidue(x: int, y: int, lost: int)
    requires 0 <= lost < ADDRESS_MODULUS && (x - y - lost) % ADDRESS_MODULUS == 0
    ensures x % ADDRESS_MODULUS == y % ADDRESS_MODULUS <==> lost == 0
  {
  }

  function ToDeviceColumn(v: View, offset: int): View
    decreases v
  {
    View(v.dtype, v.size,
         if v.data.Some? then Some(MoveData(v.data.value, offset)) else None,
         if v.mask.Some? then Some(MoveMask(v.mask.value, offset)) else None,
         v.nullCount, ToDeviceColumns(v.children, offset))
  }

  function ToDeviceColumns(vs: seq<View>, offset: int): seq<View>
    decreases vs
  {
    if vs == [] then [] else [ToDeviceColumn(vs[0], offset)] + ToDeviceColumns(vs[1..], offset)
  }

  /** `toDeviceColumnViews`, with its check of the offset; `None` is the exception. */
  function ToDeviceColumnViews(vs: seq<View>, offset: int): Option<seq<View>> {
    if offset % ADDRESS_MODULUS % MASK_WORD == 0 then Some(ToDeviceColumns(vs, offset)) else None
  }

  /** The check accepts exactly the offsets, of either sign, that are whole mask words. */
  lemma {:induction false} OffsetCheckIsExact(vs: seq<View>, offset: int)
    ensures ToDeviceColumnViews(vs, offset).Some? <==> offset % MASK_WORD == 0
  {
  }

  /** Every data and mask address of a view tree, in preorder. */
  function Addresses(v: View): seq<int>
    decreases v
  {
    (if v.data.Some? then [v.data.value] else []) + (if v.mask.Some? then [v.mask.value] else [])
    + AllAddresses(v.children)
  }

  function AllAddresses(vs: seq<View>): seq<int>
    decreases vs
  {
    if vs == [] then [] else Addresses(vs[0]) + AllAddresses(vs[1..])
  }

  /** `to` is `from` with every address moved by the offset, modulo the address space. */
  ghost predicate AllMoved(from: seq<int>, to: seq<int>, offset: int) {
    |from| == |to| && forall i :: 0 <= i < |from| ==> to[i] == MoveData(from[i], offset)
  }

  lemma {:induction false} AddressesMove(v: View, offset: int)
    requires offset % MASK_WORD == 0
    ensures AllMoved(Addresses(v), Addresses(ToDeviceColumn(v, offset)), offset)
    decreases v
  {
    if v.mask.Some? {
      MaskMovesLikeData(v.mask.value, offset);
    }
    AllAddressesMove(v.children, offset);
  }

  /** An accepted offset moves every data and mask address of the tree by the same amount. */
  lemma {:induction false} AllAddressesMove(vs: seq<View>, offset: int)
    requires offset % MASK_WORD == 0
    ensures AllMoved(AllAddresses(vs), AllAddresses(ToDeviceColumns(vs, offset)), offset)
    decreases vs
  {
    if vs != [] {
      AddressesMove(vs[0], offset);
      AllAddressesMove(vs[1..], offset);
      assert ToDeviceColumns(vs, offset)[1..] == ToDeviceColumns(vs[1..], offset);
    }
  }

  lemma {:induction false} MovedLayout(c: Column, a: int, b: int, offset: int)
    requires offset % MASK_WORD == 0 && b == MoveData(a, offset) && b + |Image(c)| < ADDRESS_MODULUS
    ensures ToDeviceColumn(Layout(c, a), offset) == Layout(c, b)
    decreases c
  {
    MovesWithin(a, b, |DataImage(c)|, offset);
    MaskMovesLikeData(a + |DataImage(c)|, offset);
    MovesWithin(a, b, |OwnImage(c)|, offset);
    MovedLayouts(c.children, a + |OwnImage(c)|, b + |OwnImage(c)|, offset);
  }

  lemma {:induction false} MovesWithin(a: int, b: int, k: nat, offset: int)
    requires b == MoveData(a, offset) && b + k < ADDRESS_MODULUS
    ensures MoveData(a + k, offset) == b + k
  {
  }

  /** Moving the views of a table gives the views of the table at the moved address. */
  lemma {:induction false} MovedLayouts(cs: seq<Column>, a: int, b: int, offset: int)
    requires offset % MASK_WORD == 0 && b == MoveData(a, offset) && b + |Images(cs)| < ADDRESS_MODULUS
    ensures ToDeviceColumns(Layouts(cs, a), offset) == Layouts(cs, b)
    decreases cs
  {
    if cs != [] {
      MovedLayout(cs[0], a, b, offset);
      MovesWithin(a, b, |Image(cs[0])|, offset);
      MovedLayouts(cs[1..], a + |Image(cs[0])|, b + |Image(cs[0])|, offset);
      assert Layouts(cs, a)[1..] == Layouts(cs[1..], a + |Image(cs[0])|);
    }
  }

  /** `n` bytes at `a` were copied to `b`. */
  ghost predicate Copied(host: int -> Byte, a: int, device: int -> Byte, b: int, n: nat) {
    forall x :: a <= x < a + n ==> device(b + (x - a)) == host(x)
  }

  lemma {:induction false} CopyStands(bytes: seq<Byte>, host: int -> Byte, a: int, device: int -> Byte, b: int)
    requires StandsAt(bytes, host, a) && Copied(host, a, device, b, |bytes|)
    ensures StandsAt(bytes, device, b)
  {
    forall i | 0 <= i < |bytes| ensures device(b + i) == bytes[i] {
      assert host(a + i) == bytes[i];
      assert b + (a + i - a) == b + i;
    }
  }

  /** After the buffer is copied to the device, the moved views show the same table there. */
  lemma {:induction false} RelocatedShows(cs: seq<Column>, host: int -> Byte, device: int -> Byte, a: int, offset: int)
    requires StandsAt(Images(cs), host, a) && offset % MASK_WORD == 0
    requires MoveData(a, offset) + |Images(cs)| < ADDRESS_MODULUS
    requires Copied(host, a, device, MoveData(a, offset), |Images(cs)|)
    ensures AllShow(ToDeviceColumns(Layouts(cs, a), offset), device, cs)
  {
    hide Images, Layouts, ToDeviceColumns, AllShow;
    var b := MoveData(a, offset);
    CopyStands(Images(cs), host, a, device, b);
    MovedLayouts(cs, a, b, offset);
    LayoutsShow(cs, device, b);
  }

  // ---- where the regions lie ----

  datatype Region = Region(start: int, end: int)

  function OwnRegions(c: Column, a: int): seq<Region> {
    (if c.data.Some? then [Region(a, a + |c.data.value|)] else [])
    + if c.nullCount > 0 then [Region(a + |DataImage(c)|, a + |OwnImage(c)|)] else []
  }

  function Regions(c: Column, a: int): seq<Region>
    decreases c
  {
    OwnRegions(c, a) + AllRegions(c.children, a + |OwnImage(c)|)
  }

  function AllRegions(cs: seq<Column>, a: int): seq<Region>
    decreases cs
  {
    if cs == [] then [] else Regions(cs[0], a) + AllRegions(cs[1..], a + |Image(cs[0])|)
  }

  /** Regions inside `from..to`, each ending before the next begins. */
  ghost predicate InOrder(rs: seq<Region>, from: int, to: int) {
    && (forall i :: 0 <= i < |rs| ==> from <= rs[i].start <= rs[i].end <= to)
    && (forall i, j :: 0 <= i < j < |rs| ==> rs[i].end <= rs[j].start)
  }

  lemma {:induction false} InOrderConcat(x: seq<Region>, y: seq<Region>, from: int, middle: int, to: int)
    requires InOrder(x, from, middle) && InOrder(y, middle, to) && from <= middle <= to
    ensures InOrder(x + y, from, to)
  {
  }

  lemma {:induction false} NoRegions(a: int)
    ensures InOrder([], a, a)
  {
  }

  lemma {:induction false} OwnRegionsAreDisjoint(c: Column, a: int)
    ensures InOrder(OwnRegions(c, a), a, a + |OwnImage(c)|)
  {
  }

  lemma {:induction false} RegionsAreDisjoint(c: Column, a: int)
    ensures InOrder(Regions(c, a), a, a + |Image(c)|)
    decreases c
  {
    hide OwnRegions, InOrder, OwnImage;
    var children := a + |OwnImage(c)|;
    OwnRegionsAreDisjoint(c, a);
    AllRegionsAreDisjoint(c.children, children);
    InOrderConcat(OwnRegions(c, a), AllRegions(c.children, children), a, children, a + |Image(c)|);
  }

  /** The regions of a table are disjoint, in order, and inside its `host_buffer_size` bytes. */
  lemma {:induction false} AllRegionsAreDisjoint(cs: seq<Column>, a: int)
    ensures InOrder(AllRegions(cs, a), a, a + |Images(cs)|)
    decreases cs
  {
    hide Image, Regions, InOrder;
    if cs == [] {
      NoRegions(a);
    } else {
      var next := a + |Image(cs[0])|;
      RegionsAreDisjoint(cs[0], a);
      AllRegionsAreDisjoint(cs[1..], next);
      InOrderConcat(Regions(cs[0], a), AllRegions(cs[1..], next), a, next, a + |Images(cs)|);
    }
  }

  /** Every bitmask allocation is a multiple of the padding. */
  ghost predicate MasksPadded(c: Column)
    decreases c
  {
    (c.nullCount > 0 ==> |c.mask| % PADDING == 0) && AllMasksPadded(c.children)
  }

  ghost predicate AllMasksPadded(cs: seq<Column>)
    decreases cs
  {
    cs != [] ==> MasksPadded(cs[0]) && AllMasksPadded(cs[1..])
  }

  ghost predicate AllAligned(addresses: seq<int>) {
    forall i :: 0 <= i < |addresses| ==> addresses[i] % PADDING == 0
  }

  lemma {:induction false} OwnIsPadded(c: Column)
    requires c.nullCount > 0 ==> |c.mask| % PADDING == 0
    ensures |DataImage(c)| % PADDING == 0 && |OwnImage(c)| % PADDING == 0
  {
    assert |DataImage(c)| % PADDING == 0;
  }

  lemma {:induction false} LayoutIsAligned(c: Column, a: int)
    requires MasksPadded(c) && a % PADDING == 0
    ensures AllAligned(Addresses(Layout(c, a))) && |Image(c)| % PADDING == 0
    decreases c
  {
    hide DataImage, OwnImage, Layouts, Images, AllMasksPadded, AllAddresses;
    OwnIsPadded(c);
    LayoutsAreAligned(c.children, a + |OwnImage(c)|);
  }

  /** In an aligned buffer every data and mask pointer is aligned when bitmasks are padded. */
  lemma {:induction false} LayoutsAreAligned(cs: seq<Column>, a: int)
    requires AllMasksPadded(cs) && a % PADDING == 0
    ensures AllAligned(AllAddresses(Layouts(cs, a))) && |Images(cs)| % PADDING == 0
    decreases cs
  {
    hide Image, Layout, MasksPadded, Addresses;
    if cs != [] {
      var next := a + |Image(cs[0])|;
      LayoutIsAligned(cs[0], a);
      LayoutsAreAligned(cs[1..], next);
      assert Layouts(cs, a)[1..] == Layouts(cs[1..], next);
    }
  }
}