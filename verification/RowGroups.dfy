/** Assigning row groups to byte ranges, and narrowing their columns. */
module RowGroups {
  import opened Common

  /** Thrift fields that are not set read as zero. */
  datatype ChunkMeta = ChunkMeta(dataPageOffset: int, dictionaryPageOffset: Option<int>, totalCompressedSize: int)

  datatype ColumnChunk = ColumnChunk(metaIsSet: bool, meta: ChunkMeta)

  datatype RowGroup = RowGroup(
    columns: seq<ColumnChunk>, numRows: int, fileOffset: int, totalIsSet: bool, totalCompressedSize: int)

  /** A selected row group with the number of rows before it in the file. */
  datatype Chosen = Chosen(group: RowGroup, firstRow: int)

  // ---- where row groups lie ----

  function Offset(c: ColumnChunk): (offset: int)
    ensures offset <= c.meta.dataPageOffset
    ensures c.meta.dictionaryPageOffset.Some? ==> offset <= c.meta.dictionaryPageOffset.value
    ensures offset == c.meta.dataPageOffset || c.meta.dictionaryPageOffset == Some(offset)
  {
    match c.meta.dictionaryPageOffset
    case Some(dictionary) => if c.meta.dataPageOffset > dictionary then dictionary else c.meta.dataPageOffset
    case None => c.meta.dataPageOffset
  }

  predicate InvalidFileOffset(start: int, preStart: int, preSize: int) {
    (preStart == 0 && start != 4) || start < preStart + preSize
  }

  /** The start of a row group: by its first column, or by its file offset, repaired if it is bad. */
  function Start(g: RowGroup, withMeta: bool, preStart: int, preSize: int): int
    requires g.columns != []
  {
    if withMeta then Offset(g.columns[0])
    else if !InvalidFileOffset(g.fileOffset, preStart, preSize) then g.fileOffset
    else if preStart == 0 then 4
    else preStart + preSize
  }

  function SumSizes(cs: seq<ColumnChunk>): int {
    if cs == [] then 0 else SumSizes(cs[..|cs| - 1]) + cs[|cs| - 1].meta.totalCompressedSize
  }

  function TotalSize(g: RowGroup): int {
    if g.totalIsSet then g.totalCompressedSize else SumSizes(g.columns)
  }

  /** Integer division by two rounds toward zero. */
  function Half(x: int): int {
    if x >= 0 then x / 2 else -(-x / 2)
  }

  ghost predicate HaveColumns(gs: seq<RowGroup>) {
    forall g :: g in gs ==> g.columns != []
  }

  function WithMeta(gs: seq<RowGroup>): bool
    requires HaveColumns(gs)
  {
    gs == [] || gs[0].columns[0].metaIsSet
  }

  /** The start of the `i`-th row group; without column metadata it depends on its predecessor. */
  ghost function StartAt(gs: seq<RowGroup>, i: nat): int
    requires HaveColumns(gs) && i < |gs|
  {
    if i == 0 then Start(gs[0], WithMeta(gs), 0, 0)
    else if WithMeta(gs) then Start(gs[i], true, 0, 0)
    else Start(gs[i], false, StartAt(gs, i - 1), gs[i - 1].totalCompressedSize)
  }

  ghost function MidPoint(gs: seq<RowGroup>, i: nat): int
    requires HaveColumns(gs) && i < |gs|
  {
    StartAt(gs, i) + Half(TotalSize(gs[i]))
  }

  ghost function RowsBefore(gs: seq<RowGroup>, i: nat): int
    requires i <= |gs|
  {
    if i == 0 then 0 else RowsBefore(gs, i - 1) + gs[i - 1].numRows
  }

  predicate InRange(mid: int, offset: int, length: int) {
    offset <= mid < offset + length
  }

  /** The row groups from `i` on whose midpoint lies in the range. */
  ghost function SelectFrom(gs: seq<RowGroup>, i: nat, offset: int, length: int): seq<Chosen>
    requires HaveColumns(gs) && i <= |gs|
    decreases |gs| - i
  {
    if i == |gs| then []
    else
      (if InRange(MidPoint(gs, i), offset, length) then [Chosen(gs[i], RowsBefore(gs, i))] else [])
      + SelectFrom(gs, i + 1, offset, length)
  }

  method SizeOf(group: RowGroup) returns (totalSize: int)
    ensures totalSize == TotalSize(group)
  {
    totalSize := 0;
    if group.totalIsSet {
      totalSize := group.totalCompressedSize;
    } else {
      for c := 0 to |group.columns|
        invariant totalSize == SumSizes(group.columns[..c])
      {
        assert group.columns[..c + 1][..c] == group.columns[..c];
        totalSize := totalSize + group.columns[c].meta.totalCompressedSize;
      }
      assert group.columns[..|group.columns|] == group.columns;
    }
  }

  /** The selected row groups and the number of rows before each, as two parallel lists. */
  ghost predicate Lists(placed: seq<Chosen>, groups: seq<RowGroup>, rowIndexOffsets: seq<int>) {
    && |groups| == |rowIndexOffsets| == |placed|
    && forall j :: 0 <= j < |placed| ==> placed[j] == Chosen(groups[j], rowIndexOffsets[j])
  }

  method FilterGroups(gs: seq<RowGroup>, partOffset: int, partLength: int)
    returns (groups: seq<RowGroup>, rowIndexOffsets: seq<int>)
    requires HaveColumns(gs)
    ensures Lists(SelectFrom(gs, 0, partOffset, partLength), groups, rowIndexOffsets)
  {
    hide TotalSize, Half, SelectFrom;
    groups, rowIndexOffsets := [], [];
    ghost var done: seq<Chosen> := [];
    var preStartIndex, preCompressedSize, cumulativeRows := 0, 0, 0;
    var firstColumnWithMetadata := true;
    if |gs| > 0 {
      firstColumnWithMetadata := gs[0].columns[0].metaIsSet;
    }
    for i := 0 to |gs|
      invariant firstColumnWithMetadata == WithMeta(gs) && cumulativeRows == RowsBefore(gs, i)
      invariant i == 0 || firstColumnWithMetadata ==> preStartIndex == 0 && preCompressedSize == 0
      invariant i > 0 && !firstColumnWithMetadata ==>
        preStartIndex == StartAt(gs, i - 1) && preCompressedSize == gs[i - 1].totalCompressedSize
      invariant Lists(done, groups, rowIndexOffsets)
      invariant done + SelectFrom(gs, i, partOffset, partLength) == SelectFrom(gs, 0, partOffset, partLength)
    {
      var group := gs[i];
      var startIndex;
      if firstColumnWithMetadata {
        startIndex := Offset(group.columns[0]);
      } else {
        startIndex := group.fileOffset;
        if InvalidFileOffset(startIndex, preStartIndex, preCompressedSize) {
          startIndex := if preStartIndex == 0 then 4 else preStartIndex + preCompressedSize;
        }
        preStartIndex := startIndex;
        preCompressedSize := group.totalCompressedSize;
      }
      assert startIndex == StartAt(gs, i);
      var totalSize := SizeOf(group);
      var midPoint := startIndex + Half(totalSize);
      ghost var before := done;
      if InRange(midPoint, partOffset, partLength) {
        groups := groups + [group];
        rowIndexOffsets := rowIndexOffsets + [cumulativeRows];
        done := done + [Chosen(group, cumulativeRows)];
      }
      SelectStep(gs, i, partOffset, partLength, before, done);
      cumulativeRows := cumulativeRows + group.numRows;
    }
    NothingTaken(gs, |gs|, partOffset, partLength);
  }

  lemma {:induction false} SelectStep(
      gs: seq<RowGroup>, i: nat, offset: int, length: int, before: seq<Chosen>, after: seq<Chosen>)
    requires HaveColumns(gs) && i < |gs|
    requires after == before
      + if InRange(MidPoint(gs, i), offset, length) then [Chosen(gs[i], RowsBefore(gs, i))] else []
    ensures before + SelectFrom(gs, i, offset, length) == after + SelectFrom(gs, i + 1, offset, length)
  {
  }

  /** Without a byte range every row group stays. */
  method AllOffsets(gs: seq<RowGroup>) returns (rowIndexOffsets: seq<int>)
    ensures |rowIndexOffsets| == |gs|
    ensures forall i :: 0 <= i < |gs| ==> rowIndexOffsets[i] == RowsBefore(gs, i)
  {
    rowIndexOffsets := [];
    var cumulative := 0;
    for i := 0 to |gs|
      invariant |rowIndexOffsets| == i && cumulative == RowsBefore(gs, i)
      invariant forall j :: 0 <= j < i ==> rowIndexOffsets[j] == RowsBefore(gs, j)
    {
      rowIndexOffsets := rowIndexOffsets + [cumulative];
      cumulative := cumulative + gs[i].numRows;
    }
  }

  // ---- tilings ----

  /** Ascending boundaries of adjacent byte ranges that cover every midpoint. */
  ghost predicate Tiling(bounds: seq<int>, gs: seq<RowGroup>)
    requires HaveColumns(gs)
  {
    && |bounds| >= 1
    && (forall s, t :: 0 <= s < t < |bounds| ==> bounds[s] <= bounds[t])
    && (forall i :: 0 <= i < |gs| ==> bounds[0] <= MidPoint(gs, i) < bounds[|bounds| - 1])
  }

  /** The `t`-th tile takes the `i`-th row group. */
  ghost predicate Takes(bounds: seq<int>, t: nat, gs: seq<RowGroup>, i: nat)
    requires HaveColumns(gs) && i < |gs| && t + 1 < |bounds|
  {
    InRange(MidPoint(gs, i), bounds[t], bounds[t + 1] - bounds[t])
  }

  lemma {:induction false} SomeTile(bounds: seq<int>, mid: int) returns (t: nat)
    requires |bounds| >= 1 && bounds[0] <= mid < bounds[|bounds| - 1]
    ensures t + 1 < |bounds| && InRange(mid, bounds[t], bounds[t + 1] - bounds[t])
  {
    t := 0;
    while bounds[t + 1] <= mid
      invariant t + 1 < |bounds| && bounds[t] <= mid
      decreases |bounds| - t
    {
      t := t + 1;
    }
  }

  /** A result of a tile stands for a row group with all rows before it, and for one that it takes. */
  lemma {:induction false} SelectedAreTaken(gs: seq<RowGroup>, from: nat, offset: int, length: int, p: Chosen)
    requires HaveColumns(gs) && from <= |gs|
    ensures p in SelectFrom(gs, from, offset, length)
       <==> exists i :: from <= i < |gs| && offset <= MidPoint(gs, i) < offset + length
                        && p == Chosen(gs[i], RowsBefore(gs, i))
    decreases |gs| - from
  {
    if from < |gs| {
      SelectedAreTaken(gs, from + 1, offset, length, p);
    }
  }

  /** Every row group is taken by exactly one tile. */
  lemma {:induction false} TakenOnce(bounds: seq<int>, gs: seq<RowGroup>, i: nat)
    requires HaveColumns(gs) && Tiling(bounds, gs) && i < |gs|
    ensures exists t :: 0 <= t < |bounds| - 1 && Takes(bounds, t, gs, i)
    ensures forall s, t :: 0 <= s < t < |bounds| - 1 ==> !(Takes(bounds, s, gs, i) && Takes(bounds, t, gs, i))
  {
    var t := SomeTile(bounds, MidPoint(gs, i));
    assert Takes(bounds, t, gs, i);
    forall r, s | 0 <= r < s < |bounds| - 1
      ensures !(Takes(bounds, r, gs, i) && Takes(bounds, s, gs, i))
    {
      assert bounds[r + 1] <= bounds[s];
    }
  }

  // ---- ascending midpoints ----

  ghost predicate Ascending(gs: seq<RowGroup>)
    requires HaveColumns(gs)
  {
    forall i, j :: 0 <= i < j < |gs| ==> MidPoint(gs, i) <= MidPoint(gs, j)
  }

  /** No column metadata, but every row group says how large it is. */
  ghost predicate Sized(gs: seq<RowGroup>)
    requires HaveColumns(gs)
  {
    !WithMeta(gs) && forall i :: 0 <= i < |gs| ==> gs[i].totalIsSet && gs[i].totalCompressedSize >= 0
  }

  /** The middle of a row group, rounded down: half of its size lies before it. */
  lemma {:induction false} MidPointHalves(gs: seq<RowGroup>, i: nat)
    requires HaveColumns(gs) && i < |gs| && TotalSize(gs[i]) >= 0
    ensures var g, before := gs[i], MidPoint(gs, i) - StartAt(gs, i);
      var size := if g.totalIsSet then g.totalCompressedSize else SumSizes(g.columns);
      before >= 0 && (2 * before == size || 2 * before == size - 1)
  {
  }

  /** Where a row group starts: by its first column, or else by its file offset if that leaves room. */
  lemma {:induction false} StartsExactly(gs: seq<RowGroup>, i: nat)
    requires HaveColumns(gs) && i < |gs|
    ensures StartAt(gs, i) ==
      if gs[0].columns[0].metaIsSet then Offset(gs[i].columns[0])
      else if i == 0 || StartAt(gs, i - 1) == 0 then 4
      else
        var end := StartAt(gs, i - 1) + gs[i - 1].totalCompressedSize;
        if gs[i].fileOffset >= end then gs[i].fileOffset else end
  {
  }

  /** Repaired starts begin at 4 and leave room for every row group, whatever the file offsets say. */
  lemma {:induction false} RepairedStarts(gs: seq<RowGroup>, i: nat)
    requires HaveColumns(gs) && Sized(gs) && i < |gs|
    ensures StartAt(gs, i) >= 4 && (i == 0 ==> StartAt(gs, i) == 4)
    ensures i > 0 ==> StartAt(gs, i) >= StartAt(gs, i - 1) + TotalSize(gs[i - 1])
  {
    if i > 0 {
      RepairedStarts(gs, i - 1);
    }
  }

  lemma {:induction false} MidPointsAscend(gs: seq<RowGroup>, i: nat, j: nat)
    requires HaveColumns(gs) && Sized(gs) && i < j < |gs|
    ensures MidPoint(gs, i) <= MidPoint(gs, j)
    decreases j
  {
    RepairedStarts(gs, j);
    if i < j - 1 {
      MidPointsAscend(gs, i, j - 1);
    }
  }

  lemma {:induction false} SizedAscend(gs: seq<RowGroup>)
    requires HaveColumns(gs) && Sized(gs)
    ensures Ascending(gs)
  {
    forall i, j | 0 <= i < j < |gs| ensures MidPoint(gs, i) <= MidPoint(gs, j) {
      MidPointsAscend(gs, i, j);
    }
  }

  /** All row groups from `i` on, with the rows before them. */
  ghost function AllFrom(gs: seq<RowGroup>, i: nat): seq<Chosen>
    requires i <= |gs|
    decreases |gs| - i
  {
    if i == |gs| then [] else [Chosen(gs[i], RowsBefore(gs, i))] + AllFrom(gs, i + 1)
  }

  /** The results of the tiles from `t` on, one after the other. */
  ghost function Joined(bounds: seq<int>, t: nat, gs: seq<RowGroup>): seq<Chosen>
    requires HaveColumns(gs) && t < |bounds|
    decreases |bounds| - t
  {
    if t == |bounds| - 1 then []
    else SelectFrom(gs, 0, bounds[t], bounds[t + 1] - bounds[t]) + Joined(bounds, t + 1, gs)
  }

  /** The results of the tiles from `t` on, restricted to the row groups from `i` on. */
  ghost function JoinedFrom(bounds: seq<int>, t: nat, gs: seq<RowGroup>, i: nat): seq<Chosen>
    requires HaveColumns(gs) && t < |bounds| && i <= |gs|
    decreases |bounds| - t
  {
    if t == |bounds| - 1 then []
    else SelectFrom(gs, i, bounds[t], bounds[t + 1] - bounds[t]) + JoinedFrom(bounds, t + 1, gs, i)
  }

  lemma {:induction false} JoinedIsJoinedFrom(bounds: seq<int>, t: nat, gs: seq<RowGroup>)
    requires HaveColumns(gs) && t < |bounds|
    ensures Joined(bounds, t, gs) == JoinedFrom(bounds, t, gs, 0)
    decreases |bounds| - t
  {
    if t < |bounds| - 1 {
      JoinedIsJoinedFrom(bounds, t + 1, gs);
    }
  }

  /** A later range takes nothing whose midpoint lies before it. */
  lemma {:induction false} PassedOver(bounds: seq<int>, t: nat, gs: seq<RowGroup>, i: nat)
    requires HaveColumns(gs) && t < |bounds| && i < |gs|
    requires forall s :: t <= s < |bounds| ==> MidPoint(gs, i) < bounds[s]
    ensures JoinedFrom(bounds, t, gs, i) == JoinedFrom(bounds, t, gs, i + 1)
    decreases |bounds| - t
  {
    hide MidPoint;
    if t < |bounds| - 1 {
      PassedOver(bounds, t + 1, gs, i);
    }
  }

  lemma {:induction false} NothingTaken(gs: seq<RowGroup>, i: nat, offset: int, length: int)
    requires HaveColumns(gs) && i <= |gs|
    requires forall j :: i <= j < |gs| ==> !InRange(MidPoint(gs, j), offset, length)
    ensures SelectFrom(gs, i, offset, length) == []
    decreases |gs| - i
  {
    hide MidPoint;
    if i < |gs| {
      NothingTaken(gs, i + 1, offset, length);
    }
  }

  lemma {:induction false} JoinedNone(bounds: seq<int>, t: nat, gs: seq<RowGroup>)
    requires HaveColumns(gs) && t < |bounds|
    ensures JoinedFrom(bounds, t, gs, |gs|) == []
    decreases |bounds| - t
  {
    if t < |bounds| - 1 {
      JoinedNone(bounds, t + 1, gs);
    }
  }

  /** The next row group comes first in the tile it is in. */
  lemma {:induction false} TakesNext(bounds: seq<int>, t: nat, gs: seq<RowGroup>, i: nat)
    requires HaveColumns(gs) && t + 1 < |bounds| && i < |gs| && Takes(bounds, t, gs, i)
    requires JoinedFrom(bounds, t + 1, gs, i) == JoinedFrom(bounds, t + 1, gs, i + 1)
    ensures JoinedFrom(bounds, t, gs, i) == [Chosen(gs[i], RowsBefore(gs, i))] + JoinedFrom(bounds, t, gs, i + 1)
  {
    hide MidPoint, RowsBefore, HaveColumns;
    var first, length := Chosen(gs[i], RowsBefore(gs, i)), bounds[t + 1] - bounds[t];
    var rest, later := SelectFrom(gs, i + 1, bounds[t], length), JoinedFrom(bounds, t + 1, gs, i + 1);
    assert SelectFrom(gs, i, bounds[t], length) == [first] + rest;
    hide SelectFrom;
    assert ([first] + rest) + later == [first] + (rest + later);
  }

  /** From the tile on that the next row group is in, the tiles give the rest of the list. */
  lemma {:induction false} JoinedInOrder(bounds: seq<int>, t: nat, gs: seq<RowGroup>, i: nat)
    requires HaveColumns(gs) && Tiling(bounds, gs) && Ascending(gs) && t < |bounds| && i <= |gs|
    requires forall j :: i <= j < |gs| ==> bounds[t] <= MidPoint(gs, j)
    ensures JoinedFrom(bounds, t, gs, i) == AllFrom(gs, i)
    decreases |bounds| - t, |gs| - i
  {
    hide MidPoint, SelectFrom, RowsBefore, HaveColumns, Tiling, Ascending;
    if i == |gs| {
      JoinedNone(bounds, t, gs);
      return;
    }
    BelowLast(bounds, t, gs, i);
    if MidPoint(gs, i) < bounds[t + 1] {
      BelowLater(bounds, t + 1, gs, i);
      PassedOver(bounds, t + 1, gs, i);
      TakesNext(bounds, t, gs, i);
      JoinedInOrder(bounds, t, gs, i + 1);
    } else {
      LaterMidPoints(gs, i, bounds[t + 1]);
      NothingTaken(gs, i, bounds[t], bounds[t + 1] - bounds[t]);
      JoinedInOrder(bounds, t + 1, gs, i);
    }
  }

  lemma {:induction false} BelowLast(bounds: seq<int>, t: nat, gs: seq<RowGroup>, i: nat)
    requires HaveColumns(gs) && Tiling(bounds, gs) && i < |gs| && t < |bounds| && bounds[t] <= MidPoint(gs, i)
    ensures t + 1 < |bounds|
  {
    assert MidPoint(gs, i) < bounds[|bounds| - 1];
  }

  lemma {:induction false} BelowLater(bounds: seq<int>, t: nat, gs: seq<RowGroup>, i: nat)
    requires HaveColumns(gs) && Tiling(bounds, gs) && i < |gs| && t < |bounds| && MidPoint(gs, i) < bounds[t]
    ensures forall s :: t <= s < |bounds| ==> MidPoint(gs, i) < bounds[s]
  {
    assert forall s :: t < s < |bounds| ==> bounds[t] <= bounds[s];
  }

  lemma {:induction false} LaterMidPoints(gs: seq<RowGroup>, i: nat, x: int)
    requires HaveColumns(gs) && Ascending(gs) && i < |gs| && x <= MidPoint(gs, i)
    ensures forall j :: i <= j < |gs| ==> x <= MidPoint(gs, j)
  {
    assert forall j :: i < j < |gs| ==> MidPoint(gs, i) <= MidPoint(gs, j);
  }

  /** In the no-metadata mode the results of the tiles, in order, are the original list. */
  lemma {:induction false} TilesRebuildTheList(bounds: seq<int>, gs: seq<RowGroup>)
    requires HaveColumns(gs) && Sized(gs) && Tiling(bounds, gs)
    ensures Joined(bounds, 0, gs) == AllFrom(gs, 0)
  {
    SizedAscend(gs);
    JoinedIsJoinedFrom(bounds, 0, gs);
    JoinedInOrder(bounds, 0, gs, 0);
  }

  // ---- narrowing columns ----

  /** `filter_columns` on one row group. */
  function Narrowed(g: RowGroup, chunkFilter: seq<nat>): RowGroup
    requires forall k :: 0 <= k < |chunkFilter| ==> chunkFilter[k] < |g.columns|
  {
    g.(columns := seq(|chunkFilter|, k requires 0 <= k < |chunkFilter| => g.columns[chunkFilter[k]]))
  }

  method FilterColumns(groups: array<RowGroup>, chunkFilter: seq<nat>)
    requires forall i, k :: 0 <= i < groups.Length && 0 <= k < |chunkFilter| ==>
      chunkFilter[k] < |groups[i].columns|
    modifies groups
    ensures forall i :: 0 <= i < groups.Length ==> groups[i] == Narrowed(old(groups[i]), chunkFilter)
  {
    for i := 0 to groups.Length
      invariant forall j :: 0 <= j < i ==> groups[j] == Narrowed(old(groups[j]), chunkFilter)
      invariant forall j :: i <= j < groups.Length ==> groups[j] == old(groups[j])
    {
      var newChunks: seq<ColumnChunk> := [];
      for k := 0 to |chunkFilter|
        invariant |newChunks| == k
        invariant forall j :: 0 <= j < k ==> newChunks[j] == groups[i].columns[chunkFilter[j]]
        invariant forall j :: 0 <= j < i ==> groups[j] == Narrowed(old(groups[j]), chunkFilter)
        invariant forall j :: i <= j < groups.Length ==> groups[j] == old(groups[j])
      {
        newChunks := newChunks + [groups[i].columns[chunkFilter[k]]];
      }
      assert newChunks == Narrowed(groups[i], chunkFilter).columns;
      groups[i] := groups[i].(columns := newChunks);
    }
  }
}
