/** Pruning a whole footer: schema, column orders, row groups and their columns. */
module ParquetFooter {
  import opened Common
  import opened ParquetSchema
  import opened ParquetPruner
  import opened ParquetPruned
  import opened RowGroups

  datatype Footer = Footer(schema: seq<Element>, columnOrders: Option<seq<int>>, groups: seq<RowGroup>)

  /** The file is what its format promises: one chunk and one column order for every leaf. */
  ghost predicate ValidFooter(f: Footer) {
    && Countable(f.schema) && Bare(f.schema)
    && (forall g :: g in f.groups ==> |g.columns| == LeavesIn(f.schema) > 0)
    && (f.columnOrders.Some? ==> |f.columnOrders.value| == LeavesIn(f.schema))
  }

  /** The kept nodes of a footer's schema, in order. */
  ghost function KeptNodes(p: Pruner, f: Footer, norm: string -> string): seq<Kept>
    requires Expected(p, f.schema, 0, 0, norm).Done?
  {
    PreorderAll(KeptSeq(Expected(p, f.schema, 0, 0, norm).kept))
  }

  ghost predicate InRangeOf(chunks: seq<nat>, n: nat) {
    forall j :: 0 <= j < |chunks| ==> chunks[j] < n
  }

  lemma {:induction false} KeptChunksExist(p: Pruner, f: Footer, norm: string -> string)
    requires ValidFooter(f) && Expected(p, f.schema, 0, 0, norm).Done?
    ensures Inside(KeptNodes(p, f, norm), f.schema)
    ensures InRangeOf(Chunks(KeptNodes(p, f, norm)), LeavesIn(f.schema))
  {
    hide Prune, Parse, Bare;
    assert Filters(p, f.schema, norm, KeptNodes(p, f, norm));
    ChunkMapMeetsLeaves(p, f.schema, norm, KeptNodes(p, f, norm));
  }

  ghost function Picked<T>(from: seq<T>, chunks: seq<nat>): seq<T>
    requires InRangeOf(chunks, |from|)
  {
    seq(|chunks|, j requires 0 <= j < |chunks| => from[chunks[j]])
  }

  method Pick<T>(from: seq<T>, chunkMap: seq<nat>) returns (picked: seq<T>)
    requires InRangeOf(chunkMap, |from|)
    ensures picked == Picked(from, chunkMap)
  {
    picked := [];
    for j := 0 to |chunkMap|
      invariant |picked| == j && forall i :: 0 <= i < j ==> picked[i] == from[chunkMap[i]]
    {
      picked := picked + [from[chunkMap[j]]];
    }
  }

  /** The row groups to keep, each with the rows before it; a negative length keeps all. */
  ghost function Selected(f: Footer, partOffset: int, partLength: int): seq<Chosen>
    requires HaveColumns(f.groups)
  {
    if partLength >= 0 then SelectFrom(f.groups, 0, partOffset, partLength)
    else seq(|f.groups|, i requires 0 <= i < |f.groups| => Chosen(f.groups[i], RowsBefore(f.groups, i)))
  }

  /** Selection makes no row groups up. */
  lemma {:induction false} SelectedAreOriginal(f: Footer, partOffset: int, partLength: int)
    requires HaveColumns(f.groups)
    ensures forall j :: 0 <= j < |Selected(f, partOffset, partLength)| ==>
      Selected(f, partOffset, partLength)[j].group in f.groups
  {
    var selected := Selected(f, partOffset, partLength);
    if partLength >= 0 {
      forall j | 0 <= j < |selected| ensures selected[j].group in f.groups {
        SelectedAreTaken(f.groups, 0, partOffset, partLength, selected[j]);
      }
    }
  }

  /** The chosen row groups with only the kept columns. */
  ghost predicate NarrowedTo(groups: seq<RowGroup>, chosen: seq<Chosen>, chunks: seq<nat>)
  {
    && |groups| == |chosen|
    && forall j :: 0 <= j < |chosen| ==>
      InRangeOf(chunks, |chosen[j].group.columns|) && groups[j] == Narrowed(chosen[j].group, chunks)
  }

  method NarrowGroups(groups: seq<RowGroup>, chunkMap: seq<nat>, ghost chosen: seq<Chosen>, ghost offsets: seq<int>)
    returns (narrowed: seq<RowGroup>)
    requires Lists(chosen, groups, offsets)
    requires forall j :: 0 <= j < |chosen| ==> InRangeOf(chunkMap, |chosen[j].group.columns|)
    ensures NarrowedTo(narrowed, chosen, chunkMap)
  {
    var work := new RowGroup[|groups|](i requires 0 <= i < |groups| => groups[i]);
    forall i | 0 <= i < work.Length ensures InRangeOf(chunkMap, |work[i].columns|) {
      assert chosen[i].group == groups[i];
    }
    FilterColumns(work, chunkMap);
    narrowed := work[..];
  }

  method ReadAndFilter(p: Pruner, f: Footer, partOffset: int, partLength: int, norm: string -> string)
    returns (problem: Option<Problem>, pruned: Footer, rowIndexOffsets: seq<int>)
    requires ValidFooter(f)
    ensures problem == match Expected(p, f.schema, 0, 0, norm)
      case Failed(reason) => Some(reason)
      case Done(_, _) => None
    ensures problem.None? ==>
      Inside(KeptNodes(p, f, norm), f.schema) && pruned.schema == Gathered(f.schema, KeptNodes(p, f, norm))
    ensures problem.None? ==>
      var chunks := Chunks(KeptNodes(p, f, norm));
      InRangeOf(chunks, LeavesIn(f.schema))
      && pruned.columnOrders == (if f.columnOrders.None? then None else Some(Picked(f.columnOrders.value, chunks)))
    ensures problem.None? ==>
      var chunks, selected := Chunks(KeptNodes(p, f, norm)), Selected(f, partOffset, partLength);
      && NarrowedTo(pruned.groups, selected, chunks)
      && |rowIndexOffsets| == |selected|
      && forall j :: 0 <= j < |selected| ==> rowIndexOffsets[j] == selected[j].firstRow
  {
    hide Prune, Parse, Chunks, PreorderAll, Bare, LeavesIn, SelectFrom;
    pruned, rowIndexOffsets := f, [];
    var filter := new SchemaFilter(f.schema, norm);
    problem := filter.FilterSchema(p);
    if problem.Some? {
      return;
    }
    ghost var ks := KeptNodes(p, f, norm);
    ghost var selected := Selected(f, partOffset, partLength);
    KeptChunksExist(p, f, norm);
    SelectedAreOriginal(f, partOffset, partLength);
    assert filter.chunkMap == Chunks(ks) && filter.schemaMap == Indices(ks) && filter.numChildren == Counts(ks);
    var newSchema := GatherSchema(f.schema, filter.schemaMap, filter.numChildren, ks);
    var newOrder := None;
    if f.columnOrders.Some? {
      var picked := Pick(f.columnOrders.value, filter.chunkMap);
      newOrder := Some(picked);
    }
    var groups := f.groups;
    if partLength >= 0 {
      groups, rowIndexOffsets := FilterGroups(f.groups, partOffset, partLength);
    } else {
      rowIndexOffsets := AllOffsets(f.groups);
    }
    groups := NarrowGroups(groups, filter.chunkMap, selected, rowIndexOffsets);
    pruned := Footer(newSchema, newOrder, groups);
  }
}
