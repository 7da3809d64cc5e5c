/** `column_pruner`: what pruning a file tree against a request tree keeps, and the flat filter that does it. */
module ParquetPruner {
  import opened Common
  import opened ParquetSchema

  datatype Tag = ValueTag | StructTag | ListTag | MapTag

  datatype Pruner = Pruner(tag: Tag, children: map<string, Pruner>)

  datatype Problem =
    | OutOfRange | LeafForStruct | GroupForValue | ChildrenOnValue
    | ListNotRepeated | ListNotStandard | ListChildNotRepeated
    | LeafForMap | NotAMap | MapNotStandard | MapChildNotRepeated | MapChildCount

  /** A kept node: where it stands in the schema, its new child count, and the column chunk of a leaf. */
  datatype Kept = Kept(index: nat, count: nat, chunk: Option<nat>, children: seq<Kept>)

  /** What pruning a tree gives; `leaves` is how many column chunks it passed. */
  datatype Pruned = Failed(problem: Problem) | Done(kept: Option<Kept>, leaves: nat)

  datatype PrunedFields = FieldsFailed(problem: Problem) | Fields(kept: seq<Kept>, leaves: nat)

  // ---- pruning trees ----

  function KeptSeq(kept: Option<Kept>): seq<Kept> {
    if kept.Some? then [kept.value] else []
  }

  predicate IsRepeated(e: Element) {
    e.repetition == Some(Repeated)
  }

  predicate IsMap(e: Element) {
    e.converted == Some(Map) || e.converted == Some(MapKeyValue)
  }

  /** The standard list shape, by the backward-compatibility rules for lists. */
  predicate ThreeLevels(list: Element, repeated: Element) {
    && !repeated.hasType && ChildCount(repeated) == 1
    && repeated.name != "array" && repeated.name != list.name + "_tuple"
  }

  /** The result below one more group, whose child count is fixed beforehand. */
  function Under(i: nat, count: nat, fields: PrunedFields): Pruned {
    match fields
    case FieldsFailed(problem) => Failed(problem)
    case Fields(kept, leaves) => Done(Some(Kept(i, count, None, kept)), leaves)
  }

  function AsFields(r: Pruned): PrunedFields {
    match r
    case Failed(problem) => FieldsFailed(problem)
    case Done(kept, leaves) => Fields(KeptSeq(kept), leaves)
  }

  function PruneValue(n: Node, i: nat, chunk: nat): Pruned {
    if !n.element.hasType then Failed(GroupForValue)
    else if ChildCount(n.element) != 0 then Failed(ChildrenOnValue)
    else Done(Some(Kept(i, 0, Some(chunk), [])), 1)
  }

  /** Prunes the tree `n`, which stands at `i` and whose first leaf has column chunk `chunk`. */
  function Prune(p: Pruner, n: Node, i: nat, chunk: nat, norm: string -> string): Pruned
    decreases p, 2, 0
  {
    match p.tag
    case ValueTag => PruneValue(n, i, chunk)
    case StructTag => PruneStruct(p, n, i, chunk, norm)
    case ListTag => PruneList(p, n, i, chunk, norm)
    case MapTag => PruneMap(p, n, i, chunk, norm)
  }

  /** A struct keeps the requested fields, and is dropped if there are none. */
  function PruneStruct(p: Pruner, n: Node, i: nat, chunk: nat, norm: string -> string): Pruned
    decreases p, 1, 0
  {
    if n.element.hasType then Failed(LeafForStruct)
    else
      match PruneFields(p, n.children, i + 1, chunk, norm)
      case FieldsFailed(problem) => Failed(problem)
      case Fields(kept, leaves) => Done(if kept == [] then None else Some(Kept(i, |kept|, None, kept)), leaves)
  }

  function PruneField(p: Pruner, n: Node, i: nat, chunk: nat, norm: string -> string): Pruned
    decreases p, 0, 0
  {
    var name := norm(n.element.name);
    if name in p.children then Prune(p.children[name], n, i, chunk, norm) else Done(None, Leaves(n))
  }

  function PruneFields(p: Pruner, ns: seq<Node>, i: nat, chunk: nat, norm: string -> string): PrunedFields
    decreases p, 0, 1 + |ns|
  {
    if ns == [] then Fields([], 0)
    else
      match PruneField(p, ns[0], i, chunk, norm)
      case Failed(problem) => FieldsFailed(problem)
      case Done(kept, leaves) =>
        match PruneFields(p, ns[1..], i + Size(ns[0]), chunk + leaves, norm)
        case FieldsFailed(problem) => FieldsFailed(problem)
        case Fields(more, moreLeaves) => Fields(KeptSeq(kept) + more, leaves + moreLeaves)
  }

  function PruneList(p: Pruner, n: Node, i: nat, chunk: nat, norm: string -> string): Pruned
    decreases p, 1, 0
  {
    if "element" !in p.children then Failed(OutOfRange)
    else
      var element := p.children["element"];
      if n.element.hasType then
        if !IsRepeated(n.element) then Failed(ListNotRepeated) else PruneValue(n, i, chunk)
      else if ChildCount(n.element) > 1 then
        if !IsRepeated(n.element) then Failed(ListNotRepeated) else Prune(element, n, i, chunk, norm)
      else if ChildCount(n.element) != 1 then Failed(ListNotStandard)
      else if n.children == [] then Failed(OutOfRange)
      else Under(i, 1, AsFields(PruneRepeated(element, n.element, n.children[0], i + 1, chunk, norm)))
  }

  /** The repeated child `r` of a list group: the element itself, or one more group around it. */
  function PruneRepeated(
    element: Pruner, list: Element, r: Node, i: nat, chunk: nat, norm: string -> string): Pruned
    decreases element, 3, 0
  {
    if !IsRepeated(r.element) then Failed(ListChildNotRepeated)
    else if !ThreeLevels(list, r.element) then Prune(element, r, i, chunk, norm)
    else if r.children == [] then Failed(OutOfRange)
    else Under(i, 1, AsFields(Prune(element, r.children[0], i + 1, chunk, norm)))
  }

  function PruneMap(p: Pruner, n: Node, i: nat, chunk: nat, norm: string -> string): Pruned
    decreases p, 1, 0
  {
    if "key" !in p.children || "value" !in p.children then Failed(OutOfRange)
    else if n.element.hasType then Failed(LeafForMap)
    else if !IsMap(n.element) then Failed(NotAMap)
    else if ChildCount(n.element) != 1 then Failed(MapNotStandard)
    else if n.children == [] then Failed(OutOfRange)
    else Under(i, 1, AsFields(PruneKeyValue(p, n.children[0], i + 1, chunk, norm)))
  }

  /** The repeated child `r` of a map group, which holds the keys and the values. */
  function PruneKeyValue(p: Pruner, r: Node, i: nat, chunk: nat, norm: string -> string): Pruned
    requires "key" in p.children && "value" in p.children
    decreases p, 0, 1
  {
    var count := ChildCount(r.element);
    if !IsRepeated(r.element) then Failed(MapChildNotRepeated)
    else if count != 1 && count != 2 then Failed(MapChildCount)
    else Under(i, count, PruneEntry(p, r, count, i + 1, chunk, norm))
  }

  /** The key of a map entry, and its value if it has one. */
  function PruneEntry(p: Pruner, r: Node, count: int, i: nat, chunk: nat, norm: string -> string): PrunedFields
    requires "key" in p.children && "value" in p.children
    decreases p, 0, 0
  {
    if r.children == [] then FieldsFailed(OutOfRange)
    else
      match Prune(p.children["key"], r.children[0], i, chunk, norm)
      case Failed(problem) => FieldsFailed(problem)
      case Done(key, leaves) =>
        if count == 1 then Fields(KeptSeq(key), leaves)
        else if |r.children| == 1 then FieldsFailed(OutOfRange)
        else
          match Prune(p.children["value"], r.children[1], i + Size(r.children[0]), chunk + leaves, norm)
          case Failed(problem) => FieldsFailed(problem)
          case Done(value, more) => Fields(KeptSeq(key) + KeptSeq(value), leaves + more)
  }

  // ---- flattening what was kept ----

  function Preorder(k: Kept): (ks: seq<Kept>)
    ensures |ks| >= 1
    decreases k
  {
    [k] + PreorderAll(k.children)
  }

  function PreorderAll(ks: seq<Kept>): seq<Kept>
    decreases ks
  {
    if ks == [] then [] else Preorder(ks[0]) + PreorderAll(ks[1..])
  }

  function Indices(ks: seq<Kept>): seq<nat> {
    seq(|ks|, j requires 0 <= j < |ks| => ks[j].index)
  }

  function Counts(ks: seq<Kept>): seq<nat> {
    seq(|ks|, j requires 0 <= j < |ks| => ks[j].count)
  }

  function Chunks(ks: seq<Kept>): seq<nat> {
    if ks == [] then []
    else (if ks[0].chunk.Some? then [ks[0].chunk.value] else []) + Chunks(ks[1..])
  }

  lemma {:induction false} PreorderConcat(a: seq<Kept>, b: seq<Kept>)
    ensures PreorderAll(a + b) == PreorderAll(a) + PreorderAll(b)
  {
    hide Preorder;
    if a == [] {
      assert a + b == b;
    } else {
      PreorderConcat(a[1..], b);
      assert (a + b)[0] == a[0] && (a + b)[1..] == a[1..] + b;
      var first, more, rest := Preorder(a[0]), PreorderAll(a[1..]), PreorderAll(b);
      assert first + (more + rest) == (first + more) + rest;
    }
  }

  lemma {:induction false} ChunksConcat(a: seq<Kept>, b: seq<Kept>)
    ensures Chunks(a + b) == Chunks(a) + Chunks(b)
  {
    if a == [] {
      assert a + b == b;
    } else {
      ChunksConcat(a[1..], b);
      assert (a + b)[0] == a[0] && (a + b)[1..] == a[1..] + b;
    }
  }

  lemma {:induction false} IndicesConcat(a: seq<Kept>, b: seq<Kept>)
    ensures Indices(a + b) == Indices(a) + Indices(b) && Counts(a + b) == Counts(a) + Counts(b)
  {
  }

  // ---- the filter over the flat schema ----

  /** Both input cursors and the three output vectors. */
  datatype Cursor = Cursor(
    index: nat, chunk: nat, chunkMap: seq<nat>, schemaMap: seq<nat>, numChildren: seq<nat>)

  /** The cursors moved on, and the kept trees flattened behind the outputs. */
  function After(s: Cursor, kept: seq<Kept>, size: nat, leaves: nat): Cursor {
    var ks := PreorderAll(kept);
    Cursor(s.index + size, s.chunk + leaves,
           s.chunkMap + Chunks(ks), s.schemaMap + Indices(ks), s.numChildren + Counts(ks))
  }

  lemma {:induction false} AfterAfter(s: Cursor, a: seq<Kept>, b: seq<Kept>, i: nat, j: nat, l: nat, m: nat)
    ensures After(After(s, a, i, l), b, j, m) == After(s, a + b, i + j, l + m)
  {
    hide PreorderAll, Chunks, Indices, Counts;
    var x, y := PreorderAll(a), PreorderAll(b);
    PreorderConcat(a, b);
    ChunksConcat(x, y);
    IndicesConcat(x, y);
  }

  /** A group was pushed with its count before its children were filtered. */
  lemma {:induction false} AfterGroup(s: Cursor, group: Kept, size: nat, leaves: nat)
    requires group.chunk.None?
    ensures var pushed := s.(index := s.index + 1, schemaMap := s.schemaMap + [group.index],
                             numChildren := s.numChildren + [group.count]);
      After(pushed, group.children, size, leaves) == After(s, [group], size + 1, leaves)
  {
    var below := PreorderAll(group.children);
    assert PreorderAll([group]) == Preorder(group) + PreorderAll([]);
    assert Preorder(group) == [group] + below;
    assert PreorderAll([group]) == [group] + below;
    assert ([group] + below)[1..] == below;
    assert Indices([group] + below) == [group.index] + Indices(below);
    assert Counts([group] + below) == [group.count] + Counts(below);
  }

  /** What the filter promises when it starts at a schema position, which may be the end. */
  function Expected(p: Pruner, schema: seq<Element>, i: nat, chunk: nat, norm: string -> string): Pruned
    requires i <= |schema|
  {
    if i == |schema| then Failed(OutOfRange) else Prune(p, Parse(schema, i), i, chunk, norm)
  }

  /** The call that started at `s` and stopped at `t` did what pruning says: it failed with the
      same problem, or it consumed one whole subtree and appended what is kept of it. */
  ghost predicate Follows(
    s: Cursor, t: Cursor, problem: Option<Problem>, result: Pruned, size: nat)
  {
    match result
    case Failed(reason) => problem == Some(reason)
    case Done(kept, leaves) => problem == None && t == After(s, KeptSeq(kept), size, leaves)
  }

  function SizeAt(schema: seq<Element>, i: nat): nat
    requires i <= |schema|
  {
    if i == |schema| then 0 else Size(Parse(schema, i))
  }

  /** The variables `filter_schema` passes by reference. */
  class SchemaFilter {
    const schema: seq<Element>
    const norm: string -> string
    var index: nat
    var chunk: nat
    var chunkMap: seq<nat>
    var schemaMap: seq<nat>
    var numChildren: seq<nat>

    constructor (schema: seq<Element>, norm: string -> string)
      ensures this.schema == schema && this.norm == norm
      ensures State() == Cursor(0, 0, [], [], [])
    {
      this.schema, this.norm := schema, norm;
      index, chunk, chunkMap, schemaMap, numChildren := 0, 0, [], [], [];
    }

    ghost predicate Valid()
      reads this
    {
      index <= |schema| && Countable(schema)
    }

    ghost function State(): Cursor
      reads this
    {
      Cursor(index, chunk, chunkMap, schemaMap, numChildren)
    }

    ghost function Result(p: Pruner): Pruned
      requires Valid()
      reads this
    {
      Expected(p, schema, index, chunk, norm)
    }

    method Skip()
      requires Valid()
      modifies `index, `chunk
      ensures Valid() && (index, chunk) == SkipFrom(schema, old(index), old(chunk), 1)
    {
      var numToSkip := 1;
      while numToSkip > 0 && index < |schema|
        invariant Valid()
        invariant SkipFrom(schema, index, chunk, numToSkip) == SkipFrom(schema, old(index), old(chunk), 1)
        decreases |schema| - index
      {
        var item := schema[index];
        if item.hasType {
          chunk := chunk + 1;
        }
        if item.numChildren.Some? {
          numToSkip := numToSkip + item.numChildren.value;
        }
        numToSkip := numToSkip - 1;
        index := index + 1;
      }
    }

    method Push(count: nat)
      requires Valid() && index < |schema|
      modifies `index, `schemaMap, `numChildren
      ensures Valid() && State() == old(State()).(index := old(index) + 1,
        schemaMap := old(schemaMap) + [old(index)], numChildren := old(numChildren) + [count])
    {
      schemaMap := schemaMap + [index];
      numChildren := numChildren + [count];
      index := index + 1;
    }

    method FilterValue() returns (problem: Option<Problem>)
      requires Valid()
      modifies this
      ensures Valid()
      ensures Follows(old(State()), State(), problem,
        if old(index) == |schema| then Failed(OutOfRange)
        else PruneValue(Parse(schema, old(index)), old(index), old(chunk)),
        old(SizeAt(schema, index)))
    {
      if index == |schema| {
        return Some(OutOfRange);
      }
      var item := schema[index];
      if !item.hasType {
        return Some(GroupForValue);
      }
      if ChildCount(item) != 0 {
        return Some(ChildrenOnValue);
      }
      LeafAfter(State());
      Push(0);
      chunkMap := chunkMap + [chunk];
      chunk := chunk + 1;
      return None;
    }

    /** One child of a struct: filtered if it was requested, skipped if not. */
    method FilterField(p: Pruner) returns (problem: Option<Problem>)
      requires Valid() && index < |schema|
      modifies this
      ensures Valid()
      ensures Follows(old(State()), State(), problem,
        PruneField(p, Parse(schema, old(index)), old(index), old(chunk), norm), old(SizeAt(schema, index)))
      decreases p, 0, 0
    {
      hide Prune, Parse, Leaves, After;
      var name := norm(schema[index].name);
      assert Parse(schema, index).element == schema[index] by {
        ParseRoot(schema, index);
      }
      if name in p.children {
        problem := FilterSchema(p.children[name]);
      } else {
        SkipsOne(schema, index, chunk, 0);
        NothingAfter(State(), SizeAt(schema, index), Leaves(Parse(schema, index)));
        Skip();
        problem := None;
      }
    }

    method FilterStruct(p: Pruner) returns (problem: Option<Problem>)
      requires Valid() && p.tag.StructTag?
      modifies this
      ensures Valid()
      ensures Follows(old(State()), State(), problem, old(Result(p)), old(SizeAt(schema, index)))
      decreases p, 1
    {
      hide Prune, PruneField, PruneFields, Parse, ParseSome, Size, After, Progress, Countable;
      if index == |schema| {
        return Some(OutOfRange);
      }
      var item := schema[index];
      ghost var start, n := State(), Parse(schema, index);
      PruneByTag(p, n, index, chunk, norm);
      ParseRoot(schema, index);
      if item.hasType {
        return Some(LeafForStruct);
      }
      Push(0);
      ProgressStart(p, n, start, norm);
      var matched;
      ghost var done, passed;
      problem, matched, done, passed := FilterFields(p, ChildCount(item), |numChildren| - 1, n, start);
      if problem.Some? {
        return;
      }
      if matched == 0 {
        schemaMap := schemaMap[..|schemaMap| - 1];
        numChildren := numChildren[..|numChildren| - 1];
        assert schemaMap == start.schemaMap && numChildren == start.numChildren;
      }
    }

    /** The loop over the children of a struct; `position` is where the struct's own count stands. */
    method FilterFields(p: Pruner, count: int, position: nat, ghost n: Node, ghost start: Cursor)
      returns (problem: Option<Problem>, matched: nat, ghost done: seq<Kept>, ghost passed: nat)
      requires Valid() && n.children == ParseSome(schema, index, count) && position == |start.numChildren|
      requires Progress(p, n, start, State(), [], n.children, 0, norm)
      modifies this
      ensures Valid()
      ensures problem.Some? ==>
        PruneFields(p, n.children, start.index + 1, start.chunk, norm) == FieldsFailed(problem.value)
      ensures problem.None? ==> matched == |done| && Ends(p, n, start, State(), done, passed, norm)
      decreases p, 0, 1
    {
      hide Prune, PruneField, PruneFields, Parse, ParseSome, Size, After, Progress, Countable;
      done, passed, matched, problem := [], 0, 0, None;
      ghost var rest := n.children;
      var childId := 0;
      while childId < count && index < |schema|
        invariant Valid() && problem == None && rest == ParseSome(schema, index, count - childId)
        invariant matched == |done| && Progress(p, n, start, State(), done, rest, passed, norm)
        decreases count - childId
      {
        var before := |schemaMap|;
        ghost var was, first := State(), Parse(schema, index);
        ghost var result := PruneField(p, first, index, chunk, norm);
        ParseFirst(schema, index, count - childId);
        problem := FilterField(p);
        if problem.Some? {
          ProgressFails(p, n, start, was, done, rest, passed, norm);
          return;
        }
        ProgressStep(p, n, start, was, done, rest, passed, norm);
        AfterCursor(was, KeptSeq(result.kept), Size(first), result.leaves);
        Grows(was, result.kept, Size(first), result.leaves);
        done, rest, passed := done + KeptSeq(result.kept), rest[1..], passed + result.leaves;
        if |schemaMap| > before {
          matched := matched + 1;
          numChildren := numChildren[position := numChildren[position] + 1];
        }
        childId := childId + 1;
      }
      NoneLeft(schema, index, count - childId);
      ProgressEnds(p, n, start, State(), done, passed, norm);
    }

    method FilterList(p: Pruner) returns (problem: Option<Problem>)
      requires Valid() && p.tag.ListTag?
      modifies this
      ensures Valid()
      ensures Follows(old(State()), State(), problem, old(Result(p)), old(SizeAt(schema, index)))
      decreases p, 1
    {
      hide Prune, Parse, ParseSome, Size, After, PruneValue, Countable;
      if "element" !in p.children {
        ListWithoutElement(p, schema, index, chunk, norm);
        return Some(OutOfRange);
      }
      var element := p.children["element"];
      if index == |schema| {
        return Some(OutOfRange);
      }
      var list := schema[index];
      ghost var start, n := State(), Parse(schema, index);
      PruneByTag(p, n, index, chunk, norm);
      ParseRoot(schema, index);
      if list.hasType {
        if !IsRepeated(list) {
          return Some(ListNotRepeated);
        }
        problem := FilterValue();
        return;
      }
      if ChildCount(list) > 1 {
        if !IsRepeated(list) {
          return Some(ListNotRepeated);
        }
        problem := FilterSchema(element);
        return;
      }
      if ChildCount(list) != 1 {
        return Some(ListNotStandard);
      }
      OnlyChild(schema, index);
      Push(1);
      if index == |schema| {
        return Some(OutOfRange);
      }
      ghost var size, result := SizeAt(schema, index),
        PruneRepeated(element, list, Parse(schema, index), index, chunk, norm);
      problem := FilterRepeated(element, list);
      if problem.None? {
        AfterGroup(start, Kept(start.index, 1, None, KeptSeq(result.kept)), size, result.leaves);
      }
    }

    /** The repeated child of a list group. */
    method FilterRepeated(element: Pruner, list: Element) returns (problem: Option<Problem>)
      requires Valid() && index < |schema|
      modifies this
      ensures Valid()
      ensures Follows(old(State()), State(), problem,
        PruneRepeated(element, list, Parse(schema, old(index)), old(index), old(chunk), norm),
        old(SizeAt(schema, index)))
      decreases element, 3
    {
      hide Prune, Parse, ParseSome, Size, After, Countable;
      var repeated := schema[index];
      ghost var start := State();
      ParseRoot(schema, index);
      if !IsRepeated(repeated) {
        return Some(ListChildNotRepeated);
      }
      if ThreeLevels(list, repeated) {
        OnlyChild(schema, index);
        Push(1);
        ghost var size, result := SizeAt(schema, index), Expected(element, schema, index, chunk, norm);
        problem := FilterSchema(element);
        if problem.None? {
          AfterGroup(start, Kept(start.index, 1, None, KeptSeq(result.kept)), size, result.leaves);
        }
      } else {
        problem := FilterSchema(element);
      }
    }

    method FilterMap(p: Pruner) returns (problem: Option<Problem>)
      requires Valid() && p.tag.MapTag?
      modifies this
      ensures Valid()
      ensures Follows(old(State()), State(), problem, old(Result(p)), old(SizeAt(schema, index)))
      decreases p, 1
    {
      hide Prune, Parse, ParseSome, Size, After, PruneValue, Countable;
      if "key" !in p.children || "value" !in p.children {
        MapWithoutEntry(p, schema, index, chunk, norm);
        return Some(OutOfRange);
      }
      var key, value := p.children["key"], p.children["value"];
      if index == |schema| {
        return Some(OutOfRange);
      }
      var item := schema[index];
      ghost var start, n := State(), Parse(schema, index);
      PruneByTag(p, n, index, chunk, norm);
      ParseRoot(schema, index);
      if item.hasType {
        return Some(LeafForMap);
      }
      if !IsMap(item) {
        return Some(NotAMap);
      }
      if ChildCount(item) != 1 {
        return Some(MapNotStandard);
      }
      OnlyChild(schema, index);
      Push(1);
      if index == |schema| {
        return Some(OutOfRange);
      }
      ghost var size, result := SizeAt(schema, index), PruneKeyValue(p, Parse(schema, index), index, chunk, norm);
      problem := FilterKeyValue(p);
      if problem.None? {
        AfterGroup(start, Kept(start.index, 1, None, KeptSeq(result.kept)), size, result.leaves);
      }
    }

    /** The repeated child of a map group. */
    method FilterKeyValue(p: Pruner) returns (problem: Option<Problem>)
      requires Valid() && index < |schema| && "key" in p.children && "value" in p.children
      modifies this
      ensures Valid()
      ensures Follows(old(State()), State(), problem,
        PruneKeyValue(p, Parse(schema, old(index)), old(index), old(chunk), norm), old(SizeAt(schema, index)))
      decreases p, 0, 1
    {
      hide Prune, Parse, ParseSome, Size, After, Countable, PruneEntry;
      var repeated := schema[index];
      ghost var start, r := State(), Parse(schema, index);
      ParseRoot(schema, index);
      if !IsRepeated(repeated) {
        return Some(MapChildNotRepeated);
      }
      var count := ChildCount(repeated);
      if count != 1 && count != 2 {
        return Some(MapChildCount);
      }
      Push(count);
      ghost var entry := PruneEntry(p, r, count, index, chunk, norm);
      problem := FilterEntry(p, count, r);
      if problem.None? {
        AfterGroup(start, Kept(start.index, count, None, entry.kept), SizeAll(r.children), entry.leaves);
      }
    }

    /** The key of a map entry, and the value if the entry has one. */
    method FilterEntry(p: Pruner, count: int, ghost r: Node) returns (problem: Option<Problem>)
      requires Valid() && "key" in p.children && "value" in p.children && (count == 1 || count == 2)
      requires r.children == ParseSome(schema, index, count)
      modifies this
      ensures Valid()
      ensures match PruneEntry(p, r, count, old(index), old(chunk), norm)
        case FieldsFailed(reason) => problem == Some(reason)
        case Fields(kept, leaves) =>
          problem == None && State() == After(old(State()), kept, SizeAll(r.children), leaves)
      decreases p, 0, 0
    {
      hide Prune, Parse, ParseSome, After, Size, SizeAll, Countable;
      OneOrTwo(schema, index);
      ghost var start, first := State(), Expected(p.children["key"], schema, index, chunk, norm);
      problem := FilterSchema(p.children["key"]);
      if problem.Some? {
        return;
      }
      AfterCursor(start, KeptSeq(first.kept), SizeAt(schema, start.index), first.leaves);
      if count == 1 {
        return;
      }
      ghost var middle, second := State(), Expected(p.children["value"], schema, index, chunk, norm);
      problem := FilterSchema(p.children["value"]);
      if problem.None? {
        AfterAfter(start, KeptSeq(first.kept), KeptSeq(second.kept), SizeAt(schema, start.index),
          SizeAt(schema, middle.index), first.leaves, second.leaves);
      }
    }

    /** Filters the subtree at the cursor. */
    method FilterSchema(p: Pruner) returns (problem: Option<Problem>)
      requires Valid()
      modifies this
      ensures Valid()
      ensures Follows(old(State()), State(), problem, old(Result(p)), old(SizeAt(schema, index)))
      decreases p, 2
    {
      hide PruneValue, Parse;
      match p.tag
      case StructTag =>
        problem := FilterStruct(p);
      case ValueTag =>
        problem := FilterValue();
      case ListTag =>
        problem := FilterList(p);
      case MapTag =>
        problem := FilterMap(p);
    }
  }

  lemma {:induction false} AfterCursor(s: Cursor, kept: seq<Kept>, size: nat, leaves: nat)
    ensures After(s, kept, size, leaves).index == s.index + size
    ensures After(s, kept, size, leaves).chunk == s.chunk + leaves
  {
  }

  /** One or two sibling trees at `i`, or fewer where the list ends. */
  lemma {:induction false} OneOrTwo(schema: seq<Element>, i: nat)
    requires i <= |schema|
    ensures var one, two := ParseSome(schema, i, 1), ParseSome(schema, i, 2);
      if i == |schema| then one == [] && two == []
      else
        var first, next := Parse(schema, i), i + Size(Parse(schema, i));
        && one == [first] && SizeAll(one) == Size(first)
        && two == (if next == |schema| then [first] else [first, Parse(schema, next)])
        && SizeAll(two) == Size(first) + SizeAt(schema, next)
  {
    hide Parse, Size;
    if i < |schema| {
      var next := i + Size(Parse(schema, i));
      ParseFirst(schema, i, 1);
      ParseFirst(schema, i, 2);
      if next < |schema| {
        ParseFirst(schema, next, 1);
        assert ParseSome(schema, i, 2)[1..] == [Parse(schema, next)];
      }
    }
  }

  lemma {:induction false} ListWithoutElement(p: Pruner, schema: seq<Element>, i: nat, chunk: nat,
                                              norm: string -> string)
    requires p.tag.ListTag? && "element" !in p.children && i <= |schema|
    ensures Expected(p, schema, i, chunk, norm) == Failed(OutOfRange)
  {
    if i < |schema| {
      PruneByTag(p, Parse(schema, i), i, chunk, norm);
    }
  }

  lemma {:induction false} MapWithoutEntry(p: Pruner, schema: seq<Element>, i: nat, chunk: nat, norm: string -> string)
    requires p.tag.MapTag? && ("key" !in p.children || "value" !in p.children) && i <= |schema|
    ensures Expected(p, schema, i, chunk, norm) == Failed(OutOfRange)
  {
    if i < |schema| {
      PruneByTag(p, Parse(schema, i), i, chunk, norm);
    }
  }

  /** A node that declares one child has it, unless the list ends. */
  lemma {:induction false} OnlyChild(schema: seq<Element>, i: nat)
    requires i < |schema| && ChildCount(schema[i]) == 1
    ensures Parse(schema, i).children == if i + 1 == |schema| then [] else [Parse(schema, i + 1)]
    ensures Size(Parse(schema, i)) == 1 + SizeAt(schema, i + 1)
  {
    ParseRoot(schema, i);
    if i + 1 < |schema| {
      ParseFirst(schema, i + 1, 1);
    }
  }

  /** A group's entry, with the count it has so far. */
  function Pushed(s: Cursor, count: nat): Cursor {
    s.(index := s.index + 1, schemaMap := s.schemaMap + [s.index], numChildren := s.numChildren + [count])
  }

  /** The fields already pruned in front of those still to come. */
  function Behind(done: seq<Kept>, passed: nat, rest: PrunedFields): PrunedFields {
    match rest
    case FieldsFailed(problem) => FieldsFailed(problem)
    case Fields(kept, leaves) => Fields(done + kept, passed + leaves)
  }

  lemma {:induction false} BehindBehind(a: seq<Kept>, b: seq<Kept>, l: nat, m: nat)
    ensures forall later :: Behind(a, l, Behind(b, m, later)) == Behind(a + b, l + m, later)
  {
    forall later ensures Behind(a, l, Behind(b, m, later)) == Behind(a + b, l + m, later) {
      if later.Fields? {
        assert a + (b + later.kept) == (a + b) + later.kept;
      }
    }
  }

  lemma {:induction false} PruneFirst(p: Pruner, n: Node, rest: seq<Node>, i: nat, chunk: nat, norm: string -> string)
    ensures var result := PruneField(p, n, i, chunk, norm);
      PruneFields(p, [n] + rest, i, chunk, norm) ==
        match result
        case Failed(problem) => FieldsFailed(problem)
        case Done(kept, leaves) =>
          Behind(KeptSeq(kept), leaves, PruneFields(p, rest, i + Size(n), chunk + leaves, norm))
  {
    hide PruneField;
    assert ([n] + rest)[1..] == rest;
  }

  lemma {:induction false} PruneNone(p: Pruner, i: nat, chunk: nat, norm: string -> string)
    ensures PruneFields(p, [], i, chunk, norm) == Fields([], 0)
  {
  }

  lemma {:induction false} PruneByTag(p: Pruner, n: Node, i: nat, chunk: nat, norm: string -> string)
    ensures p.tag.ValueTag? ==> Prune(p, n, i, chunk, norm) == PruneValue(n, i, chunk)
    ensures p.tag.StructTag? ==> Prune(p, n, i, chunk, norm) == PruneStruct(p, n, i, chunk, norm)
    ensures p.tag.ListTag? ==> Prune(p, n, i, chunk, norm) == PruneList(p, n, i, chunk, norm)
    ensures p.tag.MapTag? ==> Prune(p, n, i, chunk, norm) == PruneMap(p, n, i, chunk, norm)
  {
  }

  lemma {:induction false} CountUp(s: Cursor, count: nat, kept: seq<Kept>, size: nat, leaves: nat)
    ensures var was := After(Pushed(s, count), kept, size, leaves);
      var now := After(Pushed(s, count + 1), kept, size, leaves);
      |s.numChildren| < |was.numChildren| && now == Counted(was, |s.numChildren|)
      && was.numChildren[|s.numChildren|] == count
  {
  }

  /** One more kept child for the group whose count stands at `position`. */
  function Counted(s: Cursor, position: nat): Cursor
    requires position < |s.numChildren|
  {
    s.(numChildren := s.numChildren[position := s.numChildren[position] + 1])
  }

  /**
   * The loop of a struct that stands at `start`: the fields in `done` are kept below its entry, and
   * pruning all fields comes to `done` and whatever pruning the `rest` gives.
   */
  ghost predicate Progress(
    p: Pruner, n: Node, start: Cursor, now: Cursor, done: seq<Kept>, rest: seq<Node>, passed: nat,
    norm: string -> string)
  {
    && 1 + SizeAll(rest) <= Size(n)
    && now == After(Pushed(start, |done|), done, Size(n) - 1 - SizeAll(rest), passed)
    && PruneFields(p, n.children, start.index + 1, start.chunk, norm)
       == Behind(done, passed, PruneFields(p, rest, now.index, now.chunk, norm))
  }

  lemma {:induction false} ProgressStart(p: Pruner, n: Node, start: Cursor, norm: string -> string)
    ensures Progress(p, n, start, Pushed(start, 0), [], n.children, 0, norm)
  {
    hide PruneFields;
    NothingAfter(Pushed(start, 0), 0, 0);
    BehindNothing(PruneFields(p, n.children, start.index + 1, start.chunk, norm));
  }

  lemma {:induction false} BehindNothing(later: PrunedFields)
    ensures Behind([], 0, later) == later
  {
  }

  lemma {:induction false} ProgressFails(
      p: Pruner, n: Node, start: Cursor, was: Cursor, done: seq<Kept>, rest: seq<Node>, passed: nat,
      norm: string -> string)
    requires rest != [] && Progress(p, n, start, was, done, rest, passed, norm)
    requires PruneField(p, rest[0], was.index, was.chunk, norm).Failed?
    ensures PruneFields(p, n.children, start.index + 1, start.chunk, norm)
         == FieldsFailed(PruneField(p, rest[0], was.index, was.chunk, norm).problem)
  {
    PruneFirst(p, rest[0], rest[1..], was.index, was.chunk, norm);
    assert [rest[0]] + rest[1..] == rest;
  }

  lemma {:induction false} ProgressStep(
      p: Pruner, n: Node, start: Cursor, was: Cursor, done: seq<Kept>, rest: seq<Node>, passed: nat,
      norm: string -> string)
    requires rest != [] && Progress(p, n, start, was, done, rest, passed, norm)
    requires PruneField(p, rest[0], was.index, was.chunk, norm).Done?
    ensures var result := PruneField(p, rest[0], was.index, was.chunk, norm);
      var next, position := After(was, KeptSeq(result.kept), Size(rest[0]), result.leaves), |start.numChildren|;
      position < |next.numChildren|
      && Progress(p, n, start, if result.kept.Some? then Counted(next, position) else next,
                  done + KeptSeq(result.kept), rest[1..], passed + result.leaves, norm)
  {
    hide PruneField, PruneFields, Size, PreorderAll, Chunks, Indices, Counts;
    var result := PruneField(p, rest[0], was.index, was.chunk, norm);
    var size, first, more: nat := Size(n) - 1 - SizeAll(rest), Size(rest[0]), |done|;
    PruneFirst(p, rest[0], rest[1..], was.index, was.chunk, norm);
    assert [rest[0]] + rest[1..] == rest;
    BehindBehind(done, KeptSeq(result.kept), passed, result.leaves);
    AfterAfter(Pushed(start, more), done, KeptSeq(result.kept), size, first, passed, result.leaves);
    CountUp(start, more, done + KeptSeq(result.kept), size + first, passed + result.leaves);
  }

  /** The loop is over: everything is pruned, and the struct's entry carries the final count. */
  ghost predicate Ends(
    p: Pruner, n: Node, start: Cursor, now: Cursor, done: seq<Kept>, passed: nat, norm: string -> string)
  {
    && PruneFields(p, n.children, start.index + 1, start.chunk, norm) == Fields(done, passed)
    && (done != [] ==> now == After(start, [Kept(start.index, |done|, None, done)], Size(n), passed))
    && (done == [] ==> now == Pushed(start, 0).(index := start.index + Size(n), chunk := start.chunk + passed))
    && After(start, [], Size(n), passed) == start.(index := start.index + Size(n), chunk := start.chunk + passed)
  }

  lemma {:induction false} ProgressEnds(
      p: Pruner, n: Node, start: Cursor, now: Cursor, done: seq<Kept>, passed: nat, norm: string -> string)
    requires Progress(p, n, start, now, done, [], passed, norm)
    ensures Ends(p, n, start, now, done, passed, norm)
  {
    PruneNone(p, now.index, now.chunk, norm);
    var size := Size(n) - 1;
    NothingAfter(Pushed(start, 0), size, passed);
    NothingAfter(start, Size(n), passed);
    AfterGroup(start, Kept(start.index, |done|, None, done), size, passed);
  }

  lemma {:induction false} NoneLeft(schema: seq<Element>, i: nat, k: int)
    requires i <= |schema| && (k <= 0 || i == |schema|)
    ensures ParseSome(schema, i, k) == []
  {
  }

  lemma {:induction false} NothingAfter(s: Cursor, size: nat, leaves: nat)
    ensures After(s, [], size, leaves) == s.(index := s.index + size, chunk := s.chunk + leaves)
  {
    assert PreorderAll([]) == [];
    assert Indices([]) == [] && Counts([]) == [];
  }

  lemma {:induction false} ParseRoot(schema: seq<Element>, i: nat)
    requires i < |schema|
    ensures Parse(schema, i) == Node(schema[i], ParseSome(schema, i + 1, ChildCount(schema[i])))
    ensures Size(Parse(schema, i)) == 1 + SizeAll(Parse(schema, i).children)
  {
  }

  /** The schema map grows exactly when something is kept. */
  lemma {:induction false} Grows(s: Cursor, kept: Option<Kept>, size: nat, leaves: nat)
    ensures |After(s, KeptSeq(kept), size, leaves).schemaMap| > |s.schemaMap| <==> kept.Some?
    ensures kept.None? ==> After(s, [], size, leaves) == s.(index := s.index + size, chunk := s.chunk + leaves)
  {
    NothingAfter(s, size, leaves);
    if kept.Some? {
      assert PreorderAll([kept.value]) == Preorder(kept.value) + PreorderAll([]);
    }
  }

  lemma {:induction false} LeafAfter(s: Cursor)
    ensures After(s, [Kept(s.index, 0, Some(s.chunk), [])], 1, 1)
         == Cursor(s.index + 1, s.chunk + 1, s.chunkMap + [s.chunk], s.schemaMap + [s.index], s.numChildren + [0])
  {
    var k := Kept(s.index, 0, Some(s.chunk), []);
    assert PreorderAll([k]) == Preorder(k) + PreorderAll([]) == [k];
    assert Chunks([k]) == [s.chunk] + Chunks([]);
    assert Indices([k]) == [s.index] && Counts([k]) == [0];
  }
}