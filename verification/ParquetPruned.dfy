/** What the pruned footer is: one well-formed tree, whose leaves still meet their column chunks. */
module ParquetPruned {
  import opened Common
  import opened ParquetSchema
  import opened ParquetPruner

  // ---- when a filter keeps something, and when it leaves a group short of a child ----

  /** Whether filtering `n` with `p` keeps any node: only structs can come out empty. */
  predicate Matches(p: Pruner, n: Node, norm: string -> string)
    decreases p, 1, 0
  {
    match p.tag
    case ValueTag => true
    case StructTag => AnyMatches(p, n.children, norm)
    case ListTag =>
      n.element.hasType || ChildCount(n.element) <= 1 || "element" !in p.children
      || Matches(p.children["element"], n, norm)
    case MapTag => true
  }

  predicate FieldMatches(p: Pruner, n: Node, norm: string -> string)
    decreases p, 0, 0
  {
    var name := norm(n.element.name);
    name in p.children && Matches(p.children[name], n, norm)
  }

  predicate AnyMatches(p: Pruner, ns: seq<Node>, norm: string -> string)
    decreases p, 0, 1 + |ns|
  {
    ns != [] && (FieldMatches(p, ns[0], norm) || AnyMatches(p, ns[1..], norm))
  }

  /**
   * Wherever the request meets a list or a map whose child count is fixed before its element, key
   * or value is filtered, that filter keeps something.
   */
  predicate Intact(p: Pruner, n: Node, norm: string -> string)
    decreases p, 1, 0
  {
    match p.tag
    case ValueTag => true
    case StructTag => AllIntact(p, n.children, norm)
    case ListTag =>
      "element" in p.children && !n.element.hasType ==>
        var element := p.children["element"];
        if ChildCount(n.element) > 1 then Intact(element, n, norm)
        else n.children != [] ==> FilledRepeated(element, n.element, n.children[0], norm)
    case MapTag =>
      "key" in p.children && "value" in p.children && n.children != [] ==>
        var r := n.children[0];
        && (r.children != [] ==> Filled(p.children["key"], r.children[0], norm))
        && (|r.children| > 1 && ChildCount(r.element) == 2 ==> Filled(p.children["value"], r.children[1], norm))
  }

  predicate FilledRepeated(element: Pruner, list: Element, r: Node, norm: string -> string)
    decreases element, 3, 0
  {
    if !ThreeLevels(list, r.element) then Filled(element, r, norm)
    else r.children != [] ==> Filled(element, r.children[0], norm)
  }

  predicate Filled(p: Pruner, n: Node, norm: string -> string)
    decreases p, 2, 0
  {
    Matches(p, n, norm) && Intact(p, n, norm)
  }

  predicate FieldIntact(p: Pruner, n: Node, norm: string -> string)
    decreases p, 0, 0
  {
    var name := norm(n.element.name);
    name in p.children ==> Intact(p.children[name], n, norm)
  }

  predicate AllIntact(p: Pruner, ns: seq<Node>, norm: string -> string)
    decreases p, 0, 1 + |ns|
  {
    ns != [] ==> FieldIntact(p, ns[0], norm) && AllIntact(p, ns[1..], norm)
  }

  // ---- kept trees ----

  /** Every kept node has exactly as many children as its recorded count says. */
  ghost predicate Exact(k: Kept)
    decreases k
  {
    |k.children| == k.count && AllExact(k.children)
  }

  ghost predicate AllExact(ks: seq<Kept>)
    decreases ks
  {
    ks != [] ==> Exact(ks[0]) && AllExact(ks[1..])
  }

  /** No kept node has more children than its recorded count. */
  ghost predicate Fits(k: Kept)
    decreases k
  {
    |k.children| <= k.count && AllFit(k.children)
  }

  ghost predicate AllFit(ks: seq<Kept>)
    decreases ks
  {
    ks != [] ==> Fits(ks[0]) && AllFit(ks[1..])
  }

  lemma {:induction false} AllExactConcat(a: seq<Kept>, b: seq<Kept>)
    ensures AllExact(a + b) <==> AllExact(a) && AllExact(b)
    ensures AllFit(a + b) <==> AllFit(a) && AllFit(b)
  {
    hide Exact, Fits;
    if a == [] {
      assert a + b == b;
    } else {
      AllExactConcat(a[1..], b);
      assert (a + b)[0] == a[0] && (a + b)[1..] == a[1..] + b;
    }
  }

  /** What pruning promises about the shape of its result. */
  ghost predicate Shaped(r: Pruned, matches: bool, intact: bool) {
    r.Done? ==>
      AllFit(KeptSeq(r.kept)) && (r.kept.Some? <==> matches) && (AllExact(KeptSeq(r.kept)) <==> intact)
  }

  lemma {:induction false} ExactOne(k: Kept)
    ensures (AllExact([k]) <==> Exact(k)) && (AllFit([k]) <==> Fits(k))
  {
    assert AllExact([k][1..]) && AllFit([k][1..]);
  }

  lemma {:induction false} PruneShape(p: Pruner, n: Node, i: nat, chunk: nat, norm: string -> string)
    ensures Shaped(Prune(p, n, i, chunk, norm), Matches(p, n, norm), Intact(p, n, norm))
    decreases p, 2, 0
  {
    PruneByTag(p, n, i, chunk, norm);
    match p.tag
    case ValueTag =>
      ExactOne(Kept(i, 0, Some(chunk), []));
    case StructTag =>
      StructShape(p, n, i, chunk, norm);
    case ListTag =>
      ListShape(p, n, i, chunk, norm);
    case MapTag =>
      MapShape(p, n, i, chunk, norm);
  }

  lemma {:induction false} StructShape(p: Pruner, n: Node, i: nat, chunk: nat, norm: string -> string)
    requires p.tag.StructTag?
    ensures Shaped(PruneStruct(p, n, i, chunk, norm), Matches(p, n, norm), Intact(p, n, norm))
    decreases p, 1, 0
  {
    FieldsShape(p, n.children, i + 1, chunk, norm);
    var fields := PruneFields(p, n.children, i + 1, chunk, norm);
    if fields.Fields? {
      ExactOne(Kept(i, |fields.kept|, None, fields.kept));
    }
  }

  lemma {:induction false} FieldsShape(p: Pruner, ns: seq<Node>, i: nat, chunk: nat, norm: string -> string)
    ensures var fields := PruneFields(p, ns, i, chunk, norm); fields.Fields? ==>
      AllFit(fields.kept)
      && (fields.kept != [] <==> AnyMatches(p, ns, norm)) && (AllExact(fields.kept) <==> AllIntact(p, ns, norm))
    decreases p, 0, 1 + |ns|
  {
    hide PruneField, FieldMatches, FieldIntact, Exact, Fits;
    if ns != [] {
      var first := PruneField(p, ns[0], i, chunk, norm);
      FieldShape(p, ns[0], i, chunk, norm);
      PruneFirst(p, ns[0], ns[1..], i, chunk, norm);
      assert [ns[0]] + ns[1..] == ns;
      if first.Done? {
        var rest := PruneFields(p, ns[1..], i + Size(ns[0]), chunk + first.leaves, norm);
        FieldsShape(p, ns[1..], i + Size(ns[0]), chunk + first.leaves, norm);
        if rest.Fields? {
          AllExactConcat(KeptSeq(first.kept), rest.kept);
        }
      }
    }
  }

  lemma {:induction false} FieldShape(p: Pruner, n: Node, i: nat, chunk: nat, norm: string -> string)
    ensures Shaped(PruneField(p, n, i, chunk, norm), FieldMatches(p, n, norm), FieldIntact(p, n, norm))
    decreases p, 0, 0
  {
    var name := norm(n.element.name);
    if name in p.children {
      PruneShape(p.children[name], n, i, chunk, norm);
    }
  }

  /** A group with a fixed count of one comes out exact if its child is kept and exact. */
  lemma {:induction false} UnderOne(i: nat, r: Pruned)
    requires r.Done?
    ensures var k := Kept(i, 1, None, KeptSeq(r.kept));
      Under(i, 1, AsFields(r)) == Done(Some(k), r.leaves)
      && (AllExact([k]) <==> r.kept.Some? && AllExact(KeptSeq(r.kept)))
      && (AllFit([k]) <==> AllFit(KeptSeq(r.kept)))
  {
    ExactOne(Kept(i, 1, None, KeptSeq(r.kept)));
  }

  lemma {:induction false} ListShape(p: Pruner, n: Node, i: nat, chunk: nat, norm: string -> string)
    requires p.tag.ListTag?
    ensures Shaped(PruneList(p, n, i, chunk, norm), Matches(p, n, norm), Intact(p, n, norm))
    decreases p, 1, 0
  {
    if "element" in p.children {
      var element := p.children["element"];
      if n.element.hasType {
        ExactOne(Kept(i, 0, Some(chunk), []));
      } else if ChildCount(n.element) > 1 {
        PruneShape(element, n, i, chunk, norm);
      } else if ChildCount(n.element) == 1 && n.children != [] {
        var r := PruneRepeated(element, n.element, n.children[0], i + 1, chunk, norm);
        RepeatedShape(element, n.element, n.children[0], i + 1, chunk, norm);
        if r.Done? {
          UnderOne(i, r);
        }
      }
    }
  }

  lemma {:induction false} RepeatedShape(
      element: Pruner, list: Element, r: Node, i: nat, chunk: nat, norm: string -> string)
    ensures var result := PruneRepeated(element, list, r, i, chunk, norm); result.Done? ==>
      AllFit(KeptSeq(result.kept))
      && (result.kept.Some? && AllExact(KeptSeq(result.kept)) <==> FilledRepeated(element, list, r, norm))
    decreases element, 3, 0
  {
    if !ThreeLevels(list, r.element) {
      PruneShape(element, r, i, chunk, norm);
    } else if r.children != [] {
      var inner := Prune(element, r.children[0], i + 1, chunk, norm);
      PruneShape(element, r.children[0], i + 1, chunk, norm);
      if inner.Done? {
        UnderOne(i, inner);
      }
    }
  }

  lemma {:induction false} MapShape(p: Pruner, n: Node, i: nat, chunk: nat, norm: string -> string)
    requires p.tag.MapTag?
    ensures Shaped(PruneMap(p, n, i, chunk, norm), Matches(p, n, norm), Intact(p, n, norm))
    decreases p, 1, 0
  {
    if "key" in p.children && "value" in p.children && n.children != [] {
      var r := n.children[0];
      var result := PruneKeyValue(p, r, i + 1, chunk, norm);
      EntryShape(p, r, ChildCount(r.element), i + 2, chunk, norm);
      if result.Done? {
        ExactOne(result.kept.value);
        UnderOne(i, result);
      }
    }
  }

  /** As many kept children as the entry's fixed count, and each of them exact. */
  lemma {:induction false} EntryShape(
      p: Pruner, r: Node, count: int, i: nat, chunk: nat, norm: string -> string)
    requires "key" in p.children && "value" in p.children
    ensures var entry := PruneEntry(p, r, count, i, chunk, norm);
      entry.Fields? && (count == 1 || count == 2) ==>
        |entry.kept| <= count && AllFit(entry.kept) &&
        (|entry.kept| == count && AllExact(entry.kept)
         <==> (r.children != [] ==> Filled(p.children["key"], r.children[0], norm))
              && (|r.children| > 1 && count == 2 ==> Filled(p.children["value"], r.children[1], norm)))
    decreases p, 0, 0
  {
    if r.children != [] {
      var key := Prune(p.children["key"], r.children[0], i, chunk, norm);
      PruneShape(p.children["key"], r.children[0], i, chunk, norm);
      if key.Done? && |r.children| > 1 {
        var at := i + Size(r.children[0]);
        var value := Prune(p.children["value"], r.children[1], at, chunk + key.leaves, norm);
        PruneShape(p.children["value"], r.children[1], at, chunk + key.leaves, norm);
        if value.Done? {
          AllExactConcat(KeptSeq(key.kept), KeptSeq(value.kept));
        }
      }
    }
  }

  // ---- gathering the schema ----

  /** Every kept node stands inside the schema. */
  ghost predicate Inside(ks: seq<Kept>, schema: seq<Element>) {
    forall j :: 0 <= j < |ks| ==> ks[j].index < |schema|
  }

  /** A leaf has no child count to begin with, and stays without. */
  function Recounted(e: Element, count: nat): Element {
    if e.numChildren.None? && count == 0 then e else e.(numChildren := Some(count))
  }

  /** The pruned schema: the kept elements in order, each with its new child count. */
  ghost function Gathered(schema: seq<Element>, ks: seq<Kept>): seq<Element>
    requires Inside(ks, schema)
  {
    seq(|ks|, j requires 0 <= j < |ks| => Recounted(schema[ks[j].index], ks[j].count))
  }

  /** Rebuilds the schema from the two gather maps. */
  method GatherSchema(schema: seq<Element>, schemaMap: seq<nat>, numChildren: seq<nat>, ghost ks: seq<Kept>)
    returns (newSchema: seq<Element>)
    requires schemaMap == Indices(ks) && numChildren == Counts(ks) && Inside(ks, schema)
    ensures newSchema == Gathered(schema, ks)
  {
    newSchema := [];
    for i := 0 to |schemaMap|
      invariant |newSchema| == i
      invariant forall j :: 0 <= j < i ==> newSchema[j] == Recounted(schema[ks[j].index], ks[j].count)
    {
      var origIndex := schemaMap[i];
      newSchema := newSchema + [Recounted(schema[origIndex], numChildren[i])];
    }
  }

  /** The tree that was kept. */
  ghost function KeptTree(schema: seq<Element>, k: Kept): Node
    requires Inside(Preorder(k), schema)
    decreases k, 0
  {
    assert Preorder(k)[0] == k;
    InsideParts([k], PreorderAll(k.children), schema);
    Node(Recounted(schema[k.index], k.count), KeptTrees(schema, k.children))
  }

  ghost function KeptTrees(schema: seq<Element>, ks: seq<Kept>): seq<Node>
    requires Inside(PreorderAll(ks), schema)
    decreases ks, 0
  {
    if ks == [] then []
    else
      InsideParts(Preorder(ks[0]), PreorderAll(ks[1..]), schema);
      [KeptTree(schema, ks[0])] + KeptTrees(schema, ks[1..])
  }

  lemma {:induction false} InsideParts(a: seq<Kept>, b: seq<Kept>, schema: seq<Element>)
    requires Inside(a + b, schema)
    ensures Inside(a, schema) && Inside(b, schema)
    ensures Gathered(schema, a + b) == Gathered(schema, a) + Gathered(schema, b)
  {
    forall j | 0 <= j < |a| ensures a[j].index < |schema| {
      assert (a + b)[j] == a[j];
    }
    forall j | 0 <= j < |b| ensures b[j].index < |schema| {
      assert (a + b)[|a| + j] == b[j];
    }
  }

  lemma {:induction false} FlattenKept(schema: seq<Element>, k: Kept)
    requires Inside(Preorder(k), schema)
    ensures Flatten(KeptTree(schema, k)) == Gathered(schema, Preorder(k))
    decreases k, 0
  {
    InsideParts([k], PreorderAll(k.children), schema);
    FlattenAllKept(schema, k.children);
    assert [k][0].index < |schema|;
    assert Gathered(schema, [k]) == [Recounted(schema[k.index], k.count)];
  }

  /** The gathered list is the depth-first flattening of the kept trees. */
  lemma {:induction false} FlattenAllKept(schema: seq<Element>, ks: seq<Kept>)
    requires Inside(PreorderAll(ks), schema)
    ensures FlattenAll(KeptTrees(schema, ks)) == Gathered(schema, PreorderAll(ks))
    decreases ks, 0
  {
    if ks != [] {
      InsideParts(Preorder(ks[0]), PreorderAll(ks[1..]), schema);
      FlattenKept(schema, ks[0]);
      FlattenAllKept(schema, ks[1..]);
      assert KeptTrees(schema, ks)[1..] == KeptTrees(schema, ks[1..]);
    }
  }

  // ---- the gathered list is one tree exactly when nothing is missing ----

  function SumCounts(elements: seq<Element>): int {
    if elements == [] then 0 else ChildCount(elements[0]) + SumCounts(elements[1..])
  }

  lemma {:induction false} SumCountsConcat(a: seq<Element>, b: seq<Element>)
    ensures SumCounts(a + b) == SumCounts(a) + SumCounts(b)
  {
    if a == [] {
      assert a + b == b;
    } else {
      SumCountsConcat(a[1..], b);
      assert (a + b)[0] == a[0] && (a + b)[1..] == a[1..] + b;
    }
  }

  /** In a tree every element but the root is counted once, by its parent. */
  lemma {:induction false} WellFormedSum(n: Node)
    requires WellFormed(n)
    ensures SumCounts(Flatten(n)) == |Flatten(n)| - 1
    decreases n
  {
    WellFormedSums(n.children);
    SumCountsConcat([n.element], FlattenAll(n.children));
  }

  lemma {:induction false} WellFormedSums(ns: seq<Node>)
    requires AllWellFormed(ns)
    ensures SumCounts(FlattenAll(ns)) == |FlattenAll(ns)| - |ns|
    decreases ns
  {
    if ns != [] {
      WellFormedSum(ns[0]);
      WellFormedSums(ns[1..]);
      SumCountsConcat(Flatten(ns[0]), FlattenAll(ns[1..]));
    }
  }

  /** No node has more children than its count. */
  ghost predicate Bounded(n: Node)
    decreases n
  {
    |n.children| <= ChildCount(n.element) && AllBounded(n.children)
  }

  ghost predicate AllBounded(ns: seq<Node>)
    decreases ns
  {
    ns != [] ==> Bounded(ns[0]) && AllBounded(ns[1..])
  }

  lemma {:induction false} BoundedSum(n: Node)
    requires Bounded(n)
    ensures SumCounts(Flatten(n)) >= |Flatten(n)| - 1
    ensures SumCounts(Flatten(n)) == |Flatten(n)| - 1 ==> WellFormed(n)
    decreases n
  {
    BoundedSums(n.children);
    SumCountsConcat([n.element], FlattenAll(n.children));
  }

  /** The counts of trees short of children sum up to too much. */
  lemma {:induction false} BoundedSums(ns: seq<Node>)
    requires AllBounded(ns)
    ensures SumCounts(FlattenAll(ns)) >= |FlattenAll(ns)| - |ns|
    ensures SumCounts(FlattenAll(ns)) == |FlattenAll(ns)| - |ns| ==> AllWellFormed(ns)
    decreases ns
  {
    if ns != [] {
      BoundedSum(ns[0]);
      BoundedSums(ns[1..]);
      SumCountsConcat(Flatten(ns[0]), FlattenAll(ns[1..]));
    }
  }

  /** The list is the flattening of some well-formed tree, so a reader can parse it. */
  ghost predicate IsTree(elements: seq<Element>) {
    exists t :: WellFormed(t) && Flatten(t) == elements
  }

  lemma {:induction false} TreeExactly(n: Node)
    requires Bounded(n)
    ensures IsTree(Flatten(n)) <==> WellFormed(n)
  {
    BoundedSum(n);
    if IsTree(Flatten(n)) {
      var t :| WellFormed(t) && Flatten(t) == Flatten(n);
      WellFormedSum(t);
    }
  }

  lemma {:induction false} KeptTreeShape(schema: seq<Element>, k: Kept)
    requires Inside(Preorder(k), schema)
    ensures WellFormed(KeptTree(schema, k)) <==> Exact(k)
    ensures Bounded(KeptTree(schema, k)) <==> Fits(k)
    decreases k, 0
  {
    InsideParts([k], PreorderAll(k.children), schema);
    KeptTreesShape(schema, k.children);
  }

  lemma {:induction false} KeptTreesShape(schema: seq<Element>, ks: seq<Kept>)
    requires Inside(PreorderAll(ks), schema)
    ensures |KeptTrees(schema, ks)| == |ks|
    ensures AllWellFormed(KeptTrees(schema, ks)) <==> AllExact(ks)
    ensures AllBounded(KeptTrees(schema, ks)) <==> AllFit(ks)
    decreases ks, 0
  {
    if ks != [] {
      InsideParts(Preorder(ks[0]), PreorderAll(ks[1..]), schema);
      KeptTreeShape(schema, ks[0]);
      KeptTreesShape(schema, ks[1..]);
      assert KeptTrees(schema, ks)[1..] == KeptTrees(schema, ks[1..]);
    }
  }

  // ---- kept leaves and their column chunks ----

  /** Kept nodes between two schema positions, in schema order. */
  ghost predicate Ordered(ks: seq<Kept>, lo: nat, hi: nat) {
    && (forall j :: 0 <= j < |ks| ==> lo <= ks[j].index < hi)
    && (forall j, m :: 0 <= j < m < |ks| ==> ks[j].index < ks[m].index)
  }

  /** The column chunk of the element at `i`: a leaf has as many chunks before it as leaves. */
  ghost function ChunkAt(schema: seq<Element>, i: nat): Option<nat>
    requires i < |schema|
  {
    if schema[i].hasType then Some(LeavesIn(schema[..i])) else None
  }

  /** Every kept node carries the column chunk of the element it stands for. */
  ghost predicate Met(ks: seq<Kept>, schema: seq<Element>) {
    Inside(ks, schema) && forall j :: 0 <= j < |ks| ==> ks[j].chunk == ChunkAt(schema, ks[j].index)
  }

  /** Leaves have no children. */
  ghost predicate Bare(schema: seq<Element>) {
    forall j :: 0 <= j < |schema| && schema[j].hasType ==> ChildCount(schema[j]) == 0
  }

  lemma {:induction false} LeavesBefore(schema: seq<Element>, i: nat, part: seq<Element>)
    requires StandsAt(part, schema, i)
    ensures LeavesIn(schema[..i + |part|]) == LeavesIn(schema[..i]) + LeavesIn(part)
  {
    assert schema[..i + |part|] == schema[..i] + part;
    LeavesInConcat(schema[..i], part);
  }

  lemma {:induction false} LeavesBeforeNext(schema: seq<Element>, i: nat)
    requires i < |schema|
    ensures LeavesIn(schema[..i + Size(Parse(schema, i))]) == LeavesIn(schema[..i]) + Leaves(Parse(schema, i))
    ensures LeavesIn(schema[..i + 1]) == LeavesIn(schema[..i]) + if schema[i].hasType then 1 else 0
  {
    var n := Parse(schema, i);
    ParseIsThere(schema, i);
    FlattenMeasures(n);
    LeavesBefore(schema, i, Flatten(n));
    assert [schema[i]] == schema[i..i + 1];
    LeavesBefore(schema, i, [schema[i]]);
    assert LeavesIn([schema[i]]) == if schema[i].hasType then 1 else 0;
  }

  lemma {:induction false} MetConcat(a: seq<Kept>, b: seq<Kept>, schema: seq<Element>, lo: nat, middle: nat, hi: nat)
    requires Ordered(a, lo, middle) && Ordered(b, middle, hi) && lo <= middle <= hi <= |schema|
    ensures Ordered(a + b, lo, hi)
    ensures Met(a, schema) && Met(b, schema) ==> Met(a + b, schema)
  {
  }

  /** What pruning promises about where its results stand; `chunk` is right if the leaves are bare. */
  ghost predicate Placed(kept: seq<Kept>, leaves: nat, passed: nat, schema: seq<Element>, i: nat, size: nat, chunk: nat)
    requires i + size <= |schema|
  {
    && Ordered(PreorderAll(kept), i, i + size)
    && (Bare(schema) && chunk == LeavesIn(schema[..i]) ==> leaves == passed && Met(PreorderAll(kept), schema))
  }

  lemma {:induction false} NothingPlaced(schema: seq<Element>, i: nat, size: nat, chunk: nat, leaves: nat)
    requires i + size <= |schema|
    ensures Placed([], leaves, leaves, schema, i, size, chunk)
  {
    assert PreorderAll([]) == [];
  }

  lemma {:induction false} LeafPlaced(schema: seq<Element>, i: nat, chunk: nat)
    requires i < |schema| && schema[i].hasType && ChildCount(schema[i]) == 0
    ensures Placed([Kept(i, 0, Some(chunk), [])], 1, Leaves(Parse(schema, i)), schema, i, Size(Parse(schema, i)), chunk)
  {
    var k := Kept(i, 0, Some(chunk), []);
    ParseRoot(schema, i);
    assert PreorderAll([k]) == Preorder(k) + PreorderAll([]) == [k];
  }

  /** A group around placed nodes is placed, if it is no leaf. */
  lemma {:induction false} GroupPlaced(k: Kept, leaves: nat, schema: seq<Element>, i: nat, chunk: nat)
    requires i < |schema| && k.index == i && k.chunk.None? && (Bare(schema) ==> !schema[i].hasType)
    requires var n := Parse(schema, i);
      Placed(k.children, leaves, LeavesAll(n.children), schema, i + 1, Size(n) - 1, chunk)
    ensures var n := Parse(schema, i); Placed([k], leaves, Leaves(n), schema, i, Size(n), chunk)
  {
    var below := PreorderAll(k.children);
    LeavesBeforeNext(schema, i);
    ParseRoot(schema, i);
    assert PreorderAll([k]) == Preorder(k) + PreorderAll([]) == [k] + below;
    MetConcat([k], below, schema, i, i + 1, i + Size(Parse(schema, i)));
  }

  /** Below a group the next chunk is the same as at the group itself. */
  lemma {:induction false} OneBelow(schema: seq<Element>, i: nat, count: nat, kept: seq<Kept>, leaves: nat, chunk: nat)
    requires i + 1 < |schema| && !schema[i].hasType && ChildCount(schema[i]) == 1
    requires var n := Parse(schema, i + 1); Placed(kept, leaves, Leaves(n), schema, i + 1, Size(n), chunk)
    ensures var n := Parse(schema, i);
      Placed([Kept(i, count, None, kept)], leaves, Leaves(n), schema, i, Size(n), chunk)
  {
    hide Placed, Parse;
    OnlyChild(schema, i);
    ParseRoot(schema, i);
    var child := Parse(schema, i + 1);
    assert LeavesAll([child]) == Leaves(child) + LeavesAll([]);
    GroupPlaced(Kept(i, count, None, kept), leaves, schema, i, chunk);
  }

  lemma {:induction false} PruneIsPlaced(p: Pruner, schema: seq<Element>, i: nat, chunk: nat, norm: string -> string)
    requires i < |schema|
    ensures var n := Parse(schema, i); var r := Prune(p, n, i, chunk, norm);
      r.Done? ==> Placed(KeptSeq(r.kept), r.leaves, Leaves(n), schema, i, Size(n), chunk)
    decreases p, 2, 0
  {
    hide Placed, Parse;
    PruneByTag(p, Parse(schema, i), i, chunk, norm);
    match p.tag
    case ValueTag =>
      ValueIsPlaced(schema, i, chunk);
    case StructTag =>
      StructIsPlaced(p, schema, i, chunk, norm);
    case ListTag =>
      ListIsPlaced(p, schema, i, chunk, norm);
    case MapTag =>
      MapIsPlaced(p, schema, i, chunk, norm);
  }

  lemma {:induction false} ValueIsPlaced(schema: seq<Element>, i: nat, chunk: nat)
    requires i < |schema|
    ensures var n := Parse(schema, i); var r := PruneValue(n, i, chunk);
      r.Done? ==> Placed(KeptSeq(r.kept), r.leaves, Leaves(n), schema, i, Size(n), chunk)
  {
    hide Placed, Parse;
    ParseRoot(schema, i);
    if PruneValue(Parse(schema, i), i, chunk).Done? {
      LeafPlaced(schema, i, chunk);
    }
  }

  lemma {:induction false} StructIsPlaced(p: Pruner, schema: seq<Element>, i: nat, chunk: nat, norm: string -> string)
    requires i < |schema|
    ensures var n := Parse(schema, i); var r := PruneStruct(p, n, i, chunk, norm);
      r.Done? ==> Placed(KeptSeq(r.kept), r.leaves, Leaves(n), schema, i, Size(n), chunk)
    decreases p, 1, 0
  {
    hide Placed, Parse, PruneFields;
    var n := Parse(schema, i);
    ParseRoot(schema, i);
    var fields := PruneFields(p, n.children, i + 1, chunk, norm);
    if !n.element.hasType && fields.Fields? {
      FieldsArePlaced(p, schema, i + 1, ChildCount(schema[i]), chunk, norm);
      GroupPlaced(Kept(i, |fields.kept|, None, fields.kept), fields.leaves, schema, i, chunk);
      if fields.kept == [] {
        DroppedIsPlaced(fields.leaves, schema, i, chunk);
      }
    }
  }

  lemma {:induction false} ConsMeasures(n: Node, rest: seq<Node>)
    ensures SizeAll([n] + rest) == Size(n) + SizeAll(rest) && LeavesAll([n] + rest) == Leaves(n) + LeavesAll(rest)
  {
    hide Size, Leaves;
    assert ([n] + rest)[1..] == rest;
  }

  lemma {:induction false} NoMeasures()
    ensures SizeAll([]) == 0 && LeavesAll([]) == 0
  {
  }

  lemma {:induction false} FieldsArePlaced(
      p: Pruner, schema: seq<Element>, i: nat, k: int, chunk: nat, norm: string -> string)
    requires i <= |schema|
    ensures var ns := ParseSome(schema, i, k); var r := PruneFields(p, ns, i, chunk, norm);
      r.Fields? ==> Placed(r.kept, r.leaves, LeavesAll(ns), schema, i, SizeAll(ns), chunk)
    decreases p, 0, 1 + |ParseSome(schema, i, k)|
  {
    hide Placed, Parse, ParseSome, PruneField, PruneFields, Size, SizeAll, Leaves, LeavesAll;
    if k <= 0 || i == |schema| {
      NoneLeft(schema, i, k);
      PruneNone(p, i, chunk, norm);
      NothingPlaced(schema, i, 0, chunk, 0);
      NoMeasures();
    } else {
      var n, rest := Parse(schema, i), ParseSome(schema, i + Size(Parse(schema, i)), k - 1);
      ParseFirst(schema, i, k);
      PruneFirst(p, n, rest, i, chunk, norm);
      ConsMeasures(n, rest);
      var first := PruneField(p, n, i, chunk, norm);
      if first.Done? {
        FieldIsPlaced(p, schema, i, chunk, norm);
        FieldsArePlaced(p, schema, i + Size(n), k - 1, chunk + first.leaves, norm);
        var more := PruneFields(p, rest, i + Size(n), chunk + first.leaves, norm);
        if more.Fields? {
          BothPlaced(KeptSeq(first.kept), first.leaves, more.kept, more.leaves, LeavesAll(rest),
                     schema, i, SizeAll(rest), chunk);
        }
      }
    }
  }

  lemma {:induction false} FieldIsPlaced(p: Pruner, schema: seq<Element>, i: nat, chunk: nat, norm: string -> string)
    requires i < |schema|
    ensures var n := Parse(schema, i); var r := PruneField(p, n, i, chunk, norm);
      r.Done? ==> Placed(KeptSeq(r.kept), r.leaves, Leaves(n), schema, i, Size(n), chunk)
    decreases p, 0, 0
  {
    hide Placed, Parse, Prune;
    var n := Parse(schema, i);
    var name := norm(n.element.name);
    if name in p.children {
      PruneIsPlaced(p.children[name], schema, i, chunk, norm);
    } else {
      NothingPlaced(schema, i, Size(n), chunk, Leaves(n));
    }
  }

  lemma {:induction false} ListIsPlaced(p: Pruner, schema: seq<Element>, i: nat, chunk: nat, norm: string -> string)
    requires i < |schema|
    ensures var n := Parse(schema, i); var r := PruneList(p, n, i, chunk, norm);
      r.Done? ==> Placed(KeptSeq(r.kept), r.leaves, Leaves(n), schema, i, Size(n), chunk)
    decreases p, 1, 0
  {
    hide Placed, Parse, Prune, PruneValue, PruneRepeated;
    var n := Parse(schema, i);
    ParseRoot(schema, i);
    if "element" in p.children {
      var element := p.children["element"];
      if n.element.hasType {
        ValueIsPlaced(schema, i, chunk);
      } else if ChildCount(n.element) > 1 {
        PruneIsPlaced(element, schema, i, chunk, norm);
      } else if ChildCount(n.element) == 1 && n.children != [] {
        OnlyChild(schema, i);
        var r := PruneRepeated(element, n.element, n.children[0], i + 1, chunk, norm);
        if r.Done? {
          RepeatedIsPlaced(element, n.element, schema, i + 1, chunk, norm);
          OneBelow(schema, i, 1, KeptSeq(r.kept), r.leaves, chunk);
        }
      }
    }
  }

  lemma {:induction false} RepeatedIsPlaced(
      element: Pruner, list: Element, schema: seq<Element>, i: nat, chunk: nat, norm: string -> string)
    requires i < |schema|
    ensures var n := Parse(schema, i); var r := PruneRepeated(element, list, n, i, chunk, norm);
      r.Done? ==> Placed(KeptSeq(r.kept), r.leaves, Leaves(n), schema, i, Size(n), chunk)
    decreases element, 3, 0
  {
    hide Placed, Parse, Prune;
    var n := Parse(schema, i);
    ParseRoot(schema, i);
    if !ThreeLevels(list, n.element) {
      PruneIsPlaced(element, schema, i, chunk, norm);
    } else {
      OnlyChild(schema, i);
      if n.children != [] {
        var r := Prune(element, n.children[0], i + 1, chunk, norm);
        if r.Done? {
          PruneIsPlaced(element, schema, i + 1, chunk, norm);
          OneBelow(schema, i, 1, KeptSeq(r.kept), r.leaves, chunk);
        }
      }
    }
  }

  lemma {:induction false} MapIsPlaced(p: Pruner, schema: seq<Element>, i: nat, chunk: nat, norm: string -> string)
    requires i < |schema|
    ensures var n := Parse(schema, i); var r := PruneMap(p, n, i, chunk, norm);
      r.Done? ==> Placed(KeptSeq(r.kept), r.leaves, Leaves(n), schema, i, Size(n), chunk)
    decreases p, 1, 0
  {
    hide Placed, Parse, PruneKeyValue;
    var n := Parse(schema, i);
    ParseRoot(schema, i);
    if PruneMap(p, n, i, chunk, norm).Done? {
      OnlyChild(schema, i);
      var r := PruneKeyValue(p, n.children[0], i + 1, chunk, norm);
      KeyValueIsPlaced(p, schema, i + 1, chunk, norm);
      OneBelow(schema, i, 1, KeptSeq(r.kept), r.leaves, chunk);
    }
  }

  lemma {:induction false} KeyValueIsPlaced(p: Pruner, schema: seq<Element>, i: nat, chunk: nat, norm: string -> string)
    requires i < |schema| && "key" in p.children && "value" in p.children
    ensures var n := Parse(schema, i); var r := PruneKeyValue(p, n, i, chunk, norm);
      r.Done? ==> Placed(KeptSeq(r.kept), r.leaves, Leaves(n), schema, i, Size(n), chunk)
    decreases p, 0, 1
  {
    hide Placed, Parse, PruneEntry;
    var n := Parse(schema, i);
    ParseRoot(schema, i);
    var count := ChildCount(n.element);
    var entry := PruneEntry(p, n, count, i + 1, chunk, norm);
    if PruneKeyValue(p, n, i, chunk, norm).Done? {
      EntryIsPlaced(p, n, schema, i + 1, chunk, norm);
      GroupPlaced(Kept(i, count, None, entry.kept), entry.leaves, schema, i, chunk);
    }
  }

  lemma {:induction false} EntryIsPlaced(
      p: Pruner, r: Node, schema: seq<Element>, i: nat, chunk: nat, norm: string -> string)
    requires i <= |schema| && "key" in p.children && "value" in p.children
    requires var count := ChildCount(r.element); (count == 1 || count == 2) && r.children == ParseSome(schema, i, count)
    ensures var entry := PruneEntry(p, r, ChildCount(r.element), i, chunk, norm);
      entry.Fields? ==> Placed(entry.kept, entry.leaves, LeavesAll(r.children), schema, i, SizeAll(r.children), chunk)
    decreases p, 0, 0
  {
    hide Placed, Parse, Prune, Leaves, Size;
    OneOrTwo(schema, i);
    if r.children != [] {
      var n := r.children[0];
      var key := Prune(p.children["key"], n, i, chunk, norm);
      if key.Done? {
        PruneIsPlaced(p.children["key"], schema, i, chunk, norm);
        assert LeavesAll([n]) == Leaves(n) + LeavesAll([]);
        if |r.children| > 1 {
          var m := r.children[1];
          var value := Prune(p.children["value"], m, i + Size(n), chunk + key.leaves, norm);
          if value.Done? {
            PruneIsPlaced(p.children["value"], schema, i + Size(n), chunk + key.leaves, norm);
            assert r.children[1..] == [m];
            assert LeavesAll([m]) == Leaves(m) + LeavesAll([]);
            BothPlaced(KeptSeq(key.kept), key.leaves, KeptSeq(value.kept), value.leaves, Leaves(m),
                       schema, i, Size(m), chunk);
          }
        }
      }
    }
  }

  /** Kept nodes of a tree at `i` and kept nodes of what follows it. */
  lemma {:induction false} BothPlaced(
      a: seq<Kept>, l: nat, b: seq<Kept>, m: nat, passed: nat, schema: seq<Element>, i: nat, size: nat, chunk: nat)
    requires i < |schema| && i + Size(Parse(schema, i)) + size <= |schema|
    requires var n := Parse(schema, i);
      && Placed(a, l, Leaves(n), schema, i, Size(n), chunk)
      && Placed(b, m, passed, schema, i + Size(n), size, chunk + l)
    ensures var n := Parse(schema, i); Placed(a + b, l + m, Leaves(n) + passed, schema, i, Size(n) + size, chunk)
  {
    hide Parse, Size, Leaves, Bare, ChunkAt, LeavesIn, Ordered, Met, PreorderAll;
    var n := Parse(schema, i);
    LeavesBeforeNext(schema, i);
    PreorderConcat(a, b);
    MetConcat(PreorderAll(a), PreorderAll(b), schema, i, i + Size(n), i + Size(n) + size);
  }

  /** A struct without kept fields is dropped, and passes the chunks of its leaves all the same. */
  lemma {:induction false} DroppedIsPlaced(leaves: nat, schema: seq<Element>, i: nat, chunk: nat)
    requires i < |schema|
    requires var n := Parse(schema, i);
      Placed([Kept(i, 0, None, [])], leaves, Leaves(n), schema, i, Size(n), chunk)
    ensures var n := Parse(schema, i); Placed([], leaves, Leaves(n), schema, i, Size(n), chunk)
  {
    NothingPlaced(schema, i, Size(Parse(schema, i)), chunk, Leaves(Parse(schema, i)));
  }

  // ---- the pruned footer ----

  /** The schema positions of the kept leaves, in order. */
  ghost function KeptLeaves(ks: seq<Kept>, schema: seq<Element>): seq<nat>
    requires Inside(ks, schema)
  {
    if ks == [] then []
    else
      InsideParts([ks[0]], ks[1..], schema);
      assert ks == [ks[0]] + ks[1..];
      assert [ks[0]][0] == ks[0];
      (if schema[ks[0].index].hasType then [ks[0].index] else []) + KeptLeaves(ks[1..], schema)
  }

  /** Strictly ascending schema positions of leaves, none before `lo`. */
  ghost predicate LeafPositions(ls: seq<nat>, schema: seq<Element>, lo: nat) {
    && (forall j :: 0 <= j < |ls| ==> lo <= ls[j] < |schema| && schema[ls[j]].hasType)
    && (forall j, m :: 0 <= j < m < |ls| ==> ls[j] < ls[m])
  }

  /** The chunks are those of the leaves, one for each. */
  ghost predicate ChunksOf(chunks: seq<nat>, ls: seq<nat>, schema: seq<Element>) {
    |chunks| == |ls| && forall j :: 0 <= j < |ls| ==> ls[j] <= |schema| && chunks[j] == LeavesIn(schema[..ls[j]])
  }

  lemma {:induction false} ChunksOfLeaves(ks: seq<Kept>, schema: seq<Element>, lo: nat)
    requires Met(ks, schema) && Ordered(ks, lo, |schema|)
    ensures LeafPositions(KeptLeaves(ks, schema), schema, lo)
    ensures ChunksOf(Chunks(ks), KeptLeaves(ks, schema), schema)
    ensures |KeptLeaves(ks, schema)| == LeavesIn(Gathered(schema, ks))
    decreases |ks|
  {
    hide LeavesIn, Gathered;
    if ks == [] {
      NoneGathered(schema);
    } else {
      var first, rest := ks[0], ks[1..];
      assert ks == [first] + rest;
      InsideParts([first], rest, schema);
      ChunksOfLeaves(rest, schema, first.index + 1);
      assert first.chunk == ChunkAt(schema, first.index);
      assert [first][0].index < |schema|;
      LeavesInConcat(Gathered(schema, [first]), Gathered(schema, rest));
      OneGathered(schema, first);
    }
  }

  lemma {:induction false} NoneGathered(schema: seq<Element>)
    ensures Inside([], schema) && LeavesIn(Gathered(schema, [])) == 0
  {
    assert Gathered(schema, []) == [];
  }

  lemma {:induction false} OneGathered(schema: seq<Element>, k: Kept)
    requires Inside([k], schema) && k.index < |schema|
    ensures LeavesIn(Gathered(schema, [k])) == if schema[k.index].hasType then 1 else 0
  {
    assert Gathered(schema, [k]) == [Recounted(schema[k.index], k.count)];
    assert LeavesIn([]) == 0;
  }

  lemma {:induction false} LeavesAscend(schema: seq<Element>, i: nat, j: nat)
    requires i < j <= |schema| && schema[i].hasType
    ensures LeavesIn(schema[..i]) < LeavesIn(schema[..j]) <= LeavesIn(schema)
  {
    LeavesBeforeNext(schema, i);
    LeavesBefore(schema, i + 1, schema[i + 1..j]);
    LeavesBefore(schema, j, schema[j..]);
    assert schema[..i + 1 + |schema[i + 1..j]|] == schema[..j];
    assert schema[..j + |schema[j..]|] == schema;
  }

  /** The filter accepts the schema and keeps the elements `ks`, in the order of its gather maps. */
  ghost predicate Filters(p: Pruner, schema: seq<Element>, norm: string -> string, ks: seq<Kept>) {
    && schema != []
    && var r := Expected(p, schema, 0, 0, norm);
       r.Done? && ks == PreorderAll(KeptSeq(r.kept))
  }

  lemma {:induction false} KeptIsPlaced(p: Pruner, schema: seq<Element>, norm: string -> string, ks: seq<Kept>)
    requires Filters(p, schema, norm, ks)
    ensures Ordered(ks, 0, |schema|) && Inside(ks, schema)
    ensures Bare(schema) ==> Met(ks, schema)
  {
    hide Prune, Parse, LeavesIn, ChunkAt, Bare, PreorderAll;
    PruneIsPlaced(p, schema, 0, 0, norm);
    assert schema[..0] == [];
    NoLeaves();
  }

  lemma {:induction false} NoLeaves()
    ensures LeavesIn([]) == 0
  {
  }

  /** What the nodes of one kept tree gather is the depth-first list of a tree. */
  lemma {:induction false} KeptGathers(schema: seq<Element>, k: Kept)
    requires Inside(Preorder(k), schema) && Fits(k)
    ensures var list := Gathered(schema, Preorder(k));
      list == Flatten(KeptTree(schema, k)) && (IsTree(list) <==> Exact(k))
    ensures Exact(k) ==> Parse(Gathered(schema, Preorder(k)), 0) == KeptTree(schema, k)
  {
    hide Parse, IsTree, KeptTree, Preorder, Flatten, WellFormed, Bounded, Exact, Fits;
    KeptTreeShape(schema, k);
    FlattenKept(schema, k);
    TreeExactly(KeptTree(schema, k));
    if Exact(k) {
      var list := Gathered(schema, Preorder(k));
      assert list == list[0..|list|];
      FlattenMeasures(KeptTree(schema, k));
      ParseInverts(KeptTree(schema, k), list, 0);
    }
  }

  lemma {:induction false} EmptyIsNoTree()
    ensures !IsTree([])
  {
    forall t ensures Flatten(t) != [] {
      FlattenMeasures(t);
    }
  }

  /**
   * Of every schema the filter accepts: what it gathers is the list of a well-formed tree exactly
   * when the request matches something, and no list or map lost the element, key or value it was
   * counted for. Then reading the list gives the pruned tree.
   */
  lemma {:induction false} PrunedSchemaIsATree(p: Pruner, schema: seq<Element>, norm: string -> string, ks: seq<Kept>)
    requires Filters(p, schema, norm, ks)
    ensures Inside(ks, schema)
    ensures IsTree(Gathered(schema, ks)) <==> Matches(p, Parse(schema, 0), norm) && Intact(p, Parse(schema, 0), norm)
    ensures IsTree(Gathered(schema, ks)) ==>
      exists k :: ks == Preorder(k) && Parse(Gathered(schema, ks), 0) == KeptTree(schema, k)
  {
    hide Prune, Parse, Matches, Intact, IsTree, KeptTree, Preorder, Exact, Fits;
    KeptIsPlaced(p, schema, norm, ks);
    PruneShape(p, Parse(schema, 0), 0, 0, norm);
    var r := Expected(p, schema, 0, 0, norm);
    if r.kept.Some? {
      var k := r.kept.value;
      assert [k][1..] == [] && PreorderAll([]) == [];
      assert ks == Preorder(k) + [] == Preorder(k);
      ExactOne(k);
      KeptGathers(schema, k);
    } else {
      assert ks == [] && Gathered(schema, ks) == [];
      EmptyIsNoTree();
    }
  }

  /**
   * The chunk map is strictly ascending, has one entry for every leaf of the pruned schema, and its
   * `j`-th entry is the chunk the `j`-th kept leaf had in the original schema.
   */
  lemma {:induction false} ChunkMapMeetsLeaves(p: Pruner, schema: seq<Element>, norm: string -> string, ks: seq<Kept>)
    requires Filters(p, schema, norm, ks) && Bare(schema)
    ensures Inside(ks, schema)
    ensures var chunks := Chunks(ks);
      && ChunksOf(chunks, KeptLeaves(ks, schema), schema)
      && |chunks| == LeavesIn(Gathered(schema, ks))
      && (forall i, j :: 0 <= i < j < |chunks| ==> chunks[i] < chunks[j])
      && (forall j :: 0 <= j < |chunks| ==> chunks[j] < LeavesIn(schema))
  {
    hide Prune, Parse, Preorder, Chunks, LeavesIn, KeptLeaves, Met, Bare, Filters;
    KeptIsPlaced(p, schema, norm, ks);
    ChunksOfLeaves(ks, schema, 0);
    var ls := KeptLeaves(ks, schema);
    forall j | 0 <= j < |ls| ensures LeavesIn(schema[..ls[j]]) < LeavesIn(schema) {
      assert schema[..|schema|] == schema;
      LeavesAscend(schema, ls[j], |schema|);
    }
    forall i, j | 0 <= i < j < |ls| ensures LeavesIn(schema[..ls[i]]) < LeavesIn(schema[..ls[j]]) {
      LeavesAscend(schema, ls[i], ls[j]);
    }
  }

  /** Filtering the depth-first list of a well-formed tree prunes that tree. */
  lemma {:induction false} FilterPrunesTheTree(p: Pruner, n: Node, norm: string -> string)
    requires WellFormed(n)
    ensures Expected(p, Flatten(n), 0, 0, norm) == Prune(p, n, 0, 0, norm)
  {
    hide Prune, Flatten, Parse;
    FlattenMeasures(n);
    assert Flatten(n) == Flatten(n)[0..|Flatten(n)|];
    ParseInverts(n, Flatten(n), 0);
  }

  // ---- what goes missing ----

  /** A list whose element struct has none of the requested fields leaves its group without a child. */
  function EmptyElementRequest(): Pruner {
    Pruner(ListTag, map["element" := Pruner(StructTag, map["a" := Pruner(ValueTag, map[])])])
  }

  function EmptyElementSchema(): seq<Element> {
    [ Element("xs", false, Some(1), None, None),
      Element("list", false, Some(1), Some(Repeated), None),
      Element("element", false, Some(1), None, None),
      Element("b", true, None, None, None) ]
  }

  lemma {:induction false} EmptyElementIsNotIntact(same: string -> string)
    requires same("b") == "b"
    ensures var schema := EmptyElementSchema();
      var struct := Parse(schema, 2); var element := EmptyElementRequest().children["element"];
      && struct.element == schema[2] && Prune(element, struct, 2, 0, same) == Done(None, 1)
  {
    var schema := EmptyElementSchema();
    ParseRoot(schema, 2);
    OnlyChild(schema, 2);
    ParseRoot(schema, 3);
    NoneLeft(schema, 4, 0);
    var struct, leaf := Parse(schema, 2), Parse(schema, 3);
    var element := EmptyElementRequest().children["element"];
    PruneByTag(element, struct, 2, 0, same);
    assert leaf.element.name == "b" && LeavesAll([]) == 0;
    assert PruneField(element, leaf, 3, 0, same) == Done(None, 1);
    PruneFirst(element, leaf, [], 3, 0, same);
    assert [leaf] + [] == struct.children;
    PruneNone(element, 3 + Size(leaf), 1, same);
  }

  lemma {:induction false} EmptyElementKeeps(same: string -> string)
    requires same("b") == "b"
    ensures Prune(EmptyElementRequest(), Parse(EmptyElementSchema(), 0), 0, 0, same)
         == Done(Some(Kept(0, 1, None, [Kept(1, 1, None, [])])), 1)
  {
    hide Parse, PruneStruct, PruneFields;
    var schema, p := EmptyElementSchema(), EmptyElementRequest();
    EmptyElementIsNotIntact(same);
    ParseRoot(schema, 0);
    OnlyChild(schema, 0);
    ParseRoot(schema, 1);
    OnlyChild(schema, 1);
    PruneByTag(p, Parse(schema, 0), 0, 0, same);
    assert "list"[0] != "array"[0] && "list"[0] != ("xs" + "_tuple")[0];
    assert ThreeLevels(schema[0], schema[1]);
  }

  /** The filter accepts that schema, and what it gathers is not the list of any tree. */
  lemma {:induction false} EmptyElementIsNoTree(same: string -> string)
    requires same("b") == "b"
    ensures var schema, ks := EmptyElementSchema(), [Kept(0, 1, None, [Kept(1, 1, None, [])]), Kept(1, 1, None, [])];
      Filters(EmptyElementRequest(), schema, same, ks) && Inside(ks, schema) && !IsTree(Gathered(schema, ks))
  {
    hide Parse, Prune, Intact, Matches;
    var schema, p, k := EmptyElementSchema(), EmptyElementRequest(), Kept(0, 1, None, [Kept(1, 1, None, [])]);
    EmptyElementKeeps(same);
    PruneShape(p, Parse(schema, 0), 0, 0, same);
    ExactOne(k);
    assert AllExact(k.children) ==> Exact(k.children[0]);
    var ks := [k] + [k.children[0]];
    PreorderOfTwo(k);
    PrunedSchemaIsATree(p, schema, same, ks);
  }

  lemma {:induction false} PreorderOfTwo(k: Kept)
    requires |k.children| == 1 && k.children[0].children == []
    ensures PreorderAll([k]) == [k] + [k.children[0]]
  {
    var c := k.children[0];
    assert k.children == [c] && [c][1..] == [] && [k][1..] == [];
    assert PreorderAll([]) == [] && Preorder(c) == [c] + PreorderAll([]) == [c];
    assert PreorderAll([c]) == [c] + [] == [c];
    assert Preorder(k) == [k] + [c];
    assert PreorderAll([k]) == Preorder(k) + [] == Preorder(k);
  }

  /** A request that matches no column of its schema. */
  function NoMatchRequest(): Pruner {
    Pruner(StructTag, map[])
  }

  function NoMatchSchema(): seq<Element> {
    [ Element("root", false, Some(1), None, None),
      Element("b", true, None, None, None) ]
  }

  /** The filter accepts that too, keeps nothing, and so gathers no tree although nothing was lost. */
  lemma {:induction false} NoMatchIsNoTree(same: string -> string)
    ensures Filters(NoMatchRequest(), NoMatchSchema(), same, []) && !IsTree(Gathered(NoMatchSchema(), []))
    ensures Intact(NoMatchRequest(), Parse(NoMatchSchema(), 0), same)
  {
  }
}
