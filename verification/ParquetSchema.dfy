/** Parquet schemas as depth-first lists, and the trees those lists stand for. */
module ParquetSchema {
  import opened Common

  datatype Repetition = Required | Optional | Repeated

  datatype Converted = Map | MapKeyValue | OtherConverted

  /** `SchemaElement`; an element with a physical type is a leaf, any other is a group. */
  datatype Element = Element(
    name: string, hasType: bool, numChildren: Option<int>, repetition: Option<Repetition>, converted: Option<Converted>)

  function ChildCount(e: Element): int {
    if e.numChildren.Some? then e.numChildren.value else 0
  }

  datatype Node = Node(element: Element, children: seq<Node>)

  // ---- measures of trees ----

  function Size(n: Node): (size: nat)
    ensures size >= 1
    decreases n
  {
    1 + SizeAll(n.children)
  }

  function SizeAll(ns: seq<Node>): nat
    decreases ns
  {
    if ns == [] then 0 else Size(ns[0]) + SizeAll(ns[1..])
  }

  function Leaves(n: Node): nat
    decreases n
  {
    (if n.element.hasType then 1 else 0) + LeavesAll(n.children)
  }

  function LeavesAll(ns: seq<Node>): nat
    decreases ns
  {
    if ns == [] then 0 else Leaves(ns[0]) + LeavesAll(ns[1..])
  }

  function Flatten(n: Node): seq<Element>
    decreases n
  {
    [n.element] + FlattenAll(n.children)
  }

  function FlattenAll(ns: seq<Node>): seq<Element>
    decreases ns
  {
    if ns == [] then [] else Flatten(ns[0]) + FlattenAll(ns[1..])
  }

  /** Every element declares as many children as it has. */
  ghost predicate WellFormed(n: Node)
    decreases n
  {
    |n.children| == ChildCount(n.element) && AllWellFormed(n.children)
  }

  ghost predicate AllWellFormed(ns: seq<Node>)
    decreases ns
  {
    ns != [] ==> WellFormed(ns[0]) && AllWellFormed(ns[1..])
  }

  /** How many leaves a list of elements has: the index of the next leaf's column chunk. */
  function LeavesIn(elements: seq<Element>): nat {
    if elements == [] then 0 else (if elements[0].hasType then 1 else 0) + LeavesIn(elements[1..])
  }

  lemma {:induction false} LeavesInConcat(a: seq<Element>, b: seq<Element>)
    ensures LeavesIn(a + b) == LeavesIn(a) + LeavesIn(b)
  {
    if a == [] {
      assert a + b == b;
    } else {
      LeavesInConcat(a[1..], b);
      assert (a + b)[0] == a[0] && (a + b)[1..] == a[1..] + b;
    }
  }

  lemma {:induction false} FlattenMeasures(n: Node)
    ensures |Flatten(n)| == Size(n) && LeavesIn(Flatten(n)) == Leaves(n)
    decreases n
  {
    FlattenAllMeasures(n.children);
    LeavesInConcat([n.element], FlattenAll(n.children));
  }

  lemma {:induction false} FlattenAllMeasures(ns: seq<Node>)
    ensures |FlattenAll(ns)| == SizeAll(ns) && LeavesIn(FlattenAll(ns)) == LeavesAll(ns)
    decreases ns
  {
    if ns != [] {
      FlattenMeasures(ns[0]);
      FlattenAllMeasures(ns[1..]);
      LeavesInConcat(Flatten(ns[0]), FlattenAll(ns[1..]));
    }
  }

  // ---- the tree a list stands for ----

  /** The tree at `i`; where the list ends too early, the last nodes lack children. */
  function Parse(schema: seq<Element>, i: nat): (n: Node)
    requires i < |schema|
    ensures i + Size(n) <= |schema|
    decreases |schema| - i, 0
  {
    Node(schema[i], ParseSome(schema, i + 1, ChildCount(schema[i])))
  }

  /** Up to `k` sibling trees from `i` on. */
  function ParseSome(schema: seq<Element>, i: nat, k: int): (ns: seq<Node>)
    requires i <= |schema|
    ensures i + SizeAll(ns) <= |schema|
    decreases |schema| - i, 1
  {
    if k <= 0 || i == |schema| then []
    else
      var n := Parse(schema, i);
      [n] + ParseSome(schema, i + Size(n), k - 1)
  }

  lemma {:induction false} ParseFirst(schema: seq<Element>, i: nat, k: int)
    requires k > 0 && i < |schema|
    ensures var n := Parse(schema, i);
      ParseSome(schema, i, k) == [n] + ParseSome(schema, i + Size(n), k - 1)
  {
    hide Parse, Size;
  }

  lemma {:induction false} ParseIsThere(schema: seq<Element>, i: nat)
    requires i < |schema|
    ensures Flatten(Parse(schema, i)) == schema[i..i + Size(Parse(schema, i))]
    decreases |schema| - i, 0
  {
    ParseSomeIsThere(schema, i + 1, ChildCount(schema[i]));
  }

  lemma {:induction false} ThereInParts(schema: seq<Element>, n: Node, rest: seq<Node>, i: nat)
    requires var middle := i + Size(n); var end := middle + SizeAll(rest);
      end <= |schema| && Flatten(n) == schema[i..middle] && FlattenAll(rest) == schema[middle..end]
    ensures FlattenAll([n] + rest) == schema[i..i + SizeAll([n] + rest)]
  {
    hide Flatten, Size;
    assert ([n] + rest)[1..] == rest;
  }

  lemma {:induction false} NothingFlat()
    ensures FlattenAll([]) == []
  {
  }

  /** Parsing loses nothing: the parsed trees flatten to the part of the list they came from. */
  lemma {:induction false} ParseSomeIsThere(schema: seq<Element>, i: nat, k: int)
    requires i <= |schema|
    ensures FlattenAll(ParseSome(schema, i, k)) == schema[i..i + SizeAll(ParseSome(schema, i, k))]
    decreases |schema| - i, 1
  {
    hide Parse, Flatten, Size, FlattenAll;
    if k > 0 && i < |schema| {
      var n := Parse(schema, i);
      var middle := i + Size(n);
      var rest := ParseSome(schema, middle, k - 1);
      ParseFirst(schema, i, k);
      ParseIsThere(schema, i);
      ParseSomeIsThere(schema, middle, k - 1);
      ThereInParts(schema, n, rest, i);
    } else {
      assert FlattenAll([]) == [] by {
        NothingFlat();
      }
      assert ParseSome(schema, i, k) == [];
    }
  }

  /** The elements of a flattened tree stand in the list from `i` on. */
  ghost predicate StandsAt(part: seq<Element>, schema: seq<Element>, i: nat) {
    i + |part| <= |schema| && part == schema[i..i + |part|]
  }

  lemma {:induction false} StandsSplit(a: seq<Element>, b: seq<Element>, schema: seq<Element>, i: nat)
    requires StandsAt(a + b, schema, i)
    ensures StandsAt(a, schema, i) && StandsAt(b, schema, i + |a|)
  {
    var part := a + b;
    assert a == part[..|a|] == schema[i..i + |a|];
    assert b == part[|a|..] == schema[i + |a|..i + |part|];
  }

  lemma {:induction false} ParseInverts(n: Node, schema: seq<Element>, i: nat)
    requires WellFormed(n) && StandsAt(Flatten(n), schema, i)
    ensures Parse(schema, i) == n
    decreases n
  {
    StandsSplit([n.element], FlattenAll(n.children), schema, i);
    ParseSomeInverts(n.children, schema, i + 1);
  }

  /** Parsing inverts flattening, for well-formed trees standing anywhere in a list. */
  lemma {:induction false} ParseSomeInverts(ns: seq<Node>, schema: seq<Element>, i: nat)
    requires AllWellFormed(ns) && StandsAt(FlattenAll(ns), schema, i)
    ensures ParseSome(schema, i, |ns|) == ns
    decreases ns
  {
    hide Parse, Flatten, WellFormed, StandsAt, ParseSome;
    if ns != [] {
      var first, rest := Flatten(ns[0]), FlattenAll(ns[1..]);
      StandsSplit(first, rest, schema, i);
      FlattenMeasures(ns[0]);
      StandsInside(first, schema, i);
      ParseFirst(schema, i, |ns|);
      ParseInverts(ns[0], schema, i);
      ParseSomeInverts(ns[1..], schema, i + |first|);
      assert ns == [ns[0]] + ns[1..];
    } else {
      StandsInside([], schema, i);
      ParseNone(schema, i);
    }
  }

  lemma {:induction false} StandsInside(part: seq<Element>, schema: seq<Element>, i: nat)
    requires StandsAt(part, schema, i)
    ensures i + |part| <= |schema|
  {
  }

  lemma {:induction false} ParseNone(schema: seq<Element>, i: nat)
    requires i <= |schema|
    ensures ParseSome(schema, i, 0) == []
  {
  }

  // ---- skipping ----

  /** Both cursors after skipping `k` subtrees; the walk stops at the end of the list. */
  function SkipFrom(schema: seq<Element>, i: nat, chunk: nat, k: int): (nat, nat)
    requires i <= |schema|
    decreases |schema| - i
  {
    if k <= 0 || i == |schema| then (i, chunk)
    else SkipFrom(schema, i + 1, if schema[i].hasType then chunk + 1 else chunk, k + ChildCount(schema[i]) - 1)
  }

  ghost predicate Countable(schema: seq<Element>) {
    forall e :: e in schema ==> ChildCount(e) >= 0
  }

  lemma {:induction false} SkipsOne(schema: seq<Element>, i: nat, chunk: nat, k: nat)
    requires Countable(schema) && i < |schema|
    ensures var n := Parse(schema, i);
      SkipFrom(schema, i, chunk, k + 1) == SkipFrom(schema, i + Size(n), chunk + Leaves(n), k)
    decreases |schema| - i, 0
  {
    var count := ChildCount(schema[i]);
    SkipsSome(schema, i + 1, if schema[i].hasType then chunk + 1 else chunk, count, k);
  }

  /** Skipping passes whole subtrees: as many elements, and as many column chunks, as they have. */
  lemma {:induction false} SkipsSome(schema: seq<Element>, i: nat, chunk: nat, count: nat, k: nat)
    requires Countable(schema) && i <= |schema|
    ensures var ns := ParseSome(schema, i, count);
      SkipFrom(schema, i, chunk, k + count) == SkipFrom(schema, i + SizeAll(ns), chunk + LeavesAll(ns), k)
    decreases |schema| - i, 1
  {
    hide Parse, Size, Leaves;
    if count > 0 && i < |schema| {
      var n := Parse(schema, i);
      SkipsOne(schema, i, chunk, k + count - 1);
      SkipsSome(schema, i + Size(n), chunk + Leaves(n), count - 1, k);
      assert ParseSome(schema, i, count)[1..] == ParseSome(schema, i + Size(n), count - 1);
    }
  }
}
