/** Which columns a request accepts, by the rules of the format, and which complaint comes first. */
module ParquetConforms {
  import opened Common
  import opened ParquetSchema
  import opened ParquetPruner

  // ---- the rules ----

  /** The element declares `k` children; leaving the count out declares none. */
  predicate Declares(e: Element, k: int) {
    e.numChildren == Some(k) || (k == 0 && e.numChildren == None)
  }

  predicate DeclaresSeveral(e: Element) {
    e.numChildren.Some? && e.numChildren.value >= 2
  }

  predicate Repeats(e: Element) {
    e.repetition.Some? && e.repetition.value.Repeated?
  }

  predicate ConvertsToMap(e: Element) {
    e.converted.Some? && (e.converted.value.Map? || e.converted.value.MapKeyValue?)
  }

  /** A leaf of the schema: it has a type and no children. */
  predicate IsColumn(e: Element) {
    e.hasType && Declares(e, 0)
  }

  /** Rules 1 to 3 for lists: the repeated field itself is the element. */
  predicate IsElement(list: Element, repeated: Element) {
    repeated.hasType || !Declares(repeated, 1) || repeated.name == "array" || repeated.name == list.name + "_tuple"
  }

  /** The tree has the shape the request expects of it; what is not requested may have any shape. */
  predicate Conforms(p: Pruner, n: Node, norm: string -> string)
    decreases p, 1
  {
    match p.tag
    case ValueTag => IsColumn(n.element)
    case StructTag =>
      && !n.element.hasType
      && forall j :: 0 <= j < |n.children| ==> FieldConforms(p, n.children[j], norm)
    case ListTag => "element" in p.children && ListConforms(p.children["element"], n, norm)
    case MapTag =>
      && "key" in p.children && "value" in p.children
      && !n.element.hasType && ConvertsToMap(n.element) && Declares(n.element, 1) && n.children != []
      && var r := n.children[0];
         && Repeats(r.element) && (Declares(r.element, 1) || Declares(r.element, 2))
         && r.children != [] && Conforms(p.children["key"], r.children[0], norm)
         && (Declares(r.element, 2) ==> |r.children| >= 2 && Conforms(p.children["value"], r.children[1], norm))
  }

  predicate FieldConforms(p: Pruner, n: Node, norm: string -> string)
    decreases p, 0
  {
    var name := norm(n.element.name);
    name in p.children ==> Conforms(p.children[name], n, norm)
  }

  /** A repeated column; a repeated group of several fields; or a group around a repeated field. */
  predicate ListConforms(element: Pruner, n: Node, norm: string -> string)
    decreases element, 2
  {
    if n.element.hasType then Repeats(n.element) && IsColumn(n.element)
    else if DeclaresSeveral(n.element) then Repeats(n.element) && Conforms(element, n, norm)
    else
      && Declares(n.element, 1) && n.children != []
      && var r := n.children[0];
         && Repeats(r.element)
         && if IsElement(n.element, r.element) then Conforms(element, r, norm)
            else r.children != [] && Conforms(element, r.children[0], norm)
  }

  // ---- the complaints, in order ----

  /** One thing asked of a tree: that something holds of it, or that a part conforms to part of the request. */
  datatype Check = Must(holds: bool, otherwise: Problem) | Below(key: string, node: Node)

  function ColumnChecks(e: Element): seq<Check> {
    [Must(e.hasType, GroupForValue), Must(Declares(e, 0), ChildrenOnValue)]
  }

  function FieldChecks(p: Pruner, ns: seq<Node>, norm: string -> string): seq<Check> {
    if ns == [] then []
    else
      var name := norm(ns[0].element.name);
      (if name in p.children then [Below(name, ns[0])] else []) + FieldChecks(p, ns[1..], norm)
  }

  function RepeatedChecks(list: Element, r: Node): seq<Check> {
    [Must(Repeats(r.element), ListChildNotRepeated)]
    + if IsElement(list, r.element) then [Below("element", r)]
      else if r.children == [] then [Must(false, OutOfRange)]
      else [Below("element", r.children[0])]
  }

  function ListChecks(n: Node): seq<Check> {
    if n.element.hasType then [Must(Repeats(n.element), ListNotRepeated)] + ColumnChecks(n.element)
    else if DeclaresSeveral(n.element) then [Must(Repeats(n.element), ListNotRepeated)] + [Below("element", n)]
    else
      [Must(Declares(n.element, 1), ListNotStandard)]
      + if n.children == [] then [Must(false, OutOfRange)] else RepeatedChecks(n.element, n.children[0])
  }

  function ValueChecks(r: Node): seq<Check> {
    if !Declares(r.element, 2) then []
    else if |r.children| < 2 then [Must(false, OutOfRange)]
    else [Below("value", r.children[1])]
  }

  function EntryChecks(r: Node): seq<Check> {
    [Must(Repeats(r.element), MapChildNotRepeated)]
    + ([Must(Declares(r.element, 1) || Declares(r.element, 2), MapChildCount)]
       + if r.children == [] then [Must(false, OutOfRange)] else [Below("key", r.children[0])] + ValueChecks(r))
  }

  function MapChecks(n: Node): seq<Check> {
    [Must(!n.element.hasType, LeafForMap)]
    + ([Must(ConvertsToMap(n.element), NotAMap)]
       + ([Must(Declares(n.element, 1), MapNotStandard)]
          + if n.children == [] then [Must(false, OutOfRange)] else EntryChecks(n.children[0])))
  }

  /** All that a request asks of a tree, in the order in which it is found missing. */
  function Checks(p: Pruner, n: Node, norm: string -> string): seq<Check> {
    match p.tag
    case ValueTag => ColumnChecks(n.element)
    case StructTag => [Must(!n.element.hasType, LeafForStruct)] + FieldChecks(p, n.children, norm)
    case ListTag => [Must("element" in p.children, OutOfRange)] + ListChecks(n)
    case MapTag => [Must("key" in p.children && "value" in p.children, OutOfRange)] + MapChecks(n)
  }

  /** The first complaint, if any. */
  function Refusal(p: Pruner, n: Node, norm: string -> string): Option<Problem>
    decreases p, 1, 0
  {
    First(p, Checks(p, n, norm), norm)
  }

  function First(p: Pruner, checks: seq<Check>, norm: string -> string): Option<Problem>
    decreases p, 0, |checks|
  {
    if checks == [] then None
    else if One(p, checks[0], norm).Some? then One(p, checks[0], norm)
    else First(p, checks[1..], norm)
  }

  function One(p: Pruner, check: Check, norm: string -> string): Option<Problem>
    decreases p, 0, 0
  {
    match check
    case Must(holds, otherwise) => if holds then None else Some(otherwise)
    case Below(key, node) =>
      if key in p.children then Refusal(p.children[key], node, norm) else Some(OutOfRange)
  }

  lemma {:induction false} FirstAfter(p: Pruner, c: Check, rest: seq<Check>, norm: string -> string)
    ensures First(p, [c] + rest, norm) == if One(p, c, norm).Some? then One(p, c, norm) else First(p, rest, norm)
  {
    hide One;
    assert ([c] + rest)[1..] == rest;
  }

  lemma {:induction false} FirstOfOne(p: Pruner, c: Check, norm: string -> string)
    ensures First(p, [c], norm) == One(p, c, norm)
    ensures First(p, [], norm) == None
  {
    FirstAfter(p, c, [], norm);
    assert [c] + [] == [c];
  }

  lemma {:induction false} MustSays(p: Pruner, holds: bool, otherwise: Problem, norm: string -> string)
    ensures One(p, Must(holds, otherwise), norm) == if holds then None else Some(otherwise)
  {
  }

  lemma {:induction false} BelowSays(p: Pruner, key: string, node: Node, norm: string -> string)
    requires key in p.children
    ensures One(p, Below(key, node), norm) == Refusal(p.children[key], node, norm)
  {
    hide Refusal;
  }

  lemma {:induction false} RulesMean(e: Element)
    ensures forall k :: Declares(e, k) <==> ChildCount(e) == k && (e.numChildren.Some? || k == 0)
    ensures Declares(e, 0) <==> ChildCount(e) == 0
    ensures Declares(e, 1) <==> ChildCount(e) == 1
    ensures Declares(e, 2) <==> ChildCount(e) == 2
    ensures DeclaresSeveral(e) <==> ChildCount(e) > 1
    ensures Repeats(e) <==> IsRepeated(e)
    ensures ConvertsToMap(e) <==> IsMap(e)
  {
  }

  ghost function ProblemOf(r: Pruned): Option<Problem> {
    if r.Failed? then Some(r.problem) else None
  }

  ghost function FieldsProblem(r: PrunedFields): Option<Problem> {
    if r.FieldsFailed? then Some(r.problem) else None
  }

  lemma {:induction false} UnderProblem(i: nat, count: nat, r: Pruned)
    ensures ProblemOf(Under(i, count, AsFields(r))) == ProblemOf(r)
  {
  }

  lemma {:induction false} ColumnRefuses(p: Pruner, n: Node, i: nat, chunk: nat, norm: string -> string)
    ensures ProblemOf(PruneValue(n, i, chunk)) == First(p, ColumnChecks(n.element), norm)
  {
    RulesMean(n.element);
    var a, b := Must(n.element.hasType, GroupForValue), Must(Declares(n.element, 0), ChildrenOnValue);
    assert ColumnChecks(n.element) == [a] + [b];
    FirstAfter(p, a, [b], norm);
    FirstOfOne(p, b, norm);
    MustSays(p, n.element.hasType, GroupForValue, norm);
    MustSays(p, Declares(n.element, 0), ChildrenOnValue, norm);
    hide First, One, Declares;
  }

  /** Pruning complains exactly of what is first missing, and succeeds if nothing is. */
  lemma {:induction false} PruneRefuses(p: Pruner, n: Node, i: nat, chunk: nat, norm: string -> string)
    ensures ProblemOf(Prune(p, n, i, chunk, norm)) == Refusal(p, n, norm)
    decreases p, 2, 0
  {
    PruneByTag(p, n, i, chunk, norm);
    assert Refusal(p, n, norm) == First(p, Checks(p, n, norm), norm);
    hide Prune, Refusal, First;
    match p.tag
    case ValueTag => ColumnRefuses(p, n, i, chunk, norm);
    case StructTag => StructRefuses(p, n, i, chunk, norm);
    case ListTag => ListRefuses(p, n, i, chunk, norm);
    case MapTag => MapRefuses(p, n, i, chunk, norm);
  }

  lemma {:induction false} StructRefuses(p: Pruner, n: Node, i: nat, chunk: nat, norm: string -> string)
    requires p.tag.StructTag?
    ensures ProblemOf(PruneStruct(p, n, i, chunk, norm)) == First(p, Checks(p, n, norm), norm)
    decreases p, 1, 0
  {
    hide First, One, FieldChecks, PruneFields;
    FirstAfter(p, Must(!n.element.hasType, LeafForStruct), FieldChecks(p, n.children, norm), norm);
    MustSays(p, !n.element.hasType, LeafForStruct, norm);
    FieldsRefuse(p, n.children, i + 1, chunk, norm);
  }

  lemma {:induction false} FieldsRefuse(p: Pruner, ns: seq<Node>, i: nat, chunk: nat, norm: string -> string)
    ensures FieldsProblem(PruneFields(p, ns, i, chunk, norm)) == First(p, FieldChecks(p, ns, norm), norm)
    decreases p, 0, 1 + |ns|
  {
    hide PruneField, One;
    if ns == [] {
      PruneNone(p, i, chunk, norm);
    } else {
      var first, rest := PruneField(p, ns[0], i, chunk, norm), FieldChecks(p, ns[1..], norm);
      PruneFirst(p, ns[0], ns[1..], i, chunk, norm);
      assert [ns[0]] + ns[1..] == ns;
      FieldRefuses(p, ns[0], i, chunk, norm);
      hide First;
      if first.Done? {
        FieldsRefuse(p, ns[1..], i + Size(ns[0]), chunk + first.leaves, norm);
      }
      var name := norm(ns[0].element.name);
      if name in p.children {
        FirstAfter(p, Below(name, ns[0]), rest, norm);
      } else {
        assert [] + rest == rest;
      }
    }
  }

  lemma {:induction false} FieldRefuses(p: Pruner, n: Node, i: nat, chunk: nat, norm: string -> string)
    ensures var name := norm(n.element.name);
      ProblemOf(PruneField(p, n, i, chunk, norm)) == if name in p.children then One(p, Below(name, n), norm) else None
    decreases p, 0, 0
  {
    hide Prune, Refusal;
    var name := norm(n.element.name);
    if name in p.children {
      PruneRefuses(p.children[name], n, i, chunk, norm);
    }
  }

  lemma {:induction false} ListRefuses(p: Pruner, n: Node, i: nat, chunk: nat, norm: string -> string)
    requires p.tag.ListTag?
    ensures ProblemOf(PruneList(p, n, i, chunk, norm)) == First(p, Checks(p, n, norm), norm)
    decreases p, 1, 0
  {
    hide First, One, ListChecks, Prune, PruneValue, PruneRepeated, Refusal;
    FirstAfter(p, Must("element" in p.children, OutOfRange), ListChecks(n), norm);
    MustSays(p, "element" in p.children, OutOfRange, norm);
    if "element" in p.children {
      ListBodyRefuses(p, n, i, chunk, norm);
    }
  }

  lemma {:induction false} ListBodyRefuses(p: Pruner, n: Node, i: nat, chunk: nat, norm: string -> string)
    requires p.tag.ListTag? && "element" in p.children
    ensures ProblemOf(PruneList(p, n, i, chunk, norm)) == First(p, ListChecks(n), norm)
    decreases p, 0, 1
  {
    hide First, One, Prune, PruneValue, PruneRepeated, Refusal, RepeatedChecks, ColumnChecks, Declares, Repeats,
      IsRepeated;
    var e, element := n.element, p.children["element"];
    RulesMean(e);
    if e.hasType {
      FirstAfter(p, Must(Repeats(e), ListNotRepeated), ColumnChecks(e), norm);
      MustSays(p, Repeats(e), ListNotRepeated, norm);
      ColumnRefuses(p, n, i, chunk, norm);
    } else if DeclaresSeveral(e) {
      FirstAfter(p, Must(Repeats(e), ListNotRepeated), [Below("element", n)], norm);
      MustSays(p, Repeats(e), ListNotRepeated, norm);
      FirstOfOne(p, Below("element", n), norm);
      BelowSays(p, "element", n, norm);
      PruneRefuses(element, n, i, chunk, norm);
    } else {
      MustSays(p, Declares(e, 1), ListNotStandard, norm);
      if n.children == [] {
        FirstAfter(p, Must(Declares(e, 1), ListNotStandard), [Must(false, OutOfRange)], norm);
        FirstOfOne(p, Must(false, OutOfRange), norm);
        MustSays(p, false, OutOfRange, norm);
      } else {
        var r := n.children[0];
        FirstAfter(p, Must(Declares(e, 1), ListNotStandard), RepeatedChecks(e, r), norm);
        RepeatedRefuses(p, e, r, i + 1, chunk, norm);
        UnderProblem(i, 1, PruneRepeated(element, e, r, i + 1, chunk, norm));
      }
    }
  }

  lemma {:induction false} RepeatedRefuses(
      p: Pruner, list: Element, r: Node, i: nat, chunk: nat, norm: string -> string)
    requires "element" in p.children
    ensures ProblemOf(PruneRepeated(p.children["element"], list, r, i, chunk, norm))
         == First(p, RepeatedChecks(list, r), norm)
    decreases p, 0, 0
  {
    hide First, One, Prune, Refusal, Declares, Repeats, IsRepeated;
    var element := p.children["element"];
    RulesMean(r.element);
    MustSays(p, Repeats(r.element), ListChildNotRepeated, norm);
    if IsElement(list, r.element) {
      FirstAfter(p, Must(Repeats(r.element), ListChildNotRepeated), [Below("element", r)], norm);
      FirstOfOne(p, Below("element", r), norm);
      BelowSays(p, "element", r, norm);
      PruneRefuses(element, r, i, chunk, norm);
    } else if r.children == [] {
      FirstAfter(p, Must(Repeats(r.element), ListChildNotRepeated), [Must(false, OutOfRange)], norm);
      FirstOfOne(p, Must(false, OutOfRange), norm);
      MustSays(p, false, OutOfRange, norm);
    } else {
      var inner := r.children[0];
      FirstAfter(p, Must(Repeats(r.element), ListChildNotRepeated), [Below("element", inner)], norm);
      FirstOfOne(p, Below("element", inner), norm);
      BelowSays(p, "element", inner, norm);
      PruneRefuses(element, inner, i + 1, chunk, norm);
      UnderProblem(i, 1, Prune(element, inner, i + 1, chunk, norm));
    }
  }

  lemma {:induction false} MapRefuses(p: Pruner, n: Node, i: nat, chunk: nat, norm: string -> string)
    requires p.tag.MapTag?
    ensures ProblemOf(PruneMap(p, n, i, chunk, norm)) == First(p, Checks(p, n, norm), norm)
    decreases p, 1, 0
  {
    hide First, One, PruneKeyValue, Declares, ConvertsToMap, IsMap, EntryChecks;
    var e := n.element;
    RulesMean(e);
    var named := "key" in p.children && "value" in p.children;
    var last := if n.children == [] then [Must(false, OutOfRange)] else EntryChecks(n.children[0]);
    var third := [Must(Declares(e, 1), MapNotStandard)] + last;
    var second := [Must(ConvertsToMap(e), NotAMap)] + third;
    FirstAfter(p, Must(named, OutOfRange), MapChecks(n), norm);
    FirstAfter(p, Must(!e.hasType, LeafForMap), second, norm);
    FirstAfter(p, Must(ConvertsToMap(e), NotAMap), third, norm);
    FirstAfter(p, Must(Declares(e, 1), MapNotStandard), last, norm);
    MustSays(p, named, OutOfRange, norm);
    MustSays(p, !e.hasType, LeafForMap, norm);
    MustSays(p, ConvertsToMap(e), NotAMap, norm);
    MustSays(p, Declares(e, 1), MapNotStandard, norm);
    if n.children == [] {
      FirstOfOne(p, Must(false, OutOfRange), norm);
      MustSays(p, false, OutOfRange, norm);
    } else if named {
      EntryRefuses(p, n.children[0], i + 1, chunk, norm);
      UnderProblem(i, 1, PruneKeyValue(p, n.children[0], i + 1, chunk, norm));
    }
  }

  lemma {:induction false} EntryRefuses(p: Pruner, r: Node, i: nat, chunk: nat, norm: string -> string)
    requires "key" in p.children && "value" in p.children
    ensures ProblemOf(PruneKeyValue(p, r, i, chunk, norm)) == First(p, EntryChecks(r), norm)
    decreases p, 0, 1
  {
    hide First, One, Declares, Repeats, IsRepeated, PruneEntry, ValueChecks;
    var e := r.element;
    RulesMean(e);
    var counted := Declares(e, 1) || Declares(e, 2);
    var last := if r.children == [] then [Must(false, OutOfRange)] else [Below("key", r.children[0])] + ValueChecks(r);
    FirstAfter(p, Must(Repeats(e), MapChildNotRepeated), [Must(counted, MapChildCount)] + last, norm);
    FirstAfter(p, Must(counted, MapChildCount), last, norm);
    MustSays(p, Repeats(e), MapChildNotRepeated, norm);
    MustSays(p, counted, MapChildCount, norm);
    if counted {
      PairRefuses(p, r, i + 1, chunk, norm);
    }
  }

  lemma {:induction false} PairRefuses(p: Pruner, r: Node, i: nat, chunk: nat, norm: string -> string)
    requires "key" in p.children && "value" in p.children && (Declares(r.element, 1) || Declares(r.element, 2))
    ensures FieldsProblem(PruneEntry(p, r, ChildCount(r.element), i, chunk, norm)) == First(p,
      if r.children == [] then [Must(false, OutOfRange)] else [Below("key", r.children[0])] + ValueChecks(r), norm)
    decreases p, 0, 0
  {
    hide First, One, Prune, Refusal, Declares;
    RulesMean(r.element);
    FirstOfOne(p, Must(false, OutOfRange), norm);
    MustSays(p, false, OutOfRange, norm);
    if r.children != [] {
      var key := Prune(p.children["key"], r.children[0], i, chunk, norm);
      FirstAfter(p, Below("key", r.children[0]), ValueChecks(r), norm);
      BelowSays(p, "key", r.children[0], norm);
      PruneRefuses(p.children["key"], r.children[0], i, chunk, norm);
      if key.Done? && |r.children| >= 2 {
        FirstOfOne(p, Below("value", r.children[1]), norm);
        BelowSays(p, "value", r.children[1], norm);
        PruneRefuses(p.children["value"], r.children[1], i + Size(r.children[0]), chunk + key.leaves, norm);
      }
    }
  }

  // ---- no complaint means conforming ----

  predicate Meets(p: Pruner, check: Check, norm: string -> string) {
    match check
    case Must(holds, _) => holds
    case Below(key, node) => key in p.children && Conforms(p.children[key], node, norm)
  }

  predicate MeetsAll(p: Pruner, checks: seq<Check>, norm: string -> string) {
    checks == [] || (Meets(p, checks[0], norm) && MeetsAll(p, checks[1..], norm))
  }

  lemma {:induction false} MeetsBoth(p: Pruner, c: Check, rest: seq<Check>, norm: string -> string)
    ensures MeetsAll(p, [c] + rest, norm) <==> Meets(p, c, norm) && MeetsAll(p, rest, norm)
    ensures MeetsAll(p, [c], norm) <==> Meets(p, c, norm)
  {
    hide Meets;
    assert ([c] + rest)[1..] == rest;
    assert [c][1..] == [];
  }

  lemma {:induction false} MustMeans(p: Pruner, holds: bool, otherwise: Problem, norm: string -> string)
    ensures Meets(p, Must(holds, otherwise), norm) <==> holds
  {
  }

  lemma {:induction false} FieldsMean(p: Pruner, ns: seq<Node>, norm: string -> string)
    ensures MeetsAll(p, FieldChecks(p, ns, norm), norm)
       <==> forall j :: 0 <= j < |ns| ==> FieldConforms(p, ns[j], norm)
  {
    hide Conforms;
    if ns != [] {
      var name := norm(ns[0].element.name);
      FieldsMean(p, ns[1..], norm);
      MeetsBoth(p, Below(name, ns[0]), FieldChecks(p, ns[1..], norm), norm);
      assert [] + FieldChecks(p, ns[1..], norm) == FieldChecks(p, ns[1..], norm);
      hide MeetsAll, FieldChecks;
      assert FieldConforms(p, ns[0], norm) <==> (name in p.children ==> Conforms(p.children[name], ns[0], norm));
      hide FieldConforms;
      assert ns == [ns[0]] + ns[1..];
    } else {
      assert MeetsAll(p, FieldChecks(p, ns, norm), norm);
    }
  }

  lemma {:induction false} RepeatedMeans(p: Pruner, list: Element, r: Node, norm: string -> string)
    requires "element" in p.children
    ensures MeetsAll(p, RepeatedChecks(list, r), norm)
       <==> (&& Repeats(r.element)
             && if IsElement(list, r.element) then Conforms(p.children["element"], r, norm)
                else r.children != [] && Conforms(p.children["element"], r.children[0], norm))
  {
    hide Conforms, IsElement, Repeats;
    var must := Must(Repeats(r.element), ListChildNotRepeated);
    MeetsBoth(p, must, [Below("element", r)], norm);
    MeetsBoth(p, Below("element", r), [], norm);
    MeetsBoth(p, must, [Must(false, OutOfRange)], norm);
    MeetsBoth(p, Must(false, OutOfRange), [], norm);
    if r.children != [] {
      MeetsBoth(p, must, [Below("element", r.children[0])], norm);
      MeetsBoth(p, Below("element", r.children[0]), [], norm);
    }
    hide MeetsAll;
  }

  lemma {:induction false} ColumnMeans(p: Pruner, e: Element, norm: string -> string)
    ensures MeetsAll(p, ColumnChecks(e), norm) <==> IsColumn(e)
  {
    hide Declares;
    var a, b := Must(e.hasType, GroupForValue), Must(Declares(e, 0), ChildrenOnValue);
    assert ColumnChecks(e) == [a] + [b];
    MeetsBoth(p, a, [b], norm);
    MeetsBoth(p, b, [], norm);
  }

  lemma {:induction false} ListMeans(p: Pruner, n: Node, norm: string -> string)
    requires "element" in p.children
    ensures MeetsAll(p, ListChecks(n), norm) <==> ListConforms(p.children["element"], n, norm)
  {
    hide Conforms, IsElement, Repeats, Declares, DeclaresSeveral, RepeatedChecks, ColumnChecks, IsColumn, MeetsAll;
    var e := n.element;
    if e.hasType {
      MeetsBoth(p, Must(Repeats(e), ListNotRepeated), ColumnChecks(e), norm);
      ColumnMeans(p, e, norm);
    } else if DeclaresSeveral(e) {
      MeetsBoth(p, Must(Repeats(e), ListNotRepeated), [Below("element", n)], norm);
      MeetsBoth(p, Below("element", n), [], norm);
    } else if n.children == [] {
      MeetsBoth(p, Must(Declares(e, 1), ListNotStandard), [Must(false, OutOfRange)], norm);
      MeetsBoth(p, Must(false, OutOfRange), [], norm);
    } else {
      MeetsBoth(p, Must(Declares(e, 1), ListNotStandard), RepeatedChecks(e, n.children[0]), norm);
      RepeatedMeans(p, e, n.children[0], norm);
    }
  }

  lemma {:induction false} ValueMeans(p: Pruner, r: Node, norm: string -> string)
    requires "value" in p.children
    ensures MeetsAll(p, ValueChecks(r), norm)
       <==> (Declares(r.element, 2) ==> |r.children| >= 2 && Conforms(p.children["value"], r.children[1], norm))
  {
    hide Conforms, Declares;
    MeetsBoth(p, Must(false, OutOfRange), [], norm);
    if |r.children| >= 2 {
      MeetsBoth(p, Below("value", r.children[1]), [], norm);
    }
  }

  lemma {:induction false} EntryMeans(p: Pruner, r: Node, norm: string -> string)
    requires "key" in p.children && "value" in p.children
    ensures MeetsAll(p, EntryChecks(r), norm)
       <==> (&& Repeats(r.element) && (Declares(r.element, 1) || Declares(r.element, 2))
             && r.children != [] && Conforms(p.children["key"], r.children[0], norm)
             && (Declares(r.element, 2) ==> |r.children| >= 2 && Conforms(p.children["value"], r.children[1], norm)))
  {
    hide Conforms, Repeats, Declares, ValueChecks, MeetsAll;
    var e := r.element;
    var counted := Declares(e, 1) || Declares(e, 2);
    var last := if r.children == [] then [Must(false, OutOfRange)] else [Below("key", r.children[0])] + ValueChecks(r);
    MeetsBoth(p, Must(Repeats(e), MapChildNotRepeated), [Must(counted, MapChildCount)] + last, norm);
    MeetsBoth(p, Must(counted, MapChildCount), last, norm);
    if r.children == [] {
      MeetsBoth(p, Must(false, OutOfRange), [], norm);
    } else {
      MeetsBoth(p, Below("key", r.children[0]), ValueChecks(r), norm);
      ValueMeans(p, r, norm);
    }
  }

  lemma {:induction false} MapMeans(p: Pruner, n: Node, norm: string -> string)
    requires p.tag.MapTag? && "key" in p.children && "value" in p.children
    ensures MeetsAll(p, MapChecks(n), norm) <==> Conforms(p, n, norm)
  {
    hide Repeats, Declares, ConvertsToMap, EntryChecks, MeetsAll;
    var e := n.element;
    var last := if n.children == [] then [Must(false, OutOfRange)] else EntryChecks(n.children[0]);
    var named := [Must(Declares(e, 1), MapNotStandard)] + last;
    var mapped := [Must(ConvertsToMap(e), NotAMap)] + named;
    MeetsBoth(p, Must(!e.hasType, LeafForMap), mapped, norm);
    MeetsBoth(p, Must(ConvertsToMap(e), NotAMap), named, norm);
    MeetsBoth(p, Must(Declares(e, 1), MapNotStandard), last, norm);
    if n.children == [] {
      MeetsBoth(p, Must(false, OutOfRange), [], norm);
    } else {
      EntryMeans(p, n.children[0], norm);
    }
  }

  /** The checks together are the conformance. */
  lemma {:induction false} ChecksMean(p: Pruner, n: Node, norm: string -> string)
    ensures MeetsAll(p, Checks(p, n, norm), norm) <==> Conforms(p, n, norm)
  {
    hide MeetsAll, ListChecks, MapChecks, FieldChecks, ColumnChecks, ListConforms, IsColumn, FieldConforms;
    match p.tag
    case ValueTag => ColumnMeans(p, n.element, norm);
    case StructTag =>
      MeetsBoth(p, Must(!n.element.hasType, LeafForStruct), FieldChecks(p, n.children, norm), norm);
      FieldsMean(p, n.children, norm);
    case ListTag =>
      MeetsBoth(p, Must("element" in p.children, OutOfRange), ListChecks(n), norm);
      if "element" in p.children {
        ListMeans(p, n, norm);
      }
    case MapTag =>
      var named := "key" in p.children && "value" in p.children;
      MeetsBoth(p, Must(named, OutOfRange), MapChecks(n), norm);
      if named {
        MapMeans(p, n, norm);
      }
  }

  /** There is a complaint exactly about the trees that do not conform. */
  lemma {:induction false} ConformsMeans(p: Pruner, n: Node, norm: string -> string)
    ensures Refusal(p, n, norm) == None <==> Conforms(p, n, norm)
    decreases p, 1, 0
  {
    ChecksMean(p, n, norm);
    NoneFirst(p, Checks(p, n, norm), norm);
    assert Refusal(p, n, norm) == First(p, Checks(p, n, norm), norm);
  }

  lemma {:induction false} NoneFirst(p: Pruner, checks: seq<Check>, norm: string -> string)
    ensures First(p, checks, norm) == None <==> MeetsAll(p, checks, norm)
    decreases p, 0, |checks|
  {
    hide Conforms, Refusal;
    if checks != [] {
      NoneFirst(p, checks[1..], norm);
      if checks[0].Below? && checks[0].key in p.children {
        ConformsMeans(p.children[checks[0].key], checks[0].node, norm);
      }
    }
  }

  lemma {:induction false} PruneProblem(p: Pruner, n: Node, i: nat, chunk: nat, norm: string -> string)
    ensures var r := Prune(p, n, i, chunk, norm);
      ProblemOf(r) == if r.Done? then None else Some(r.problem)
  {
    hide Prune;
  }

  /** Pruning succeeds exactly on the trees that conform, and complains of what is first missing. */
  lemma {:induction false} ConformsExactly(p: Pruner, n: Node, i: nat, chunk: nat, norm: string -> string)
    ensures Prune(p, n, i, chunk, norm).Done? <==> Conforms(p, n, norm)
    ensures var r := Prune(p, n, i, chunk, norm); r.Failed? ==> Refusal(p, n, norm) == Some(r.problem)
  {
    PruneRefuses(p, n, i, chunk, norm);
    ConformsMeans(p, n, norm);
    hide *;
    PruneProblem(p, n, i, chunk, norm);
  }
}
