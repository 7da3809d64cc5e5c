/** Which nodes of the file a request chooses, and that pruning keeps these and no others. */
module ParquetChosen {
  import opened Common
  import opened ParquetSchema
  import opened ParquetPruner
  import opened ParquetConforms

  // ---- the nodes chosen ----

  /**
   * Whether the node `off` places behind `n`, depth first, is asked for: a column; the requested
   * fields of a struct, and the struct if there are any; all the groups around the element of a
   * list or around the keys and values of a map, and of these what is requested of each.
   */
  ghost predicate Chosen(p: Pruner, n: Node, off: int, norm: string -> string)
    decreases p, 1, 0
  {
    match p.tag
    case ValueTag => off == 0
    case StructTag =>
      if off == 0 then exists o: int :: FieldsChosen(p, n.children, o, norm)
      else FieldsChosen(p, n.children, off - 1, norm)
    case ListTag => "element" in p.children && ElementChosen(p.children["element"], n, off, norm)
    case MapTag =>
      off == 0 || (n.children != [] && (off == 1 || EntryChosen(p, n.children[0], off - 2, norm)))
  }

  ghost predicate FieldsChosen(p: Pruner, ns: seq<Node>, off: int, norm: string -> string)
    decreases p, 0, |ns|
  {
    ns != [] &&
      var name := norm(ns[0].element.name);
      || (name in p.children && Chosen(p.children[name], ns[0], off, norm))
      || FieldsChosen(p, ns[1..], off - Size(ns[0]), norm)
  }

  ghost predicate ElementChosen(element: Pruner, n: Node, off: int, norm: string -> string)
    decreases element, 2, 0
  {
    if n.element.hasType then off == 0
    else if DeclaresSeveral(n.element) then Chosen(element, n, off, norm)
    else
      off == 0 || (n.children != [] &&
        var r := n.children[0];
        if IsElement(n.element, r.element) then Chosen(element, r, off - 1, norm)
        else off == 1 || (r.children != [] && Chosen(element, r.children[0], off - 2, norm)))
  }

  /** `off` counts from the key. */
  ghost predicate EntryChosen(p: Pruner, r: Node, off: int, norm: string -> string)
    decreases p, 0, 0
  {
    r.children != [] && "key" in p.children && "value" in p.children && (
      || Chosen(p.children["key"], r.children[0], off, norm)
      || (Declares(r.element, 2) && |r.children| >= 2
          && Chosen(p.children["value"], r.children[1], off - Size(r.children[0]), norm)))
  }

  // ---- the nodes kept ----

  /** Some kept node stands at `x`. */
  ghost predicate At(ks: seq<Kept>, x: int)
    decreases ks
  {
    ks != [] && (ks[0].index == x || At(ks[0].children, x) || At(ks[1..], x))
  }

  lemma {:induction false} AtConcat(a: seq<Kept>, b: seq<Kept>, x: int)
    ensures At(a + b, x) <==> At(a, x) || At(b, x)
  {
    if a == [] {
      assert a + b == b;
    } else {
      AtConcat(a[1..], b, x);
      assert (a + b)[0] == a[0] && (a + b)[1..] == a[1..] + b;
    }
  }

  lemma {:induction false} AtOne(k: Kept, x: int)
    ensures At([k], x) <==> k.index == x || At(k.children, x)
    ensures !At([], x)
  {
    assert [k][1..] == [];
  }

  /** The kept positions are those of the gather map. */
  lemma {:induction false} AtMeansIndex(ks: seq<Kept>, x: int)
    ensures At(ks, x) <==> x in Indices(PreorderAll(ks))
    decreases ks
  {
    if ks != [] {
      AtMeansIndex(ks[0].children, x);
      AtMeansIndex(ks[1..], x);
      IndicesConcat([ks[0]], PreorderAll(ks[0].children));
      IndicesConcat(Preorder(ks[0]), PreorderAll(ks[1..]));
      assert Indices([ks[0]]) == [ks[0].index];
      hide Indices;
    }
  }

  // ---- what is kept is what is chosen ----


  lemma {:induction false} PruneKeeps(p: Pruner, n: Node, i: nat, chunk: nat, norm: string -> string, x: int)
    requires Prune(p, n, i, chunk, norm).Done?
    ensures At(KeptSeq(Prune(p, n, i, chunk, norm).kept), x) <==> Chosen(p, n, x - i, norm)
    decreases p, 2, 0
  {
    PruneByTag(p, n, i, chunk, norm);
    hide Prune;
    match p.tag
    case ValueTag => AtOne(Kept(i, 0, Some(chunk), []), x);
    case StructTag => StructKeeps(p, n, i, chunk, norm, x);
    case ListTag => ListKeeps(p, n, i, chunk, norm, x);
    case MapTag => MapKeeps(p, n, i, chunk, norm, x);
  }

  lemma {:induction false} StructKeeps(p: Pruner, n: Node, i: nat, chunk: nat, norm: string -> string, x: int)
    requires p.tag.StructTag? && PruneStruct(p, n, i, chunk, norm).Done?
    ensures At(KeptSeq(PruneStruct(p, n, i, chunk, norm).kept), x) <==> Chosen(p, n, x - i, norm)
    decreases p, 1, 0
  {
    hide FieldsChosen, PruneFields;
    var fields := PruneFields(p, n.children, i + 1, chunk, norm);
    forall y: int ensures At(fields.kept, y) <==> FieldsChosen(p, n.children, y - (i + 1), norm) {
      FieldsKeep(p, n.children, i + 1, chunk, norm, y);
    }
    AtOne(Kept(i, |fields.kept|, None, fields.kept), x);
    forall o: int ensures FieldsChosen(p, n.children, o, norm) ==> fields.kept != [] {
      assert At(fields.kept, o + (i + 1)) <==> FieldsChosen(p, n.children, o + (i + 1) - (i + 1), norm);
    }
    if fields.kept != [] {
      var y := fields.kept[0].index;
      assert At(fields.kept, y);
      assert FieldsChosen(p, n.children, y - (i + 1), norm);
    }
    assert x - i - 1 == x - (i + 1);
  }

  lemma {:induction false} FieldsKeep(
      p: Pruner, ns: seq<Node>, i: nat, chunk: nat, norm: string -> string, x: int)
    requires PruneFields(p, ns, i, chunk, norm).Fields?
    ensures At(PruneFields(p, ns, i, chunk, norm).kept, x) <==> FieldsChosen(p, ns, x - i, norm)
    decreases p, 0, |ns|
  {
    if ns == [] {
      hide Chosen;
      PruneNone(p, i, chunk, norm);
    } else {
      hide PruneFields, PruneField, At, Chosen, Size, FieldsChosen;
      PruneFirst(p, ns[0], ns[1..], i, chunk, norm);
      assert [ns[0]] + ns[1..] == ns;
      var first := PruneField(p, ns[0], i, chunk, norm);
      var rest := PruneFields(p, ns[1..], i + Size(ns[0]), chunk + first.leaves, norm);
      FieldKeeps(p, ns[0], i, chunk, norm, x);
      FieldsKeep(p, ns[1..], i + Size(ns[0]), chunk + first.leaves, norm, x);
      AtConcat(KeptSeq(first.kept), rest.kept, x);
      FirstChosen(p, ns, x - i, norm);
      assert x - i - Size(ns[0]) == x - (i + Size(ns[0]));
    }
  }

  lemma {:induction false} FirstChosen(p: Pruner, ns: seq<Node>, off: int, norm: string -> string)
    requires ns != []
    ensures var name := norm(ns[0].element.name);
      FieldsChosen(p, ns, off, norm) <==>
        || (name in p.children && Chosen(p.children[name], ns[0], off, norm))
        || FieldsChosen(p, ns[1..], off - Size(ns[0]), norm)
  {
    hide Chosen, Size;
  }

  lemma {:induction false} FieldKeeps(p: Pruner, n: Node, i: nat, chunk: nat, norm: string -> string, x: int)
    requires PruneField(p, n, i, chunk, norm).Done?
    ensures At(KeptSeq(PruneField(p, n, i, chunk, norm).kept), x)
       <==> (var name := norm(n.element.name); name in p.children && Chosen(p.children[name], n, x - i, norm))
    decreases p, 0, 0
  {
    hide Prune, Chosen;
    var name := norm(n.element.name);
    if name in p.children {
      PruneKeeps(p.children[name], n, i, chunk, norm, x);
    }
  }

  /** A group with one more tree in it. */
  lemma {:induction false} UnderKeeps(i: nat, count: nat, fields: PrunedFields, x: int)
    requires fields.Fields?
    ensures At(KeptSeq(Under(i, count, fields).kept), x) <==> x == i || At(fields.kept, x)
  {
    AtOne(Kept(i, count, None, fields.kept), x);
  }

  lemma {:induction false} ListKeeps(p: Pruner, n: Node, i: nat, chunk: nat, norm: string -> string, x: int)
    requires p.tag.ListTag? && PruneList(p, n, i, chunk, norm).Done?
    ensures At(KeptSeq(PruneList(p, n, i, chunk, norm).kept), x) <==> Chosen(p, n, x - i, norm)
    decreases p, 1, 0
  {
    hide Prune, PruneRepeated, At;
    var element := p.children["element"];
    RulesMean(n.element);
    if n.element.hasType {
      AtOne(Kept(i, 0, Some(chunk), []), x);
    } else if DeclaresSeveral(n.element) {
      PruneKeeps(element, n, i, chunk, norm, x);
    } else {
      var r := n.children[0];
      RepeatedKeeps(element, n.element, r, i + 1, chunk, norm, x);
      UnderKeeps(i, 1, AsFields(PruneRepeated(element, n.element, r, i + 1, chunk, norm)), x);
    }
  }

  lemma {:induction false} RepeatedKeeps(
      element: Pruner, list: Element, r: Node, i: nat, chunk: nat, norm: string -> string, x: int)
    requires PruneRepeated(element, list, r, i, chunk, norm).Done?
    ensures At(KeptSeq(PruneRepeated(element, list, r, i, chunk, norm).kept), x)
       <==> if IsElement(list, r.element) then Chosen(element, r, x - i, norm)
            else x == i || (r.children != [] && Chosen(element, r.children[0], x - i - 1, norm))
    decreases element, 3, 0
  {
    hide Prune, Chosen, At;
    RulesMean(r.element);
    if IsElement(list, r.element) {
      PruneKeeps(element, r, i, chunk, norm, x);
    } else {
      PruneKeeps(element, r.children[0], i + 1, chunk, norm, x);
      UnderKeeps(i, 1, AsFields(Prune(element, r.children[0], i + 1, chunk, norm)), x);
      assert x - (i + 1) == x - i - 1;
    }
  }

  lemma {:induction false} MapKeeps(p: Pruner, n: Node, i: nat, chunk: nat, norm: string -> string, x: int)
    requires p.tag.MapTag? && PruneMap(p, n, i, chunk, norm).Done?
    ensures At(KeptSeq(PruneMap(p, n, i, chunk, norm).kept), x) <==> Chosen(p, n, x - i, norm)
    decreases p, 1, 0
  {
    hide PruneEntry, At, EntryChosen;
    var r := n.children[0];
    var count := ChildCount(r.element);
    RulesMean(r.element);
    EntryKeeps(p, r, i + 2, chunk, norm, x);
    var entry := PruneEntry(p, r, count, i + 2, chunk, norm);
    UnderKeeps(i + 1, count, entry, x);
    UnderKeeps(i, 1, AsFields(PruneKeyValue(p, r, i + 1, chunk, norm)), x);
    assert x - i - 2 == x - (i + 2);
  }

  lemma {:induction false} EntryKeeps(p: Pruner, r: Node, i: nat, chunk: nat, norm: string -> string, x: int)
    requires "key" in p.children && "value" in p.children
    requires ChildCount(r.element) == 1 || ChildCount(r.element) == 2
    requires PruneEntry(p, r, ChildCount(r.element), i, chunk, norm).Fields?
    ensures At(PruneEntry(p, r, ChildCount(r.element), i, chunk, norm).kept, x) <==> EntryChosen(p, r, x - i, norm)
    decreases p, 0, 0
  {
    hide Prune, Chosen, At, Size;
    RulesMean(r.element);
    var key := Prune(p.children["key"], r.children[0], i, chunk, norm);
    PruneKeeps(p.children["key"], r.children[0], i, chunk, norm, x);
    if ChildCount(r.element) == 2 {
      var next := i + Size(r.children[0]);
      var value := Prune(p.children["value"], r.children[1], next, chunk + key.leaves, norm);
      PruneKeeps(p.children["value"], r.children[1], next, chunk + key.leaves, norm, x);
      AtConcat(KeptSeq(key.kept), KeptSeq(value.kept), x);
      assert x - next == x - i - Size(r.children[0]);
    }
  }

  /** Pruning a conforming tree keeps exactly the nodes that the request chooses. */
  lemma {:induction false} KeptIsChosen(p: Pruner, n: Node, i: nat, chunk: nat, norm: string -> string, x: int)
    requires Conforms(p, n, norm)
    ensures var r := Prune(p, n, i, chunk, norm);
      r.Done? && (x in Indices(PreorderAll(KeptSeq(r.kept))) <==> Chosen(p, n, x - i, norm))
  {
    ConformsExactly(p, n, i, chunk, norm);
    PruneKeeps(p, n, i, chunk, norm, x);
    AtMeansIndex(KeptSeq(Prune(p, n, i, chunk, norm).kept), x);
  }
}
