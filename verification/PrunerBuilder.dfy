/** `add_depth_first`: rebuilding the request tree from its depth-first list with explicit stacks. */
module PrunerBuilder {
  import opened Common
  import opened ParquetPruner

  /** One entry of the depth-first lists of names, child counts and tags. */
  datatype Item = Item(name: string, count: int, tag: Tag)

  /** `Underflow` is an entry left over after the stacks ran empty, which the source does not check. */
  datatype Built = Built(root: Pruner) | Unconsumed | Underflow

  /** The tree under construction; a pointer into it is the path of names that leads there. */
  datatype State = State(root: Pruner, treeStack: seq<seq<string>>, countStack: seq<int>)

  // ---- positions in a tree ----

  predicate HasPath(p: Pruner, path: seq<string>)
    decreases |path|
  {
    path == [] || (path[0] in p.children && HasPath(p.children[path[0]], path[1..]))
  }

  function At(p: Pruner, path: seq<string>): Pruner
    requires HasPath(p, path)
    decreases |path|
  {
    if path == [] then p else At(p.children[path[0]], path[1..])
  }

  /** Replaces the children of the node at `path`. */
  function Put(p: Pruner, path: seq<string>, children: map<string, Pruner>): Pruner
    requires HasPath(p, path)
    decreases |path|
  {
    if path == [] then p.(children := children)
    else p.(children := p.children[path[0] := Put(p.children[path[0]], path[1..], children)])
  }

  /** `try_emplace`: an existing child stays as it is. */
  function Emplace(p: Pruner, path: seq<string>, name: string, tag: Tag): Pruner
    requires HasPath(p, path)
  {
    var children := At(p, path).children;
    if name in children then p else Put(p, path, children[name := Pruner(tag, map[])])
  }

  lemma {:induction false} PutThere(p: Pruner, path: seq<string>, children: map<string, Pruner>)
    requires HasPath(p, path)
    ensures HasPath(Put(p, path, children), path)
    ensures At(Put(p, path, children), path) == At(p, path).(children := children)
    decreases |path|
  {
    if path != [] {
      PutThere(p.children[path[0]], path[1..], children);
    }
  }

  lemma {:induction false} PutTwice(
      p: Pruner, path: seq<string>, first: map<string, Pruner>, second: map<string, Pruner>)
    requires HasPath(p, path)
    ensures HasPath(Put(p, path, first), path)
    ensures Put(Put(p, path, first), path, second) == Put(p, path, second)
    decreases |path|
  {
    PutThere(p, path, first);
    if path != [] {
      PutTwice(p.children[path[0]], path[1..], first, second);
      var inner := Put(p.children[path[0]], path[1..], first);
      assert p.children[path[0] := inner][path[0] := Put(inner, path[1..], second)]
          == p.children[path[0] := Put(inner, path[1..], second)];
    }
  }

  /** The node one step below `path`. */
  lemma {:induction false} PutBelow(p: Pruner, path: seq<string>, name: string, children: map<string, Pruner>)
    requires HasPath(p, path) && name in At(p, path).children
    ensures HasPath(p, path + [name]) && At(p, path + [name]) == At(p, path).children[name]
    ensures Put(p, path + [name], children)
         == Put(p, path, At(p, path).children[name := At(p, path).children[name].(children := children)])
    decreases |path|
  {
    var below := path + [name];
    if path == [] {
      assert below[1..] == [];
    } else {
      PutBelow(p.children[path[0]], path[1..], name, children);
      assert below[0] == path[0] && below[1..] == path[1..] + [name];
    }
  }

  // ---- the stack machine ----

  function Front<T>(s: seq<T>): seq<T>
    requires s != []
  {
    s[..|s| - 1]
  }

  function Last<T>(s: seq<T>): T
    requires s != []
  {
    s[|s| - 1]
  }

  /** The count stack after one more child of its top is complete. */
  function Popped(counts: seq<int>): (left: seq<int>)
    ensures |left| <= |counts|
  {
    if counts == [] then []
    else if Last(counts) - 1 > 0 then Front(counts) + [Last(counts) - 1]
    else Popped(Front(counts))
  }

  /** Every pointer on the stack leads somewhere. */
  ghost predicate Ready(s: State) {
    |s.treeStack| == |s.countStack| && forall j :: 0 <= j < |s.treeStack| ==> HasPath(s.root, s.treeStack[j])
  }

  lemma {:induction false} PutKeepsPaths(p: Pruner, path: seq<string>, children: map<string, Pruner>,
                                         other: seq<string>)
    requires HasPath(p, path) && HasPath(p, other)
    requires forall name :: name in At(p, path).children ==>
      name in children && children[name] == At(p, path).children[name]
    ensures HasPath(Put(p, path, children), other)
    decreases |path|
  {
    if path != [] && other != [] && other[0] == path[0] {
      PutKeepsPaths(p.children[path[0]], path[1..], children, other[1..]);
    }
  }

  /** One round of the loop: the entry goes below the top of the stack, and opens or closes nodes. */
  ghost function Step(s: State, item: Item): (next: State)
    requires Ready(s) && s.treeStack != []
    ensures Ready(next)
  {
    var path := Last(s.treeStack);
    var root := Emplace(s.root, path, item.name, item.tag);
    EmplaceKeepsPaths(s, item);
    if item.count > 0 then
      State(root, s.treeStack + [path + [item.name]], s.countStack + [item.count])
    else
      var counts := Popped(s.countStack);
      State(root, s.treeStack[..|counts|], counts)
  }

  lemma {:induction false} EmplaceKeepsPaths(s: State, item: Item)
    requires Ready(s) && s.treeStack != []
    ensures var root := Emplace(s.root, Last(s.treeStack), item.name, item.tag);
      HasPath(root, Last(s.treeStack) + [item.name])
      && forall j :: 0 <= j < |s.treeStack| ==> HasPath(root, s.treeStack[j])
  {
    var path := Last(s.treeStack);
    var children := At(s.root, path).children;
    var root := Emplace(s.root, path, item.name, item.tag);
    if item.name in children {
      PutBelow(root, path, item.name, map[]);
    } else {
      var more := children[item.name := Pruner(item.tag, map[])];
      PutThere(s.root, path, more);
      PutBelow(root, path, item.name, map[]);
      forall j | 0 <= j < |s.treeStack| ensures HasPath(root, s.treeStack[j]) {
        PutKeepsPaths(s.root, path, more, s.treeStack[j]);
      }
    }
  }

  ghost function Run(s: State, items: seq<Item>): Built
    requires Ready(s)
    decreases |items|
  {
    if items == [] then if s.treeStack == [] then Built(s.root) else Unconsumed
    else if s.treeStack == [] then Underflow
    else Run(Step(s, items[0]), items[1..])
  }

  function EmptyPruner(): Pruner {
    Pruner(StructTag, map[])
  }

  /** The result for a whole list; a request without children needs no list at all. */
  ghost function Outcome(items: seq<Item>, parentCount: int): Built {
    if parentCount == 0 then Built(EmptyPruner())
    else Run(State(EmptyPruner(), [[]], [parentCount]), items)
  }

  ghost function Zip(names: seq<string>, numChildren: seq<int>, tags: seq<Tag>): (items: seq<Item>)
    requires |numChildren| >= |names| && |tags| >= |names|
  {
    seq(|names|, i requires 0 <= i < |names| => Item(names[i], numChildren[i], tags[i]))
  }

  method AddDepthFirst(names: seq<string>, numChildren: seq<int>, tags: seq<Tag>, parentNumChildren: int)
    returns (result: Built)
    requires |numChildren| >= |names| && |tags| >= |names|
    ensures result == Outcome(Zip(names, numChildren, tags), parentNumChildren)
  {
    hide Step, Emplace;
    var root := EmptyPruner();
    if parentNumChildren == 0 {
      return Built(root);
    }
    ghost var items := Zip(names, numChildren, tags);
    var treeStack: seq<seq<string>>, countStack := [[]], [parentNumChildren];
    assert items[0..] == items;
    for i := 0 to |names|
      invariant Ready(State(root, treeStack, countStack))
      invariant Run(State(root, treeStack, countStack), items[i..]) == Outcome(items, parentNumChildren)
    {
      ghost var rest := items[i..];
      assert rest[0] == items[i] && rest[1..] == items[i + 1..];
      if treeStack == [] {
        return Underflow;
      }
      root, treeStack, countStack := AddItem(root, treeStack, countStack, names[i], numChildren[i], tags[i]);
    }
    assert items[|names|..] == [];
    result := if |treeStack| != 0 || |countStack| != 0 then Unconsumed else Built(root);
  }

  /** Adds one entry, then walks back up the stacks until a node with more children is on top. */
  method AddItem(root: Pruner, trees: seq<seq<string>>, counts: seq<int>, name: string, count: int, tag: Tag)
    returns (newRoot: Pruner, treeStack: seq<seq<string>>, countStack: seq<int>)
    requires Ready(State(root, trees, counts)) && trees != []
    ensures State(newRoot, treeStack, countStack) == Step(State(root, trees, counts), Item(name, count, tag))
  {
    treeStack, countStack := trees, counts;
    var path := Last(treeStack);
    newRoot := Emplace(root, path, name, tag);
    if count > 0 {
      treeStack := treeStack + [path + [name]];
      countStack := countStack + [count];
      return;
    }
    var more := true;
    while more && |treeStack| > 0
      invariant |treeStack| == |countStack| <= |trees| && treeStack == trees[..|treeStack|]
      invariant Popped(counts) == if more then Popped(countStack) else countStack
      decreases more, |treeStack|
    {
      var parentChildrenLeft := Last(countStack) - 1;
      if parentChildrenLeft > 0 {
        countStack := Front(countStack) + [parentChildrenLeft];
        more := false;
      } else {
        treeStack := Front(treeStack);
        countStack := Front(countStack);
      }
    }
  }

  // ---- which lists are accepted ----

  /** How many more complete subtrees the stacks wait for. */
  function Open(counts: seq<int>): nat {
    if counts == [] then 0
    else if |counts| == 1 then Slots(counts[0])
    else Open(Front(counts)) + Slots(Last(counts)) - 1
  }

  /** A count below one still waits for one child. */
  function Slots(count: int): nat {
    if count > 0 then count else 1
  }

  lemma {:induction false} OpenIsPositive(counts: seq<int>)
    ensures counts != [] ==> Open(counts) >= 1
  {
    if |counts| > 1 {
      OpenIsPositive(Front(counts));
    }
  }

  lemma {:induction false} PoppedCloses(counts: seq<int>)
    requires counts != []
    ensures Open(Popped(counts)) == Open(counts) - 1
  {
    if Last(counts) - 1 > 0 {
      assert Front(Popped(counts)) == Front(counts);
    } else if |counts| > 1 {
      PoppedCloses(Front(counts));
    }
  }

  lemma {:induction false} StepOpens(s: State, item: Item)
    requires Ready(s) && s.treeStack != []
    ensures Open(Step(s, item).countStack) == Open(s.countStack) - 1 + if item.count > 0 then item.count else 0
  {
    if item.count > 0 {
      assert Front(s.countStack + [item.count]) == s.countStack;
    } else {
      PoppedCloses(s.countStack);
    }
  }

  /** Subtrees still missing after a list, when `open` were missing before. */
  function Missing(open: int, items: seq<Item>): int
    decreases |items|
  {
    if items == [] then open
    else Missing(open - 1 + if items[0].count > 0 then items[0].count else 0, items[1..])
  }

  /** Something is missing before every entry of the list. */
  predicate MissingBefore(open: int, items: seq<Item>)
    decreases |items|
  {
    items != [] ==>
      open > 0 && MissingBefore(open - 1 + if items[0].count > 0 then items[0].count else 0, items[1..])
  }

  lemma {:induction false} RunExactly(s: State, items: seq<Item>)
    requires Ready(s)
    ensures var open := Open(s.countStack);
      && (Run(s, items).Underflow? <==> !MissingBefore(open, items))
      && (Run(s, items).Built? <==> MissingBefore(open, items) && Missing(open, items) == 0)
    decreases |items|
  {
    OpenIsPositive(s.countStack);
    if items != [] && s.treeStack != [] {
      StepOpens(s, items[0]);
      RunExactly(Step(s, items[0]), items[1..]);
    }
  }

  /**
   * For any list: it is accepted exactly when the number of missing subtrees first reaches zero at
   * its end, rejected when some are missing at its end, and read past when none is missing earlier.
   */
  lemma {:induction false} AcceptedExactly(items: seq<Item>, parentCount: int)
    requires parentCount != 0
    ensures var result, open := Outcome(items, parentCount), Slots(parentCount);
      && (result.Underflow? <==> !MissingBefore(open, items))
      && (result.Unconsumed? <==> MissingBefore(open, items) && Missing(open, items) != 0)
      && (result.Built? <==> MissingBefore(open, items) && Missing(open, items) == 0)
  {
    RunExactly(State(EmptyPruner(), [[]], [parentCount]), items);
  }

  // ---- requests as trees ----

  datatype Request = Request(name: string, tag: Tag, children: seq<Request>)

  /** The depth-first list of a request. */
  function Items(r: Request): seq<Item>
    decreases r
  {
    [Item(r.name, |r.children|, r.tag)] + AllItems(r.children)
  }

  function AllItems(rs: seq<Request>): seq<Item>
    decreases rs
  {
    if rs == [] then [] else Items(rs[0]) + AllItems(rs[1..])
  }

  /** Siblings have different names, at every level. */
  ghost predicate Distinct(rs: seq<Request>)
    decreases rs
  {
    rs != [] ==> Distinct(rs[0].children) && Distinct(rs[1..]) && forall r :: r in rs[1..] ==> r.name != rs[0].name
  }

  /** The requests as children of a node that may already have some. */
  ghost function AddAll(children: map<string, Pruner>, rs: seq<Request>): map<string, Pruner>
    decreases rs
  {
    if rs == [] then children
    else AddAll(children[rs[0].name := Pruner(rs[0].tag, AddAll(map[], rs[0].children))], rs[1..])
  }

  ghost function Children(rs: seq<Request>): map<string, Pruner> {
    AddAll(map[], rs)
  }

  lemma {:induction false} OneAdded(children: map<string, Pruner>, r: Request)
    ensures AddAll(children, [r]) == children[r.name := Pruner(r.tag, Children(r.children))]
  {
    assert [r][1..] == [];
    assert forall more :: AddAll(more, []) == more;
  }

  lemma {:induction false} AddAllKeeps(children: map<string, Pruner>, rs: seq<Request>, name: string)
    requires name in children && forall r :: r in rs ==> r.name != name
    ensures name in AddAll(children, rs) && AddAll(children, rs)[name] == children[name]
    decreases |rs|
  {
    if rs != [] {
      AddAllKeeps(children[rs[0].name := Pruner(rs[0].tag, AddAll(map[], rs[0].children))], rs[1..], name);
    }
  }

  lemma {:induction false} AddAllNames(children: map<string, Pruner>, rs: seq<Request>, name: string)
    ensures name in AddAll(children, rs) <==> name in children || exists r :: r in rs && r.name == name
    decreases |rs|
  {
    if rs != [] {
      AddAllNames(children[rs[0].name := Pruner(rs[0].tag, AddAll(map[], rs[0].children))], rs[1..], name);
    }
  }

  /** A node has exactly the requested children, each with its own tag and its own children. */
  lemma {:induction false} ChildrenAreTheRequests(rs: seq<Request>, base: map<string, Pruner>)
    requires Distinct(rs)
    ensures forall name :: name in AddAll(base, rs) <==> name in base || exists r :: r in rs && r.name == name
    ensures forall r :: r in rs ==>
      r.name in AddAll(base, rs) && AddAll(base, rs)[r.name] == Pruner(r.tag, Children(r.children))
    decreases |rs|
  {
    forall name ensures name in AddAll(base, rs) <==> name in base || exists r :: r in rs && r.name == name {
      AddAllNames(base, rs, name);
    }
    if rs != [] {
      var more := base[rs[0].name := Pruner(rs[0].tag, AddAll(map[], rs[0].children))];
      AddAllKeeps(more, rs[1..], rs[0].name);
      ChildrenAreTheRequests(rs[1..], more);
      assert rs == [rs[0]] + rs[1..];
    }
  }

  // ---- building inverts flattening ----

  /** The state with other children at the top of the stack, and that top complete or one child nearer. */
  ghost predicate Reaches(s: State, children: map<string, Pruner>, counts: seq<int>, next: State)
    requires Ready(s) && s.treeStack != []
  {
    && Ready(next) && |counts| <= |s.treeStack|
    && next == State(Put(s.root, Last(s.treeStack), children), s.treeStack[..|counts|], counts)
  }

  ghost function TopChildren(s: State): map<string, Pruner>
    requires Ready(s) && s.treeStack != []
  {
    At(s.root, Last(s.treeStack)).children
  }

  lemma {:induction false} RunTree(s: State, r: Request, rest: seq<Item>) returns (next: State)
    requires Ready(s) && s.treeStack != [] && Distinct([r]) && r.name !in TopChildren(s)
    ensures Reaches(s, AddAll(TopChildren(s), [r]), Popped(s.countStack), next)
    ensures Run(s, Items(r) + rest) == Run(next, rest)
    decreases r, 0
  {
    var item, below := Item(r.name, |r.children|, r.tag), AllItems(r.children) + rest;
    assert Items(r) + rest == [item] + below;
    assert ([item] + below)[1..] == below;
    var path, kids := Last(s.treeStack), TopChildren(s);
    var step := Step(s, item);
    OneAdded(kids, r);
    if r.children == [] {
      next := step;
      assert below == rest;
    } else {
      NodeOpened(s, r);
      next := RunForest(step, r.children, rest);
      NodeClosed(s, r, next);
    }
  }

  /** An entry with children leaves an empty node on top. */
  lemma {:induction false} NodeOpened(s: State, r: Request)
    requires Ready(s) && s.treeStack != [] && r.name !in TopChildren(s) && r.children != []
    ensures var step := Step(s, Item(r.name, |r.children|, r.tag));
      && step.treeStack == s.treeStack + [Last(s.treeStack) + [r.name]]
      && step.countStack == s.countStack + [|r.children|]
      && step.root == Put(s.root, Last(s.treeStack), TopChildren(s)[r.name := Pruner(r.tag, map[])])
      && TopChildren(step) == map[]
  {
    var path, more := Last(s.treeStack), TopChildren(s)[r.name := Pruner(r.tag, map[])];
    PutThere(s.root, path, more);
    PutBelow(Put(s.root, path, more), path, r.name, map[]);
  }

  /** When that node is complete, its parent has it as a child and is one child nearer to complete. */
  lemma {:induction false} NodeClosed(s: State, r: Request, next: State)
    requires Ready(s) && s.treeStack != [] && r.name !in TopChildren(s) && r.children != []
    requires var step := Step(s, Item(r.name, |r.children|, r.tag));
      Reaches(step, AddAll(TopChildren(step), r.children), Popped(Front(step.countStack)), next)
    ensures Reaches(s, TopChildren(s)[r.name := Pruner(r.tag, Children(r.children))], Popped(s.countStack), next)
  {
    NodeOpened(s, r);
    var step := Step(s, Item(r.name, |r.children|, r.tag));
    var path, empty := Last(s.treeStack), TopChildren(s)[r.name := Pruner(r.tag, map[])];
    var full := TopChildren(s)[r.name := Pruner(r.tag, Children(r.children))];
    PutThere(s.root, path, empty);
    PutBelow(step.root, path, r.name, Children(r.children));
    assert empty[r.name := Pruner(r.tag, Children(r.children))] == full;
    PutTwice(s.root, path, empty, full);
    assert Front(step.countStack) == s.countStack;
    assert step.treeStack[..|Popped(s.countStack)|] == s.treeStack[..|Popped(s.countStack)|];
  }

  lemma {:induction false} RunForest(s: State, rs: seq<Request>, rest: seq<Item>) returns (next: State)
    requires Ready(s) && s.treeStack != [] && rs != [] && Last(s.countStack) == |rs| && Distinct(rs)
    requires forall r :: r in rs ==> r.name !in TopChildren(s)
    ensures Reaches(s, AddAll(TopChildren(s), rs), Popped(Front(s.countStack)), next)
    ensures Run(s, AllItems(rs) + rest) == Run(next, rest)
    decreases rs, 1
  {
    var r, others := rs[0], rs[1..];
    var after := AllItems(others) + rest;
    assert AllItems(rs) + rest == Items(r) + after;
    assert Distinct([r]);
    var middle := RunTree(s, r, after);
    var kids := AddAll(TopChildren(s), [r]);
    OneAdded(TopChildren(s), r);
    if others == [] {
      next := middle;
      assert rs == [r];
      assert after == rest;
    } else {
      SiblingNext(s, middle, kids);
      next := RunForest(middle, others, rest);
      SiblingsDone(s, middle, next, kids, AddAll(kids, others));
    }
  }

  /** After one of several children, the same node is on top. */
  lemma {:induction false} SiblingNext(s: State, middle: State, kids: map<string, Pruner>)
    requires Ready(s) && s.treeStack != [] && Last(s.countStack) > 1
    requires Reaches(s, kids, Popped(s.countStack), middle)
    ensures middle.treeStack == s.treeStack && Front(middle.countStack) == Front(s.countStack)
    ensures Last(middle.countStack) == Last(s.countStack) - 1 && TopChildren(middle) == kids
  {
    assert s.treeStack[..|s.countStack|] == s.treeStack;
    PutThere(s.root, Last(s.treeStack), kids);
  }

  lemma {:induction false} SiblingsDone(
      s: State, middle: State, next: State, kids: map<string, Pruner>, all: map<string, Pruner>)
    requires Ready(s) && s.treeStack != [] && Last(s.countStack) > 1
    requires Reaches(s, kids, Popped(s.countStack), middle) && middle.treeStack != []
    requires Reaches(middle, all, Popped(Front(middle.countStack)), next)
    ensures Reaches(s, all, Popped(Front(s.countStack)), next)
  {
    SiblingNext(s, middle, kids);
    PutTwice(s.root, Last(s.treeStack), kids, all);
  }

  /** From its depth-first list the builder makes exactly the requested tree, and both stacks end empty. */
  lemma {:induction false} BuilderInvertsFlattening(rs: seq<Request>)
    requires Distinct(rs)
    ensures Outcome(AllItems(rs), |rs|) == Built(Pruner(StructTag, Children(rs)))
  {
    if rs != [] {
      var s := State(EmptyPruner(), [[]], [|rs|]);
      var next := RunForest(s, rs, []);
      assert AllItems(rs) + [] == AllItems(rs);
      assert Front(s.countStack) == [];
      assert next == State(Pruner(StructTag, Children(rs)), [], []);
    } else {
      assert Children(rs) == map[];
    }
  }

  // ---- proper prefixes ----

  lemma {:induction false} MissingConcat(open: int, a: seq<Item>, b: seq<Item>)
    ensures Missing(open, a + b) == Missing(Missing(open, a), b)
    ensures MissingBefore(open, a + b) <==> MissingBefore(open, a) && MissingBefore(Missing(open, a), b)
    decreases |a|
  {
    if a == [] {
      assert a + b == b;
    } else {
      assert (a + b)[0] == a[0] && (a + b)[1..] == a[1..] + b;
      MissingConcat(open - 1 + if a[0].count > 0 then a[0].count else 0, a[1..], b);
    }
  }

  lemma {:induction false} ItemsMiss(open: int, r: Request)
    requires open > 0
    ensures Missing(open, Items(r)) == open - 1 && MissingBefore(open, Items(r))
    decreases r
  {
    assert Items(r)[1..] == AllItems(r.children);
    AllItemsMiss(open - 1, r.children);
  }

  /** The list of a forest fills as many places as it has trees, and never all of them too early. */
  lemma {:induction false} AllItemsMiss(others: int, rs: seq<Request>)
    requires others >= 0
    ensures Missing(others + |rs|, AllItems(rs)) == others && MissingBefore(others + |rs|, AllItems(rs))
    decreases rs
  {
    if rs != [] {
      ItemsMiss(others + |rs|, rs[0]);
      AllItemsMiss(others, rs[1..]);
      MissingConcat(others + |rs|, Items(rs[0]), AllItems(rs[1..]));
    }
  }

  /** Something is missing after every proper prefix of an accepted list. */
  lemma {:induction false} PrefixMisses(open: int, items: seq<Item>, k: nat)
    requires MissingBefore(open, items) && k < |items|
    ensures MissingBefore(open, items[..k]) && Missing(open, items[..k]) > 0
    decreases k
  {
    if k > 0 {
      PrefixMisses(open - 1 + if items[0].count > 0 then items[0].count else 0, items[1..], k - 1);
      assert items[..k][0] == items[0] && items[..k][1..] == items[1..][..k - 1];
    }
  }

  lemma {:induction false} PrefixIsRejected(rs: seq<Request>, k: nat)
    requires k < |AllItems(rs)|
    ensures Outcome(AllItems(rs)[..k], |rs|) == Unconsumed
  {
    AllItemsMiss(0, rs);
    PrefixMisses(|rs|, AllItems(rs), k);
    AcceptedExactly(AllItems(rs)[..k], |rs|);
  }
}
