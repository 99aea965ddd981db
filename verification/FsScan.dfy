/** `fs.scan` of core/src/rpc.c: a bounded walk with an explicit stack, sorted and paged, against a
    recursive walk of the same tree. */
module FsScan {
  import opened Bytes

  const MAX_NODES: nat := 2048
  const MAX_LIMIT: nat := 256
  const SLASH: byte := 47

  datatype Kind = File | Directory | Other
  datatype Error = NotFound | PermissionDenied | OtherError
  datatype Entry = Entry(name: CText, kind: Kind, size: nat)

  /** What listing one directory gives; `cut` when the platform stopped short of the end. */
  datatype Listing = Failed(error: Error) | Listed(entries: seq<Entry>, cut: bool)

  datatype Item = Item(path: CText, kind: Kind, size: nat)

  /** A tree as the session sees it: listings by path relative to the scanned directory, and the
      policy's verdict on each such path. */
  datatype Tree = Tree(list: CText -> Listing, allowed: CText -> bool)

  function Join(left: CText, right: CText): CText
  {
    if left == [] then right else left + [SLASH] + right
  }

  /** Directories are reported with size 0. */
  function ItemOf(path: CText, e: Entry): Item
  {
    Item(path, e.kind, if e.kind == Directory then 0 else e.size)
  }

  // ---------------------------------------------------------------------
  // The recursive walk.
  // ---------------------------------------------------------------------

  /** What a walk leaves behind: a mark for each entry looked at, each item listed, each directory
      opened, and each place where the depth limit, a cut listing or an error stopped it. */
  datatype Mark = Node | Met(item: Item) | Opened | TooDeep | CutShort | Failure

  /** A missing or protected directory below the top is as good as empty. */
  predicate Skippable(error: Error, top: bool)
  {
    !top && (error == PermissionDenied || error == NotFound)
  }

  /** Everything in and below a directory, `left` levels deep. */
  function VisitDir(t: Tree, rel: CText, left: nat, top: bool): multiset<Mark>
    decreases left, 2, 0
  {
    match t.list(rel)
    case Failed(error) => if Skippable(error, top) then multiset{Opened} else multiset{Opened, Failure}
    case Listed(entries, cut) =>
      (if cut then multiset{Opened, CutShort} else multiset{Opened}) + VisitEntries(t, rel, left, entries)
  }

  function VisitEntries(t: Tree, rel: CText, left: nat, entries: seq<Entry>): multiset<Mark>
    decreases left, 1, |entries|
  {
    if entries == [] then multiset{}
    else VisitEntry(t, rel, left, entries[0]) + VisitEntries(t, rel, left, entries[1..])
  }

  /** A denied entry is neither listed nor entered. */
  function VisitEntry(t: Tree, rel: CText, left: nat, e: Entry): multiset<Mark>
    decreases left, 0, 0
  {
    var child := Join(rel, e.name);
    if !t.allowed(child) then multiset{Node}
    else
      multiset{Node, Met(ItemOf(child, e))}
      + if e.kind != Directory then multiset{}
        else if left == 0 then multiset{TooDeep}
        else VisitDir(t, child, left - 1, false)
  }

  // ---------------------------------------------------------------------
  // A walk that never met its depth limit saw the whole tree.
  // ---------------------------------------------------------------------

  lemma {:induction false} DeeperIsSame(t: Tree, rel: CText, left: nat, more: nat, top: bool)
    requires TooDeep !in VisitDir(t, rel, left, top)
    ensures VisitDir(t, rel, left + more, top) == VisitDir(t, rel, left, top)
    decreases left, 2, 0
  {
    if t.list(rel).Listed? {
      DeeperEntries(t, rel, left, more, t.list(rel).entries);
    }
  }

  lemma {:induction false} DeeperEntries(t: Tree, rel: CText, left: nat, more: nat, entries: seq<Entry>)
    requires TooDeep !in VisitEntries(t, rel, left, entries)
    ensures VisitEntries(t, rel, left + more, entries) == VisitEntries(t, rel, left, entries)
    decreases left, 1, |entries|
  {
    if entries != [] {
      DeeperEntry(t, rel, left, more, entries[0]);
      DeeperEntries(t, rel, left, more, entries[1..]);
    }
  }

  lemma {:induction false} DeeperEntry(t: Tree, rel: CText, left: nat, more: nat, e: Entry)
    requires TooDeep !in VisitEntry(t, rel, left, e)
    ensures VisitEntry(t, rel, left + more, e) == VisitEntry(t, rel, left, e)
    decreases left, 0, 0
  {
    if left > 0 && e.kind == Directory && t.allowed(Join(rel, e.name)) {
      DeeperIsSame(t, Join(rel, e.name), left - 1, more, false);
    }
  }

  // ---------------------------------------------------------------------
  // Every path is met once.
  // ---------------------------------------------------------------------

  /** Names a directory can hold: not empty, without a slash, no two alike. */
  predicate ProperEntries(entries: seq<Entry>)
  {
    && (forall i :: 0 <= i < |entries| ==> entries[i].name != [] && SLASH !in entries[i].name)
    && (forall i, j :: 0 <= i < j < |entries| ==> entries[i].name != entries[j].name)
  }

  ghost predicate ProperTree(t: Tree)
  {
    forall rel: CText :: t.list(rel).Listed? ==> ProperEntries(t.list(rel).entries)
  }

  /** `path` is `at`, or lies below it. */
  predicate AtOrBelow(path: CText, at: CText)
  {
    path == at || (|path| > |at| && path[..|at|] == at && path[|at|] == SLASH)
  }

  /** Up to the first slash. */
  function FirstPart(s: seq<byte>): seq<byte>
  {
    if s == [] || s[0] == SLASH then [] else [s[0]] + FirstPart(s[1..])
  }

  lemma {:induction false} FirstPartOf(name: seq<byte>, rest: seq<byte>)
    requires SLASH !in name && (rest == [] || rest[0] == SLASH)
    ensures FirstPart(name + rest) == name
    decreases |name|
  {
    if name == [] {
      assert name + rest == rest;
    } else {
      assert (name + rest)[1..] == name[1..] + rest;
      FirstPartOf(name[1..], rest);
    }
  }

  /** A path at or below `rel`/`name` continues `rel` with `name`. */
  lemma NameInPath(rel: CText, name: CText, path: CText)
    requires SLASH !in name && AtOrBelow(path, Join(rel, name))
    ensures var skip := if rel == [] then 0 else |rel| + 1; skip <= |path| && FirstPart(path[skip..]) == name
  {
    var skip := if rel == [] then 0 else |rel| + 1;
    var at := Join(rel, name);
    assert at[skip..] == name;
    assert path == path[..|at|] + path[|at|..];
    assert path[skip..] == name + path[|at|..];
    FirstPartOf(name, path[|at|..]);
  }

  /** No two items share a path, and no item comes twice. */
  ghost predicate Once(walk: multiset<Mark>)
  {
    forall x, y :: Met(x) in walk && Met(y) in walk && x.path == y.path ==> x == y && walk[Met(x)] == 1
  }

  lemma OnceTogether(a: multiset<Mark>, b: multiset<Mark>)
    requires Once(a) && Once(b) && forall x, y :: Met(x) in a && Met(y) in b ==> x.path != y.path
    ensures Once(a + b)
  {
    forall x, y | Met(x) in a + b && Met(y) in a + b && x.path == y.path ensures x == y && (a + b)[Met(x)] == 1 {
      if Met(x) in a {
        assert Met(x) !in b && Met(y) !in b;
      } else {
        assert Met(x) in b && Met(y) !in a;
      }
    }
  }

  /** A directory's own item comes with those below it. */
  lemma ItselfOnce(x: Item, below: multiset<Mark>)
    requires Once(below) && forall y :: Met(y) in below ==> AtOrBelow(y.path, x.path) && y.path != x.path
    ensures Once(multiset{Node, Met(x)} + below)
    ensures forall y :: Met(y) in multiset{Node, Met(x)} + below ==> AtOrBelow(y.path, x.path)
  {
    OnceTogether(multiset{Node, Met(x)}, below);
  }

  lemma {:induction false} EntryOnce(t: Tree, rel: CText, left: nat, e: Entry)
    requires ProperTree(t) && e.name != []
    ensures var walk := VisitEntry(t, rel, left, e);
            Once(walk) && forall x :: Met(x) in walk ==> AtOrBelow(x.path, Join(rel, e.name))
    decreases left, 0, 0
  {
    var child := Join(rel, e.name);
    if t.allowed(child) && e.kind == Directory && left > 0 {
      DirOnce(t, child, left - 1, false);
      ItselfOnce(ItemOf(child, e), VisitDir(t, child, left - 1, false));
    }
  }

  lemma {:induction false} EntriesOnce(t: Tree, rel: CText, left: nat, entries: seq<Entry>)
    requires ProperTree(t) && ProperEntries(entries)
    ensures var walk := VisitEntries(t, rel, left, entries);
            Once(walk) && forall x :: Met(x) in walk ==>
                exists e :: e in entries && AtOrBelow(x.path, Join(rel, e.name))
    decreases left, 1, |entries|
  {
    if entries != [] {
      var rest := entries[1..];
      EntryOnce(t, rel, left, entries[0]);
      EntriesOnce(t, rel, left, rest);
      var first, others := VisitEntry(t, rel, left, entries[0]), VisitEntries(t, rel, left, rest);
      forall x, y | Met(x) in first && Met(y) in others ensures x.path != y.path {
        var e :| e in rest && AtOrBelow(y.path, Join(rel, e.name));
        NameInPath(rel, e.name, y.path);
        NameInPath(rel, entries[0].name, x.path);
        assert e.name != entries[0].name;
      }
      OnceTogether(first, others);
      forall x | Met(x) in first + others ensures exists e :: e in entries && AtOrBelow(x.path, Join(rel, e.name)) {
        if Met(x) in first {
          assert entries[0] in entries;
        } else {
          var e :| e in rest && AtOrBelow(x.path, Join(rel, e.name));
          assert e in entries;
        }
      }
    }
  }

  lemma BelowChild(rel: CText, name: CText, path: CText)
    requires rel != [] && AtOrBelow(path, Join(rel, name))
    ensures AtOrBelow(path, rel) && path != rel
  {
    assert Join(rel, name)[..|rel|] == rel;
    assert path[..|rel|] == rel;
  }

  /** A walk of a proper tree meets every path once, and only paths below its start. */
  lemma {:induction false} DirOnce(t: Tree, rel: CText, left: nat, top: bool)
    requires ProperTree(t)
    ensures var walk := VisitDir(t, rel, left, top);
            Once(walk) && (rel != [] ==> forall x :: Met(x) in walk ==> AtOrBelow(x.path, rel) && x.path != rel)
    decreases left, 2, 0
  {
    if t.list(rel).Listed? {
      var entries := t.list(rel).entries;
      EntriesOnce(t, rel, left, entries);
      forall x | Met(x) in VisitEntries(t, rel, left, entries) && rel != []
        ensures AtOrBelow(x.path, rel) && x.path != rel
      {
        var e :| e in entries && AtOrBelow(x.path, Join(rel, e.name));
        BelowChild(rel, e.name, x.path);
      }
    }
  }

  // ---------------------------------------------------------------------
  // The stack.
  // ---------------------------------------------------------------------

  datatype Pending = Pending(relative: CText, depth: nat)

  predicate Shallow(stack: seq<Pending>, maxDepth: nat)
  {
    forall d :: d in stack ==> d.depth <= maxDepth
  }

  /** What is to be met below a pending directory. */
  function Visitor(t: Tree, maxDepth: nat): Pending -> multiset<Mark>
  {
    (d: Pending) =>
      if d.depth <= maxDepth then VisitDir(t, d.relative, maxDepth - d.depth, d.depth == 0) else multiset{}
  }

  /** The sum over all pending directories. */
  function Owed(visit: Pending -> multiset<Mark>, stack: seq<Pending>): multiset<Mark>
  {
    if stack == [] then multiset{} else visit(stack[|stack| - 1]) + Owed(visit, stack[..|stack| - 1])
  }

  lemma OwedPush(visit: Pending -> multiset<Mark>, stack: seq<Pending>, d: Pending)
    ensures Owed(visit, stack + [d]) == visit(d) + Owed(visit, stack)
  {
    assert (stack + [d])[..|stack|] == stack;
  }

  datatype Outcome =
    | Error
    | Collected(items: seq<Item>, budgetTruncated: bool, depthTruncated: bool, listTruncated: bool)

  /** What has been collected agrees with the marks left so far. */
  ghost predicate Agrees(seen: multiset<Mark>, items: seq<Item>, nodes: nat, deep: bool, partial: bool)
  {
    && |items| <= nodes == seen[Node] && Failure !in seen
    && (deep <==> TooDeep in seen) && (partial <==> CutShort in seen)
    && forall x :: seen[Met(x)] == multiset(items)[x]
  }

  /** How an outcome relates to the walk. */
  ghost predicate Meets(outcome: Outcome, walk: multiset<Mark>)
  {
    match outcome
    case Error => Failure in walk
    case Collected(items, budget, deep, partial) =>
      if budget then walk[Node] > MAX_NODES
      else walk[Node] <= MAX_NODES && Agrees(walk, items, walk[Node], deep, partial)
  }

  lemma AgreesAdded(seen: multiset<Mark>, items: seq<Item>, nodes: nat, deep: bool, partial: bool, x: Item)
    requires Agrees(seen, items, nodes, deep, partial)
    ensures Agrees(seen + multiset{Node}, items, nodes + 1, deep, partial)
    ensures Agrees(seen + multiset{Node, Met(x)}, items + [x], nodes + 1, deep, partial)
    ensures Agrees(seen + multiset{Node, Met(x), TooDeep}, items + [x], nodes + 1, true, partial)
  {
  }

  lemma OpensNothing(seen: multiset<Mark>, x: Item)
    ensures (seen + multiset{Node})[Opened] == seen[Opened]
    ensures (seen + multiset{Node, Met(x)})[Opened] == seen[Opened]
    ensures (seen + multiset{Node, Met(x), TooDeep})[Opened] == seen[Opened]
  {
  }

  lemma Regroup(a: multiset<Mark>, b: multiset<Mark>, c: multiset<Mark>, d: multiset<Mark>)
    ensures (a + b) + (c + d) == a + ((b + c) + d)
  {
  }

  /** An entry is itself and, when it is a directory to be entered, all below it. */
  lemma EntryIs(t: Tree, rel: CText, depth: nat, maxDepth: nat, e: Entry)
    requires depth <= maxDepth
    ensures var child := Join(rel, e.name);
            VisitEntry(t, rel, maxDepth - depth, e) ==
            if !t.allowed(child) then multiset{Node}
            else if e.kind != Directory then multiset{Node, Met(ItemOf(child, e))}
            else if depth == maxDepth then multiset{Node, Met(ItemOf(child, e)), TooDeep}
            else multiset{Node, Met(ItemOf(child, e))} + Visitor(t, maxDepth)(Pending(child, depth + 1))
  {
  }

  /** Looking at one more entry, which stands for `entry`; the stack stands for `owed`. */
  method ScanEntry(t: Tree, maxDepth: nat, directory: Pending, e: Entry, stack: seq<Pending>, items: seq<Item>,
        nodes: nat, deep: bool, ghost partial: bool, ghost seen: multiset<Mark>, ghost entry: multiset<Mark>,
        ghost owed: multiset<Mark>)
    returns (stack': seq<Pending>, items': seq<Item>, deep': bool, ghost seen': multiset<Mark>,
        ghost owed': multiset<Mark>)
    requires directory.depth <= maxDepth && Shallow(stack, maxDepth) && Agrees(seen, items, nodes, deep, partial)
    requires entry == VisitEntry(t, directory.relative, maxDepth - directory.depth, e)
    requires owed == Owed(Visitor(t, maxDepth), stack)
    ensures Shallow(stack', maxDepth) && Agrees(seen', items', nodes + 1, deep', partial)
    ensures owed' == Owed(Visitor(t, maxDepth), stack') && seen' + owed' == seen + (entry + owed)
    ensures seen'[Opened] == seen[Opened]
  {
    stack', items', deep', owed' := stack, items, deep, owed;
    var child := Join(directory.relative, e.name);
    ghost var v, itself := Visitor(t, maxDepth), multiset{Node, Met(ItemOf(child, e))};
    EntryIs(t, directory.relative, directory.depth, maxDepth, e);
    AgreesAdded(seen, items, nodes, deep, partial, ItemOf(child, e));
    OpensNothing(seen, ItemOf(child, e));
    seen' := seen + entry;
    assert (seen + entry) + owed == seen + (entry + owed);
    if t.allowed(child) {
      items' := items' + [ItemOf(child, e)];
      if e.kind == Directory {
        if directory.depth >= maxDepth {
          deep' := true;
        } else {
          var next := Pending(child, directory.depth + 1);
          stack' := stack' + [next];
          seen', owed' := seen + itself, v(next) + owed;
          OwedPush(v, stack, next);
          Regroup(seen, itself, v(next), owed);
        }
      }
    }
  }

  lemma NextEntry(t: Tree, rel: CText, left: nat, entries: seq<Entry>, i: nat)
    requires i < |entries|
    ensures VisitEntries(t, rel, left, entries[i..]) ==
            VisitEntry(t, rel, left, entries[i]) + VisitEntries(t, rel, left, entries[i + 1..])
    ensures VisitEntry(t, rel, left, entries[i])[Node] >= 1
  {
    assert entries[i..][0] == entries[i] && entries[i..][1..] == entries[i + 1..];
  }

  lemma Advance(was: multiset<Mark>, first: multiset<Mark>, rest: multiset<Mark>, owed: multiset<Mark>,
                now: multiset<Mark>, owed': multiset<Mark>, all: multiset<Mark>)
    requires now + owed' == was + (first + owed) && was + ((first + rest) + owed) == all
    ensures now + (rest + owed') == all
  {
    assert now + (rest + owed') == (now + owed') + rest;
    assert was + ((first + rest) + owed) == (was + (first + owed)) + rest;
  }

  /** All entries of one directory, or as many as the budget allows. */
  method ScanEntries(t: Tree, maxDepth: nat, directory: Pending, entries: seq<Entry>, stack: seq<Pending>,
                     items: seq<Item>, nodes: nat, deep: bool, ghost partial: bool, ghost seen: multiset<Mark>,
                     ghost below: multiset<Mark>, ghost owed: multiset<Mark>)
    returns (stack': seq<Pending>, items': seq<Item>, nodes': nat, deep': bool, budget: bool,
        ghost seen': multiset<Mark>, ghost owed': multiset<Mark>)
    requires nodes <= MAX_NODES && directory.depth <= maxDepth && Shallow(stack, maxDepth)
    requires Agrees(seen, items, nodes, deep, partial)
    requires below == VisitEntries(t, directory.relative, maxDepth - directory.depth, entries)
    requires owed == Owed(Visitor(t, maxDepth), stack)
    ensures nodes' <= MAX_NODES && Shallow(stack', maxDepth) && Agrees(seen', items', nodes', deep', partial)
    ensures if budget then (seen + (below + owed))[Node] > MAX_NODES else seen' + owed' == seen + (below + owed)
    ensures owed' == Owed(Visitor(t, maxDepth), stack') && seen'[Opened] == seen[Opened]
  {
    ghost var all := seen + (below + owed);
    stack', items', nodes', deep', seen', owed' := stack, items, nodes, deep, seen, owed;
    ghost var rel, left := directory.relative, maxDepth - directory.depth;
    ghost var rest := below;
    var i := 0;
    assert entries[0..] == entries;
    while i < |entries|
      invariant 0 <= i <= |entries| && nodes' <= MAX_NODES && Shallow(stack', maxDepth)
      invariant Agrees(seen', items', nodes', deep', partial) && seen'[Opened] == seen[Opened]
      invariant rest == VisitEntries(t, rel, left, entries[i..]) && owed' == Owed(Visitor(t, maxDepth), stack')
      invariant seen' + (rest + owed') == all
    {
      NextEntry(t, rel, left, entries, i);
      ghost var first, rest1 := VisitEntry(t, rel, left, entries[i]), VisitEntries(t, rel, left, entries[i + 1..]);
      if nodes' >= MAX_NODES {
        OverBudget(seen', first, rest1, owed');
        return stack', items', nodes', deep', true, seen', owed';
      }
      ghost var was, owed1 := seen', owed';
      stack', items', deep', seen', owed' :=
        ScanEntry(t, maxDepth, directory, entries[i], stack', items', nodes', deep', partial, seen', first, owed');
      Advance(was, first, rest1, owed1, seen', owed', all);
      nodes' := nodes' + 1;
      rest := rest1;
      i := i + 1;
    }
    NothingLeft(seen', owed');
    return stack', items', nodes', deep', false, seen', owed';
  }

  lemma OverBudget(seen: multiset<Mark>, first: multiset<Mark>, rest: multiset<Mark>, owed: multiset<Mark>)
    requires seen[Node] >= MAX_NODES && first[Node] >= 1
    ensures (seen + ((first + rest) + owed))[Node] > MAX_NODES
  {
  }

  lemma NothingLeft(seen: multiset<Mark>, owed: multiset<Mark>)
    ensures seen + (multiset{} + owed) == seen + owed && seen + multiset{} == seen
  {
  }

  /** What taking the top directory off the stack turns up. */
  lemma TopOwes(t: Tree, maxDepth: nat, stack: seq<Pending>)
    requires stack != [] && Shallow(stack, maxDepth)
    ensures var v, d := Visitor(t, maxDepth), stack[|stack| - 1];
            d.depth <= maxDepth &&
            Owed(v, stack) ==
              VisitDir(t, d.relative, maxDepth - d.depth, d.depth == 0) + Owed(v, stack[..|stack| - 1])
    ensures Owed(Visitor(t, maxDepth), stack)[Opened] >= 1
  {
  }

  lemma AgreesOpened(seen: multiset<Mark>, items: seq<Item>, nodes: nat, deep: bool, partial: bool, cut: bool)
    requires Agrees(seen, items, nodes, deep, partial)
    ensures Agrees(seen + if cut then multiset{Opened, CutShort} else multiset{Opened}, items, nodes, deep,
        partial || cut)
  {
  }

  lemma Fails(walk: multiset<Mark>, seen: multiset<Mark>, owed: multiset<Mark>)
    requires walk == seen + (multiset{Opened, Failure} + owed)
    ensures Meets(Error, walk)
  {
  }

  lemma Ends(walk: multiset<Mark>, seen: multiset<Mark>, items: seq<Item>, nodes: nat, deep: bool, partial: bool)
    requires walk == seen + multiset{} && Agrees(seen, items, nodes, deep, partial) && nodes <= MAX_NODES
    ensures Meets(Collected(items, false, deep, partial), walk)
  {
    NothingLeft(seen, seen);
  }

  /** One directory off the stack, `walk` being all there is to meet; `go` is false when the scan
      ends here, failed or out of budget. */
  method ScanDirectory(t: Tree, maxDepth: nat, directory: Pending, stack: seq<Pending>, items: seq<Item>, nodes: nat,
                       deep: bool, partial: bool, ghost walk: multiset<Mark>, ghost seen: multiset<Mark>,
                       ghost owed: multiset<Mark>)
    returns (go: bool, budget: bool, stack': seq<Pending>, items': seq<Item>, nodes': nat, deep': bool, partial': bool,
             ghost seen': multiset<Mark>, ghost owed': multiset<Mark>)
    requires nodes <= MAX_NODES && directory.depth <= maxDepth && Shallow(stack, maxDepth)
    requires Agrees(seen, items, nodes, deep, partial) && owed == Owed(Visitor(t, maxDepth), stack)
    requires walk == seen + (VisitDir(t, directory.relative, maxDepth - directory.depth, directory.depth == 0) + owed)
    ensures nodes' <= MAX_NODES && Shallow(stack', maxDepth) && Agrees(seen', items', nodes', deep', partial')
    ensures go ==>
              walk == seen' + owed' && owed' == Owed(Visitor(t, maxDepth), stack')
              && seen'[Opened] == seen[Opened] + 1
    ensures !go ==> if budget then walk[Node] > MAX_NODES else Failure in walk
  {
    var list := t.list(directory.relative);
    if list.Failed? {
      stack', items', nodes', deep', partial', seen', owed' := stack, items, nodes, deep, partial, seen, owed;
      if !Skippable(list.error, directory.depth == 0) {
        Fails(walk, seen, owed);
        return false, false, stack', items', nodes', deep', partial', seen', owed';
      }
      AgreesOpened(seen, items, nodes, deep, partial, false);
      Regroup(seen, multiset{Opened}, multiset{}, owed);
      return true, false, stack', items', nodes', deep', partial', seen + multiset{Opened}, owed;
    }
    partial' := partial || list.cut;
    ghost var itself := if list.cut then multiset{Opened, CutShort} else multiset{Opened};
    ghost var below := VisitEntries(t, directory.relative, maxDepth - directory.depth, list.entries);
    AgreesOpened(seen, items, nodes, deep, partial, list.cut);
    Regroup(seen, itself, below, owed);
    seen' := seen + itself;
    ghost var all := seen' + (below + owed);
    assert walk == all;
    stack', items', nodes', deep', budget, seen', owed' :=
      ScanEntries(t, maxDepth, directory, list.entries, stack, items, nodes, deep, partial', seen', below, owed);
    go := !budget;
  }

  lemma Starts(t: Tree, maxDepth: nat)
    ensures VisitDir(t, [], maxDepth, true) == multiset{} + Owed(Visitor(t, maxDepth), [Pending([], 0)])
  {
    TopOwes(t, maxDepth, [Pending([], 0)]);
  }

  /** The loop over the stack, `walk` being all there is to meet. */
  method ScanStack(t: Tree, maxDepth: nat, ghost walk: multiset<Mark>) returns (outcome: Outcome)
    requires walk == multiset{} + Owed(Visitor(t, maxDepth), [Pending([], 0)])
    ensures Meets(outcome, walk)
  {
    ghost var v := Visitor(t, maxDepth);
    var stack := [Pending([], 0)];
    var items: seq<Item>, nodes: nat, deep, partial, go, budget := [], 0, false, false, true, false;
    ghost var seen: multiset<Mark>, owed := multiset{}, Owed(v, stack);
    while stack != []
      invariant nodes <= MAX_NODES && Shallow(stack, maxDepth) && Agrees(seen, items, nodes, deep, partial)
      invariant owed == Owed(v, stack) && walk == seen + owed
      decreases walk[Opened] - seen[Opened]
    {
      TopOwes(t, maxDepth, stack);
      var rest := stack[..|stack| - 1];
      go, budget, stack, items, nodes, deep, partial, seen, owed :=
        ScanDirectory(t, maxDepth, stack[|stack| - 1], rest, items, nodes, deep, partial, walk, seen, Owed(v, rest));
      if !go {
        return if budget then Collected(items, true, deep, partial) else Error;
      }
    }
    Ends(walk, seen, items, nodes, deep, partial);
    return Collected(items, false, deep, partial);
  }

  /** `scan_collect`, up to its sort.  It fails only when the walk meets a directory it may not
      skip; stopped by the budget, which happens only when there are more than 2048 entries to look
      at, it says so; otherwise it has exactly what the walk meets. */
  method ScanCollect(t: Tree, maxDepth: nat) returns (outcome: Outcome)
    ensures Meets(outcome, VisitDir(t, [], maxDepth, true))
  {
    Starts(t, maxDepth);
    outcome := ScanStack(t, maxDepth, VisitDir(t, [], maxDepth, true));
  }

  // ---------------------------------------------------------------------
  // Sorting and paging.
  // ---------------------------------------------------------------------

  /** In the order of `scan_compare`. */
  predicate Ascending(s: seq<Item>)
  {
    s == [] || ((forall x :: x in s[1..] ==> !Below(x.path, s[0].path)) && Ascending(s[1..]))
  }

  predicate StrictlyAscending(s: seq<Item>)
  {
    s == [] || ((forall x :: x in s[1..] ==> Below(s[0].path, x.path)) && StrictlyAscending(s[1..]))
  }

  /** What `qsort` may leave. */
  ghost predicate SortOf(sorted: seq<Item>, items: seq<Item>)
  {
    Ascending(sorted) && multiset(sorted) == multiset(items)
  }

  /** Paths of a multiset of items, each once. */
  ghost predicate PathsOnce(items: multiset<Item>)
  {
    forall x: Item, y: Item :: x in items && y in items && x.path == y.path ==> x == y && items[x] == 1
  }

  lemma {:induction false} SortedIsStrict(s: seq<Item>)
    requires Ascending(s) && PathsOnce(multiset(s))
    ensures StrictlyAscending(s)
    decreases |s|
  {
    if s != [] {
      var first, rest := s[0], s[1..];
      assert s == [first] + rest && multiset(s) == multiset{first} + multiset(rest);
      forall x | x in rest ensures Below(first.path, x.path) {
        BelowTotal(first.path, x.path);
        assert x in multiset(rest) && first in multiset(s) && x in multiset(s);
      }
      forall x: Item, y: Item | x in multiset(rest) && y in multiset(rest) && x.path == y.path
        ensures x == y && multiset(rest)[x] == 1
      {
        assert x in multiset(s) && y in multiset(s) && multiset(s)[x] >= multiset(rest)[x];
      }
      SortedIsStrict(rest);
    }
  }

  /** There is only one sorted list of distinct paths, so every call pages through the same one. */
  lemma {:induction false} StrictIsUnique(a: seq<Item>, b: seq<Item>)
    requires StrictlyAscending(a) && StrictlyAscending(b) && multiset(a) == multiset(b)
    ensures a == b
    decreases |a|
  {
    assert |multiset(a)| == |a| && |multiset(b)| == |b|;
    if a != [] {
      SameLeast(a, b);
      assert a == [a[0]] + a[1..] && b == [b[0]] + b[1..];
      assert multiset(a[1..]) == multiset(a) - multiset{a[0]} == multiset(b) - multiset{b[0]} == multiset(b[1..]);
      StrictIsUnique(a[1..], b[1..]);
    }
  }

  lemma FirstIsLeast(s: seq<Item>, x: Item)
    requires StrictlyAscending(s) && x in multiset(s)
    ensures x == s[0] || Below(s[0].path, x.path)
  {
    assert s == [s[0]] + s[1..];
  }

  lemma SameLeast(a: seq<Item>, b: seq<Item>)
    requires a != [] && b != [] && StrictlyAscending(a) && StrictlyAscending(b) && multiset(a) == multiset(b)
    ensures a[0] == b[0]
  {
    var x, y := a[0], b[0];
    assert x in multiset(b) && y in multiset(a);
    FirstIsLeast(a, y);
    FirstIsLeast(b, x);
    if x != y {
      BelowTransitive(x.path, y.path, x.path);
      BelowIrreflexive(x.path);
      assert false;
    }
  }

  /** The main result.  A scan of a proper tree that is not stopped by its budget lists exactly
      the items the recursive walk meets, in strict path order and therefore each once; and when no
      depth flag is set these are the items a walk of any greater depth meets. */
  lemma UnflaggedIsWholeTree(t: Tree, maxDepth: nat, items: seq<Item>, deep: bool, partial: bool, sorted: seq<Item>)
    requires ProperTree(t) && Meets(Collected(items, false, deep, partial), VisitDir(t, [], maxDepth, true))
    requires SortOf(sorted, items)
    ensures StrictlyAscending(sorted) && |sorted| <= MAX_NODES
    ensures forall x :: x in sorted <==> Met(x) in VisitDir(t, [], maxDepth, true)
    ensures !deep ==>
              forall deeper: nat :: deeper >= maxDepth ==>
                  VisitDir(t, [], deeper, true) == VisitDir(t, [], maxDepth, true)
  {
    var walk := VisitDir(t, [], maxDepth, true);
    assert |multiset(sorted)| == |sorted| && |multiset(items)| == |items|;
    forall x ensures x in sorted <==> Met(x) in walk {
      assert x in sorted <==> x in multiset(sorted);
    }
    DirOnce(t, [], maxDepth, true);
    forall x: Item, y: Item | x in multiset(sorted) && y in multiset(sorted) && x.path == y.path
      ensures x == y && multiset(sorted)[x] == 1
    {
      assert Met(x) in walk && Met(y) in walk;
    }
    SortedIsStrict(sorted);
    if !deep {
      forall deeper: nat | deeper >= maxDepth ensures VisitDir(t, [], deeper, true) == walk {
        DeeperIsSame(t, [], maxDepth, deeper - maxDepth, true);
      }
    }
  }

  /** One page of the sorted list and where the next one starts, if there is more. */
  datatype Page = Page(entries: seq<Item>, next: Option<nat>)

  function PageOf(s: seq<Item>, cursor: nat, limit: nat): Page
  {
    if cursor > |s| then Page([], None)
    else if |s| - cursor <= limit then Page(s[cursor..], None)
    else Page(s[cursor..cursor + limit], Some(cursor + limit))
  }

  /** The page loop of `handle_fs_scan`. */
  method FillPage(s: seq<Item>, cursor: nat, limit: nat) returns (page: Page)
    requires 1 <= limit <= MAX_LIMIT
    ensures page == PageOf(s, cursor, limit)
  {
    var end := if cursor > |s| then cursor else if |s| - cursor < limit then |s| else cursor + limit;
    var entries: seq<Item> := [];
    var i := cursor;
    while i < end
      invariant cursor <= i <= end && (cursor <= |s| ==> i <= |s| && entries == s[cursor..i])
      invariant cursor > |s| ==> entries == []
    {
      entries := entries + [s[i]];
      i := i + 1;
    }
    page := Page(entries, if end < |s| then Some(end) else None);
  }

  /** What a client gathers by following the cursors, asking for any page size each time. */
  function Follow(s: seq<Item>, cursor: nat, limit: nat -> nat): seq<Item>
    requires forall c :: limit(c) >= 1
    decreases if cursor <= |s| then |s| - cursor else 0
  {
    var page := PageOf(s, cursor, limit(cursor));
    page.entries + if page.next.Some? then Follow(s, page.next.value, limit) else []
  }

  /** It terminates, every cursor on the way is one the next request may carry, and the pages put
      together are the whole list. */
  lemma {:induction false} FollowGathersAll(s: seq<Item>, cursor: nat, limit: nat -> nat)
    requires forall c :: limit(c) >= 1
    requires cursor <= |s| <= MAX_NODES
    ensures Follow(s, cursor, limit) == s[cursor..]
    ensures var page := PageOf(s, cursor, limit(cursor)); page.next.Some? ==> cursor < page.next.value <= MAX_NODES
    decreases |s| - cursor
  {
    var page := PageOf(s, cursor, limit(cursor));
    if page.next.Some? {
      FollowGathersAll(s, page.next.value, limit);
      assert s[cursor..] == s[cursor..page.next.value] + s[page.next.value..];
    }
  }
}
