// Results over whole runs of element operations.

module ElementRuns {
  import opened Wrappers
  import opened Sorting
  import opened ElementHeap
  import opened ElementTree

  /** A run whose operations never follow the parent link of a child that outlived its parent. */
  ghost predicate IsRun(s: Store, ops: seq<Op>)
    decreases |ops|
  {
    ops == [] || (Enabled(s, ops[0]) && !FollowsDangling(s, ops[0]) && IsRun(Apply(s, ops[0]), ops[1..]))
  }

  ghost function AfterRun(s: Store, ops: seq<Op>): Store
    requires IsRun(s, ops)
    decreases |ops|
  {
    if ops == [] then s else AfterRun(Apply(s, ops[0]), ops[1..])
  }

  lemma {:induction false} RunKeepsInv(s: Store, ops: seq<Op>)
    requires Inv(s) && IsRun(s, ops)
    ensures Inv(AfterRun(s, ops))
    decreases |ops|
  {
    hide Inv, Apply;
    if ops != [] {
      StepKeepsInv(s, ops[0]);
      RunKeepsInv(Apply(s, ops[0]), ops[1..]);
    }
  }

  ghost predicate IsListed(nodes: map<Ptr, Node>, p: Ptr) { exists q :: q in nodes && p in nodes[q].children }

  /** In every run each live node's counter is its number of handles plus one if a live node lists it. */
  lemma CountersAreExact(ops: seq<Op>)
    requires IsRun(Start(), ops)
    ensures var s := AfterRun(Start(), ops);
            forall p :: p in s.heap.nodes ==>
              s.heap.nodes[p].counter == multiset(s.handles)[p] + (if IsListed(s.heap.nodes, p) then 1 else 0) > 0
  {
    StartIsValid();
    RunKeepsInv(Start(), ops);
    var s := AfterRun(Start(), ops);
    forall p | p in s.heap.nodes ensures Owned(s.heap.nodes, p) <==> IsListed(s.heap.nodes, p) {
      if Owned(s.heap.nodes, p) {
        assert p in s.heap.nodes[s.heap.nodes[p].parent].children;
      }
    }
  }

  /** In every run no handle is dangling, no deleted node was used, and no node was deleted twice. */
  lemma NodesAreDeletedOnce(ops: seq<Op>)
    requires IsRun(Start(), ops)
    ensures var s := AfterRun(Start(), ops);
            && !s.heap.faulted
            && (forall i :: 0 <= i < |s.handles| && s.handles[i] != 0 ==> s.handles[i] in s.heap.nodes)
            && Distinct(s.heap.deleted)
            && (forall p :: 0 < p < s.heap.next <==> p in s.heap.nodes || p in s.heap.deleted)
            && (forall p :: p in s.heap.deleted ==> p !in s.heap.nodes)
  {
    StartIsValid();
    RunKeepsInv(Start(), ops);
    var s := AfterRun(Start(), ops);
    forall i | 0 <= i < |s.handles| && s.handles[i] != 0 ensures s.handles[i] in s.heap.nodes {
      HandlesAreLive(s, i);
    }
  }

  /** An operation uses a deleted node exactly if it follows the stale parent link of an outliving child. */
  lemma FaultsIffFollowsDangling(s: Store, op: Op)
    requires Inv(s) && Enabled(s, op)
    ensures Apply(s, op).heap.faulted <==> FollowsDangling(s, op)
  {
    if FollowsDangling(s, op) {
      hide ListsHaveNoRepeats, ChildrenPointUp, ParentsListThem, Counted, Accounted;
      HandlesAreLive(s, op.i);
      if op.AppendChild? {
        HandlesAreLive(s, op.j);
        assert Append(s.heap, s.handles[op.i], s.handles[op.j]).faulted;
      }
    } else {
      StepKeepsInv(s, op);
      hide Apply;
    }
  }

  // ----------------------------------------------------------------- reachability

  /** A path down the tree along child lists of live nodes. */
  ghost predicate IsPath(nodes: map<Ptr, Node>, path: seq<Ptr>) {
    && path != []
    && (forall k :: 0 <= k < |path| ==> path[k] in nodes)
    && (forall k :: 0 < k < |path| ==> path[k] in nodes[path[k - 1]].children)
  }

  ghost predicate Below(nodes: map<Ptr, Node>, from: Ptr, to: Ptr) {
    exists path :: IsPath(nodes, path) && path[0] == from && path[|path| - 1] == to
  }

  lemma BelowItself(nodes: map<Ptr, Node>, p: Ptr)
    requires p in nodes
    ensures Below(nodes, p, p)
  {
    assert IsPath(nodes, [p]) && [p][0] == p && [p][|[p]| - 1] == p;
  }

  lemma BelowExtends(nodes: map<Ptr, Node>, from: Ptr, x: Ptr, y: Ptr)
    requires Below(nodes, from, x) && y in nodes && y in nodes[x].children
    ensures Below(nodes, from, y)
  {
    var path :| IsPath(nodes, path) && path[0] == from && path[|path| - 1] == x;
    var longer := path + [y];
    assert IsPath(nodes, longer) && longer[0] == from && longer[|longer| - 1] == y;
  }

  // ----------------------------------------------------------------- no cycles

  /** Children lie deeper than their parents. */
  ghost predicate Ranked(nodes: map<Ptr, Node>, depth: map<Ptr, nat>) {
    && nodes.Keys <= depth.Keys
    && (forall p, c :: p in nodes && c in nodes[p].children ==> c in depth && depth[p] < depth[c])
  }

  ghost predicate Acyclic(nodes: map<Ptr, Node>) { exists depth :: Ranked(nodes, depth) }

  /** b has no node and no child link that a does not have. */
  ghost predicate Shrinks(a: map<Ptr, Node>, b: map<Ptr, Node>) {
    forall p :: p in b ==> p in a && forall c :: c in b[p].children ==> c in a[p].children
  }

  lemma ShrinkingKeepsAcyclic(a: map<Ptr, Node>, b: map<Ptr, Node>)
    requires Acyclic(a) && Shrinks(a, b)
    ensures Acyclic(b)
  {
    var depth :| Ranked(a, depth);
    assert Ranked(b, depth);
  }

  lemma ShrinkingKeepsBelow(a: map<Ptr, Node>, b: map<Ptr, Node>, from: Ptr, to: Ptr)
    requires Shrinks(a, b) && Below(b, from, to)
    ensures Below(a, from, to)
  {
    var path :| IsPath(b, path) && path[0] == from && path[|path| - 1] == to;
    forall k | 0 < k < |path| ensures path[k] in a[path[k - 1]].children {
      assert path[k - 1] in b && path[k] in b[path[k - 1]].children;
    }
    assert IsPath(a, path);
  }

  /** Releasing a reference changes nothing but counters of the nodes that stay. */
  lemma {:induction false} ReleaseKeepsSurvivors(h: Heap, p: Ptr)
    ensures forall q :: q in Release(h, p).nodes ==>
              q in h.nodes && Release(h, p).nodes[q] == h.nodes[q].(counter := Release(h, p).nodes[q].counter)
    decreases |h.nodes|, 0, 0
  {
    if p in h.nodes && h.nodes[p].counter == 1 {
      var rest := h.nodes - {p};
      assert rest.Keys == h.nodes.Keys - {p};
      assert |rest.Keys| < |h.nodes.Keys|;
      ReleaseAllKeepsSurvivors(h.(nodes := rest, deleted := h.deleted + [p]), h.nodes[p].children);
    }
  }

  lemma {:induction false} ReleaseAllKeepsSurvivors(h: Heap, ps: seq<Ptr>)
    ensures forall q :: q in ReleaseAll(h, ps).nodes ==>
              q in h.nodes && ReleaseAll(h, ps).nodes[q] == h.nodes[q].(counter := ReleaseAll(h, ps).nodes[q].counter)
    decreases |h.nodes|, 1, |ps|
  {
    if ps != [] {
      ReleaseKeepsSurvivors(h, ps[0]);
      SubsetSize(Release(h, ps[0]).nodes.Keys, h.nodes.Keys);
      ReleaseAllKeepsSurvivors(Release(h, ps[0]), ps[1..]);
    }
  }

  /** Ranks after linking c under p: everything below c moves deeper than p. */
  ghost function Shifted(a: map<Ptr, Node>, depth: map<Ptr, nat>, p: Ptr, c: Ptr): map<Ptr, nat>
    requires a.Keys <= depth.Keys && p in a
  {
    map x | x in a :: if Below(a, c, x) then depth[x] + depth[p] + 1 else depth[x]
  }

  lemma ShiftedRanksOldLink(a: map<Ptr, Node>, depth: map<Ptr, nat>, p: Ptr, c: Ptr, x: Ptr, y: Ptr)
    requires Ranked(a, depth) && p in a && x in a && y in a[x].children && y in a
    ensures Shifted(a, depth, p, c)[x] < Shifted(a, depth, p, c)[y]
  {
    hide IsPath;
    if Below(a, c, x) {
      BelowExtends(a, c, x, y);
    }
  }

  lemma ShiftedRanksNewLink(a: map<Ptr, Node>, depth: map<Ptr, nat>, p: Ptr, c: Ptr)
    requires Ranked(a, depth) && p in a && c in a && !Below(a, c, p)
    ensures Shifted(a, depth, p, c)[p] < Shifted(a, depth, p, c)[c]
  {
    hide IsPath;
    BelowItself(a, c);
  }

  /** Every child link of b is one of a or the new one. */
  lemma LinkAddsOneLink(a: map<Ptr, Node>, b: map<Ptr, Node>, p: Ptr, c: Ptr)
    requires LinkedUnder(a, b, p, c) && ChildrenPointUp(a)
    ensures a.Keys == b.Keys && p in a && c in a
    ensures forall x, y :: x in b && y in b[x].children ==> y in a && (y in a[x].children || (x == p && y == c))
  {
    forall x, y | x in b && y in b[x].children
      ensures y in a && (y in a[x].children || (x == p && y == c))
    {
      assert b[x].children == if x == p then a[x].children + [c] else a[x].children;
    }
  }

  lemma LinkKeepsAcyclic(a: map<Ptr, Node>, b: map<Ptr, Node>, p: Ptr, c: Ptr)
    requires Acyclic(a) && LinkedUnder(a, b, p, c) && !Below(a, c, p)
    requires ChildrenPointUp(a)
    ensures Acyclic(b)
  {
    LinkAddsOneLink(a, b, p, c);
    hide LinkedUnder, ChildrenPointUp, Below;
    var depth :| Ranked(a, depth);
    var depth' := Shifted(a, depth, p, c);
    assert depth'.Keys == a.Keys;
    hide Shifted;
    forall x, y | x in b && y in b[x].children ensures y in depth' && depth'[x] < depth'[y] {
      if y in a[x].children {
        ShiftedRanksOldLink(a, depth, p, c, x, y);
      } else {
        ShiftedRanksNewLink(a, depth, p, c);
      }
    }
    assert Ranked(b, depth');
  }

  lemma AppendKeepsAcyclic(h: Heap, p: Ptr, c: Ptr)
    requires Linked(h.nodes) && Acyclic(h.nodes) && p in h.nodes && c in h.nodes && !Below(h.nodes, c, p)
    requires h.nodes[c].parent == 0 || h.nodes[c].parent in h.nodes
    ensures Acyclic(Append(h, p, c).nodes)
  {
    if h.nodes[c].parent != p {
      var h1 := if h.nodes[c].parent == 0 then Ref(h, c) else Detach(h, c);
      if h.nodes[c].parent == 0 {
        SameTreeIsLinked(h.nodes, h1.nodes);
      } else {
        DetachShape(h, c);
        DetachKeepsLinks(h.nodes, h1.nodes, h.nodes[c].parent, c);
        RemoveAllElements(h.nodes[h.nodes[c].parent].children, c);
        LinkForgetsOldParent(h, p, c);
      }
      assert Shrinks(h.nodes, h1.nodes);
      hide Linked, Ref, Detach, Below, Acyclic, Shrinks, DetachedFrom;
      ShrinkingKeepsAcyclic(h.nodes, h1.nodes);
      if Below(h1.nodes, c, p) {
        ShrinkingKeepsBelow(h.nodes, h1.nodes, c, p);
      }
      LinkShape(h1, p, c);
      LinkKeepsAcyclic(h1.nodes, Link(h1, p, c).nodes, p, c);
    }
  }

  /** From address base on, children have larger addresses than their parents. */
  ghost predicate Increasing(nodes: map<Ptr, Node>, base: Ptr) {
    forall p, c :: p in nodes && p >= base && c in nodes[p].children ==> c > p
  }

  lemma LinkKeepsIncreasing(h: Heap, p: Ptr, c: Ptr, base: Ptr)
    requires Increasing(h.nodes, base) && p in h.nodes && c in h.nodes && c > p
    ensures Increasing(Link(h, p, c).nodes, base)
  {
    LinkShape(h, p, c);
    forall q, x | q in Link(h, p, c).nodes && q >= base && x in Link(h, p, c).nodes[q].children ensures x > q {
      assert x in h.nodes[q].children || (q == p && x == c);
    }
  }

  lemma {:induction false} BuildIsIncreasing(h: Heap, dom: Dom, refs: multiset<Ptr>, base: Ptr)
    requires HeapInv(h, refs) && Increasing(h.nodes, base) && base <= h.next
    ensures Increasing(Build(h, dom).nodes, base)
    decreases dom, 0
  {
    var node := Node(1, 0, [], dom.name, dom.value, dom.attributes);
    NewNodeKeepsInv(h, node, refs);
    hide HeapInv;
    assert Increasing(NewNode(h, node).nodes, base);
    BuildChildrenIsIncreasing(NewNode(h, node), h.next, dom.children, refs + multiset{h.next}, base);
  }

  lemma {:induction false} BuildChildrenIsIncreasing(h: Heap, p: Ptr, doms: seq<Dom>, refs: multiset<Ptr>, base: Ptr)
    requires HeapInv(h, refs) && Increasing(h.nodes, base) && base <= p < h.next && p in h.nodes
    ensures Increasing(BuildChildren(h, p, doms).nodes, base)
    decreases doms, 1
  {
    if doms != [] {
      var c, built := h.next, Build(h, doms[0]);
      BuildKeepsInv(h, doms[0], refs);
      BuildIsIncreasing(h, doms[0], refs, base);
      assert p != 0 && !Owned(built.nodes, c) && p in built.nodes && c != 0;
      hide HeapInv, Increasing;
      LinkKeepsInv(built, p, c, refs + multiset{c});
      assert refs + multiset{c} - multiset{c} == refs;
      LinkKeepsIncreasing(built, p, c, base);
      assert Link(built, p, c).next == built.next;
      BuildChildrenIsIncreasing(Link(built, p, c), p, doms[1..], refs, base);
    }
  }

  ghost predicate Bounded(h: Heap) {
    && 0 !in h.nodes
    && (forall p :: p in h.nodes ==> p < h.next)
    && (forall p, c :: p in h.nodes && c in h.nodes[p].children ==> c in h.nodes)
  }

  lemma InvBoundsAddresses(h: Heap, refs: multiset<Ptr>)
    requires HeapInv(h, refs)
    ensures Bounded(h)
  {
    hide Counted;
  }

  /** b is a with more nodes, at addresses from base on. */
  ghost predicate GrownFrom(a: map<Ptr, Node>, b: map<Ptr, Node>, base: Ptr) {
    && (forall p :: p in b && p < base ==> p in a && a[p] == b[p])
    && (forall p, c :: p in a && c in a[p].children ==> c in a && c < base)
    && (forall p, c :: p in b && c in b[p].children ==> c in b)
    && (forall p :: p in a ==> p in b)
  }

  /** Old links keep their ranks; new nodes are ranked by address. */
  lemma ExtensionIsRanked(a: map<Ptr, Node>, b: map<Ptr, Node>, base: Ptr, depth: map<Ptr, nat>)
    requires Ranked(a, depth) && Increasing(b, base) && GrownFrom(a, b, base)
    ensures Acyclic(b)
  {
    var depth' := map p | p in b :: if p < base then depth[p] else p;
    forall p, c | p in b && c in b[p].children ensures c in depth' && depth'[p] < depth'[c] {
      if p < base {
        assert p in a && a[p] == b[p] && c in a[p].children;
        assert c in a;
        assert c in b;
        assert c < base;
        assert depth'[p] == depth[p] && depth'[c] == depth[c];
      } else {
        assert c > p && c in b && depth'[p] == p && depth'[c] == c;
      }
    }
    assert Ranked(b, depth');
  }

  lemma NoOldAddressReappears(h: Heap, built: Heap, refs: multiset<Ptr>, refs': multiset<Ptr>)
    requires HeapInv(h, refs) && HeapInv(built, refs') && built.deleted == h.deleted
    ensures forall p :: p in built.nodes && 0 < p < h.next ==> p in h.nodes
  {
    hide Linked, Counted, Distinct;
  }

  lemma GrownByExtension(h: Heap, built: Heap)
    requires Bounded(h) && Bounded(built) && Extends(h, built, 0)
    requires forall p :: p in built.nodes && 0 < p < h.next ==> p in h.nodes
    ensures GrownFrom(h.nodes, built.nodes, h.next)
  {
    var a, b := h.nodes, built.nodes;
    forall p | p in b && p < h.next ensures p in a && a[p] == b[p] {
      assert p != 0;
      assert p in a;
    }
    forall p, c | p in a && c in a[p].children ensures c in a && c < h.next {
      assert c in a;
    }
  }

  lemma BuiltIsGrown(h: Heap, built: Heap, refs: multiset<Ptr>, refs': multiset<Ptr>)
    requires HeapInv(h, refs) && HeapInv(built, refs') && Extends(h, built, 0) && built.deleted == h.deleted
    ensures GrownFrom(h.nodes, built.nodes, h.next)
  {
    hide HeapInv, GrownFrom;
    InvBoundsAddresses(h, refs);
    InvBoundsAddresses(built, refs');
    NoOldAddressReappears(h, built, refs, refs');
    hide Bounded;
    GrownByExtension(h, built);
  }

  lemma NothingAbove(h: Heap, refs: multiset<Ptr>)
    requires HeapInv(h, refs)
    ensures Increasing(h.nodes, h.next)
  {
    hide Linked, Counted;
  }

  lemma BuildKeepsAcyclic(h: Heap, dom: Dom, refs: multiset<Ptr>)
    requires HeapInv(h, refs) && Acyclic(h.nodes)
    ensures Acyclic(Build(h, dom).nodes)
  {
    hide HeapInv, Build, Ranked, Increasing, GrownFrom;
    var built := Build(h, dom);
    BuildKeepsInv(h, dom, refs);
    NothingAbove(h, refs);
    BuildIsIncreasing(h, dom, refs, h.next);
    BuiltIsGrown(h, built, refs, refs + multiset{h.next});
    var depth :| Ranked(h.nodes, depth);
    ExtensionIsRanked(h.nodes, built.nodes, h.next, depth);
  }

  /** The operation puts an element beneath itself. */
  ghost predicate MakesCycle(s: Store, op: Op)
    requires Enabled(s, op)
  {
    op.AppendChild? && Below(s.heap.nodes, s.handles[op.j], s.handles[op.i])
  }

  lemma NewEmptyKeepsAcyclic(h: Heap)
    requires Acyclic(h.nodes)
    ensures Acyclic(NewNode(h, Node(1, 0, [], "", "", map[])).nodes)
  {
    var depth :| Ranked(h.nodes, depth);
    var depth' := depth[h.next := if h.next in depth then depth[h.next] else 0];
    assert Ranked(NewNode(h, Node(1, 0, [], "", "", map[])).nodes, depth');
  }

  lemma HandleToKeepsAcyclic(s: Store, found: Option<Ptr>)
    requires Acyclic(s.heap.nodes)
    ensures Acyclic(HandleTo(s, found).heap.nodes)
  {
    match found
    case Some(p) =>
      assert Shrinks(s.heap.nodes, Ref(s.heap, p).nodes);
      ShrinkingKeepsAcyclic(s.heap.nodes, Ref(s.heap, p).nodes);
    case None => NewEmptyKeepsAcyclic(s.heap);
  }

  lemma ReleaseKeepsAcyclic(h: Heap, p: Ptr)
    requires Acyclic(h.nodes)
    ensures Acyclic(Release(h, p).nodes)
  {
    ReleaseKeepsSurvivors(h, p);
    assert Shrinks(h.nodes, Release(h, p).nodes) by {
      hide Release;
    }
    ShrinkingKeepsAcyclic(h.nodes, Release(h, p).nodes);
  }

  lemma RefKeepsAcyclic(h: Heap, p: Ptr)
    requires Acyclic(h.nodes)
    ensures Acyclic(Ref(h, p).nodes)
  {
    assert Shrinks(h.nodes, Ref(h, p).nodes);
    ShrinkingKeepsAcyclic(h.nodes, Ref(h, p).nodes);
  }

  lemma RemoveKeepsAcyclic(h: Heap, p: Ptr, c: Ptr)
    requires Acyclic(h.nodes) && Linked(h.nodes)
    ensures Acyclic(Remove(h, p, c).nodes)
  {
    if p in h.nodes {
      RemoveAllElements(h.nodes[p].children, c);
    }
    assert Shrinks(h.nodes, Remove(h, p, c).nodes) by {
      hide RemoveAll, Linked;
    }
    ShrinkingKeepsAcyclic(h.nodes, Remove(h, p, c).nodes);
  }

  lemma StepKeepsAcyclic(s: Store, op: Op)
    requires Inv(s) && Acyclic(s.heap.nodes)
    requires Enabled(s, op) && !FollowsDangling(s, op) && !MakesCycle(s, op)
    ensures Acyclic(Apply(s, op).heap.nodes)
  {
    var h := s.heap;
    forall i: nat | IsHandle(s, i) ensures s.handles[i] in h.nodes {
      HandlesAreLive(s, i);
    }
    assert op.NextSiblingElement? ==> s.handles[op.i] in h.nodes;
    hide Acyclic, Release, Ref, Remove, Append, Build, Below, Counted, Accounted, HandleTo, NewEmpty, AddHandle, FindNamed;
    hide ListsHaveNoRepeats, ChildrenPointUp, ParentsListThem;
    match op
    case Create => HandleToKeepsAcyclic(s, None);
    case Parse(dom) => BuildKeepsAcyclic(h, dom, multiset(s.handles));
    case Copy(i) => RefKeepsAcyclic(h, s.handles[i]);
    case Assign(i, j) =>
      RefKeepsAcyclic(h, s.handles[j]);
      ReleaseKeepsAcyclic(Ref(h, s.handles[j]), s.handles[i]);
    case Destroy(i) => ReleaseKeepsAcyclic(h, s.handles[i]);
    case AppendChild(i, j) => AppendKeepsAcyclic(h, s.handles[i], s.handles[j]);
    case RemoveChild(i, j) => RemoveKeepsAcyclic(h, s.handles[i], s.handles[j]);
    case FirstChildElement(i, name) =>
      HandleToKeepsAcyclic(s, FindNamed(h, h.nodes[s.handles[i]].children, name));
    case NextSiblingElement(i, name) =>
      HandleToKeepsAcyclic(s, None);
      var parent := h.nodes[s.handles[i]].parent;
      if parent != 0 {
        HandleToKeepsAcyclic(s, FindNamed(h, After(h.nodes[parent].children, s.handles[i]), name));
      }
  }

  lemma {:induction false} RanksGrow(nodes: map<Ptr, Node>, depth: map<Ptr, nat>, path: seq<Ptr>, k: nat)
    requires Ranked(nodes, depth) && IsPath(nodes, path) && k < |path|
    ensures depth[path[0]] <= depth[path[k]] && (k > 0 ==> depth[path[0]] < depth[path[k]])
  {
    if k > 0 {
      RanksGrow(nodes, depth, path, k - 1);
      assert path[k] in nodes[path[k - 1]].children;
    }
  }

  /** Appending c to p adds that link and takes away at most the one from the old parent of c. */
  lemma AppendKeepsOtherLinks(h: Heap, p: Ptr, c: Ptr)
    requires p in h.nodes && c in h.nodes && h.nodes[c].parent != p
    requires h.nodes[c].parent == 0 || h.nodes[c].parent in h.nodes
    ensures var b := Append(h, p, c).nodes;
            && b.Keys == h.nodes.Keys && c in b[p].children
            && forall x, y :: x in h.nodes && y in h.nodes[x].children && y != c ==> y in b[x].children
  {
    if h.nodes[c].parent != 0 { RemoveAllElements(h.nodes[h.nodes[c].parent].children, c); }
  }

  lemma PathSurvives(h: Heap, p: Ptr, c: Ptr, path: seq<Ptr>)
    requires Acyclic(h.nodes) && p in h.nodes && c in h.nodes && h.nodes[c].parent != p
    requires h.nodes[c].parent == 0 || h.nodes[c].parent in h.nodes
    requires IsPath(h.nodes, path) && path[0] == c
    ensures IsPath(Append(h, p, c).nodes, path)
  {
    hide Append;
    AppendKeepsOtherLinks(h, p, c);
    var depth :| Ranked(h.nodes, depth);
    forall k | 0 < k < |path| ensures path[k] in Append(h, p, c).nodes[path[k - 1]].children {
      RanksGrow(h.nodes, depth, path, k);
      assert path[k] in h.nodes[path[k - 1]].children && path[k] != c;
    }
  }

  /** Appending an element beneath itself always makes a cycle. */
  lemma CycleIsMade(h: Heap, p: Ptr, c: Ptr)
    requires Acyclic(h.nodes) && Linked(h.nodes) && p in h.nodes && c in h.nodes && Below(h.nodes, c, p)
    requires h.nodes[c].parent == 0 || h.nodes[c].parent in h.nodes
    ensures !Acyclic(Append(h, p, c).nodes)
  {
    hide Append, ListsHaveNoRepeats, ChildrenPointUp;
    var depth :| Ranked(h.nodes, depth);
    var path :| IsPath(h.nodes, path) && path[0] == c && path[|path| - 1] == p;
    RanksGrow(h.nodes, depth, path, |path| - 1);
    assert h.nodes[c].parent != p;
    PathSurvives(h, p, c, path);
    AppendKeepsOtherLinks(h, p, c);
    var b := Append(h, p, c).nodes;
    forall depth' ensures !Ranked(b, depth') {
      if Ranked(b, depth') {
        RanksGrow(b, depth', path, |path| - 1);
        assert false;
      }
    }
  }

  /** An operation on an acyclic tree makes a cycle exactly if it puts an element beneath itself. */
  lemma StepKeepsAcyclicIff(s: Store, op: Op)
    requires Inv(s) && Acyclic(s.heap.nodes) && Enabled(s, op) && !FollowsDangling(s, op)
    ensures Acyclic(Apply(s, op).heap.nodes) <==> !MakesCycle(s, op)
  {
    if MakesCycle(s, op) {
      hide ListsHaveNoRepeats, ChildrenPointUp, ParentsListThem, Counted, Accounted, Acyclic, Below;
      HandlesAreLive(s, op.i);
      HandlesAreLive(s, op.j);
      CycleIsMade(s.heap, s.handles[op.i], s.handles[op.j]);
    } else {
      StepKeepsAcyclic(s, op);
    }
  }

  ghost predicate IsTreeRun(s: Store, ops: seq<Op>)
    decreases |ops|
  {
    ops == [] ||
    (Enabled(s, ops[0]) && !FollowsDangling(s, ops[0]) && !MakesCycle(s, ops[0]) && IsTreeRun(Apply(s, ops[0]), ops[1..]))
  }

  lemma {:induction false} TreeRunKeepsAcyclic(s: Store, ops: seq<Op>)
    requires Inv(s) && Acyclic(s.heap.nodes) && IsTreeRun(s, ops)
    ensures IsRun(s, ops) && Inv(AfterRun(s, ops)) && Acyclic(AfterRun(s, ops).heap.nodes)
    decreases |ops|
  {
    hide Inv, Apply, Acyclic;
    if ops != [] {
      StepKeepsInv(s, ops[0]);
      StepKeepsAcyclic(s, ops[0]);
      TreeRunKeepsAcyclic(Apply(s, ops[0]), ops[1..]);
    }
  }

  // ------------------------------------------------------------------- no leak

  /** A live node of an acyclic heap lies below some handle. */
  lemma {:induction false} LiveIsReachable(s: Store, depth: map<Ptr, nat>, x: Ptr)
    requires Inv(s) && Ranked(s.heap.nodes, depth) && x in s.heap.nodes
    ensures exists root :: root in multiset(s.handles) && Below(s.heap.nodes, root, x)
    decreases depth[x]
  {
    var nodes := s.heap.nodes;
    if multiset(s.handles)[x] > 0 {
      BelowItself(nodes, x);
    } else {
      assert Owned(nodes, x);
      var p := nodes[x].parent;
      assert x in nodes[p].children;
      LiveIsReachable(s, depth, p);
      var root :| root in multiset(s.handles) && Below(nodes, root, p);
      BelowExtends(nodes, root, p, x);
    }
  }

  /**
   * Main result.  After every run in which no element is put beneath itself, the live nodes are exactly those
   * reachable from a handle: everything else has been deleted, and nothing that is in use has.
   */
  lemma LiveNodesAreTheReachableOnes(ops: seq<Op>)
    requires IsTreeRun(Start(), ops)
    ensures IsRun(Start(), ops)
    ensures var s := AfterRun(Start(), ops);
            forall x :: x in s.heap.nodes <==> exists root :: root in multiset(s.handles) && Below(s.heap.nodes, root, x)
  {
    StartIsValid();
    assert Ranked(Start().heap.nodes, map[]);
    TreeRunKeepsAcyclic(Start(), ops);
    var s := AfterRun(Start(), ops);
    var depth :| Ranked(s.heap.nodes, depth);
    hide Inv;
    forall x | x in s.heap.nodes ensures exists root :: root in multiset(s.handles) && Below(s.heap.nodes, root, x) {
      LiveIsReachable(s, depth, x);
    }
  }

  /** Once all element objects are destroyed, the heap is empty if and only if the links have no cycle. */
  lemma NoLeakIffAcyclic(s: Store)
    requires Inv(s) && forall i :: 0 <= i < |s.handles| ==> s.handles[i] == 0
    ensures s.heap.nodes == map[] <==> Acyclic(s.heap.nodes)
  {
    var nodes := s.heap.nodes;
    if nodes == map[] {
      assert Ranked(nodes, map[]);
    } else if Acyclic(nodes) {
      var depth :| Ranked(nodes, depth);
      var x :| x in nodes;
      LiveIsReachable(s, depth, x);
      assert false;
    }
  }

  // ------------------------------------------------------------- the excluded cases

  function Empty(counter: int, parent: Ptr, children: seq<Ptr>): Node { Node(counter, parent, children, "", "", map[]) }

  /** Two new elements, the second one appended to the first. */
  lemma ParentWithChild(s: Store)
    requires s == Apply(Apply(Apply(Start(), Create), Create), Op.AppendChild(0, 1))
    ensures s == Store(Heap(map[1 := Empty(1, 0, [2]), 2 := Empty(2, 1, [])], 3, [], false), [1, 2])
  {
    var s1 := Apply(Start(), Create);
    assert s1 == Store(Heap(map[1 := Empty(1, 0, [])], 2, [], false), [1]);
    var s2 := Apply(s1, Create);
    assert s2 == Store(Heap(map[1 := Empty(1, 0, []), 2 := Empty(1, 0, [])], 3, [], false), [1, 2]);
    assert Ref(s2.heap, 2).nodes == map[1 := Empty(1, 0, []), 2 := Empty(2, 0, [])];
    var none: seq<Ptr> := [];
    assert none + [2] == [2];
    assert Link(Ref(s2.heap, 2), 1, 2).nodes == map[1 := Empty(1, 0, [2]), 2 := Empty(2, 1, [])];
  }

  /** Destroying a parent leaves the parent link of a child that is still in use set: the excluded case is reachable. */
  lemma OutlivingChildrenDangle()
    ensures var ops := [Create, Create, Op.AppendChild(0, 1), Destroy(0)];
            IsRun(Start(), ops) && IsHandle(AfterRun(Start(), ops), 1) && HasDanglingParent(AfterRun(Start(), ops), 1)
  {
    var s1 := Apply(Start(), Create);
    var s2 := Apply(s1, Create);
    var s3 := Apply(s2, Op.AppendChild(0, 1));
    ParentWithChild(s3);
    var rest := map[2 := Empty(2, 1, [])];
    assert s3.heap.nodes - {1} == rest;
    var h := Heap(rest, 3, [1], false);
    assert Release(s3.heap, 1) == ReleaseAll(h, [2]);
    assert Release(h, 2).nodes == map[2 := Empty(1, 1, [])];
    assert ReleaseAll(h, [2]) == ReleaseAll(Release(h, 2), []);
    var s4 := Apply(s3, Destroy(0));
    assert s4.heap.nodes == map[2 := Empty(1, 1, [])] && s4.handles == [0, 2];
    var ops := [Create, Create, Op.AppendChild(0, 1), Destroy(0)];
    hide Apply, Start;
    assert ops[1..] == [Create, Op.AppendChild(0, 1), Destroy(0)];
    assert ops[1..][1..] == [Op.AppendChild(0, 1), Destroy(0)];
    assert ops[1..][1..][1..] == [Destroy(0)];
    assert ops[1..][1..][1..][1..] == [];
    assert IsRun(s4, []) && AfterRun(s4, []) == s4;
    assert IsRun(s3, [Destroy(0)]) && AfterRun(s3, [Destroy(0)]) == s4;
  }

  /** The other excluded case is reachable too: an element appended to itself outlives its last handle. */
  lemma SelfAppendLeaks()
    ensures var ops := [Create, Op.AppendChild(0, 0), Destroy(0)];
            IsRun(Start(), ops) && AfterRun(Start(), ops).handles == [0] && 1 in AfterRun(Start(), ops).heap.nodes
  {
    var s1 := Apply(Start(), Create);
    assert s1 == Store(Heap(map[1 := Empty(1, 0, [])], 2, [], false), [1]);
    var s2 := Apply(s1, Op.AppendChild(0, 0));
    var none: seq<Ptr> := [];
    assert Ref(s1.heap, 1).nodes == map[1 := Empty(2, 0, [])];
    assert none + [1] == [1];
    assert s2 == Store(Heap(map[1 := Empty(2, 1, [1])], 2, [], false), [1]);
    var s3 := Apply(s2, Destroy(0));
    assert s3 == Store(Heap(map[1 := Empty(1, 1, [1])], 2, [], false), [0]);
    var ops := [Create, Op.AppendChild(0, 0), Destroy(0)];
    assert ops[1..] == [Op.AppendChild(0, 0), Destroy(0)] && ops[1..][1..] == [Destroy(0)] && ops[1..][1..][1..] == [];
  }
}
