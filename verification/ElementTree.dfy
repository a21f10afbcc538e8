// Every operation on elements keeps the heap invariant, unless it follows the parent
// link of a child that outlived its parent.

module ElementTree {
  import opened Wrappers
  import opened Sorting
  import opened ElementHeap

  // --------------------------------------------------------- the other heap steps

  lemma RefKeepsInv(h: Heap, p: Ptr, refs: multiset<Ptr>)
    requires HeapInv(h, refs) && p in h.nodes
    ensures HeapInv(Ref(h, p), refs + multiset{p})
    ensures SameTree(h.nodes, Ref(h, p).nodes)
  {
    RecountKeepsInv(h, p, h.nodes[p].(counter := h.nodes[p].counter + 1), refs, refs + multiset{p});
  }

  lemma NewNodeKeepsLinks(nodes: map<Ptr, Node>, p: Ptr, node: Node)
    requires Linked(nodes) && p !in nodes && p != 0 && node.parent == 0 && node.children == []
    requires forall q :: q in nodes ==> nodes[q].parent != p
    ensures Linked(nodes[p := node])
  {}

  lemma NewNodeKeepsInv(h: Heap, node: Node, refs: multiset<Ptr>)
    requires HeapInv(h, refs) && node.counter == 1 && node.parent == 0 && node.children == []
    ensures HeapInv(NewNode(h, node), refs + multiset{h.next})
    ensures h.next !in refs
  {
    assert h.next !in h.nodes && forall q :: q in h.nodes ==> h.nodes[q].parent != h.next;
    NewNodeKeepsLinks(h.nodes, h.next, node);
    NewNodeIsAccounted(h, node);
  }

  lemma NewNodeIsAccounted(h: Heap, node: Node)
    requires Accounted(h) && node.parent == 0
    ensures Accounted(NewNode(h, node))
  {
    assert forall p :: p in NewNode(h, node).nodes <==> p in h.nodes || p == h.next;
  }

  /** b is a with c, until now in no list, as the last child of p. */
  ghost predicate LinkedUnder(a: map<Ptr, Node>, b: map<Ptr, Node>, p: Ptr, c: Ptr) {
    && p in a && c in a && a.Keys == b.Keys
    && (forall q :: q in a ==>
          && b[q].counter == a[q].counter
          && b[q].parent == (if q == c then p else a[q].parent)
          && b[q].children == (if q == p then a[q].children + [c] else a[q].children))
  }

  lemma LinkShape(h: Heap, p: Ptr, c: Ptr)
    requires p in h.nodes && c in h.nodes
    ensures LinkedUnder(h.nodes, Link(h, p, c).nodes, p, c)
  {}

  lemma LinkKeepsLinks(a: map<Ptr, Node>, b: map<Ptr, Node>, p: Ptr, c: Ptr)
    requires Linked(a) && LinkedUnder(a, b, p, c) && !Owned(a, c)
    ensures Linked(b)
  {
    assert forall q :: q in a ==> c !in a[q].children;
    LinkKeepsChildrenUp(a, b, p, c);
  }

  lemma LinkKeepsChildrenUp(a: map<Ptr, Node>, b: map<Ptr, Node>, p: Ptr, c: Ptr)
    requires ChildrenPointUp(a) && LinkedUnder(a, b, p, c) && forall q :: q in a ==> c !in a[q].children
    ensures ChildrenPointUp(b)
  {
    forall q, x | q in b && x in b[q].children ensures x in b && b[x].parent == q {
      assert x in a[q].children || (q == p && x == c);
    }
  }

  lemma LinkIsCounted(a: map<Ptr, Node>, b: map<Ptr, Node>, p: Ptr, c: Ptr, refs: multiset<Ptr>)
    requires Counted(a, refs) && LinkedUnder(a, b, p, c) && !Owned(a, c) && refs[c] > 0
    ensures Counted(b, refs - multiset{c})
  {
    CountsFollow(a, b, refs, refs - multiset{c});
  }

  lemma LinkIsAccounted(h: Heap, p: Ptr, c: Ptr)
    requires Accounted(h) && p in h.nodes && c in h.nodes && p != 0
    ensures Accounted(Link(h, p, c))
  {
    LinkShape(h, p, c);
    assert p < h.next;
    assert forall q :: q in Link(h, p, c).nodes <==> q in h.nodes;
  }

  /** Linking a loose node uses up one outside reference. */
  lemma LinkKeepsInv(h: Heap, p: Ptr, c: Ptr, refs: multiset<Ptr>)
    requires HeapInv(h, refs) && p in h.nodes && c in h.nodes && !Owned(h.nodes, c) && refs[c] > 0
    ensures HeapInv(Link(h, p, c), refs - multiset{c})
  {
    assert p != 0;
    hide Linked, Counted, Accounted, LinkedUnder;
    LinkShape(h, p, c);
    LinkKeepsLinks(h.nodes, Link(h, p, c).nodes, p, c);
    LinkIsCounted(h.nodes, Link(h, p, c).nodes, p, c, refs);
    LinkIsAccounted(h, p, c);
  }

  lemma {:induction false} RemoveAllElements(ps: seq<Ptr>, c: Ptr)
    ensures forall q :: q in RemoveAll(ps, c) <==> q in ps && q != c
    ensures Distinct(ps) ==> Distinct(RemoveAll(ps, c))
  {
    if ps != [] {
      RemoveAllElements(ps[1..], c);
      var rest := RemoveAll(ps[1..], c);
      if Distinct(ps) {
        assert ps[0] !in ps[1..];
      }
    }
  }

  /** Takes c out of its parent's list and clears its parent link. */
  function Detach(h: Heap, c: Ptr): Heap
    requires c in h.nodes
  {
    var h' := Unlist(h, h.nodes[c].parent, c);
    if c !in h'.nodes then h' else h'.(nodes := h'.nodes[c := h'.nodes[c].(parent := 0)])
  }

  /** b is a with c taken out of the child list of p. */
  ghost predicate DetachedFrom(a: map<Ptr, Node>, b: map<Ptr, Node>, p: Ptr, c: Ptr) {
    && p in a && c in a && a.Keys == b.Keys
    && (forall q :: q in a ==>
          && b[q].counter == a[q].counter
          && b[q].parent == (if q == c then 0 else a[q].parent)
          && b[q].children == (if q == p then RemoveAll(a[q].children, c) else a[q].children))
  }

  lemma DetachShape(h: Heap, c: Ptr)
    requires c in h.nodes && Owned(h.nodes, c)
    ensures DetachedFrom(h.nodes, Detach(h, c).nodes, h.nodes[c].parent, c)
    ensures Detach(h, c) == h.(nodes := Detach(h, c).nodes)
  {}

  lemma DetachKeepsLinks(a: map<Ptr, Node>, b: map<Ptr, Node>, p: Ptr, c: Ptr)
    requires Linked(a) && DetachedFrom(a, b, p, c) && a[c].parent == p
    ensures Linked(b) && !Owned(b, c)
  {
    RemoveAllElements(a[p].children, c);
    assert ListsHaveNoRepeats(b);
    DetachKeepsChildrenUp(a, b, p, c);
    DetachKeepsParentsList(a, b, p, c);
  }

  lemma DetachKeepsChildrenUp(a: map<Ptr, Node>, b: map<Ptr, Node>, p: Ptr, c: Ptr)
    requires ChildrenPointUp(a) && DetachedFrom(a, b, p, c) && a[c].parent == p
    ensures ChildrenPointUp(b)
  {
    RemoveAllElements(a[p].children, c);
    assert c !in b[p].children;
    hide RemoveAll;
    forall q, x | q in b && x in b[q].children ensures x in b && b[x].parent == q {
      assert x in a[q].children && a[x].parent == q;
    }
  }

  lemma DetachKeepsParentsList(a: map<Ptr, Node>, b: map<Ptr, Node>, p: Ptr, c: Ptr)
    requires ParentsListThem(a) && DetachedFrom(a, b, p, c) && 0 !in a
    ensures ParentsListThem(b)
  {
    RemoveAllElements(a[p].children, c);
    forall x | x in b && b[x].parent in b ensures x in b[b[x].parent].children {
      assert x != c && x in a[a[x].parent].children;
    }
  }

  lemma DetachIsCounted(a: map<Ptr, Node>, b: map<Ptr, Node>, p: Ptr, c: Ptr, refs: multiset<Ptr>)
    requires Counted(a, refs) && DetachedFrom(a, b, p, c) && a[c].parent == p && 0 !in a
    ensures Counted(b, refs + multiset{c})
  {
    CountsFollow(a, b, refs, refs + multiset{c});
  }

  lemma DetachIsAccounted(h: Heap, c: Ptr)
    requires Accounted(h) && c in h.nodes && Owned(h.nodes, c)
    ensures Accounted(Detach(h, c))
  {
    DetachShape(h, c);
    assert forall q :: q in Detach(h, c).nodes <==> q in h.nodes;
  }

  /** Detaching leaves the parent's reference loose. */
  lemma DetachKeepsInv(h: Heap, c: Ptr, refs: multiset<Ptr>)
    requires HeapInv(h, refs) && c in h.nodes && Owned(h.nodes, c)
    ensures HeapInv(Detach(h, c), refs + multiset{c})
    ensures !Owned(Detach(h, c).nodes, c) && Detach(h, c).nodes.Keys == h.nodes.Keys
    ensures Detach(h, c).nodes[c].counter == h.nodes[c].counter
  {
    DetachShape(h, c);
    hide Counted, Accounted;
    var p, nodes := h.nodes[c].parent, Detach(h, c).nodes;
    DetachIsCounted(h.nodes, nodes, p, c, refs);
    DetachIsAccounted(h, c);
    DetachKeepsLinks(h.nodes, nodes, p, c);
  }

  lemma AppendKeepsInv(h: Heap, p: Ptr, c: Ptr, refs: multiset<Ptr>)
    requires HeapInv(h, refs) && p in h.nodes && c in h.nodes
    requires h.nodes[c].parent == 0 || h.nodes[c].parent in h.nodes
    ensures HeapInv(Append(h, p, c), refs)
  {
    hide Counted, Accounted, Link, Ref, Unlist, ListsHaveNoRepeats, ChildrenPointUp, ParentsListThem;
    assert refs + multiset{c} - multiset{c} == refs;
    if h.nodes[c].parent != p {
      if h.nodes[c].parent == 0 {
        RefKeepsInv(h, c, refs);
        LinkKeepsInv(Ref(h, c), p, c, refs + multiset{c});
      } else {
        DetachKeepsInv(h, c, refs);
        LinkKeepsInv(Detach(h, c), p, c, refs + multiset{c});
        LinkForgetsOldParent(h, p, c);
      }
    }
  }

  lemma LinkForgetsOldParent(h: Heap, p: Ptr, c: Ptr)
    requires Linked(h.nodes) && p in h.nodes && c in h.nodes && Owned(h.nodes, c)
    ensures Link(Unlist(h, h.nodes[c].parent, c), p, c) == Link(Detach(h, c), p, c)
  {
    var a := Unlist(h, h.nodes[c].parent, c);
    var b := Detach(h, c);
    assert a.nodes.Keys == b.nodes.Keys == h.nodes.Keys;
    assert a.nodes[c := a.nodes[c].(parent := p)] == b.nodes[c := b.nodes[c].(parent := p)];
  }

  lemma RemoveIsDetachAndDecrement(h: Heap, p: Ptr, c: Ptr)
    requires p in h.nodes && c in h.nodes && h.nodes[c].parent == p
    ensures var d := Detach(h, c);
            c in d.nodes && Remove(h, p, c) == d.(nodes := d.nodes[c := d.nodes[c].(counter := d.nodes[c].counter - 1)])
  {
    var u := Unlist(h, p, c);
    var n := u.nodes[c];
    assert u.nodes[c := n.(parent := 0)][c := n.(parent := 0, counter := n.counter - 1)]
        == u.nodes[c := n.(parent := 0, counter := n.counter - 1)];
  }

  lemma RemoveKeepsInv(h: Heap, p: Ptr, c: Ptr, refs: multiset<Ptr>)
    requires HeapInv(h, refs) && p in h.nodes && c in h.nodes && refs[c] > 0
    ensures HeapInv(Remove(h, p, c), refs)
  {
    hide Linked, Accounted;
    if h.nodes[c].parent == p {
      var d := Detach(h, c);
      DetachKeepsInv(h, c, refs);
      RemoveIsDetachAndDecrement(h, p, c);
      var n := d.nodes[c];
      RecountKeepsInv(d, c, n.(counter := n.counter - 1), refs + multiset{c}, refs);
    }
  }

  // ------------------------------------------------------------ parsed elements

  /** Building adds nodes and leaves the others as they are, except possibly one parent. */
  ghost predicate Extends(h: Heap, h': Heap, except: Ptr) {
    && h.next <= h'.next && h.deleted == h'.deleted
    && forall q :: q in h.nodes ==> q in h'.nodes && (q != except ==> h'.nodes[q] == h.nodes[q])
  }

  lemma LinkExtends(h: Heap, built: Heap, p: Ptr, c: Ptr)
    requires Extends(h, built, 0) && p in h.nodes && c in built.nodes && c !in h.nodes && 0 !in h.nodes
    ensures Extends(h, Link(built, p, c), p) && p in Link(built, p, c).nodes
    ensures Link(built, p, c).nodes[p].parent == h.nodes[p].parent
  {}

  lemma ExtendsTransitive(a: Heap, b: Heap, c: Heap, p: Ptr)
    requires Extends(a, b, p) && Extends(b, c, p)
    ensures Extends(a, c, p)
  {}

  lemma {:induction false} BuildKeepsInv(h: Heap, dom: Dom, refs: multiset<Ptr>)
    requires HeapInv(h, refs)
    ensures HeapInv(Build(h, dom), refs + multiset{h.next})
    ensures Extends(h, Build(h, dom), 0) && h.next !in refs && h.next !in h.nodes
    ensures h.next in Build(h, dom).nodes && Build(h, dom).nodes[h.next].parent == 0
    decreases dom, 0
  {
    var node := Node(1, 0, [], dom.name, dom.value, dom.attributes);
    NewNodeKeepsInv(h, node, refs);
    assert h.next !in h.nodes;
    BuildChildrenKeepsInv(NewNode(h, node), h.next, dom.children, refs + multiset{h.next});
  }

  lemma {:induction false} BuildChildrenKeepsInv(h: Heap, p: Ptr, doms: seq<Dom>, refs: multiset<Ptr>)
    requires HeapInv(h, refs) && p in h.nodes
    ensures HeapInv(BuildChildren(h, p, doms), refs)
    ensures Extends(h, BuildChildren(h, p, doms), p)
    ensures p in BuildChildren(h, p, doms).nodes && BuildChildren(h, p, doms).nodes[p].parent == h.nodes[p].parent
    decreases doms, 1
  {
    assert p != 0 && 0 !in h.nodes;
    hide Counted, Accounted, ListsHaveNoRepeats, ChildrenPointUp, ParentsListThem;
    if doms != [] {
      var c, built := h.next, Build(h, doms[0]);
      BuildKeepsInv(h, doms[0], refs);
      assert 0 !in built.nodes && !Owned(built.nodes, c);
      assert built.nodes[p] == h.nodes[p];
      LinkKeepsInv(built, p, c, refs + multiset{c});
      assert refs + multiset{c} - multiset{c} == refs;
      LinkExtends(h, built, p, c);
      hide Link, Extends;
      BuildChildrenKeepsInv(Link(built, p, c), p, doms[1..], refs);
      ExtendsTransitive(h, Link(built, p, c), BuildChildren(h, p, doms), p);
    }
  }

  // ------------------------------------------------------------------ every operation

  lemma {:induction false} FoundIsListed(h: Heap, ps: seq<Ptr>, name: string)
    ensures FindNamed(h, ps, name).Some? ==> FindNamed(h, ps, name).value in ps && FindNamed(h, ps, name).value in h.nodes
  {
    if ps != [] {
      FoundIsListed(h, ps[1..], name);
    }
  }

  lemma NullReference(h: Heap, refs: multiset<Ptr>)
    requires HeapInv(h, refs)
    ensures HeapInv(h, refs + multiset{0})
  {}

  lemma HandleToKeepsInv(s: Store, found: Option<Ptr>)
    requires Inv(s) && (found.Some? ==> found.value in s.heap.nodes)
    ensures Inv(HandleTo(s, found))
  {
    match found
    case Some(p) => RefKeepsInv(s.heap, p, multiset(s.handles));
    case None => NewNodeKeepsInv(s.heap, Node(1, 0, [], "", "", map[]), multiset(s.handles));
  }

  /** The parent of the node behind handle i was deleted, but the link to it is still set. */
  predicate HasDanglingParent(s: Store, i: nat)
    requires IsHandle(s, i)
  {
    var p := s.handles[i];
    p in s.heap.nodes && s.heap.nodes[p].parent != 0 && s.heap.nodes[p].parent !in s.heap.nodes
  }

  /** The operations that follow the parent link of a child that outlived its parent. */
  predicate FollowsDangling(s: Store, op: Op)
    requires Enabled(s, op)
  {
    match op
    case AppendChild(i, j) => HasDanglingParent(s, j)
    case NextSiblingElement(i, _) => HasDanglingParent(s, i)
    case _ => false
  }

  lemma HandleUpdated(handles: seq<Ptr>, i: nat, q: Ptr)
    requires i < |handles|
    ensures multiset(handles[i := q]) == multiset(handles) - multiset{handles[i]} + multiset{q}
    ensures multiset(handles)[handles[i]] > 0
  {
    assert handles[i] in handles;
  }

  lemma HandlesAreLive(s: Store, i: nat)
    requires Inv(s) && IsHandle(s, i)
    ensures s.handles[i] in s.heap.nodes && multiset(s.handles)[s.handles[i]] > 0
  {
    assert s.handles[i] in s.handles;
  }

  lemma MoveReference(refs: multiset<Ptr>, p: Ptr, q: Ptr)
    requires refs[p] > 0
    ensures refs + multiset{q} - multiset{p} == refs - multiset{p} + multiset{q}
  {}

  lemma AssignKeepsInv(s: Store, i: nat, j: nat)
    requires Inv(s) && IsHandle(s, i) && IsHandle(s, j)
    ensures HeapInv(Release(Ref(s.heap, s.handles[j]), s.handles[i]), multiset(s.handles[i := s.handles[j]]))
  {
    hide HeapInv, Release, Ref;
    var refs := multiset(s.handles);
    var p, q := s.handles[i], s.handles[j];
    HandlesAreLive(s, i);
    HandlesAreLive(s, j);
    HandleUpdated(s.handles, i, q);
    RefKeepsInv(s.heap, q, refs);
    ReleaseKeepsInv(Ref(s.heap, q), p, refs + multiset{q});
    MoveReference(refs, p, q);
  }

  lemma DestroyKeepsInv(s: Store, i: nat)
    requires Inv(s) && IsHandle(s, i)
    ensures HeapInv(Release(s.heap, s.handles[i]), multiset(s.handles[i := 0]))
  {
    hide HeapInv, Release;
    HandleUpdated(s.handles, i, 0);
    ReleaseKeepsInv(s.heap, s.handles[i], multiset(s.handles));
    NullReference(Release(s.heap, s.handles[i]), multiset(s.handles) - multiset{s.handles[i]});
  }

  lemma LookupKeepsInv(s: Store, op: Op)
    requires Inv(s) && Enabled(s, op) && !FollowsDangling(s, op)
    requires op.FirstChildElement? || op.NextSiblingElement?
    ensures Inv(Apply(s, op))
  {
    var h := s.heap;
    var p := s.handles[op.i];
    assert p in multiset(s.handles) && p in h.nodes;
    if op.FirstChildElement? {
      FoundIsListed(h, h.nodes[p].children, op.name);
      HandleToKeepsInv(s, FindNamed(h, h.nodes[p].children, op.name));
    } else if h.nodes[p].parent == 0 {
      HandleToKeepsInv(s, None);
    } else {
      var siblings := After(h.nodes[h.nodes[p].parent].children, p);
      FoundIsListed(h, siblings, op.name);
      HandleToKeepsInv(s, FindNamed(h, siblings, op.name));
    }
  }

  lemma StepKeepsInv(s: Store, op: Op)
    requires Inv(s) && Enabled(s, op) && !FollowsDangling(s, op)
    ensures Inv(Apply(s, op))
  {
    var refs := multiset(s.handles);
    forall i: nat | IsHandle(s, i) ensures refs[s.handles[i]] > 0 && s.handles[i] in s.heap.nodes {
      HandlesAreLive(s, i);
    }
    hide HeapInv, Ref, Release, Build, Append, Remove;
    match op
    case Create => HandleToKeepsInv(s, None);
    case Parse(dom) => BuildKeepsInv(s.heap, dom, refs);
    case Copy(i) => RefKeepsInv(s.heap, s.handles[i], refs);
    case Assign(i, j) => if i != j { AssignKeepsInv(s, i, j); }
    case Destroy(i) => DestroyKeepsInv(s, i);
    case AppendChild(i, j) => AppendKeepsInv(s.heap, s.handles[i], s.handles[j], refs);
    case RemoveChild(i, j) => RemoveKeepsInv(s.heap, s.handles[i], s.handles[j], refs);
    case FirstChildElement(_, _) => LookupKeepsInv(s, op);
    case NextSiblingElement(_, _) => LookupKeepsInv(s, op);
  }

  function Start(): Store { Store(Heap(map[], 1, [], false), []) }

  lemma StartIsValid()
    ensures Inv(Start())
  {}
}
