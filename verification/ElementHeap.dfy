// The reference-counted element tree: nodes live on an explicit heap, element
// objects are handles to them, and a node that loses its last reference is deleted
// together with the children that only it kept alive.

module ElementHeap {
  import opened Wrappers
  import opened Sorting

  /** 0 is the null pointer; an address is never given out twice. */
  type Ptr = nat

  datatype Node = Node(counter: int, parent: Ptr, children: seq<Ptr>, name: string, value: string, attributes: map<string, string>)

  /** faulted: some step used the address of a node that is not live. */
  datatype Heap = Heap(nodes: map<Ptr, Node>, next: Ptr, deleted: seq<Ptr>, faulted: bool)

  /** handles[i] is the node of element object number i, or null once that object is destroyed. */
  datatype Store = Store(heap: Heap, handles: seq<Ptr>)

  datatype Dom = Dom(name: string, value: string, attributes: map<string, string>, children: seq<Dom>)

  datatype Op =
    | Create
    | Parse(dom: Dom)
    | Copy(i: nat)
    | Assign(i: nat, j: nat)
    | Destroy(i: nat)
    | AppendChild(i: nat, j: nat)
    | RemoveChild(i: nat, j: nat)
    | FirstChildElement(i: nat, name: string)
    | NextSiblingElement(i: nat, name: string)

  // ------------------------------------------------------------------ heap steps

  function Fault(h: Heap): Heap { h.(faulted := true) }

  function Ref(h: Heap, p: Ptr): Heap {
    if p !in h.nodes then Fault(h)
    else h.(nodes := h.nodes[p := h.nodes[p].(counter := h.nodes[p].counter + 1)])
  }

  /** Drops one reference to p and deletes the node if it was the last one. */
  function Release(h: Heap, p: Ptr): (r: Heap)
    ensures r.nodes.Keys <= h.nodes.Keys
    decreases |h.nodes|, 0, 0
  {
    if p !in h.nodes then Fault(h)
    else
      var n := h.nodes[p];
      if n.counter - 1 != 0 then h.(nodes := h.nodes[p := n.(counter := n.counter - 1)])
      else
        var rest := h.nodes - {p};
        assert rest.Keys == h.nodes.Keys - {p};
        assert |rest.Keys| < |h.nodes.Keys|;
        ReleaseAll(h.(nodes := rest, deleted := h.deleted + [p]), n.children)
  }

  /** What the destructor does with the children of a deleted node. */
  function ReleaseAll(h: Heap, ps: seq<Ptr>): (r: Heap)
    ensures r.nodes.Keys <= h.nodes.Keys
    decreases |h.nodes|, 1, |ps|
  {
    if ps == [] then h
    else
      var h' := Release(h, ps[0]);
      SubsetSize(h'.nodes.Keys, h.nodes.Keys);
      ReleaseAll(h', ps[1..])
  }

  lemma {:induction false} SubsetSize<T>(a: set<T>, b: set<T>)
    requires a <= b
    ensures |a| <= |b|
  {
    if a != {} {
      var x :| x in a;
      SubsetSize(a - {x}, b - {x});
    }
  }

  function RemoveAll(ps: seq<Ptr>, p: Ptr): seq<Ptr> {
    if ps == [] then [] else (if ps[0] == p then [] else [ps[0]]) + RemoveAll(ps[1..], p)
  }

  /** Takes c out of the child list of p. */
  function Unlist(h: Heap, p: Ptr, c: Ptr): Heap {
    if p !in h.nodes then Fault(h)
    else h.(nodes := h.nodes[p := h.nodes[p].(children := RemoveAll(h.nodes[p].children, c))])
  }

  /** Makes c the last child of p. */
  function Link(h: Heap, p: Ptr, c: Ptr): Heap {
    if p !in h.nodes || c !in h.nodes then Fault(h)
    else
      var nodes := h.nodes[c := h.nodes[c].(parent := p)];
      h.(nodes := nodes[p := nodes[p].(children := nodes[p].children + [c])])
  }

  function Append(h: Heap, p: Ptr, c: Ptr): Heap {
    if p !in h.nodes || c !in h.nodes then Fault(h)
    else if h.nodes[c].parent == p then h
    else Link(if h.nodes[c].parent != 0 then Unlist(h, h.nodes[c].parent, c) else Ref(h, c), p, c)
  }

  function Remove(h: Heap, p: Ptr, c: Ptr): Heap {
    if p !in h.nodes || c !in h.nodes then Fault(h)
    else if h.nodes[c].parent != p then h
    else
      var h' := Unlist(h, p, c);
      var n := h'.nodes[c];
      h'.(nodes := h'.nodes[c := n.(counter := n.counter - 1, parent := 0)])
  }

  function NewNode(h: Heap, node: Node): Heap { h.(nodes := h.nodes[h.next := node], next := h.next + 1) }

  /** Builds the nodes of a DOM element; the result is referenced once and has no parent. */
  function Build(h: Heap, dom: Dom): Heap
    decreases dom, 0
  {
    BuildChildren(NewNode(h, Node(1, 0, [], dom.name, dom.value, dom.attributes)), h.next, dom.children)
  }

  function BuildChildren(h: Heap, p: Ptr, doms: seq<Dom>): Heap
    decreases doms, 1
  {
    if doms == [] then h else BuildChildren(Link(Build(h, doms[0]), p, h.next), p, doms[1..])
  }

  function FindNamed(h: Heap, ps: seq<Ptr>, name: string): Option<Ptr> {
    if ps == [] then None
    else if ps[0] in h.nodes && (name == "" || h.nodes[ps[0]].name == name) then Some(ps[0])
    else FindNamed(h, ps[1..], name)
  }

  function After(ps: seq<Ptr>, p: Ptr): seq<Ptr> {
    if ps == [] then [] else if ps[0] == p then ps[1..] else After(ps[1..], p)
  }

  // ------------------------------------------------------------------- operations

  predicate IsHandle(s: Store, i: nat) { i < |s.handles| && s.handles[i] != 0 }

  function AddHandle(s: Store, h: Heap, p: Ptr): Store { Store(h, s.handles + [p]) }

  function NewEmpty(s: Store): Store {
    AddHandle(s, NewNode(s.heap, Node(1, 0, [], "", "", map[])), s.heap.next)
  }

  /** A new handle to the found node, or to a new empty node. */
  function HandleTo(s: Store, found: Option<Ptr>): Store {
    match found case Some(p) => AddHandle(s, Ref(s.heap, p), p) case None => NewEmpty(s)
  }

  predicate Enabled(s: Store, op: Op) {
    match op
    case Create | Parse(_) => true
    case Copy(i) => IsHandle(s, i)
    case Assign(i, j) => IsHandle(s, i) && IsHandle(s, j)
    case Destroy(i) => IsHandle(s, i)
    case AppendChild(i, j) => IsHandle(s, i) && IsHandle(s, j)
    case RemoveChild(i, j) => IsHandle(s, i) && IsHandle(s, j)
    case FirstChildElement(i, _) => IsHandle(s, i)
    case NextSiblingElement(i, _) => IsHandle(s, i)
  }

  function Apply(s: Store, op: Op): Store
    requires Enabled(s, op)
  {
    var h := s.heap;
    match op
    case Create => NewEmpty(s)
    case Parse(dom) => AddHandle(s, Build(h, dom), h.next)
    case Copy(i) => AddHandle(s, Ref(h, s.handles[i]), s.handles[i])
    case Assign(i, j) =>
      if i == j then s
      else Store(Release(Ref(h, s.handles[j]), s.handles[i]), s.handles[i := s.handles[j]])
    case Destroy(i) => Store(Release(h, s.handles[i]), s.handles[i := 0])
    case AppendChild(i, j) => s.(heap := Append(h, s.handles[i], s.handles[j]))
    case RemoveChild(i, j) => s.(heap := Remove(h, s.handles[i], s.handles[j]))
    case FirstChildElement(i, name) =>
      if s.handles[i] !in h.nodes then s.(heap := Fault(h))
      else HandleTo(s, FindNamed(h, h.nodes[s.handles[i]].children, name))
    case NextSiblingElement(i, name) =>
      if s.handles[i] !in h.nodes then s.(heap := Fault(h))
      else
        var parent := h.nodes[s.handles[i]].parent;
        if parent == 0 then NewEmpty(s)
        else if parent !in h.nodes then s.(heap := Fault(h))
        else HandleTo(s, FindNamed(h, After(h.nodes[parent].children, s.handles[i]), name))
  }

  // -------------------------------------------------------------------- invariant

  /** p is in the child list of a live node. */
  predicate Owned(nodes: map<Ptr, Node>, p: Ptr)
    requires p in nodes
  {
    nodes[p].parent in nodes
  }

  ghost predicate ListsHaveNoRepeats(nodes: map<Ptr, Node>) {
    forall p :: p in nodes ==> Distinct(nodes[p].children)
  }

  ghost predicate ChildrenPointUp(nodes: map<Ptr, Node>) {
    forall p, c :: p in nodes && c in nodes[p].children ==> c in nodes && nodes[c].parent == p
  }

  ghost predicate ParentsListThem(nodes: map<Ptr, Node>) {
    forall c :: c in nodes && nodes[c].parent in nodes ==> c in nodes[nodes[c].parent].children
  }

  /** The links of the tree: child lists and parent pointers of live nodes agree. */
  ghost predicate Linked(nodes: map<Ptr, Node>) {
    0 !in nodes && ListsHaveNoRepeats(nodes) && ChildrenPointUp(nodes) && ParentsListThem(nodes)
  }

  /** Every counter is the number of references from outside plus one for a live parent. */
  ghost predicate Counted(nodes: map<Ptr, Node>, refs: multiset<Ptr>) {
    && (forall p :: p in nodes ==> nodes[p].counter == refs[p] + (if Owned(nodes, p) then 1 else 0))
    && (forall p :: p in nodes ==> nodes[p].counter > 0)
    && (forall p :: p in refs && p != 0 ==> p in nodes)
  }

  /** Every address given out is either live or was deleted exactly once. */
  ghost predicate Accounted(h: Heap) {
    && h.next > 0
    && Distinct(h.deleted)
    && (forall p :: p in h.deleted ==> p !in h.nodes)
    && (forall p :: 0 < p < h.next <==> p in h.nodes || p in h.deleted)
    && (forall p :: p in h.nodes ==> h.nodes[p].parent < h.next)
  }

  ghost predicate HeapInv(h: Heap, refs: multiset<Ptr>) {
    !h.faulted && Linked(h.nodes) && Counted(h.nodes, refs) && Accounted(h)
  }

  ghost predicate Inv(s: Store) { HeapInv(s.heap, multiset(s.handles)) }

  // ----------------------------------------------------------- releasing references

  /** The same nodes with the same links; counters may differ. */
  ghost predicate SameTree(a: map<Ptr, Node>, b: map<Ptr, Node>) {
    && a.Keys == b.Keys
    && forall p :: p in a ==> a[p].parent == b[p].parent && a[p].children == b[p].children
  }

  lemma SameTreeIsLinked(a: map<Ptr, Node>, b: map<Ptr, Node>)
    requires SameTree(a, b) && Linked(a)
    ensures Linked(b)
  {
    assert forall p :: p in b ==> p in a;
  }

  lemma SameTreeIsAccounted(h: Heap, nodes: map<Ptr, Node>)
    requires Accounted(h) && SameTree(h.nodes, nodes)
    ensures Accounted(h.(nodes := nodes))
  {
    assert forall p :: p in nodes <==> p in h.nodes;
  }

  /** Counters follow the references when they change by the same amounts. */
  lemma CountsFollow(a: map<Ptr, Node>, b: map<Ptr, Node>, refs: multiset<Ptr>, refs': multiset<Ptr>)
    requires Counted(a, refs) && a.Keys == b.Keys
    requires forall q :: q in b ==>
      b[q].counter > 0 &&
      b[q].counter - a[q].counter == refs'[q] as int - refs[q] as int
                                     + (if Owned(b, q) then 1 else 0) - (if Owned(a, q) then 1 else 0)
    requires forall q :: q in refs' && q != 0 ==> q in a
    ensures Counted(b, refs')
  {}

  /** Changing one counter together with the number of outside references. */
  lemma RecountKeepsInv(h: Heap, p: Ptr, n: Node, refs: multiset<Ptr>, refs': multiset<Ptr>)
    requires HeapInv(h, refs) && p in h.nodes
    requires n == h.nodes[p].(counter := n.counter) && n.counter > 0
    requires forall q :: q != p ==> refs'[q] == refs[q]
    requires refs'[p] + h.nodes[p].counter == refs[p] + n.counter
    ensures HeapInv(h.(nodes := h.nodes[p := n]), refs')
  {
    hide Linked, Accounted, Counted;
    var nodes := h.nodes[p := n];
    assert SameTree(h.nodes, nodes);
    SameTreeIsLinked(h.nodes, nodes);
    SameTreeIsAccounted(h, nodes);
    RecountedIsCounted(h.nodes, p, n, refs, refs');
  }

  lemma RecountedIsCounted(nodes: map<Ptr, Node>, p: Ptr, n: Node, refs: multiset<Ptr>, refs': multiset<Ptr>)
    requires Counted(nodes, refs) && p in nodes
    requires n == nodes[p].(counter := n.counter) && n.counter > 0
    requires forall q :: q != p ==> refs'[q] == refs[q]
    requires refs'[p] + nodes[p].counter == refs[p] + n.counter
    ensures Counted(nodes[p := n], refs')
  {
    var nodes' := nodes[p := n];
    assert nodes'.Keys == nodes.Keys;
    forall q | q in refs' && q != 0 ensures q in nodes {
      assert q != p ==> q in refs;
    }
    CountsFollow(nodes, nodes', refs, refs');
  }

  lemma DecrementKeepsInv(h: Heap, p: Ptr, refs: multiset<Ptr>)
    requires HeapInv(h, refs) && refs[p] > 0 && p in h.nodes && h.nodes[p].counter > 1
    ensures HeapInv(Release(h, p), refs - multiset{p})
  {
    var n := h.nodes[p];
    RecountKeepsInv(h, p, n.(counter := n.counter - 1), refs, refs - multiset{p});
  }

  lemma DeleteKeepsLinks(nodes: map<Ptr, Node>, p: Ptr)
    requires Linked(nodes) && p in nodes && !Owned(nodes, p)
    ensures Linked(nodes - {p}) && p !in nodes[p].children
    ensures forall c :: c in nodes && c != p ==> (Owned(nodes - {p}, c) <==> Owned(nodes, c) && c !in nodes[p].children)
  {}

  lemma ListedCounts(children: seq<Ptr>, listed: multiset<Ptr>)
    requires Distinct(children) && listed == multiset(children)
    ensures forall c :: listed[c] == if c in children then 1 else 0
  {
    forall c: Ptr ensures listed[c] == if c in children then 1 else 0 {
      DistinctCount(children, c);
    }
  }

  lemma DeletedIsLoose(nodes: map<Ptr, Node>, p: Ptr, refs: multiset<Ptr>)
    requires Linked(nodes) && Counted(nodes, refs) && refs[p] > 0 && p in nodes && nodes[p].counter == 1
    ensures !Owned(nodes, p) && refs[p] == 1 && Distinct(nodes[p].children)
    ensures forall c :: c in nodes[p].children ==> c in nodes && c != p && Owned(nodes, c)
  {
    assert !Owned(nodes, p) && refs[p] == 1;
  }

  lemma DeleteKeepsCounts(nodes: map<Ptr, Node>, p: Ptr, refs: multiset<Ptr>)
    requires Linked(nodes) && Counted(nodes, refs) && refs[p] > 0 && p in nodes && nodes[p].counter == 1
    ensures !Owned(nodes, p)
    ensures Counted(nodes - {p}, refs - multiset{p} + multiset(nodes[p].children))
  {
    hide Linked, Distinct;
    DeletedIsLoose(nodes, p, refs);
    DeleteKeepsLinks(nodes, p);
    var children, rest := nodes[p].children, nodes - {p};
    var listed: multiset<Ptr> := multiset(children);
    ListedCounts(children, listed);
  }

  /** Deleting p turns the references its child list held into loose ones. */
  lemma DeleteKeepsInv(h: Heap, p: Ptr, refs: multiset<Ptr>)
    requires HeapInv(h, refs) && refs[p] > 0 && p in h.nodes && h.nodes[p].counter == 1
    ensures HeapInv(h.(nodes := h.nodes - {p}, deleted := h.deleted + [p]), refs - multiset{p} + multiset(h.nodes[p].children))
    ensures 0 !in h.nodes[p].children
  {
    DeleteKeepsCounts(h.nodes, p, refs);
    DeleteKeepsLinks(h.nodes, p);
  }

  /** Releasing a reference from outside keeps the invariant with one reference less. */
  lemma {:induction false} ReleaseKeepsInv(h: Heap, p: Ptr, refs: multiset<Ptr>)
    requires HeapInv(h, refs) && refs[p] > 0 && p != 0
    ensures HeapInv(Release(h, p), refs - multiset{p})
    decreases |h.nodes|, 0, 0
  {
    hide Linked, Accounted;
    assert p in h.nodes;
    var n := h.nodes[p];
    if n.counter > 1 {
      DecrementKeepsInv(h, p, refs);
    } else {
      var rest := h.nodes - {p};
      assert rest.Keys == h.nodes.Keys - {p};
      assert |rest.Keys| < |h.nodes.Keys|;
      DeleteKeepsInv(h, p, refs);
      var refs' := refs - multiset{p} + multiset(n.children);
      ReleaseAllKeepsInv(h.(nodes := rest, deleted := h.deleted + [p]), n.children, refs');
      assert refs' - multiset(n.children) == refs - multiset{p};
    }
  }

  lemma {:induction false} ReleaseAllKeepsInv(h: Heap, ps: seq<Ptr>, refs: multiset<Ptr>)
    requires HeapInv(h, refs) && multiset(ps) <= refs && 0 !in ps
    ensures HeapInv(ReleaseAll(h, ps), refs - multiset(ps))
    decreases |h.nodes|, 1, |ps|
  {
    hide HeapInv, Release;
    if ps == [] {
      assert refs - multiset(ps) == refs;
    } else {
      var first, rest := ps[0], ps[1..];
      assert ps == [first] + rest;
      assert multiset(ps) == multiset{first} + multiset(rest);
      assert first in multiset(ps) && first in ps;
      ReleaseKeepsInv(h, first, refs);
      SubsetSize(Release(h, first).nodes.Keys, h.nodes.Keys);
      ReleaseAllKeepsInv(Release(h, first), rest, refs - multiset{first});
      assert refs - multiset{first} - multiset(rest) == refs - multiset(ps);
    }
  }

  // ---------------------------------------------------------------- in-place form

  /** All nodes and element objects of a program, updated in place. */
  class ElementStore {
    var nodes: map<Ptr, Node>
    var next: Ptr
    var deleted: seq<Ptr>
    var faulted: bool
    var handles: seq<Ptr>

    function HeapModel(): Heap
      reads this
    {
      Heap(nodes, next, deleted, faulted)
    }

    function Model(): Store
      reads this
    {
      Store(HeapModel(), handles)
    }

    constructor ()
      ensures Model() == Store(Heap(map[], 1, [], false), [])
    {
      nodes, next, deleted, faulted, handles := map[], 1, [], false, [];
    }

    method IncrementCounter(p: Ptr)
      modifies this
      ensures HeapModel() == Ref(old(HeapModel()), p) && handles == old(handles)
    {
      if p !in nodes {
        faulted := true;
      } else {
        nodes := nodes[p := nodes[p].(counter := nodes[p].counter + 1)];
      }
    }

    /** Decrements the counter and deletes the node when it reaches zero. */
    method DecrementCounter(p: Ptr)
      modifies this
      ensures HeapModel() == Release(old(HeapModel()), p) && handles == old(handles)
      decreases |nodes|, 1
    {
      if p !in nodes {
        faulted := true;
        return;
      }
      var counter := nodes[p].counter - 1;
      if counter != 0 {
        nodes := nodes[p := nodes[p].(counter := counter)];
      } else {
        DeleteNode(p);
      }
    }

    /** The destructor: drops the reference to every child, in order. */
    method DeleteNode(p: Ptr)
      requires p in nodes
      modifies this
      ensures handles == old(handles)
      ensures HeapModel() == ReleaseAll(Heap(old(nodes) - {p}, old(next), old(deleted) + [p], old(faulted)), old(nodes)[p].children)
      decreases |nodes|, 0
    {
      var children := nodes[p].children;
      ghost var live := nodes.Keys;
      nodes := nodes - {p};
      deleted := deleted + [p];
      assert nodes.Keys == live - {p} && |live - {p}| < |live|;
      ghost var goal := ReleaseAll(HeapModel(), children);
      for k := 0 to |children|
        invariant nodes.Keys <= live - {p} && handles == old(handles)
        invariant ReleaseAll(HeapModel(), children[k..]) == goal
      {
        assert children[k..][1..] == children[k + 1..];
        SubsetSize(nodes.Keys, live - {p});
        DecrementCounter(children[k]);
      }
    }

    method LinkTo(p: Ptr, c: Ptr)
      modifies this
      ensures HeapModel() == Link(old(HeapModel()), p, c) && handles == old(handles)
    {
      if p !in nodes || c !in nodes {
        faulted := true;
        return;
      }
      nodes := nodes[c := nodes[c].(parent := p)];
      nodes := nodes[p := nodes[p].(children := nodes[p].children + [c])];
    }

    /** The node constructor: builds a node and, depth first, the nodes of its children. */
    method BuildNode(dom: Dom) returns (p: Ptr)
      modifies this
      ensures HeapModel() == Build(old(HeapModel()), dom) && p == old(next) && handles == old(handles)
      decreases dom
    {
      p := next;
      nodes := nodes[p := Node(1, 0, [], dom.name, dom.value, dom.attributes)];
      next := next + 1;
      ghost var goal := BuildChildren(HeapModel(), p, dom.children);
      for k := 0 to |dom.children|
        invariant handles == old(handles) && BuildChildren(HeapModel(), p, dom.children[k..]) == goal
      {
        assert dom.children[k..][1..] == dom.children[k + 1..];
        var child := BuildNode(dom.children[k]);
        LinkTo(p, child);
      }
    }

    method ParseElement(dom: Dom) returns (handle: nat)
      modifies this
      ensures Model() == Apply(old(Model()), Parse(dom)) && handle == |old(handles)|
    {
      var d := BuildNode(dom);
      handle := |handles|;
      handles := handles + [d];
    }

    /** Copy constructor. */
    method CopyElement(i: nat) returns (handle: nat)
      requires IsHandle(Model(), i)
      modifies this
      ensures Model() == Apply(old(Model()), Copy(i)) && handle == |old(handles)|
    {
      IncrementCounter(handles[i]);
      handle := |handles|;
      handles := handles + [handles[i]];
    }

    /** Assignment operator. */
    method AssignElement(i: nat, j: nat)
      requires IsHandle(Model(), i) && IsHandle(Model(), j)
      modifies this
      ensures Model() == Apply(old(Model()), Assign(i, j))
    {
      if i != j {
        IncrementCounter(handles[j]);
        DecrementCounter(handles[i]);
        handles := handles[i := handles[j]];
      }
    }

    method DestroyElement(i: nat)
      requires IsHandle(Model(), i)
      modifies this
      ensures Model() == Apply(old(Model()), Destroy(i))
    {
      DecrementCounter(handles[i]);
      handles := handles[i := 0];
    }

    method RemoveFromList(p: Ptr, c: Ptr)
      modifies this
      ensures HeapModel() == Unlist(old(HeapModel()), p, c) && handles == old(handles)
    {
      if p !in nodes {
        faulted := true;
        return;
      }
      nodes := nodes[p := nodes[p].(children := RemoveAll(nodes[p].children, c))];
    }

    method AppendTo(i: nat, j: nat)
      requires IsHandle(Model(), i) && IsHandle(Model(), j)
      modifies this
      ensures Model() == Apply(old(Model()), Op.AppendChild(i, j))
    {
      var d, c := handles[i], handles[j];
      if d !in nodes || c !in nodes {
        faulted := true;
        return;
      }
      if nodes[c].parent == d {
        return;
      }
      if nodes[c].parent != 0 {
        RemoveFromList(nodes[c].parent, c);
      } else {
        IncrementCounter(c);
      }
      LinkTo(d, c);
    }

    method RemoveFrom(i: nat, j: nat)
      requires IsHandle(Model(), i) && IsHandle(Model(), j)
      modifies this
      ensures Model() == Apply(old(Model()), Op.RemoveChild(i, j))
    {
      var d, c := handles[i], handles[j];
      if d !in nodes || c !in nodes {
        faulted := true;
        return;
      }
      if nodes[c].parent != d {
        return;
      }
      RemoveFromList(d, c);
      nodes := nodes[c := nodes[c].(counter := nodes[c].counter - 1, parent := 0)];
    }

    method CreateElement() returns (handle: nat)
      modifies this
      ensures Model() == Apply(old(Model()), Create) && handle == |old(handles)|
    {
      var p := next;
      nodes := nodes[p := Node(1, 0, [], "", "", map[])];
      next := next + 1;
      handle := |handles|;
      handles := handles + [p];
    }

    /** A handle to the first of some listed nodes that has a name, or to a new node. */
    method HandleToFirst(ps: seq<Ptr>, name: string) returns (handle: nat)
      modifies this
      ensures Model() == HandleTo(old(Model()), FindNamed(old(HeapModel()), ps, name)) && handle == |old(handles)|
    {
      for k := 0 to |ps|
        invariant Model() == old(Model())
        invariant FindNamed(HeapModel(), ps, name) == FindNamed(HeapModel(), ps[k..], name)
      {
        assert ps[k..][1..] == ps[k + 1..];
        if ps[k] in nodes && (name == "" || nodes[ps[k]].name == name) {
          IncrementCounter(ps[k]);
          handle := |handles|;
          handles := handles + [ps[k]];
          return;
        }
      }
      handle := CreateElement();
    }

    method FirstChildOf(i: nat, name: string) returns (handle: nat)
      requires IsHandle(Model(), i)
      modifies this
      ensures Model() == Apply(old(Model()), Op.FirstChildElement(i, name)) && handle == |old(handles)|
    {
      if handles[i] !in nodes {
        faulted := true;
        return |handles|;
      }
      handle := HandleToFirst(nodes[handles[i]].children, name);
    }

    method NextSiblingOf(i: nat, name: string) returns (handle: nat)
      requires IsHandle(Model(), i)
      modifies this
      ensures Model() == Apply(old(Model()), Op.NextSiblingElement(i, name)) && handle == |old(handles)|
    {
      var d := handles[i];
      if d !in nodes || (nodes[d].parent != 0 && nodes[d].parent !in nodes) {
        faulted := true;
        return |handles|;
      }
      if nodes[d].parent == 0 {
        handle := CreateElement();
      } else {
        handle := HandleToFirst(After(nodes[nodes[d].parent].children, d), name);
      }
    }
  }
}
