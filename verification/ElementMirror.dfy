// What the element tree shows to its readers: a parsed node mirrors its DOM element, and the
// searches among children and siblings give the first match in document order.

module ElementMirror {
  import opened Wrappers
  import opened Sorting
  import opened ElementHeap
  import opened ElementTree

  /** The node at p shows the name, text, attributes and, in order, the children of a DOM element; the addresses
      of all nodes below it lie in a range. */
  predicate Mirrors(nodes: map<Ptr, Node>, p: Ptr, dom: Dom, lo: Ptr, hi: Ptr)
    decreases dom
  {
    && p in nodes && lo <= p < hi
    && nodes[p].name == dom.name && nodes[p].value == dom.value && nodes[p].attributes == dom.attributes
    && |nodes[p].children| == |dom.children|
    && forall k :: 0 <= k < |dom.children| ==> Mirrors(nodes, nodes[p].children[k], dom.children[k], lo, hi)
  }

  /** The same content, whatever the parents and counters. */
  predicate SameContent(a: Node, b: Node) {
    a.name == b.name && a.value == b.value && a.attributes == b.attributes && a.children == b.children
  }

  ghost predicate KeepsContent(a: map<Ptr, Node>, b: map<Ptr, Node>, lo: Ptr, hi: Ptr) {
    forall q :: q in a && lo <= q < hi ==> q in b && SameContent(a[q], b[q])
  }

  lemma {:induction false} MirrorStays(a: map<Ptr, Node>, b: map<Ptr, Node>, p: Ptr, dom: Dom, lo: Ptr, hi: Ptr, lo': Ptr, hi': Ptr)
    requires Mirrors(a, p, dom, lo, hi) && KeepsContent(a, b, lo, hi) && lo' <= lo && hi <= hi'
    ensures Mirrors(b, p, dom, lo', hi')
    decreases dom
  {
    forall k | 0 <= k < |dom.children| ensures Mirrors(b, b[p].children[k], dom.children[k], lo', hi') {
      MirrorStays(a, b, a[p].children[k], dom.children[k], lo, hi, lo', hi');
    }
  }

  ghost predicate AllBelow(nodes: map<Ptr, Node>, hi: Ptr) { forall q :: q in nodes ==> q < hi }

  /** b is a with newer nodes; only the child list of p may differ. */
  ghost predicate Grown(a: map<Ptr, Node>, b: map<Ptr, Node>, p: Ptr) {
    forall q :: q in a ==> q in b && (q != p ==> b[q] == a[q])
  }

  predicate MirrorAll(nodes: map<Ptr, Node>, ps: seq<Ptr>, doms: seq<Dom>, lo: Ptr, hi: Ptr) {
    |ps| == |doms| && forall k :: 0 <= k < |doms| ==> Mirrors(nodes, ps[k], doms[k], lo, hi)
  }

  /** Building an element adds one node that mirrors it and changes no earlier node. */
  lemma {:induction false} BuildMirrors(h: Heap, dom: Dom)
    requires AllBelow(h.nodes, h.next)
    ensures var r := Build(h, dom);
            && h.next < r.next && AllBelow(r.nodes, r.next) && Mirrors(r.nodes, h.next, dom, h.next, r.next)
            && forall q :: q in h.nodes ==> q in r.nodes && r.nodes[q] == h.nodes[q]
    decreases dom, 0
  {
    hide Mirrors;
    var p := h.next;
    var start := NewNode(h, Node(1, 0, [], dom.name, dom.value, dom.attributes));
    BuildChildrenMirror(start, p, dom.children);
    var r := Build(h, dom);
    var children := r.nodes[p].children[|start.nodes[p].children|..];
    assert children == r.nodes[p].children;
    MirrorOfParts(r.nodes, p, dom, start.next, r.next);
  }

  lemma MirrorOfParts(nodes: map<Ptr, Node>, p: Ptr, dom: Dom, lo: Ptr, hi: Ptr)
    requires p in nodes && p < lo <= hi && MirrorAll(nodes, nodes[p].children, dom.children, lo, hi)
    requires nodes[p].name == dom.name && nodes[p].value == dom.value && nodes[p].attributes == dom.attributes
    ensures Mirrors(nodes, p, dom, p, hi)
  {
    forall k | 0 <= k < |dom.children| ensures Mirrors(nodes, nodes[p].children[k], dom.children[k], p, hi) {
      MirrorStays(nodes, nodes, nodes[p].children[k], dom.children[k], lo, hi, p, hi);
    }
  }

  /** The children follow the earlier ones, in document order. */
  lemma {:induction false} BuildChildrenMirror(h: Heap, p: Ptr, doms: seq<Dom>)
    requires AllBelow(h.nodes, h.next) && p in h.nodes
    ensures var r := BuildChildren(h, p, doms);
            && h.next <= r.next && AllBelow(r.nodes, r.next) && Grown(h.nodes, r.nodes, p)
            && var before := h.nodes[p].children;
               && |before| <= |r.nodes[p].children| && r.nodes[p].children[..|before|] == before
               && r.nodes[p] == h.nodes[p].(children := r.nodes[p].children)
               && MirrorAll(r.nodes, r.nodes[p].children[|before|..], doms, h.next, r.next)
    decreases doms, 1
  {
    hide Mirrors, Build, Link;
    if doms != [] {
      var c, built := h.next, Build(h, doms[0]);
      BuildMirrors(h, doms[0]);
      LinkMirrors(h, built, p, c, doms[0]);
      var linked := Link(built, p, c);
      BuildChildrenMirror(linked, p, doms[1..]);
      var r := BuildChildren(h, p, doms);
      assert r == BuildChildren(linked, p, doms[1..]);
      MirrorStays(linked.nodes, r.nodes, c, doms[0], h.next, linked.next, h.next, r.next);
      var before, n := h.nodes[p].children, |h.nodes[p].children|;
      assert linked.nodes[p].children == before + [c];
      ListsJoin(r.nodes, r.nodes[p].children, before, c, doms, h.next, linked.next, r.next);
    }
  }

  lemma LinkMirrors(h: Heap, built: Heap, p: Ptr, c: Ptr, dom: Dom)
    requires AllBelow(h.nodes, h.next) && p in h.nodes && c == h.next && h.next < built.next && AllBelow(built.nodes, built.next)
    requires Mirrors(built.nodes, c, dom, h.next, built.next)
    requires forall q :: q in h.nodes ==> q in built.nodes && built.nodes[q] == h.nodes[q]
    ensures var linked := Link(built, p, c);
            && linked.next == built.next && AllBelow(linked.nodes, linked.next) && Grown(h.nodes, linked.nodes, p)
            && p in linked.nodes && linked.nodes[p] == h.nodes[p].(children := h.nodes[p].children + [c])
            && Mirrors(linked.nodes, c, dom, h.next, linked.next)
  {
    hide Mirrors;
    MirrorIsLive(built.nodes, c, dom, h.next, built.next);
    var linked := Link(built, p, c);
    assert KeepsContent(built.nodes, linked.nodes, h.next, built.next);
    MirrorStays(built.nodes, linked.nodes, c, dom, h.next, built.next, h.next, built.next);
  }

  /** The mirrors of the first element and of the others make up the list after the earlier children. */
  lemma ListsJoin(nodes: map<Ptr, Node>, all: seq<Ptr>, before: seq<Ptr>, c: Ptr, doms: seq<Dom>, lo: Ptr, mid: Ptr, hi: Ptr)
    requires doms != [] && lo <= mid <= hi && |before| + 1 <= |all| && all[..|before| + 1] == before + [c]
    requires Mirrors(nodes, c, doms[0], lo, hi) && MirrorAll(nodes, all[|before| + 1..], doms[1..], mid, hi)
    ensures all[..|before|] == before && MirrorAll(nodes, all[|before|..], doms, lo, hi)
  {
    hide Mirrors;
    var n := |before|;
    assert all[..n] == all[..n + 1][..n];
    assert all[n] == all[..n + 1][n] == c;
    forall k | 0 <= k < |doms| ensures Mirrors(nodes, all[n..][k], doms[k], lo, hi) {
      if k > 0 {
        assert all[n..][k] == all[n + 1..][k - 1] && doms[k] == doms[1..][k - 1];
        MirrorStays(nodes, nodes, all[n..][k], doms[k], mid, hi, lo, hi);
      }
    }
  }

  lemma MirrorIsLive(nodes: map<Ptr, Node>, p: Ptr, dom: Dom, lo: Ptr, hi: Ptr)
    requires Mirrors(nodes, p, dom, lo, hi)
    ensures p in nodes && lo <= p < hi
  {}

  /** An element object made from a DOM element shows that element, and every other node is as before. */
  lemma ParsedMirrorsDom(s: Store, dom: Dom)
    requires Inv(s)
    ensures var t := Apply(s, Parse(dom));
            && t.handles == s.handles + [s.heap.next]
            && Mirrors(t.heap.nodes, t.handles[|s.handles|], dom, s.heap.next, t.heap.next)
            && forall q :: q in s.heap.nodes ==> q in t.heap.nodes && t.heap.nodes[q] == s.heap.nodes[q]
  {
    hide Mirrors, Build;
    forall q | q in s.heap.nodes ensures q < s.heap.next { assert q != 0; }
    BuildMirrors(s.heap, dom);
  }

  // ------------------------------------------------------------------------ searches

  /** An empty name asks for any element. */
  predicate Matches(h: Heap, p: Ptr, name: string) { p in h.nodes && (name == "" || h.nodes[p].name == name) }

  lemma {:induction false} FindsTheFirst(h: Heap, ps: seq<Ptr>, name: string, k: nat)
    requires k <= |ps| && forall j :: 0 <= j < k ==> !Matches(h, ps[j], name)
    requires k < |ps| ==> Matches(h, ps[k], name)
    ensures FindNamed(h, ps, name) == if k < |ps| then Some(ps[k]) else None
  {
    if ps != [] && k > 0 {
      assert !Matches(h, ps[0], name);
      FindsTheFirst(h, ps[1..], name, k - 1);
    }
  }

  lemma {:induction false} AfterIsTheRest(ps: seq<Ptr>, k: nat)
    requires Distinct(ps) && k < |ps|
    ensures After(ps, ps[k]) == ps[k + 1..]
  {
    if k > 0 {
      assert ps[0] != ps[k];
      assert forall i, j :: 0 <= i < j < |ps| - 1 ==> ps[1..][i] != ps[1..][j];
      AfterIsTheRest(ps[1..], k - 1);
    }
  }

  /** A removed child leaves the others in their order. */
  lemma {:induction false} RemovingKeepsOrder(ps: seq<Ptr>, k: nat)
    requires Distinct(ps) && k < |ps|
    ensures RemoveAll(ps, ps[k]) == ps[..k] + ps[k + 1..]
  {
    assert forall i, j :: 0 <= i < j < |ps| - 1 ==> ps[1..][i] != ps[1..][j];
    if k > 0 {
      assert ps[0] != ps[k];
      RemovingKeepsOrder(ps[1..], k - 1);
      assert ps[..k] == [ps[0]] + ps[1..][..k - 1];
    } else {
      RemovingNothing(ps[1..], ps[0]);
    }
  }

  lemma {:induction false} RemovingNothing(ps: seq<Ptr>, p: Ptr)
    requires p !in ps
    ensures RemoveAll(ps, p) == ps
  {
    if ps != [] { RemovingNothing(ps[1..], p); }
  }

  /** The first child of a name: the handle leads to it, or to a new nameless node when no child matches. */
  lemma FirstChildIsFirst(s: Store, i: nat, name: string, k: nat)
    requires Inv(s) && IsHandle(s, i) && s.handles[i] in s.heap.nodes
    requires var children := s.heap.nodes[s.handles[i]].children;
             k <= |children| && (forall j :: 0 <= j < k ==> !Matches(s.heap, children[j], name))
             && (k < |children| ==> Matches(s.heap, children[k], name))
    ensures var children := s.heap.nodes[s.handles[i]].children;
            var t := Apply(s, FirstChildElement(i, name));
            LeadsTo(s, t, if k < |children| then Some(children[k]) else None)
  {
    FindsTheFirst(s.heap, s.heap.nodes[s.handles[i]].children, name, k);
  }

  /** The next sibling of a name is the first match after the element in its parent's list. */
  lemma NextSiblingIsNext(s: Store, i: nat, name: string, at: nat, k: nat)
    requires Inv(s) && IsHandle(s, i) && s.handles[i] in s.heap.nodes && s.heap.nodes[s.handles[i]].parent in s.heap.nodes
    requires var siblings := s.heap.nodes[s.heap.nodes[s.handles[i]].parent].children;
             at < k <= |siblings| && siblings[at] == s.handles[i]
             && (forall j :: at < j < k ==> !Matches(s.heap, siblings[j], name))
             && (k < |siblings| ==> Matches(s.heap, siblings[k], name))
    ensures var siblings := s.heap.nodes[s.heap.nodes[s.handles[i]].parent].children;
            var t := Apply(s, NextSiblingElement(i, name));
            LeadsTo(s, t, if k < |siblings| then Some(siblings[k]) else None)
  {
    var siblings := s.heap.nodes[s.heap.nodes[s.handles[i]].parent].children;
    AfterIsTheRest(siblings, at);
    FindsTheFirst(s.heap, siblings[at + 1..], name, k - at - 1);
  }

  /** t has one handle more than s, to the given node or else to a new nameless one. */
  predicate LeadsTo(s: Store, t: Store, found: Option<Ptr>) {
    && |t.handles| == |s.handles| + 1 && t.handles[..|s.handles|] == s.handles
    && var p := t.handles[|s.handles|];
       p in t.heap.nodes &&
       match found
       case Some(q) => p == q && q in s.heap.nodes && SameContent(t.heap.nodes[q], s.heap.nodes[q])
       case None => p !in s.heap.nodes && t.heap.nodes[p] == Node(1, 0, [], "", "", map[])
  }
}
