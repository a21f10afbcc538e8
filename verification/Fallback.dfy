// Fallback markers of a message (XEP-0428): removing the marked parts of a text,
// extracting them, and reading the quotation of a reply (XEP-0461).

module Fallback {
  import opened Wrappers
  import opened Text
  import opened Sorting

  datatype Element = Body | Subject

  datatype Range = Range(start: UInt32, end: UInt32)

  /** A reference without a range marks the whole text. */
  datatype Reference = Reference(element: Element, range: Option<Range>)

  datatype Marker = Marker(forNamespace: string, references: seq<Reference>)

  // -------------------------------------------------------- collecting references

  /** The references to one element in the markers of the wanted namespaces, in order. */
  function Relevant(markers: seq<Marker>, namespaces: seq<string>, element: Element): seq<Reference> {
    if markers == [] then []
    else
      Relevant(markers[..|markers| - 1], namespaces, element) +
      (var last := markers[|markers| - 1];
       if last.forNamespace in namespaces then OfElement(last.references, element) else [])
  }

  function OfElement(references: seq<Reference>, element: Element): seq<Reference> {
    if references == [] then []
    else
      OfElement(references[..|references| - 1], element) +
      (var last := references[|references| - 1]; if last.element == element then [last] else [])
  }

  /** They are the references to the element in a marker of a wanted namespace. */
  lemma {:induction false} RelevantIff(markers: seq<Marker>, namespaces: seq<string>, element: Element, r: Reference)
    ensures r in Relevant(markers, namespaces, element)
            <==> r.element == element && exists m :: m in markers && m.forNamespace in namespaces && r in m.references
  {
    if markers != [] {
      var front, last := markers[..|markers| - 1], markers[|markers| - 1];
      assert markers == front + [last];
      RelevantIff(front, namespaces, element, r);
      OfElementIff(last.references, element, r);
    }
  }

  lemma {:induction false} OfElementIff(references: seq<Reference>, element: Element, r: Reference)
    ensures r in OfElement(references, element) <==> r.element == element && r in references
  {
    if references != [] {
      var n := |references| - 1;
      assert references == references[..n] + [references[n]];
      OfElementIff(references[..n], element, r);
    }
  }

  predicate MarksAll(references: seq<Reference>) { exists r :: r in references && r.range == None }

  function RangesOf(references: seq<Reference>): seq<Range>
    requires !MarksAll(references)
  {
    seq(|references|, k requires 0 <= k < |references| => assert references[k] in references; references[k].range.value)
  }

  predicate StartsBefore(a: Range, b: Range) { a.start < b.start }

  lemma {:induction false} RelevantPrefix(markers: seq<Marker>, namespaces: seq<string>, element: Element, k: nat)
    requires k <= |markers|
    ensures Relevant(markers[..k], namespaces, element) <= Relevant(markers, namespaces, element)
    decreases |markers| - k
  {
    if k < |markers| {
      assert markers[..k + 1][..k] == markers[..k];
      RelevantPrefix(markers, namespaces, element, k + 1);
    } else {
      assert markers[..k] == markers;
    }
  }

  lemma {:induction false} OfElementPrefix(references: seq<Reference>, element: Element, k: nat)
    requires k <= |references|
    ensures OfElement(references[..k], element) <= OfElement(references, element)
    decreases |references| - k
  {
    if k < |references| {
      assert references[..k + 1][..k] == references[..k];
      OfElementPrefix(references, element, k + 1);
    } else {
      assert references[..k] == references;
    }
  }

  /** The references of one marker. */
  method CollectOfMarker(references: seq<Reference>, element: Element) returns (all: bool, ranges: seq<Range>)
    ensures all <==> MarksAll(OfElement(references, element))
    ensures !all ==> ranges == RangesOf(OfElement(references, element))
  {
    ranges := [];
    for k := 0 to |references|
      invariant !MarksAll(OfElement(references[..k], element))
      invariant ranges == RangesOf(OfElement(references[..k], element))
    {
      assert references[..k + 1][..k] == references[..k];
      if references[k].element == element {
        if references[k].range.None? {
          OfElementPrefix(references, element, k + 1);
          assert OfElement(references[..k + 1], element)[|OfElement(references[..k], element)|] == references[k];
          assert references[k] in OfElement(references, element);
          return true, [];
        }
        ranges := ranges + [references[k].range.value];
      }
    }
    assert references[..|references|] == references;
    all := false;
  }

  lemma RangesOfNothing()
    ensures RangesOf([]) == []
  {}

  lemma RangesOfConcat(a: seq<Reference>, b: seq<Reference>)
    requires !MarksAll(a) && !MarksAll(b)
    ensures !MarksAll(a + b) && RangesOf(a + b) == RangesOf(a) + RangesOf(b)
  {}

  /** Collects the ranges, stopping at the first reference that marks the whole text. */
  method CollectRanges(markers: seq<Marker>, namespaces: seq<string>, element: Element) returns (all: bool, ranges: seq<Range>)
    ensures all <==> MarksAll(Relevant(markers, namespaces, element))
    ensures !all ==> ranges == RangesOf(Relevant(markers, namespaces, element))
  {
    hide RangesOf;
    ranges := [];
    RangesOfNothing();
    for m := 0 to |markers|
      invariant !MarksAll(Relevant(markers[..m], namespaces, element))
      invariant ranges == RangesOf(Relevant(markers[..m], namespaces, element))
    {
      assert markers[..m + 1][..m] == markers[..m];
      ghost var before := Relevant(markers[..m], namespaces, element);
      if markers[m].forNamespace in namespaces {
        ghost var here := OfElement(markers[m].references, element);
        assert Relevant(markers[..m + 1], namespaces, element) == before + here;
        var whole, added := CollectOfMarker(markers[m].references, element);
        if whole {
          RelevantPrefix(markers, namespaces, element, m + 1);
          MarksAllGrows(before, here, Relevant(markers, namespaces, element));
          return true, [];
        }
        RangesOfConcat(before, here);
        ranges := ranges + added;
      } else {
        assert Relevant(markers[..m + 1], namespaces, element) == before;
      }
    }
    assert markers[..|markers|] == markers;
    all := false;
  }

  lemma MarksAllGrows(a: seq<Reference>, b: seq<Reference>, c: seq<Reference>)
    requires MarksAll(b) && a + b <= c
    ensures MarksAll(c)
  {
    var r :| r in b && r.range == None;
    assert r in a + b;
  }

  // ----------------------------------------------------------- removing the ranges

  /** The source's check for a range it honours in a text of n characters. */
  predicate InBounds(r: Range, n: nat) { r.start < n && 0 < r.end <= n }

  /** A single range is cut out if it starts inside the text and ends inside it behind its first character;
      otherwise the text stays whole. */
  lemma HonouredRange<T>(text: seq<T>, r: Range)
    ensures Kept(text, [r], 0) ==
            if r.start < |text| && 0 < r.end <= |text| then text[..r.start] + text[r.end..] else text
  {
    var none: seq<Range> := [];
    assert [r][1..] == none;
    assert Kept(text, none, r.end) == if r.end < |text| then text[r.end..] else [];
    assert text[0..] == text && text[|text|..] == [];
    assert Kept(text, none, 0) == text;
  }

  lemma ConcatCancel<T>(a: seq<T>, b: seq<T>, c: seq<T>)
    requires a + b == a + c
    ensures b == c
  {
    assert (a + b)[|a|..] == b && (a + c)[|a|..] == c;
  }

  lemma ConcatDiffers<T>(a: seq<T>, b: seq<T>, c: seq<T>)
    requires b != c
    ensures a + b != a + c
  {
    if a + b == a + c {
      ConcatCancel(a, b, c);
    }
  }

  lemma FirstDiffers(a: seq<int>, b: seq<int>, bound: int)
    requires a != [] && a[0] < bound && forall x :: x in b ==> bound <= x
    ensures a != b
  {
    assert b != [] ==> b[0] in b;
  }

  /** What the removing loop appends when it is at this index with these ranges to come. */
  function Kept<T>(text: seq<T>, ranges: seq<Range>, index: nat): seq<T>
    decreases |ranges|
  {
    if ranges == [] then if index < |text| then text[index..] else []
    else
      var r := ranges[0];
      if !InBounds(r, |text|) then Kept(text, ranges[1..], index)
      else (if index < r.start then text[index..r.start] else []) + Kept(text, ranges[1..], r.end)
  }

  predicate Covers(r: Range, n: nat, k: nat) { InBounds(r, n) && r.start <= k < r.end }

  predicate Covered(ranges: seq<Range>, n: nat, k: nat) { exists r :: r in ranges && Covers(r, n, k) }

  /** The characters from position k on that no honoured range covers, in order. */
  function Outside<T>(text: seq<T>, ranges: seq<Range>, k: nat): seq<T>
    decreases |text| - k
  {
    if k >= |text| then []
    else (if Covered(ranges, |text|, k) then [] else [text[k]]) + Outside(text, ranges, k + 1)
  }

  function OnlyInBounds(ranges: seq<Range>, n: nat): seq<Range> {
    if ranges == [] then []
    else (if InBounds(ranges[0], n) then [ranges[0]] else []) + OnlyInBounds(ranges[1..], n)
  }

  function Max(a: nat, b: nat): nat { if a >= b then a else b }

  /**
   * No range is reversed, and text is only copied from an index that is the furthest end seen so far.
   * index is the end of the previous range, furthest the largest end of all previous ranges.
   */
  predicate SafeFrom(ranges: seq<Range>, index: nat, furthest: nat) {
    if ranges == [] then index == furthest
    else
      var r := ranges[0];
      r.start <= r.end && (index == furthest || r.start <= index) && SafeFrom(ranges[1..], r.end, Max(furthest, r.end))
  }

  ghost predicate SortedByStart(ranges: seq<Range>) { Sorted((a, b) => StartsBefore(a, b), ranges) }

  ghost predicate AllInBounds(ranges: seq<Range>, n: nat) {
    forall i :: 0 <= i < |ranges| ==> InBounds(ranges[i], n)
  }

  lemma SortedTail(ranges: seq<Range>)
    requires SortedByStart(ranges) && ranges != []
    ensures SortedByStart(ranges[1..])
    ensures forall r :: r in ranges ==> ranges[0].start <= r.start
  {
    forall r | r in ranges ensures ranges[0].start <= r.start {
      var k :| 0 <= k < |ranges| && ranges[k] == r;
      assert k > 0 ==> !StartsBefore(ranges[k], ranges[0]);
    }
  }

  lemma {:induction false} OutsideUncovered<T>(text: seq<T>, ranges: seq<Range>, a: nat, b: nat)
    requires a <= b <= |text|
    requires forall k :: a <= k < b ==> !Covered(ranges, |text|, k)
    ensures Outside(text, ranges, a) == text[a..b] + Outside(text, ranges, b)
    decreases b - a
  {
    hide Covered;
    if a < b {
      OutsideUncovered(text, ranges, a + 1, b);
      assert Outside(text, ranges, a) == [text[a]] + Outside(text, ranges, a + 1);
      assert text[a..b] == [text[a]] + text[a + 1..b];
    } else {
      assert text[a..b] == [];
    }
  }

  lemma {:induction false} OutsideCovered<T>(text: seq<T>, ranges: seq<Range>, a: nat, b: nat)
    requires a <= b <= |text|
    requires forall k :: a <= k < b ==> Covered(ranges, |text|, k)
    ensures Outside(text, ranges, a) == Outside(text, ranges, b)
    decreases b - a
  {
    hide Covered;
    if a < b {
      OutsideCovered(text, ranges, a + 1, b);
    }
  }

  lemma {:induction false} OutsideSameCover<T>(text: seq<T>, ranges: seq<Range>, other: seq<Range>, a: nat)
    requires forall k :: a <= k < |text| ==> (Covered(ranges, |text|, k) <==> Covered(other, |text|, k))
    ensures Outside(text, ranges, a) == Outside(text, other, a)
    decreases |text| - a
  {
    hide Covered;
    if a < |text| {
      OutsideSameCover(text, ranges, other, a + 1);
    }
  }

  /** Beyond its end, the first range covers nothing. */
  lemma DropFirst<T>(text: seq<T>, ranges: seq<Range>, a: nat)
    requires ranges != [] && a >= ranges[0].end
    ensures Outside(text, ranges, a) == Outside(text, ranges[1..], a)
  {
    var n := |text|;
    forall k | a <= k < n ensures Covered(ranges, n, k) <==> Covered(ranges[1..], n, k) {
      if Covered(ranges, n, k) {
        var r :| r in ranges && Covers(r, n, k);
        assert r in ranges[1..];
      }
    }
    OutsideSameCover(text, ranges, ranges[1..], a);
  }

  /** The part of the text up to the first range, and what follows that range. */
  lemma OutsideStep<T>(text: seq<T>, ranges: seq<Range>, from: nat)
    requires ranges != [] && SortedByStart(ranges) && AllInBounds(ranges, |text|)
    requires ranges[0].start <= ranges[0].end && from <= |text|
    ensures var r := ranges[0];
            Outside(text, ranges, from) ==
              (if from < r.start then text[from..r.start] else []) + Outside(text, ranges[1..], Max(from, r.end))
  {
    var r, n := ranges[0], |text|;
    SortedTail(ranges);
    assert r in ranges && InBounds(r, n);
    var middle := Max(from, r.start);
    if from < r.start {
      OutsideUncovered(text, ranges, from, r.start);
    }
    var next := Max(from, r.end);
    forall k | middle <= k < next ensures Covered(ranges, n, k) {
      assert Covers(r, n, k);
    }
    OutsideCovered(text, ranges, middle, next);
    DropFirst(text, ranges, next);
  }

  /** In a safe order, the loop keeps exactly what lies outside. */
  lemma {:induction false} SafeKeepsOutside<T>(text: seq<T>, ranges: seq<Range>, index: nat, furthest: nat)
    requires SortedByStart(ranges) && AllInBounds(ranges, |text|)
    requires index <= furthest <= |text| && SafeFrom(ranges, index, furthest)
    ensures Kept(text, ranges, index) == Outside(text, ranges, furthest)
    decreases |ranges|
  {
    if ranges == [] {
      OutsideUncovered(text, ranges, furthest, |text|);
    } else {
      SortedTail(ranges);
      assert ranges[0] in ranges;
      OutsideStep(text, ranges, furthest);
      SafeKeepsOutside(text, ranges[1..], ranges[0].end, Max(furthest, ranges[0].end));
    }
  }

  // ------------------------------------------------- the condition is also necessary

  /** The text whose characters are their own positions. */
  function Positions(n: nat): seq<int> { seq(n, k => k) }

  lemma {:induction false} OutsideIsBeyond(n: nat, ranges: seq<Range>, from: nat)
    ensures forall x :: x in Outside(Positions(n), ranges, from) ==> from <= x
    decreases n - from
  {
    if from < n {
      OutsideIsBeyond(n, ranges, from + 1);
    }
  }

  lemma KeptStartsAtIndex(n: nat, ranges: seq<Range>, index: nat)
    requires AllInBounds(ranges, n) && index < n && (ranges != [] ==> index < ranges[0].start)
    ensures Kept(Positions(n), ranges, index) != [] && Kept(Positions(n), ranges, index)[0] == index
  {
    if ranges != [] {
      assert ranges[0] in ranges;
      assert Positions(n)[index..ranges[0].start][0] == index;
    }
  }

  lemma {:induction false} OnlySafeKeepsOutside(n: nat, ranges: seq<Range>, index: nat, furthest: nat)
    requires SortedByStart(ranges) && AllInBounds(ranges, n) && index <= furthest <= n
    requires Kept(Positions(n), ranges, index) == Outside(Positions(n), ranges, furthest)
    ensures SafeFrom(ranges, index, furthest)
    decreases |ranges|
  {
    var text := Positions(n);
    OutsideIsBeyond(n, ranges, furthest);
    if ranges == [] {
      OutsideUncovered(text, ranges, furthest, n);
      assert |text[index..]| == |text[furthest..]|;
    } else {
      var r, rest := ranges[0], ranges[1..];
      SortedTail(ranges);
      assert r in ranges && InBounds(r, n);
      if index < furthest && index < r.start {
        KeptStartsAtIndex(n, ranges, index);
        FirstDiffers(Kept(text, ranges, index), Outside(text, ranges, furthest), furthest);
        assert false;
      }
      var emitted := if index < r.start then text[index..r.start] else [];
      assert Kept(text, ranges, index) == emitted + Kept(text, rest, r.end);
      if r.end < r.start {
        ReversedIsUnsafe(n, ranges, index, furthest);
        assert false;
      }
      OutsideStep(text, ranges, furthest);
      assert emitted == if furthest < r.start then text[furthest..r.start] else [];
      ConcatCancel(emitted, Kept(text, rest, r.end), Outside(text, rest, Max(furthest, r.end)));
      OnlySafeKeepsOutside(n, rest, r.end, Max(furthest, r.end));
    }
  }

  lemma ReversedIsUnsafe(n: nat, ranges: seq<Range>, index: nat, furthest: nat)
    requires SortedByStart(ranges) && AllInBounds(ranges, n) && index <= furthest <= n
    requires ranges != [] && ranges[0].end < ranges[0].start && (index == furthest || ranges[0].start <= index)
    ensures Kept(Positions(n), ranges, index) != Outside(Positions(n), ranges, furthest)
  {
    var text, r, rest := Positions(n), ranges[0], ranges[1..];
    SortedTail(ranges);
    assert r in ranges && InBounds(r, n);
    assert rest != [] ==> rest[0] in ranges;
    KeptStartsAtIndex(n, rest, r.end);
    var emitted := if index < r.start then text[index..r.start] else [];
    assert Kept(text, ranges, index) == emitted + Kept(text, rest, r.end);
    var from := Max(furthest, r.start);
    if furthest < r.start {
      OutsideUncovered(text, ranges, furthest, r.start);
    }
    OutsideIsBeyond(n, ranges, from);
    FirstDiffers(Kept(text, rest, r.end), Outside(text, ranges, from), from);
    ConcatDiffers(emitted, Kept(text, rest, r.end), Outside(text, ranges, from));
  }

  lemma {:induction false} IgnoringOutOfBounds<T>(text: seq<T>, ranges: seq<Range>, index: nat)
    requires SortedByStart(ranges)
    ensures SortedByStart(OnlyInBounds(ranges, |text|)) && AllInBounds(OnlyInBounds(ranges, |text|), |text|)
    ensures forall r :: r in OnlyInBounds(ranges, |text|) <==> r in ranges && InBounds(r, |text|)
    ensures Kept(text, ranges, index) == Kept(text, OnlyInBounds(ranges, |text|), index)
    decreases |ranges|
  {
    if ranges != [] {
      var r, rest := ranges[0], ranges[1..];
      SortedTail(ranges);
      IgnoringOutOfBounds(text, rest, if InBounds(r, |text|) then r.end else index);
      var good := OnlyInBounds(rest, |text|);
      if InBounds(r, |text|) {
        forall y | y in good ensures !StartsBefore(y, r) {
          assert y in ranges;
        }
        SortedCons((a, b) => StartsBefore(a, b), r, good);
        assert ([r] + good)[1..] == good;
        assert OnlyInBounds(ranges, |text|) == [r] + good;
      } else {
        assert OnlyInBounds(ranges, |text|) == good;
      }
    }
  }

  lemma SameElementsSameOutside<T>(text: seq<T>, a: seq<Range>, b: seq<Range>)
    requires forall r :: r in a && InBounds(r, |text|) <==> r in b && InBounds(r, |text|)
    ensures Outside(text, a, 0) == Outside(text, b, 0)
  {
    forall k | 0 <= k < |text| ensures Covered(a, |text|, k) <==> Covered(b, |text|, k) {
      if Covered(a, |text|, k) {
        var r :| r in a && Covers(r, |text|, k);
        assert r in b;
      }
      if Covered(b, |text|, k) {
        var r :| r in b && Covers(r, |text|, k);
        assert r in a;
      }
    }
    OutsideSameCover(text, a, b, 0);
  }

  /** A safe order of the ranges gives the text outside their union, for every text. */
  lemma SafeOrderRemovesTheUnion<T>(text: seq<T>, ranges: seq<Range>, sorted: seq<Range>)
    requires SortedPermutation((a, b) => StartsBefore(a, b), ranges, sorted)
    requires SafeFrom(OnlyInBounds(sorted, |text|), 0, 0)
    ensures Kept(text, sorted, 0) == Outside(text, ranges, 0)
  {
    var good := OnlyInBounds(sorted, |text|);
    IgnoringOutOfBounds(text, sorted, 0);
    SafeKeepsOutside(text, good, 0, 0);
    forall r ensures r in good && InBounds(r, |text|) <==> r in ranges && InBounds(r, |text|) {
      PermutationsHaveSameElements(sorted, ranges, r);
    }
    SameElementsSameOutside(text, good, ranges);
  }

  /**
   * Main result.  Sorted by start in any way, the ranges make the loop return the text outside their union, for
   * all texts of a length, if and only if the order is safe for that length.
   */
  lemma RemovedTextIsOutsideIff(n: nat, ranges: seq<Range>, sorted: seq<Range>)
    requires SortedPermutation((a, b) => StartsBefore(a, b), ranges, sorted)
    ensures (forall text: seq<int> :: |text| == n ==> Kept(text, sorted, 0) == Outside(text, ranges, 0))
       <==> SafeFrom(OnlyInBounds(sorted, n), 0, 0)
  {
    if SafeFrom(OnlyInBounds(sorted, n), 0, 0) {
      forall text: seq<int> | |text| == n ensures Kept(text, sorted, 0) == Outside(text, ranges, 0) {
        SafeOrderRemovesTheUnion(text, ranges, sorted);
      }
    } else if forall text: seq<int> :: |text| == n ==> Kept(text, sorted, 0) == Outside(text, ranges, 0) {
      var text := Positions(n);
      var good := OnlyInBounds(sorted, n);
      assert Kept(text, sorted, 0) == Outside(text, ranges, 0);
      IgnoringOutOfBounds(text, sorted, 0);
      forall r ensures r in good && InBounds(r, n) <==> r in ranges && InBounds(r, n) {
        PermutationsHaveSameElements(sorted, ranges, r);
      }
      SameElementsSameOutside(text, good, ranges);
      OnlySafeKeepsOutside(n, good, 0, 0);
      assert false;
    }
  }

  // ------------------------------------------------------------ sufficient conditions

  ghost predicate NonDecreasingEnds(ranges: seq<Range>) {
    forall i, j :: 0 <= i < j < |ranges| ==> ranges[i].end <= ranges[j].end
  }

  lemma {:induction false} OrderedEndsAreSafe(ranges: seq<Range>, index: nat)
    requires NonDecreasingEnds(ranges) && forall r :: r in ranges ==> r.start <= r.end && index <= r.end
    ensures SafeFrom(ranges, index, index)
    decreases |ranges|
  {
    if ranges != [] {
      assert ranges[0] in ranges;
      forall r | r in ranges[1..] ensures r.start <= r.end && ranges[0].end <= r.end {
        var k :| 0 <= k < |ranges[1..]| && ranges[1..][k] == r;
        assert ranges[k + 1] == r;
      }
      OrderedEndsAreSafe(ranges[1..], ranges[0].end);
    }
  }

  /** Among the ranges honoured in a text of n characters, whichever starts first also ends first, and equal starts
      have equal ends. */
  ghost predicate StartOrderIsEndOrder(ranges: seq<Range>, n: nat) {
    && (forall r :: r in ranges && InBounds(r, n) ==> r.start <= r.end)
    && (forall a, b :: a in ranges && b in ranges && InBounds(a, n) && InBounds(b, n) && a.start <= b.start ==> a.end <= b.end)
  }

  /** For such ranges every sort gives a safe order. */
  lemma StartOrderIsAlwaysSafe(ranges: seq<Range>, n: nat)
    requires StartOrderIsEndOrder(ranges, n)
    ensures AlwaysSafe(ranges, n)
  {
    forall sorted | SortedPermutation((a, b) => StartsBefore(a, b), ranges, sorted)
      ensures SafeFrom(OnlyInBounds(sorted, n), 0, 0)
    {
      var good := OnlyInBounds(sorted, n);
      IgnoringOutOfBounds(Positions(n), sorted, 0);
      assert |Positions(n)| == n;
      forall r | r in good ensures r in ranges && InBounds(r, n) {
        PermutationsHaveSameElements(sorted, ranges, r);
      }
      forall i, j | 0 <= i < j < |good| ensures good[i].end <= good[j].end {
        assert !StartsBefore(good[j], good[i]);
        assert good[i] in good && good[j] in good;
      }
      OrderedEndsAreSafe(good, 0);
    }
  }

  /** A range nested in another one makes text reappear that the outer range covers. */
  lemma NestedRangesAreUnsafe()
    ensures var nested := [Range(0, 3), Range(1, 2)];
            SortedByStart(nested) && Kept("abc", nested, 0) == "c" && Outside("abc", nested, 0) == ""
  {
    var nested := [Range(0, 3), Range(1, 2)];
    assert nested[1..] == [Range(1, 2)] && nested[1..][1..] == [];
    assert Kept("abc", [], 2) == "c";
    assert Kept("abc", [Range(1, 2)], 3) == "c";
    forall k | 0 <= k < 3 ensures Covered(nested, 3, k) {
      assert nested[0] in nested && Covers(nested[0], 3, k);
    }
    OutsideCovered("abc", nested, 0, 3);
  }

  // ------------------------------------------------------------------- the methods

  datatype Message = Message(body: string, subject: string, fallbackMarkers: seq<Marker>)

  /** Every order a sort by start may produce is safe. */
  ghost predicate AlwaysSafe(ranges: seq<Range>, n: nat) {
    forall sorted :: SortedPermutation((a, b) => StartsBefore(a, b), ranges, sorted) ==> SafeFrom(OnlyInBounds(sorted, n), 0, 0)
  }

  method SortByStart(ranges: seq<Range>) returns (sorted: seq<Range>)
    ensures SortedPermutation((a, b) => StartsBefore(a, b), ranges, sorted)
  {
    sorted := Sort(ranges, (a, b) => StartsBefore(a, b));
  }

  method RemoveRanges(fullText: string, sorted: seq<Range>) returns (output: string)
    ensures output == Kept(fullText, sorted, 0)
  {
    output := "";
    var index: nat := 0;
    for k := 0 to |sorted|
      invariant output + Kept(fullText, sorted[k..], index) == Kept(fullText, sorted, 0)
    {
      var range := sorted[k];
      assert sorted[k..][1..] == sorted[k + 1..];
      if InBounds(range, |fullText|) {
        if index < range.start {
          output := output + fullText[index..range.start];
        }
        index := range.end;
      }
    }
    if index < |fullText| {
      output := output + fullText[index..];
    }
  }

  /** Nothing if a reference marks everything, else what is kept along some order by start. */
  ghost predicate IsRemovedText<T>(markers: seq<Marker>, namespaces: seq<string>, element: Element, text: seq<T>, output: seq<T>) {
    var references := Relevant(markers, namespaces, element);
    if MarksAll(references) then output == []
    else exists sorted :: SortedPermutation((a, b) => StartsBefore(a, b), RangesOf(references), sorted)
                          && output == Kept(text, sorted, 0)
  }

  lemma {:induction false} OfElementElements(references: seq<Reference>, element: Element, r: Reference)
    ensures r in OfElement(references, element) <==> r in references && r.element == element
  {
    if references != [] {
      assert references == references[..|references| - 1] + [references[|references| - 1]];
      OfElementElements(references[..|references| - 1], element, r);
    }
  }

  ghost predicate Marks(m: Marker, namespaces: seq<string>, element: Element, r: Reference) {
    m.forNamespace in namespaces && r in m.references && r.element == element
  }

  lemma {:induction false} RelevantElements(markers: seq<Marker>, namespaces: seq<string>, element: Element, r: Reference)
    ensures r in Relevant(markers, namespaces, element) <==> exists m :: m in markers && Marks(m, namespaces, element, r)
  {
    if markers != [] {
      var front, last := markers[..|markers| - 1], markers[|markers| - 1];
      assert markers == front + [last];
      RelevantElements(front, namespaces, element, r);
      OfElementElements(last.references, element, r);
      if r in Relevant(front, namespaces, element) {
        var m :| m in front && Marks(m, namespaces, element, r);
        assert m in markers;
      }
      assert last in markers;
      if m :| m in markers && Marks(m, namespaces, element, r) {
        assert m in front || m == last;
      }
    }
  }

  /** The removed text does not depend on the order of the markers, or on repeating them. */
  lemma MarkerOrderDoesNotMatter<T>(markers: seq<Marker>, other: seq<Marker>, namespaces: seq<string>, element: Element,
                                    text: seq<T>, output: seq<T>, otherOutput: seq<T>)
    requires forall m :: m in markers <==> m in other
    requires var references := Relevant(markers, namespaces, element);
             MarksAll(references) || StartOrderIsEndOrder(RangesOf(references), |text|)
    requires IsRemovedText(markers, namespaces, element, text, output)
    requires IsRemovedText(other, namespaces, element, text, otherOutput)
    ensures output == otherOutput
  {
    var a, b := Relevant(markers, namespaces, element), Relevant(other, namespaces, element);
    forall r ensures r in a <==> r in b {
      RelevantElements(markers, namespaces, element, r);
      RelevantElements(other, namespaces, element, r);
    }
    if !MarksAll(a) {
      hide Relevant, Kept, Outside, Covered;
      forall r ensures r in RangesOf(a) <==> r in RangesOf(b) {
        RangesOfElements(a, r);
        RangesOfElements(b, r);
      }
      var sa :| SortedPermutation((x, y) => StartsBefore(x, y), RangesOf(a), sa) && output == Kept(text, sa, 0);
      var sb :| SortedPermutation((x, y) => StartsBefore(x, y), RangesOf(b), sb) && otherOutput == Kept(text, sb, 0);
      StartOrderIsAlwaysSafe(RangesOf(a), |text|);
      StartOrderIsAlwaysSafe(RangesOf(b), |text|);
      SafeOrderRemovesTheUnion(text, RangesOf(a), sa);
      SafeOrderRemovesTheUnion(text, RangesOf(b), sb);
      SameElementsSameOutside(text, RangesOf(a), RangesOf(b));
    }
  }

  lemma RangesOfElements(references: seq<Reference>, r: Range)
    requires !MarksAll(references)
    ensures r in RangesOf(references) <==> exists ref :: ref in references && ref.range == Some(r)
  {
    if ref :| ref in references && ref.range == Some(r) {
      var k :| 0 <= k < |references| && references[k] == ref;
      assert RangesOf(references)[k] == r;
    }
    if r in RangesOf(references) {
      var k :| 0 <= k < |references| && RangesOf(references)[k] == r;
      assert references[k] in references;
    }
  }

  method ReadFallbackRemovedText(m: Message, element: Element, supportedNamespaces: seq<string>) returns (output: string)
    ensures element == Body ==> IsRemovedText(m.fallbackMarkers, supportedNamespaces, Body, m.body, output)
    ensures element == Subject ==> IsRemovedText(m.fallbackMarkers, supportedNamespaces, Subject, m.subject, output)
    ensures var references := Relevant(m.fallbackMarkers, supportedNamespaces, element);
            var text := match element case Body => m.body case Subject => m.subject;
            && (references == [] ==> output == text)
            && (!MarksAll(references) && AlwaysSafe(RangesOf(references), |text|) ==>
                  output == Outside(text, RangesOf(references), 0))
  {
    var all, ranges := CollectRanges(m.fallbackMarkers, supportedNamespaces, element);
    if all {
      return "";
    }
    var sorted := SortByStart(ranges);
    var fullText := if element == Subject then m.subject else m.body;
    output := RemoveRanges(fullText, sorted);
    if AlwaysSafe(ranges, |fullText|) {
      SafeOrderRemovesTheUnion(fullText, ranges, sorted);
    }
    if ranges == [] {
      assert |multiset(sorted)| == |multiset(ranges)|;
      assert fullText[0..] == fullText;
    }
  }

  /** The ranges lie in the text.  The source copies without checking; what it does for other ranges is undefined. */
  ghost predicate Slices(ranges: seq<Range>, n: nat) {
    forall i :: 0 <= i < |ranges| ==> ranges[i].start <= ranges[i].end <= n
  }

  function Marked<T>(text: seq<T>, ranges: seq<Range>): seq<T>
    requires Slices(ranges, |text|)
  {
    if ranges == [] then [] else text[ranges[0].start..ranges[0].end] + Marked(text, ranges[1..])
  }

  lemma SlicesPermuted(a: seq<Range>, b: seq<Range>, n: nat)
    requires Slices(a, n) && multiset(a) == multiset(b)
    ensures Slices(b, n)
  {
    forall i | 0 <= i < |b| ensures b[i].start <= b[i].end <= n {
      PermutationsHaveSameElements(a, b, b[i]);
    }
  }

  /** None if the copying leaves the text. */
  method CopyRanges(fullText: string, sorted: seq<Range>) returns (output: Option<string>)
    ensures output.Some? <==> Slices(sorted, |fullText|)
    ensures output.Some? ==> output.value == Marked(fullText, sorted)
  {
    var copied: string := "";
    for k := 0 to |sorted|
      invariant Slices(sorted[..k], |fullText|)
      invariant Slices(sorted, |fullText|) ==> copied + Marked(fullText, sorted[k..]) == Marked(fullText, sorted)
    {
      var range := sorted[k];
      if !(range.start <= range.end <= |fullText|) {
        return None;
      }
      assert sorted[k..][1..] == sorted[k + 1..];
      assert sorted[..k + 1] == sorted[..k] + [range];
      copied := copied + fullText[range.start..range.end];
    }
    assert sorted[..|sorted|] == sorted;
    output := Some(copied);
  }

  /** The whole text if a reference marks it, else the marked slices along some order by start. */
  ghost predicate IsFallbackText(markers: seq<Marker>, forNamespace: string, element: Element, fullText: string, text: string) {
    var references := Relevant(markers, [forNamespace], element);
    if MarksAll(references) then text == fullText
    else exists sorted :: SortedPermutation((a, b) => StartsBefore(a, b), RangesOf(references), sorted)
                          && Slices(sorted, |fullText|) && text == Marked(fullText, sorted)
  }

  /** Reading the fallback text stays inside a text of n characters. */
  ghost predicate IsReadable(markers: seq<Marker>, forNamespace: string, element: Element, n: nat) {
    var references := Relevant(markers, [forNamespace], element);
    MarksAll(references) || Slices(RangesOf(references), n)
  }

  /** None if the source's behaviour is undefined. */
  method ReadFallbackText(m: Message, element: Element, forNamespace: string) returns (output: Option<string>)
    ensures element == Body ==> (output.Some? <==> IsReadable(m.fallbackMarkers, forNamespace, Body, |m.body|))
    ensures element == Subject ==> (output.Some? <==> IsReadable(m.fallbackMarkers, forNamespace, Subject, |m.subject|))
    ensures output.Some? && element == Body ==>
              IsFallbackText(m.fallbackMarkers, forNamespace, Body, m.body, output.value)
    ensures output.Some? && element == Subject ==>
              IsFallbackText(m.fallbackMarkers, forNamespace, Subject, m.subject, output.value)
  {
    var fullText := if element == Subject then m.subject else m.body;
    var all, ranges := CollectRanges(m.fallbackMarkers, [forNamespace], element);
    if all {
      return Some(fullText);
    }
    var sorted := SortByStart(ranges);
    output := CopyRanges(fullText, sorted);
    if Slices(ranges, |fullText|) {
      SlicesPermuted(ranges, sorted, |fullText|);
    } else if Slices(sorted, |fullText|) {
      SlicesPermuted(sorted, ranges, |fullText|);
    }
  }

  // --------------------------------------------- removed and marked text partition

  ghost predicate PairwiseDisjoint(ranges: seq<Range>) {
    forall i, j :: 0 <= i < j < |ranges| ==> Disjoint(ranges[i], ranges[j])
  }

  predicate Disjoint(a: Range, b: Range) { a.end <= b.start || b.end <= a.start }

  ghost predicate NonEmpty(ranges: seq<Range>) {
    forall i :: 0 <= i < |ranges| ==> ranges[i].start < ranges[i].end
  }

  /** Each range starts where, or after, the previous one ends. */
  predicate Chained(ranges: seq<Range>, index: nat, n: nat) {
    if ranges == [] then index <= n
    else index <= ranges[0].start < ranges[0].end <= n && Chained(ranges[1..], ranges[0].end, n)
  }

  function Take<T>(s: seq<T>, k: nat): seq<T> { if k <= |s| then s[..k] else s }

  function Drop<T>(s: seq<T>, k: nat): seq<T> { if k <= |s| then s[k..] else [] }

  /** Puts the two parts together again, guided by the ranges. */
  function Interleave<T>(kept: seq<T>, marked: seq<T>, ranges: seq<Range>, index: nat): seq<T>
    decreases |ranges|
  {
    if ranges == [] then kept
    else
      var r := ranges[0];
      var gap: nat := if index <= r.start then r.start - index else 0;
      var length: nat := if r.start <= r.end then r.end - r.start else 0;
      Take(kept, gap) + Take(marked, length) + Interleave(Drop(kept, gap), Drop(marked, length), ranges[1..], r.end)
  }

  lemma {:induction false} DisjointRangesAreChained(sorted: seq<Range>, index: nat, n: nat)
    requires SortedByStart(sorted) && PairwiseDisjoint(sorted) && NonEmpty(sorted) && Slices(sorted, n)
    requires forall i :: 0 <= i < |sorted| ==> index <= sorted[i].start
    requires index <= n
    ensures Chained(sorted, index, n)
    decreases |sorted|
  {
    if sorted != [] {
      SortedTail(sorted);
      forall i | 0 <= i < |sorted[1..]| ensures sorted[0].end <= sorted[1..][i].start {
        assert Disjoint(sorted[0], sorted[i + 1]);
        assert sorted[i + 1] in sorted;
      }
      DisjointRangesAreChained(sorted[1..], sorted[0].end, n);
    }
  }

  lemma {:induction false} ChainedIsSliced(ranges: seq<Range>, index: nat, n: nat)
    requires Chained(ranges, index, n)
    ensures Slices(ranges, n)
  {
    if ranges != [] {
      ChainedIsSliced(ranges[1..], ranges[0].end, n);
    }
  }

  lemma TakeDrop<T>(a: seq<T>, b: seq<T>)
    ensures Take(a + b, |a|) == a && Drop(a + b, |a|) == b
  {}

  lemma InterleaveStep<T>(gap: seq<T>, slice: seq<T>, kept: seq<T>, marked: seq<T>, ranges: seq<Range>, index: nat)
    requires ranges != [] && index <= ranges[0].start <= ranges[0].end
    requires |gap| == ranges[0].start - index && |slice| == ranges[0].end - ranges[0].start
    ensures Interleave(gap + kept, slice + marked, ranges, index)
         == gap + slice + Interleave(kept, marked, ranges[1..], ranges[0].end)
  {
    TakeDrop(gap, kept);
    TakeDrop(slice, marked);
  }

  lemma {:induction false} ChainedPartition<T>(text: seq<T>, ranges: seq<Range>, index: nat)
    requires Chained(ranges, index, |text|) && Slices(ranges, |text|)
    ensures |Kept(text, ranges, index)| + |Marked(text, ranges)| == |text| - index
    ensures Interleave(Kept(text, ranges, index), Marked(text, ranges), ranges, index) == text[index..]
    decreases |ranges|
  {
    hide Interleave;
    if ranges == [] {
      assert Interleave(text[index..], [], ranges, index) == text[index..] by {
        InterleaveNothing(text[index..], ranges, index);
      }
      assert index == |text| ==> text[index..] == [];
    } else {
      var r, rest := ranges[0], ranges[1..];
      ChainedPartition(text, rest, r.end);
      var gap, slice := text[index..r.start], text[r.start..r.end];
      assert Kept(text, ranges, index) == gap + Kept(text, rest, r.end);
      InterleaveStep(gap, slice, Kept(text, rest, r.end), Marked(text, rest), ranges, index);
    }
  }

  lemma InterleaveNothing<T>(kept: seq<T>, ranges: seq<Range>, index: nat)
    requires ranges == []
    ensures Interleave(kept, [], ranges, index) == kept
  {}

  /**
   * For disjoint, non-empty ranges inside the text, the removed text and the marked text are complementary:
   * their lengths add up, and interleaving them along the sorted ranges rebuilds the text.
   */
  lemma RemovedAndMarkedPartition<T>(text: seq<T>, ranges: seq<Range>, sorted: seq<Range>)
    requires SortedPermutation((a, b) => StartsBefore(a, b), ranges, sorted)
    requires PairwiseDisjoint(ranges) && NonEmpty(ranges) && Slices(ranges, |text|)
    ensures Slices(sorted, |text|)
    ensures |Kept(text, sorted, 0)| + |Marked(text, sorted)| == |text|
    ensures Interleave(Kept(text, sorted, 0), Marked(text, sorted), sorted, 0) == text
    ensures Kept(text, sorted, 0) == Outside(text, ranges, 0)
  {
    SlicesPermuted(ranges, sorted, |text|);
    DisjointPermuted(ranges, sorted);
    DisjointRangesAreChained(sorted, 0, |text|);
    ChainedPartition(text, sorted, 0);
    assert text[0..] == text;
    forall a, b | a in ranges && b in ranges && a.start <= b.start ensures a.end <= b.end {
      var i :| 0 <= i < |ranges| && ranges[i] == a;
      var k :| 0 <= k < |ranges| && ranges[k] == b;
      assert i < k ==> Disjoint(ranges[i], ranges[k]);
      assert k < i ==> Disjoint(ranges[k], ranges[i]);
    }
    StartOrderIsAlwaysSafe(ranges, |text|);
    SafeOrderRemovesTheUnion(text, ranges, sorted);
  }

  lemma DisjointPermuted(a: seq<Range>, b: seq<Range>)
    requires PairwiseDisjoint(a) && NonEmpty(a) && multiset(a) == multiset(b)
    ensures PairwiseDisjoint(b) && NonEmpty(b)
  {
    assert Distinct(a) by {
      forall i, j | 0 <= i < j < |a| ensures a[i] != a[j] {
        assert Disjoint(a[i], a[j]);
      }
    }
    DistinctPermuted(a, b);
    forall i | 0 <= i < |b| ensures b[i] in a {
      PermutationsHaveSameElements(a, b, b[i]);
    }
    forall i, j | 0 <= i < j < |b| ensures Disjoint(b[i], b[j]) {
      assert b[i] in a && b[j] in a;
      var k :| 0 <= k < |a| && a[k] == b[i];
      var l :| 0 <= l < |a| && a[l] == b[j];
      assert k < l ==> Disjoint(a[k], a[l]);
      assert l < k ==> Disjoint(a[l], a[k]);
    }
  }

  // ------------------------------------------------------------------ reply quotes

  const NS_REPLY := "urn:xmpp:reply:0"

  function Unquote(line: string): string {
    if line == ">" then "" else if StartsWith(line, "> ") then line[2..] else line
  }

  function UnquoteAll(lines: seq<string>): seq<string> {
    seq(|lines|, k requires 0 <= k < |lines| => Unquote(lines[k]))
  }

  function UnquoteText(text: string): string { Join(UnquoteAll(Split(text, '\n')), "\n") }

  /** None if the source's behaviour is undefined. */
  method ReadReplyQuoteFromBody(m: Message) returns (quote: Option<string>)
    ensures quote.Some? <==> IsReadable(m.fallbackMarkers, "urn:xmpp:reply:0", Body, |m.body|)
    ensures quote.Some? ==> exists fallback :: IsFallbackText(m.fallbackMarkers, "urn:xmpp:reply:0", Body, m.body, fallback)
                                                && quote.value == UnquoteText(fallback)
  {
    var fallback := ReadFallbackText(m, Body, NS_REPLY);
    if fallback.None? {
      return None;
    }
    var replyFallbackBody := fallback.value;
    var lines := Split(replyFallbackBody, '\n');
    ghost var original := lines;
    for k := 0 to |lines|
      invariant |lines| == |original|
      invariant forall i :: 0 <= i < |lines| ==> lines[i] == if i < k then Unquote(original[i]) else original[i]
    {
      if lines[k] == ">" {
        lines := lines[k := ""];
      } else if StartsWith(lines[k], "> ") {
        lines := lines[k := lines[k][2..]];
      }
    }
    assert lines == UnquoteAll(original);
    quote := Some(Join(lines, "\n"));
    assert quote.value == UnquoteText(replyFallbackBody);
  }

  /** quoted is a way of quoting this line: with the prefix, or the bare sign for an empty line. */
  predicate Quotes(quoted: string, line: string) { quoted == "> " + line || (line == "" && quoted == ">") }

  /** A quotation in which every line is quoted is read back as the original lines. */
  lemma QuotedLinesAreRestored(lines: seq<string>, quoted: seq<string>)
    requires lines != [] && |quoted| == |lines|
    requires forall k :: 0 <= k < |lines| ==> Lacks(lines[k], '\n') && Quotes(quoted[k], lines[k])
    ensures UnquoteText(Join(quoted, "\n")) == Join(lines, "\n")
  {
    SplitJoin(quoted, '\n');
    assert UnquoteAll(quoted) == lines;
  }

  /** The same for a quotation that ends with a line break. */
  lemma QuotedLinesWithFinalBreak(lines: seq<string>, quoted: seq<string>)
    requires |quoted| == |lines|
    requires forall k :: 0 <= k < |lines| ==> Lacks(lines[k], '\n') && Quotes(quoted[k], lines[k])
    ensures UnquoteText(Join(quoted + [""], "\n")) == Join(lines + [""], "\n")
  {
    SplitJoin(quoted + [""], '\n');
    assert UnquoteAll(quoted + [""]) == lines + [""];
  }

  /** Lines without the quotation sign and a blank stay as they are. */
  lemma PlainLinesAreKept(lines: seq<string>)
    requires lines != []
    requires forall line :: line in lines ==>
               Lacks(line, '\n') && (line == "" || line[0] != '>' || (|line| > 1 && line[1] != ' '))
    ensures UnquoteText(Join(lines, "\n")) == Join(lines, "\n")
  {
    SplitJoin(lines, '\n');
    forall k | 0 <= k < |lines| ensures Unquote(lines[k]) == lines[k] {
      assert lines[k] in lines;
      var line := lines[k];
      assert |line| >= 2 ==> line[..2][0] == line[0] && line[..2][1] == line[1];
    }
    assert UnquoteAll(lines) == lines;
  }
}
