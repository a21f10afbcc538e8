// Transport candidates of a session: the candidate attribute of RFC 5245, section
// 15.1, its parser, and the comparison that picks the default candidate.

module JingleCandidates {
  import opened Wrappers
  import opened Text
  import opened Sorting

  datatype CandidateType = HostType | PeerReflexiveType | ServerReflexiveType | RelayedType

  /** host is the canonical text of the address; parsing and printing addresses is not modelled. */
  datatype Candidate = Candidate(
    component: Int32, foundation: string, generation: Int32, host: string, id: string, network: int,
    port: UInt16, protocol: string, priority: Int32, ctype: CandidateType)

  const RTP_COMPONENT: Int32 := 1

  function TypeToString(t: CandidateType): string {
    match t
    case HostType => "host"
    case PeerReflexiveType => "prflx"
    case ServerReflexiveType => "srflx"
    case RelayedType => "relay"
  }

  function TypeFromString(s: string): Option<CandidateType> {
    if s == "host" then Some(HostType)
    else if s == "prflx" then Some(PeerReflexiveType)
    else if s == "srflx" then Some(ServerReflexiveType)
    else if s == "relay" then Some(RelayedType)
    else None
  }

  function LowerChar(c: char): char {
    if 'A' <= c <= 'Z' then (c as int - 'A' as int + 'a' as int) as char else c
  }

  /** Case conversion, for the letters A to Z. */
  function ToLower(s: string): string { seq(|s|, k requires 0 <= k < |s| => LowerChar(s[k])) }

  function FreshCandidate(): Candidate { Candidate(0, "", 0, "", "", 0, 0, "", 0, HostType) }

  // ------------------------------------------------------------ print and parse

  /** The blank-separated words of a candidate attribute. */
  function CandidateWords(c: Candidate): seq<string> {
    [c.foundation, Number(c.component), c.protocol, Number(c.priority), c.host, Number(c.port),
     "typ", TypeToString(c.ctype), "generation", Number(c.generation)]
  }

  function CandidateToSdp(c: Candidate): string { "candidate:" + Join(CandidateWords(c), " ") }

  /** Reads name/value words from position i on. */
  function ParseAttributes(c: Candidate, words: seq<string>, i: nat): Option<Candidate>
    requires i <= |words| + 1
    decreases |words| + 1 - i
  {
    if i >= |words| - 1 then Some(c)
    else if words[i] == "typ" then
      match TypeFromString(words[i + 1])
      case Some(t) => ParseAttributes(c.(ctype := t), words, i + 2)
      case None => None
    else if words[i] == "generation" then
      ParseAttributes(c.(generation := IntOrZero(words[i + 1])), words, i + 2)
    else None
  }

  function ParseFixedWords(words: seq<string>): Candidate
    requires |words| >= 6
  {
    FreshCandidate().(foundation := words[0], component := IntOrZero(words[1]), protocol := ToLower(words[2]),
      priority := IntOrZero(words[3]), host := words[4], port := IntOrZero(words[5]) % 0x1_0000)
  }

  function ParseCandidateSpec(sdp: string): Option<Candidate> {
    if !StartsWith(sdp, "candidate:") then None
    else
      var words := Split(sdp[10..], ' ');
      if |words| < 6 then None else ParseAttributes(ParseFixedWords(words), words, 6)
  }

  method CandidateParseSdp(sdp: string) returns (ok: bool, candidate: Candidate)
    ensures ok <==> ParseCandidateSpec(sdp).Some?
    ensures ok ==> candidate == ParseCandidateSpec(sdp).value
  {
    candidate := FreshCandidate();
    if !StartsWith(sdp, "candidate:") {
      return false, candidate;
    }
    var bits := Split(sdp[10..], ' ');
    if |bits| < 6 {
      return false, candidate;
    }
    candidate := ParseFixedWords(bits);
    var i := 6;
    while i < |bits| - 1
      invariant 6 <= i <= |bits| + 1
      invariant ParseCandidateSpec(sdp) == ParseAttributes(candidate, bits, i)
    {
      if bits[i] == "typ" {
        var t := TypeFromString(bits[i + 1]);
        if t.None? {
          return false, candidate;
        }
        candidate := candidate.(ctype := t.value);
      } else if bits[i] == "generation" {
        candidate := candidate.(generation := IntOrZero(bits[i + 1]));
      } else {
        return false, candidate;
      }
      i := i + 2;
    }
    ok := true;
  }

  // ------------------------------------------------------------------ round trip

  /** The candidates that a session description can carry in full. */
  predicate Printable(c: Candidate) {
    && Lacks(c.foundation, ' ') && Lacks(c.protocol, ' ') && Lacks(c.host, ' ')
    && ToLower(c.protocol) == c.protocol
    && c.id == "" && c.network == 0
  }

  lemma IntRoundTrip(n: Int32)
    ensures IntOrZero(Number(n)) == n && Lacks(Number(n), ' ') && Lacks(Number(n), '\n')
  {
    NumberRoundTrip(n);
    NumberHasNoBlanks(n);
  }

  lemma FixedWords(t: CandidateType)
    ensures TypeFromString(TypeToString(t)) == Some(t)
    ensures Lacks(TypeToString(t), ' ') && Lacks(TypeToString(t), '\n')
    ensures Lacks("typ", ' ') && Lacks("generation", ' ') && Lacks("typ", '\n') && Lacks("generation", '\n')
  {}

  lemma WordsLackBlanks(c: Candidate)
    requires Lacks(c.foundation, ' ') && Lacks(c.protocol, ' ') && Lacks(c.host, ' ')
    ensures forall word :: word in CandidateWords(c) ==> Lacks(word, ' ')
  {
    IntRoundTrip(c.component);
    IntRoundTrip(c.priority);
    IntRoundTrip(c.port);
    IntRoundTrip(c.generation);
    FixedWords(c.ctype);
  }

  lemma AttributesOfWords(c: Candidate, words: seq<string>, t: CandidateType, g: Int32)
    requires |words| == 10
    requires words[6] == "typ" && words[7] == TypeToString(t)
    requires words[8] == "generation" && words[9] == Number(g)
    ensures ParseAttributes(c, words, 6) == Some(c.(ctype := t, generation := g))
  {
    FixedWords(t);
    IntRoundTrip(g);
    assert ParseAttributes(c.(ctype := t, generation := g), words, 10) == Some(c.(ctype := t, generation := g));
    assert ParseAttributes(c.(ctype := t), words, 8) == ParseAttributes(c.(ctype := t, generation := g), words, 10);
  }

  lemma WordsOfPrinted(c: Candidate)
    requires Lacks(c.foundation, ' ') && Lacks(c.protocol, ' ') && Lacks(c.host, ' ')
    ensures StartsWith(CandidateToSdp(c), "candidate:")
    ensures Split(CandidateToSdp(c)[10..], ' ') == CandidateWords(c)
  {
    var words := CandidateWords(c);
    WordsLackBlanks(c);
    SplitJoin(words, ' ');
  }

  lemma FixedWordsParsed(c: Candidate, words: seq<string>)
    requires |words| >= 6 && ToLower(c.protocol) == c.protocol
    requires words[0] == c.foundation && IntOrZero(words[1]) == c.component && words[2] == c.protocol
    requires IntOrZero(words[3]) == c.priority && words[4] == c.host && IntOrZero(words[5]) == c.port
    ensures ParseFixedWords(words) == c.(generation := 0, ctype := HostType, id := "", network := 0)
  {
    hide IntOrZero, ToLower;
  }

  lemma PrintableParses(c: Candidate)
    requires Lacks(c.foundation, ' ') && Lacks(c.protocol, ' ') && Lacks(c.host, ' ')
    requires ToLower(c.protocol) == c.protocol
    ensures ParseCandidateSpec(CandidateToSdp(c)) == Some(c.(id := "", network := 0))
  {
    WordsOfPrinted(c);
    var words := CandidateWords(c);
    IntRoundTrip(c.component);
    IntRoundTrip(c.priority);
    IntRoundTrip(c.port);
    FixedWordsParsed(c, words);
    AttributesOfWords(ParseFixedWords(words), words, c.ctype, c.generation);
  }

  lemma LowerIsStable(s: string)
    ensures ToLower(ToLower(s)) == ToLower(s)
    ensures Lacks(s, ' ') ==> Lacks(ToLower(s), ' ')
    ensures Lacks(s, '\n') ==> Lacks(ToLower(s), '\n')
  {}

  lemma {:induction false} AttributesKeepTheRest(c: Candidate, words: seq<string>, i: nat)
    requires i <= |words| + 1
    ensures var r := ParseAttributes(c, words, i);
            r.Some? ==> r.value.(ctype := c.ctype, generation := c.generation) == c
    decreases |words| + 1 - i
  {
    if i < |words| - 1 {
      if words[i] == "typ" && TypeFromString(words[i + 1]).Some? {
        AttributesKeepTheRest(c.(ctype := TypeFromString(words[i + 1]).value), words, i + 2);
      } else if words[i] == "generation" {
        AttributesKeepTheRest(c.(generation := IntOrZero(words[i + 1])), words, i + 2);
      }
    }
  }

  /** Whatever the parser accepts is printable. */
  lemma ParsedIsPrintable(sdp: string)
    ensures ParseCandidateSpec(sdp).Some? ==> Printable(ParseCandidateSpec(sdp).value)
    ensures ParseCandidateSpec(sdp).Some? && Lacks(sdp, '\n') ==> CandidateLacksNewline(ParseCandidateSpec(sdp).value)
  {
    if ParseCandidateSpec(sdp).Some? {
      var words := Split(sdp[10..], ' ');
      SplitPartsLackSeparator(sdp[10..], ' ');
      SplitPartsComeFrom(sdp[10..], ' ');
      AttributesKeepTheRest(ParseFixedWords(words), words, 6);
      LowerIsStable(words[2]);
      assert words[0] in words && words[2] in words && words[4] in words;
    }
  }

  predicate CandidateLacksNewline(c: Candidate) {
    Lacks(c.foundation, '\n') && Lacks(c.protocol, '\n') && Lacks(c.host, '\n')
  }

  /** Printing and parsing a candidate restores it if and only if it is printable. */
  lemma CandidateRoundTrip(c: Candidate)
    ensures ParseCandidateSpec(CandidateToSdp(c)) == Some(c) <==> Printable(c)
  {
    if Printable(c) {
      PrintableParses(c);
    }
    ParsedIsPrintable(CandidateToSdp(c));
  }

  /** The four type names of RFC 5245, section 15.1; no other word is a type. */
  lemma TypeNames(s: string, t: CandidateType)
    ensures TypeFromString(s) == Some(t)
            <==> (s, t) in {("host", HostType), ("prflx", PeerReflexiveType), ("srflx", ServerReflexiveType), ("relay", RelayedType)}
    ensures TypeFromString(s) == None <==> s !in {"host", "prflx", "srflx", "relay"}
  {}

  /** Lower case moves A to Z up by 32 and keeps every other character. */
  lemma LowerCaseIs(s: string, k: nat)
    requires k < |s|
    ensures |ToLower(s)| == |s|
    ensures ToLower(s)[k] as int == if 65 <= s[k] as int <= 90 then s[k] as int + 32 else s[k] as int
  {}

  /** Number k of the name/value pairs after the six fixed words. */
  function Pair(words: seq<string>, k: nat): (string, string)
    requires 6 + 2 * k + 1 < |words|
  {
    (words[6 + 2 * k], words[6 + 2 * k + 1])
  }

  predicate Acceptable(pair: (string, string)) {
    pair.0 == "generation" || (pair.0 == "typ" && pair.1 in {"host", "prflx", "srflx", "relay"})
  }

  /** The value of the last pair of a name before pair n, if any. */
  function LastValue(words: seq<string>, name: string, n: nat): Option<string>
    requires n > 0 ==> 6 + 2 * n <= |words|
  {
    if n == 0 then None
    else if Pair(words, n - 1).0 == name then Some(Pair(words, n - 1).1)
    else LastValue(words, name, n - 1)
  }

  /** c holds what the first n pairs say, on top of base. */
  predicate SaysPairs(c: Candidate, base: Candidate, words: seq<string>, n: nat)
    requires n > 0 ==> 6 + 2 * n <= |words|
  {
    && c == base.(ctype := c.ctype, generation := c.generation)
    && (match LastValue(words, "typ", n) case Some(t) => TypeFromString(t) == Some(c.ctype) case None => c.ctype == base.ctype)
    && c.generation == (match LastValue(words, "generation", n) case Some(g) => IntOrZero(g) case None => base.generation)
  }

  /** Pairs are accepted exactly if each is a known type or a generation, the last of each counts, and a word left
      over at the end is ignored. */
  lemma {:induction false} PairsAreRead(c: Candidate, base: Candidate, words: seq<string>, k: nat)
    requires |words| >= 6 && (k > 0 ==> 6 + 2 * k <= |words|) && SaysPairs(c, base, words, k)
    ensures var n := (|words| - 6) / 2; var r := ParseAttributes(c, words, 6 + 2 * k);
            && (r.Some? <==> forall j :: k <= j < n ==> Acceptable(Pair(words, j)))
            && (r.Some? ==> SaysPairs(r.value, base, words, n))
    decreases |words| - 2 * k
  {
    hide SaysPairs, TypeFromString, IntOrZero;
    var n, i := (|words| - 6) / 2, 6 + 2 * k;
    if i < |words| - 1 {
      assert k < n && Pair(words, k) == (words[i], words[i + 1]);
      TypeWords(words[i + 1]);
      if words[i] == "typ" && TypeFromString(words[i + 1]).Some? {
        var c' := c.(ctype := TypeFromString(words[i + 1]).value);
        TypeIsSaid(c, base, words, k);
        PairsAreRead(c', base, words, k + 1);
        assert ParseAttributes(c, words, i) == ParseAttributes(c', words, 6 + 2 * (k + 1));
      } else if words[i] == "generation" {
        var c' := c.(generation := IntOrZero(words[i + 1]));
        GenerationIsSaid(c, base, words, k);
        PairsAreRead(c', base, words, k + 1);
        assert ParseAttributes(c, words, i) == ParseAttributes(c', words, 6 + 2 * (k + 1));
      } else {
        assert !Acceptable(Pair(words, k));
      }
    } else {
      assert k == n;
    }
  }

  lemma TypeWords(word: string)
    ensures TypeFromString(word).Some? <==> word in {"host", "prflx", "srflx", "relay"}
  {}

  lemma TypeIsSaid(c: Candidate, base: Candidate, words: seq<string>, k: nat)
    requires 6 + 2 * (k + 1) <= |words| && SaysPairs(c, base, words, k)
    requires Pair(words, k).0 == "typ" && TypeFromString(Pair(words, k).1).Some?
    ensures SaysPairs(c.(ctype := TypeFromString(Pair(words, k).1).value), base, words, k + 1)
  {
    hide TypeFromString, IntOrZero;
  }

  lemma GenerationIsSaid(c: Candidate, base: Candidate, words: seq<string>, k: nat)
    requires 6 + 2 * (k + 1) <= |words| && SaysPairs(c, base, words, k)
    requires Pair(words, k).0 == "generation"
    ensures SaysPairs(c.(generation := IntOrZero(Pair(words, k).1)), base, words, k + 1)
  {
    hide TypeFromString, IntOrZero;
  }

  /** What a candidate attribute says: six fixed words, then pairs. */
  lemma CandidateIsRead(words: seq<string>)
    requires words != [] && forall word :: word in words ==> Lacks(word, ' ')
    ensures var r := ParseCandidateSpec("candidate:" + Join(words, " "));
            if |words| < 6 then r == None
            else
              var n := (|words| - 6) / 2;
              && (r.Some? <==> forall j :: 0 <= j < n ==> Acceptable(Pair(words, j)))
              && (r.Some? ==> SaysPairs(r.value,
                    Candidate(IntOrZero(words[1]), words[0], 0, words[4], "", 0, IntOrZero(words[5]) % 0x1_0000, ToLower(words[2]),
                              IntOrZero(words[3]), HostType), words, n))
  {
    hide Split, Join, IntOrZero, ToLower, ParseAttributes, SaysPairs;
    var sdp := "candidate:" + Join(words, " ");
    assert sdp[10..] == Join(words, " ") && sdp[..10] == "candidate:";
    SplitJoin(words, ' ');
    if |words| >= 6 {
      var base := ParseFixedWords(words);
      NothingSaid(base, words);
      PairsAreRead(base, base, words, 0);
    }
  }

  lemma NothingSaid(base: Candidate, words: seq<string>)
    requires |words| >= 6
    ensures SaysPairs(base, base, words, 0)
  {}

  /** Any other attribute is no candidate. */
  lemma OthersAreNoCandidates(sdp: string)
    requires !StartsWith(sdp, "candidate:")
    ensures ParseCandidateSpec(sdp) == None
  {}

  // ------------------------------------------------------------------ comparison

  predicate CandidateLessThan(c1: Candidate, c2: Candidate) {
    if c1.ctype == c2.ctype then c1.priority > c2.priority else c1.ctype == ServerReflexiveType
  }

  lemma CandidateOrderIsPartial(a: Candidate, b: Candidate, c: Candidate)
    ensures !CandidateLessThan(a, a)
    ensures CandidateLessThan(a, b) ==> !CandidateLessThan(b, a)
    ensures CandidateLessThan(a, b) && CandidateLessThan(b, c) ==> CandidateLessThan(a, c)
  {}

  /** Two ranked candidates of one type next to a candidate of a third type cannot all be ordered. */
  ghost predicate Unsortable(s: seq<Candidate>) {
    exists a, b, c :: a in s && b in s && c in s && Clash(a, b, c)
  }

  predicate Clash(a: Candidate, b: Candidate, c: Candidate) {
    && a.ctype == b.ctype && a.priority > b.priority
    && a.ctype != ServerReflexiveType && c.ctype != ServerReflexiveType && c.ctype != a.ctype
  }

  /** The comparison is a strict weak order on a candidate list exactly when no such clash occurs in it. */
  lemma CandidateOrderIsWeakIff(s: seq<Candidate>)
    ensures StrictWeakOrderOn((a, b) => CandidateLessThan(a, b), s) <==> !Unsortable(s)
  {
    var less := (a, b) => CandidateLessThan(a, b);
    if Unsortable(s) {
      var a, b, c :| a in s && b in s && c in s && Clash(a, b, c);
      assert !less(a, c) && !less(c, b) && less(a, b);
    } else {
      forall a, b, c | a in s && b in s && c in s && !less(a, b) && !less(b, c)
        ensures !less(a, c)
      {
        assert !Clash(a, c, b);
      }
    }
  }

  /** In particular, lists with at most one type besides server-reflexive can be sorted. */
  lemma OneOtherTypeIsSortable(s: seq<Candidate>, other: CandidateType)
    requires forall c :: c in s ==> c.ctype == ServerReflexiveType || c.ctype == other
    ensures StrictWeakOrderOn((a, b) => CandidateLessThan(a, b), s)
  {
    CandidateOrderIsWeakIff(s);
  }

  predicate IsRtp(c: Candidate) { c.component == RTP_COMPONENT }

  /** d may be the default among the RTP candidates, which are those of component 1: a server-reflexive one if there is any, and none of its type ranks higher. */
  ghost predicate IsDefaultCandidate(d: Candidate, s: seq<Candidate>) {
    && d in s && d.component == 1
    && (forall c :: c in s && c.component == 1 && c.ctype == ServerReflexiveType ==> d.ctype == ServerReflexiveType)
    && (forall c :: c in s && c.component == 1 && c.ctype == d.ctype ==> c.priority <= d.priority)
  }

  /** Sorts the candidates and takes the first RTP candidate. */
  method DefaultCandidate(candidates: seq<Candidate>) returns (d: Option<Candidate>)
    requires !Unsortable(candidates)
    ensures d == None <==> forall c :: c in candidates ==> c.component != 1
    ensures d.Some? ==> IsDefaultCandidate(d.value, candidates)
  {
    CandidateOrderIsWeakIff(candidates);
    var sorted := Sort(candidates, (a, b) => CandidateLessThan(a, b));
    assert forall c :: c in candidates <==> c in sorted by {
      forall c ensures c in candidates <==> c in sorted {
        PermutationsHaveSameElements(candidates, sorted, c);
      }
    }
    var k := 0;
    while k < |sorted|
      invariant k <= |sorted|
      invariant forall i :: 0 <= i < k ==> !IsRtp(sorted[i])
    {
      if IsRtp(sorted[k]) {
        forall c | c in candidates && IsRtp(c)
          ensures c == sorted[k] || !CandidateLessThan(c, sorted[k])
        {
          var i :| 0 <= i < |sorted| && sorted[i] == c;
          assert i > k ==> !CandidateLessThan(sorted[i], sorted[k]);
        }
        return Some(sorted[k]);
      }
      k := k + 1;
    }
    d := None;
  }
}
