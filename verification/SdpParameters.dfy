// Payload parameters: the map of format parameters and its text form in the fmtp
// attribute of RFC 4566, section 6.

module SdpParameters {
  import opened Wrappers
  import opened Text

  datatype Param = Param(key: string, value: string)

  /** A map ordered by key, as a list without repeated keys. */
  predicate IsMap(ps: seq<Param>) {
    forall i, j :: 0 <= i < j < |ps| ==> StringLess(ps[i].key, ps[j].key)
  }

  function Insert(ps: seq<Param>, k: string, v: string): seq<Param> {
    if ps == [] then [Param(k, v)]
    else if ps[0].key == k then [Param(k, v)] + ps[1..]
    else if StringLess(k, ps[0].key) then [Param(k, v)] + ps
    else [ps[0]] + Insert(ps[1..], k, v)
  }

  function Lookup(ps: seq<Param>, k: string): Option<string> {
    if ps == [] then None else if ps[0].key == k then Some(ps[0].value) else Lookup(ps[1..], k)
  }

  lemma {:induction false} InsertLast(ps: seq<Param>, k: string, v: string)
    requires forall p :: p in ps ==> StringLess(p.key, k)
    ensures Insert(ps, k, v) == ps + [Param(k, v)]
  {
    if ps != [] {
      StringLessIrreflexive(k);
      if StringLess(k, ps[0].key) {
        StringLessTransitive(k, ps[0].key, k);
      }
      InsertLast(ps[1..], k, v);
    }
  }

  lemma {:induction false} InsertElements(ps: seq<Param>, k: string, v: string)
    ensures forall q :: q in Insert(ps, k, v) ==> q in ps || q == Param(k, v)
  {
    if ps != [] {
      InsertElements(ps[1..], k, v);
    }
  }

  lemma {:induction false} KeysAboveAreAbsent(ps: seq<Param>, k: string)
    requires forall p :: p in ps ==> StringLess(k, p.key)
    ensures Lookup(ps, k) == None
  {
    if ps != [] {
      StringLessIrreflexive(k);
      assert ps[0] in ps;
      KeysAboveAreAbsent(ps[1..], k);
    }
  }

  /** Inserting sets one key, changes no other and keeps the order of a map. */
  lemma {:induction false} InsertIsUpdate(ps: seq<Param>, k: string, v: string, q: string)
    requires IsMap(ps)
    ensures Lookup(Insert(ps, k, v), q) == if q == k then Some(v) else Lookup(ps, q)
    ensures IsMap(Insert(ps, k, v))
  {
    if ps != [] && ps[0].key != k && !StringLess(k, ps[0].key) {
      InsertIsUpdate(ps[1..], k, v, q);
      InsertElements(ps[1..], k, v);
      StringLessTotal(k, ps[0].key);
      var rest := Insert(ps[1..], k, v);
      forall j | 0 <= j < |rest| ensures StringLess(ps[0].key, rest[j].key) {
        assert rest[j] in rest;
      }
    } else if ps != [] && ps[0].key != k {
      forall j | 0 <= j < |ps| ensures StringLess(k, ps[j].key) {
        if j > 0 { StringLessTransitive(k, ps[0].key, ps[j].key); }
      }
    }
  }

  // ----------------------------------------------------------------- the text form

  function PrintParam(p: Param): string { p.key + "=" + p.value }

  function PrintParams(ps: seq<Param>): seq<string> {
    seq(|ps|, k requires 0 <= k < |ps| => PrintParam(ps[k]))
  }

  /** Splits at every semicolon, dropping the blanks that follow it. */
  function SplitParameters(s: string): (parts: seq<string>)
    ensures parts != []
    decreases |s|
  {
    if s == "" then [""]
    else if s[0] == ';' then [""] + SplitParameters(TrimLeft(s[1..]))
    else var rest := SplitParameters(s[1..]); [[s[0]] + rest[0]] + rest[1..]
  }

  /** Adds a key=value piece; pieces of any other form are skipped. */
  function AddPiece(ps: seq<Param>, piece: string): seq<Param> {
    var bits := Split(piece, '=');
    if |bits| == 2 then Insert(ps, bits[0], bits[1]) else ps
  }

  function AddPieces(pieces: seq<string>): seq<Param> {
    if pieces == [] then [] else AddPiece(AddPieces(pieces[..|pieces| - 1]), pieces[|pieces| - 1])
  }

  function ParseParams(s: string): seq<Param> { AddPieces(SplitParameters(s)) }

  /** Every piece of the form key=value sets its key, so the last one counts; other pieces are skipped. */
  lemma {:induction false} LastPieceCounts(pieces: seq<string>, key: string, k: nat)
    requires k <= |pieces| && (k < |pieces| ==> |Split(pieces[k], '=')| == 2 && Split(pieces[k], '=')[0] == key)
    requires forall j :: 0 <= j < |pieces| && (j > k || k == |pieces|) ==> !(|Split(pieces[j], '=')| == 2 && Split(pieces[j], '=')[0] == key)
    ensures IsMap(AddPieces(pieces))
    ensures Lookup(AddPieces(pieces), key) == if k < |pieces| then Some(Split(pieces[k], '=')[1]) else None
  {
    hide Split, Insert, IsMap;
    var n := |pieces| - 1;
    if pieces == [] {
      EmptyIsMap();
    } else {
      var bits := Split(pieces[n], '=');
      if k < n {
        LastPieceCounts(pieces[..n], key, k);
      } else {
        PiecesAreMap(pieces[..n]);
        if k > n { LastPieceCounts(pieces[..n], key, n); }
      }
      if |bits| == 2 { InsertIsUpdate(AddPieces(pieces[..n]), bits[0], bits[1], key); }
    }
  }

  lemma EmptyIsMap()
    ensures IsMap([])
  {}

  lemma {:induction false} PiecesAreMap(pieces: seq<string>)
    ensures IsMap(AddPieces(pieces))
  {
    hide Split, Insert, IsMap;
    if pieces == [] {
      EmptyIsMap();
    } else {
      var n := |pieces| - 1;
      var bits := Split(pieces[n], '=');
      PiecesAreMap(pieces[..n]);
      if |bits| == 2 { InsertIsUpdate(AddPieces(pieces[..n]), bits[0], bits[1], ""); }
    }
  }

  /** A semicolon ends a piece, and the blanks behind it belong to no piece. */
  lemma PiecesEndAtSemicolons(piece: string, blanks: string, rest: string)
    requires Lacks(piece, ';') && Blank(blanks) && (rest == "" || !IsSpace(rest[0]))
    ensures SplitParameters(piece + ";" + blanks + rest) == [piece] + SplitParameters(rest)
    ensures SplitParameters(piece) == [piece]
  {
    hide SplitParameters;
    assert piece + ";" + blanks + rest == piece + ";" + (blanks + rest);
    SplitParametersPrefix(piece, blanks + rest);
    TrimLeftTakesBlanks(blanks, rest);
    SplitParametersNothing(piece);
  }

  // ---------------------------------------------------------------------- splitting

  lemma {:induction false} PartsLackSemicolon(s: string)
    ensures forall part :: part in SplitParameters(s) ==> Lacks(part, ';')
    ensures forall part, c :: part in SplitParameters(s) && c in part ==> c in s
    decreases |s|
  {
    if s != "" {
      if s[0] == ';' {
        TrimLeftRemovesBlanks(s[1..]);
        PartsLackSemicolon(TrimLeft(s[1..]));
      } else {
        PartsLackSemicolon(s[1..]);
        assert SplitParameters(s[1..])[0] in SplitParameters(s[1..]);
      }
    }
  }

  lemma {:induction false} SplitParametersPrefix(a: string, rest: string)
    requires Lacks(a, ';')
    ensures SplitParameters(a + ";" + rest) == [a] + SplitParameters(TrimLeft(rest))
  {
    var s := a + ";" + rest;
    if a == "" {
      assert s[1..] == rest;
    } else {
      assert s[1..] == a[1..] + ";" + rest;
      SplitParametersPrefix(a[1..], rest);
      assert [a[0]] + a[1..] == a;
    }
  }

  lemma {:induction false} SplitParametersNothing(a: string)
    requires Lacks(a, ';')
    ensures SplitParameters(a) == [a]
  {
    if a != "" {
      SplitParametersNothing(a[1..]);
      assert [a[0]] + a[1..] == a;
    }
  }

  lemma {:induction false} TrimLeftConcat(a: string, b: string)
    requires exists c :: c in a && !IsSpace(c)
    ensures TrimLeft(a + b) == TrimLeft(a) + b
  {
    if IsSpace(a[0]) {
      assert (a + b)[1..] == a[1..] + b;
      TrimLeftConcat(a[1..], b);
    }
  }

  predicate Solid(part: string) { Lacks(part, ';') && exists c :: c in part && !IsSpace(c) }

  function TrimAll(parts: seq<string>): seq<string> {
    seq(|parts|, k requires 0 <= k < |parts| => TrimLeft(parts[k]))
  }

  lemma BlankIsTrimmed(s: string)
    ensures TrimLeft(" " + s) == TrimLeft(s)
  {
    assert (" " + s)[1..] == s;
  }

  lemma {:induction false} SplitTrimmedJoin(parts: seq<string>)
    requires parts != [] && forall part :: part in parts ==> Solid(part)
    ensures SplitParameters(TrimLeft(Join(parts, "; "))) == TrimAll(parts)
  {
    hide SplitParameters, TrimLeft;
    var first := parts[0];
    assert first in parts && Solid(first);
    TrimLeftRemovesBlanks(first);
    if |parts| == 1 {
      SplitParametersNothing(TrimLeft(first));
    } else {
      var rest := Join(parts[1..], "; ");
      assert Join(parts, "; ") == first + ("; " + rest);
      TrimLeftConcat(first, "; " + rest);
      assert TrimLeft(first) + ("; " + rest) == TrimLeft(first) + ";" + (" " + rest);
      SplitParametersPrefix(TrimLeft(first), " " + rest);
      BlankIsTrimmed(rest);
      SplitTrimmedJoin(parts[1..]);
    }
  }

  lemma SplitTrimmedTail(parts: seq<string>)
    requires parts != [] && forall part :: part in parts ==> Solid(part)
    ensures SplitParameters(TrimLeft(" " + Join(parts, "; "))) == TrimAll(parts)
  {
    BlankIsTrimmed(Join(parts, "; "));
    SplitTrimmedJoin(parts);
  }

  /** Splitting what was joined loses only the blanks at the start of later parts. */
  lemma SplitJoinedParameters(first: string, rest: seq<string>)
    requires Solid(first) && forall part :: part in rest ==> Solid(part)
    ensures SplitParameters(Join([first] + rest, "; ")) == [first] + TrimAll(rest)
  {
    if rest == [] {
      SplitParametersNothing(first);
      assert TrimAll(rest) == [];
    } else {
      JoinCons(first, rest, "; ");
      assert first + "; " + Join(rest, "; ") == first + ";" + (" " + Join(rest, "; "));
      SplitParametersPrefix(first, " " + Join(rest, "; "));
      SplitTrimmedTail(rest);
    }
  }

  lemma SplitPrintedParameters(ps: seq<Param>)
    requires ps != [] && LacksDelimiters(ps)
    ensures SplitParameters(Join(PrintParams(ps), "; ")) == [PrintParam(ps[0])] + TrimAll(PrintParams(ps[1..]))
  {
    PrintedParamsAreSolid(ps);
    assert PrintParams(ps) == [PrintParam(ps[0])] + PrintParams(ps[1..]);
    assert forall part :: part in PrintParams(ps[1..]) ==> part in PrintParams(ps);
    assert PrintParam(ps[0]) in PrintParams(ps);
    SplitJoinedParameters(PrintParam(ps[0]), PrintParams(ps[1..]));
  }

  // --------------------------------------------------------------------- round trip

  predicate LacksDelimiters(ps: seq<Param>) {
    forall p :: p in ps ==> Lacks(p.key, '=') && Lacks(p.key, ';') && Lacks(p.value, '=') && Lacks(p.value, ';')
  }

  /** The parameter lists the text form can carry. */
  predicate CleanParams(ps: seq<Param>) {
    LacksDelimiters(ps) && forall k :: 1 <= k < |ps| && ps[k].key != "" ==> !IsSpace(ps[k].key[0])
  }

  lemma SplitPrintedParam(k: string, v: string)
    requires Lacks(k, '=') && Lacks(v, '=')
    ensures Split(k + "=" + v, '=') == [k, v]
  {
    SplitPrefix(k, '=', v);
    SplitNothing(v, '=');
  }

  /** Pieces of a map's entries, added in order, rebuild the map. */
  lemma {:induction false} AddPrintedPieces(ps: seq<Param>)
    requires IsMap(ps) && LacksDelimiters(ps)
    ensures AddPieces(PrintParams(ps)) == ps
  {
    hide Split, Insert;
    if ps != [] {
      var front, last := ps[..|ps| - 1], ps[|ps| - 1];
      AddPrintedPieces(front);
      assert PrintParams(ps)[..|ps| - 1] == PrintParams(front);
      SplitPrintedParam(last.key, last.value);
      InsertLast(front, last.key, last.value);
    }
  }

  lemma PrintedParamsAreSolid(ps: seq<Param>)
    requires LacksDelimiters(ps)
    ensures forall part :: part in PrintParams(ps) ==> Solid(part)
  {
    forall part | part in PrintParams(ps) ensures Solid(part) {
      assert '=' in part && !IsSpace('=');
    }
  }

  lemma {:induction false} TrimPrintedParam(k: string, v: string)
    ensures TrimLeft(k + "=" + v) == TrimLeft(k) + "=" + v
  {
    if k == "" {
      assert !IsSpace('=');
    } else if IsSpace(k[0]) {
      TrimPrintedParam(k[1..], v);
      assert (k + "=" + v)[1..] == k[1..] + "=" + v;
    }
  }

  /** Where an entry of the parsed map comes from. */
  lemma {:induction false} EntriesComeFromPieces(pieces: seq<string>, q: Param)
    requires q in AddPieces(pieces)
    ensures exists piece :: piece in pieces && Split(piece, '=') == [q.key, q.value]
  {
    var front, last := pieces[..|pieces| - 1], pieces[|pieces| - 1];
    var bits := Split(last, '=');
    if |bits| == 2 {
      InsertElements(AddPieces(front), bits[0], bits[1]);
    }
    if q in AddPieces(front) {
      EntriesComeFromPieces(front, q);
    } else {
      assert last in pieces;
    }
  }

  lemma ParsedParamsLackDelimiters(s: string)
    ensures LacksDelimiters(ParseParams(s))
  {
    hide Split, SplitParameters, AddPieces;
    forall q | q in ParseParams(s)
      ensures Lacks(q.key, '=') && Lacks(q.key, ';') && Lacks(q.value, '=') && Lacks(q.value, ';')
    {
      EntriesComeFromPieces(SplitParameters(s), q);
      var piece :| piece in SplitParameters(s) && Split(piece, '=') == [q.key, q.value];
      PartsLackSemicolon(s);
      SplitPartsLackSeparator(piece, '=');
      SplitPartsComeFrom(piece, '=');
      assert q.key in Split(piece, '=') && q.value in Split(piece, '=');
    }
  }

  lemma ParsedParamsComeFrom(s: string, c: char)
    requires Lacks(s, c)
    ensures forall q :: q in ParseParams(s) ==> Lacks(q.key, c) && Lacks(q.value, c)
  {
    hide Split, SplitParameters, AddPieces;
    forall q | q in ParseParams(s) ensures Lacks(q.key, c) && Lacks(q.value, c) {
      EntriesComeFromPieces(SplitParameters(s), q);
      var piece :| piece in SplitParameters(s) && Split(piece, '=') == [q.key, q.value];
      PartsLackSemicolon(s);
      SplitPartsComeFrom(piece, '=');
      assert q.key in Split(piece, '=') && q.value in Split(piece, '=');
    }
  }

  lemma CleanParamsParse(ps: seq<Param>)
    requires IsMap(ps) && ps != [] && CleanParams(ps)
    ensures ParseParams(Join(PrintParams(ps), "; ")) == ps
  {
    hide Split, SplitParameters, Join, AddPieces, Insert;
    SplitPrintedParameters(ps);
    forall k | 1 <= k < |ps| ensures TrimLeft(PrintParam(ps[k])) == PrintParam(ps[k]) {
      assert PrintParam(ps[k])[0] == if ps[k].key == "" then '=' else ps[k].key[0];
    }
    assert [PrintParam(ps[0])] + TrimAll(PrintParams(ps[1..])) == PrintParams(ps);
    AddPrintedPieces(ps);
  }

  /** A key that starts with a blank can only be read back in first position. */
  lemma BlankKeysAreLost(ps: seq<Param>, k: nat)
    requires IsMap(ps) && LacksDelimiters(ps) && 1 <= k < |ps|
    requires ParseParams(Join(PrintParams(ps), "; ")) == ps
    ensures ps[k].key == "" || !IsSpace(ps[k].key[0])
  {
    hide Split, SplitParameters, Join, TrimLeft, AddPieces, Insert;
    SplitPrintedParameters(ps);
    var pieces := SplitParameters(Join(PrintParams(ps), "; "));
    EntriesComeFromPieces(pieces, ps[k]);
    var i :| 0 <= i < |pieces| && Split(pieces[i], '=') == [ps[k].key, ps[k].value];
    if i == 0 {
      SplitPrintedParam(ps[0].key, ps[0].value);
      StringLessIrreflexive(ps[0].key);
      assert false;
    } else {
      TrimPrintedParam(ps[i].key, ps[i].value);
      TrimLeftRemovesBlanks(ps[i].key);
      SplitPrintedParam(TrimLeft(ps[i].key), ps[i].value);
    }
  }

  /** A non-empty parameter map survives printing and parsing if and only if it is clean. */
  lemma ParamsRoundTrip(ps: seq<Param>)
    requires IsMap(ps) && ps != []
    ensures ParseParams(Join(PrintParams(ps), "; ")) == ps <==> CleanParams(ps)
  {
    hide ParseParams, Join, PrintParams;
    if CleanParams(ps) {
      CleanParamsParse(ps);
    }
    if ParseParams(Join(PrintParams(ps), "; ")) == ps {
      ParsedParamsLackDelimiters(Join(PrintParams(ps), "; "));
      forall k | 1 <= k < |ps| && ps[k].key != "" ensures !IsSpace(ps[k].key[0]) {
        BlankKeysAreLost(ps, k);
      }
    }
  }
}
