// Text operations the stanza and session-description code is built from: splitting,
// joining, decimal numbers, and the order of strings.

module Text {
  import opened Wrappers

  predicate Lacks(s: string, c: char) { c !in s }

  // ------------------------------------------------------- splitting and joining

  function Split(s: string, sep: char): (parts: seq<string>)
    ensures parts != []
  {
    if s == "" then [""]
    else if s[0] == sep then [""] + Split(s[1..], sep)
    else var rest := Split(s[1..], sep); [[s[0]] + rest[0]] + rest[1..]
  }

  function Join(parts: seq<string>, sep: string): string {
    if parts == [] then "" else if |parts| == 1 then parts[0] else parts[0] + sep + Join(parts[1..], sep)
  }

  /** The parts of a split never contain the separator. */
  lemma {:induction false} SplitPartsLackSeparator(s: string, sep: char)
    ensures forall part :: part in Split(s, sep) ==> Lacks(part, sep)
  {
    if s != "" {
      SplitPartsLackSeparator(s[1..], sep);
      assert Split(s[1..], sep)[0] in Split(s[1..], sep);
    }
  }

  lemma {:induction false} SplitPartsComeFrom(s: string, sep: char)
    ensures forall part, c :: part in Split(s, sep) && c in part ==> c in s
  {
    if s != "" {
      SplitPartsComeFrom(s[1..], sep);
      assert Split(s[1..], sep)[0] in Split(s[1..], sep);
    }
  }

  lemma {:induction false} SplitPrefix(a: string, sep: char, rest: string)
    requires Lacks(a, sep)
    ensures Split(a + [sep] + rest, sep) == [a] + Split(rest, sep)
  {
    var s := a + [sep] + rest;
    if a == "" {
      assert s[1..] == rest;
    } else {
      assert s[1..] == a[1..] + [sep] + rest;
      SplitPrefix(a[1..], sep, rest);
      assert [a[0]] + a[1..] == a;
    }
  }

  lemma {:induction false} SplitAppend(a: string, sep: char, b: string)
    ensures Split(a + [sep] + b, sep) == Split(a, sep) + Split(b, sep)
  {
    var s := a + [sep] + b;
    if a == "" {
      assert s[1..] == b;
    } else {
      assert s[1..] == a[1..] + [sep] + b;
      SplitAppend(a[1..], sep, b);
    }
  }

  lemma {:induction false} SplitNothing(a: string, sep: char)
    requires Lacks(a, sep)
    ensures Split(a, sep) == [a]
  {
    if a != "" {
      SplitNothing(a[1..], sep);
      assert [a[0]] + a[1..] == a;
    }
  }

  /** Splitting undoes joining for parts without the separator. */
  lemma {:induction false} SplitJoin(parts: seq<string>, sep: char)
    requires parts != [] && forall part :: part in parts ==> Lacks(part, sep)
    ensures Split(Join(parts, [sep]), sep) == parts
  {
    if |parts| == 1 {
      SplitNothing(parts[0], sep);
    } else {
      var first, rest := parts[0], Join(parts[1..], [sep]);
      SplitJoin(parts[1..], sep);
      assert first in parts;
      SplitPrefix(first, sep, rest);
      assert Join(parts, [sep]) == first + [sep] + rest;
      assert [first] + parts[1..] == parts;
    }
  }

  lemma JoinCons(first: string, rest: seq<string>, sep: string)
    requires rest != []
    ensures Join([first] + rest, sep) == first + sep + Join(rest, sep)
  {
    assert ([first] + rest)[1..] == rest;
  }

  /** Joining undoes splitting. */
  lemma {:induction false} JoinSplit(s: string, sep: char)
    ensures Join(Split(s, sep), [sep]) == s
  {
    if s != "" {
      JoinSplit(s[1..], sep);
      var rest := Split(s[1..], sep);
      if s[0] == sep {
        JoinCons("", rest, [sep]);
      } else if |rest| > 1 {
        assert rest == [rest[0]] + rest[1..];
        JoinCons(rest[0], rest[1..], [sep]);
        JoinCons([s[0]] + rest[0], rest[1..], [sep]);
      }
    }
  }

  lemma {:induction false} JoinLacks(parts: seq<string>, sep: string, c: char)
    requires Lacks(sep, c) && forall part :: part in parts ==> Lacks(part, c)
    ensures Lacks(Join(parts, sep), c)
  {
    if parts != [] {
      assert parts[0] in parts;
      JoinLacks(parts[1..], sep, c);
    }
  }

  function IndexOf(s: string, c: char): (i: int)
    ensures -1 <= i < |s|
    ensures i >= 0 ==> s[i] == c && forall k :: 0 <= k < i ==> s[k] != c
    ensures i < 0 ==> Lacks(s, c)
  {
    if s == "" then -1
    else if s[0] == c then 0
    else
      var i := IndexOf(s[1..], c);
      assert s == [s[0]] + s[1..];
      if i < 0 then -1 else i + 1
  }

  lemma IndexOfPrefix(a: string, c: char, rest: string)
    requires Lacks(a, c)
    ensures IndexOf(a + [c] + rest, c) == |a|
  {
    var s := a + [c] + rest;
    var i := IndexOf(s, c);
    assert s[|a|] == c;
    assert forall k :: 0 <= k < |a| ==> s[k] == a[k];
  }

  predicate StartsWith(s: string, prefix: string) { |prefix| <= |s| && s[..|prefix|] == prefix }

  predicate EndsWith(s: string, suffix: string) { |suffix| <= |s| && s[|s| - |suffix|..] == suffix }

  // ----------------------------------------------------------------- whitespace

  predicate IsSpace(c: char) { c in " \t\n\r\U{0B}\U{0C}" }

  function TrimLeft(s: string): (r: string)
    ensures |r| <= |s|
  {
    if s != "" && IsSpace(s[0]) then TrimLeft(s[1..]) else s
  }

  lemma {:induction false} TrimLeftRemovesBlanks(s: string)
    ensures forall c :: c in TrimLeft(s) ==> c in s
    ensures TrimLeft(s) != "" ==> !IsSpace(TrimLeft(s)[0])
  {
    if s != "" && IsSpace(s[0]) {
      TrimLeftRemovesBlanks(s[1..]);
    }
  }

  function TrimRight(s: string): string {
    if s != "" && IsSpace(s[|s| - 1]) then TrimRight(s[..|s| - 1]) else s
  }

  // ------------------------------------------------------------ decimal numbers

  const DIGITS := "0123456789"

  predicate IsDigits(s: string) { forall i :: 0 <= i < |s| ==> '0' <= s[i] <= '9' }

  function Natural(n: nat): string {
    if n < 10 then [DIGITS[n]] else Natural(n / 10) + [DIGITS[n % 10]]
  }

  function Number(n: int): string { if n < 0 then "-" + Natural(-n) else Natural(n) }

  function DigitsValue(s: string): nat
    requires IsDigits(s)
  {
    if s == "" then 0 else DigitsValue(s[..|s| - 1]) * 10 + (s[|s| - 1] as int - '0' as int)
  }

  /** A decimal number with optional sign, blanks around it ignored. */
  function ParseInteger(text: string): Option<int> {
    var s := TrimRight(TrimLeft(text));
    var negative := s != "" && s[0] == '-';
    var digits := if s != "" && s[0] in "+-" then s[1..] else s;
    if digits == "" || !IsDigits(digits) then None
    else
      var value: int := DigitsValue(digits);
      Some(if negative then -value else value)
  }

  function ParseInRange(text: string, lo: int, hi: int): Option<int> {
    var n := ParseInteger(text);
    if n.Some? && lo <= n.value <= hi then n else None
  }

  type Int32 = n: int | -0x8000_0000 <= n <= 0x7fff_ffff
  type UInt32 = n: int | 0 <= n <= 0xffff_ffff
  type UInt16 = n: int | 0 <= n <= 0xffff
  type UInt8 = n: int | 0 <= n <= 0xff

  function ToInt32(text: string): Option<Int32> {
    var n := ParseInRange(text, -0x8000_0000, 0x7fff_ffff);
    if n.Some? && -0x8000_0000 <= n.value <= 0x7fff_ffff then Some(n.value) else None
  }

  function IntOrZero(text: string): Int32 { var n := ToInt32(text); if n.Some? then n.value else 0 }

  function UIntOrZero(text: string): UInt32 {
    var n := ParseInRange(text, 0, 0xffff_ffff);
    if n.Some? && 0 <= n.value <= 0xffff_ffff then n.value else 0
  }

  /** The 8-bit conversion accepts numbers up to 127 only: it checks against the signed maximum. */
  function UInt8OrZero(text: string): UInt8 {
    var n := ParseInRange(text, 0, 0x7f);
    if n.Some? && 0 <= n.value <= 0x7f then n.value else 0
  }

  /** What the conversions make of a text: the number where it fits, and otherwise nothing, or 0. */
  lemma ConversionsOfText(text: string)
    ensures var n := ParseInteger(text);
            && ToInt32(text) == (if n.Some? && -0x8000_0000 <= n.value < 0x8000_0000 then Some(n.value) else None)
            && IntOrZero(text) == (if n.Some? && -0x8000_0000 <= n.value < 0x8000_0000 then n.value else 0)
            && UIntOrZero(text) == (if n.Some? && 0 <= n.value < 0x1_0000_0000 then n.value else 0)
            && UInt8OrZero(text) == (if n.Some? && 0 <= n.value < 128 then n.value else 0)
  {
    hide ParseInteger;
  }

  lemma DigitIsDigit(n: nat)
    requires n < 10
    ensures '0' <= DIGITS[n] <= '9' && DIGITS[n] as int - '0' as int == n
  {}

  lemma {:induction false} NaturalRoundTrip(n: nat)
    ensures Natural(n) != "" && IsDigits(Natural(n)) && DigitsValue(Natural(n)) == n
  {
    DigitIsDigit(n % 10);
    if n >= 10 {
      NaturalRoundTrip(n / 10);
      assert Natural(n)[..|Natural(n)| - 1] == Natural(n / 10);
    }
  }

  lemma NumberHasNoBlanks(n: int)
    ensures Number(n) != "" && forall c :: c in Number(n) ==> c == '-' || '0' <= c <= '9'
  {
    NaturalRoundTrip(if n < 0 then -n else n);
  }

  lemma NothingToTrim(s: string)
    requires s != "" && !IsSpace(s[0]) && !IsSpace(s[|s| - 1])
    ensures TrimRight(TrimLeft(s)) == s
  {
    hide IsSpace;
  }

  lemma ParseUnsigned(digits: string)
    requires digits != "" && IsDigits(digits)
    ensures ParseInteger(digits) == Some(DigitsValue(digits))
  {
    NothingToTrim(digits);
  }

  lemma ParseNegative(digits: string)
    requires digits != "" && IsDigits(digits)
    ensures ParseInteger("-" + digits) == Some(-(DigitsValue(digits) as int))
  {
    NothingToTrim("-" + digits);
    assert ("-" + digits)[1..] == digits;
  }

  /** Reading back a printed number yields the number. */
  lemma NumberRoundTrip(n: int)
    ensures ParseInteger(Number(n)) == Some(n)
  {
    hide ParseInteger, Natural, DigitsValue;
    if n < 0 {
      NaturalRoundTrip(-n);
      ParseNegative(Natural(-n));
    } else {
      NaturalRoundTrip(n);
      ParseUnsigned(Natural(n));
    }
  }

  /** A printed number starts with no superfluous zero, and only a negative one has a sign. */
  lemma {:induction false} NumberIsCanonical(n: int)
    requires n >= 0
    ensures Natural(n)[0] == '0' <==> n == 0
    ensures n == 0 ==> Natural(n) == "0"
    ensures n > 0 ==> Number(-n) == "-" + Natural(n)
  {
    if n >= 10 {
      NumberIsCanonical(n / 10);
      assert Natural(n)[0] == Natural(n / 10)[0];
    }
  }

  predicate Blank(s: string) { forall i :: 0 <= i < |s| ==> s[i] in " \t\n\r\U{0B}\U{0C}" }

  lemma {:induction false} TrimLeftTakesBlanks(blanks: string, rest: string)
    requires Blank(blanks) && (rest == "" || !IsSpace(rest[0]))
    ensures TrimLeft(blanks + rest) == rest
  {
    if blanks == "" {
      assert blanks + rest == rest;
    } else {
      assert (blanks + rest)[1..] == blanks[1..] + rest;
      TrimLeftTakesBlanks(blanks[1..], rest);
    }
  }

  lemma {:induction false} TrimRightTakesBlanks(front: string, blanks: string)
    requires Blank(blanks) && (front == "" || !IsSpace(front[|front| - 1]))
    ensures TrimRight(front + blanks) == front
  {
    var s := front + blanks;
    if blanks == "" {
      assert s == front;
    } else {
      assert s[..|s| - 1] == front + blanks[..|blanks| - 1];
      TrimRightTakesBlanks(front, blanks[..|blanks| - 1]);
    }
  }

  /** Blanks, an optional sign, at least one digit, blanks: the number; the value is pinned by NumberRoundTrip. */
  lemma NumberInBlanks(before: string, sign: string, digits: string, after: string)
    requires Blank(before) && Blank(after) && sign in {"", "+", "-"} && digits != "" && IsDigits(digits)
    ensures ParseInteger(before + sign + digits + after)
            == Some(if sign == "-" then -(DigitsValue(digits) as int) else DigitsValue(digits))
  {
    hide DigitsValue, TrimLeft, TrimRight, Blank;
    var core := sign + digits;
    assert core[0] == if sign == "" then digits[0] else sign[0];
    assert core[|core| - 1] == digits[|digits| - 1];
    assert before + sign + digits + after == before + (core + after);
    TrimLeftTakesBlanks(before, core + after);
    TrimRightTakesBlanks(core, after);
    assert sign != "" ==> core[1..] == digits;
    assert sign == "" ==> core == digits;
  }

  lemma {:induction false} TrimLeftLeavesTheRest(s: string) returns (blanks: string)
    ensures Blank(blanks) && s == blanks + TrimLeft(s)
  {
    if s != "" && IsSpace(s[0]) {
      var more := TrimLeftLeavesTheRest(s[1..]);
      blanks := [s[0]] + more;
    } else {
      blanks := "";
    }
  }

  lemma {:induction false} TrimRightLeavesTheRest(s: string) returns (blanks: string)
    ensures Blank(blanks) && s == TrimRight(s) + blanks
  {
    if s != "" && IsSpace(s[|s| - 1]) {
      var more := TrimRightLeavesTheRest(s[..|s| - 1]);
      blanks := more + [s[|s| - 1]];
    } else {
      blanks := "";
    }
  }

  /** Only such texts are numbers. */
  lemma NumbersAreDigits(text: string) returns (before: string, sign: string, digits: string, after: string)
    requires ParseInteger(text).Some?
    ensures IsNumberText(text, before, sign, digits, after)
  {
    hide DigitsValue, TrimLeft, TrimRight, Blank, IsDigits;
    var core := TrimRight(TrimLeft(text));
    before := TrimLeftLeavesTheRest(text);
    after := TrimRightLeavesTheRest(TrimLeft(text));
    sign := if core[0] in "+-" then [core[0]] else "";
    digits := core[|sign|..];
    assert core == sign + digits;
    assert before + (core + after) == before + sign + digits + after;
  }

  predicate IsNumberText(text: string, before: string, sign: string, digits: string, after: string) {
    && text == before + sign + digits + after && Blank(before) && Blank(after)
    && sign in {"", "+", "-"} && digits != "" && IsDigits(digits)
  }

  /** Leading zeros do not count. */
  lemma {:induction false} LeadingZero(digits: string)
    requires IsDigits(digits)
    ensures IsDigits("0" + digits) && DigitsValue("0" + digits) == DigitsValue(digits)
  {
    var s := "0" + digits;
    if digits == "" {
      assert s[..0] == "" && s[0] == '0';
    } else {
      LeadingZero(digits[..|digits| - 1]);
      assert s[..|s| - 1] == "0" + digits[..|digits| - 1];
    }
  }

  // -------------------------------------------------------------- string order

  /** Character by character; a proper prefix comes first. */
  predicate StringLess(a: string, b: string) {
    b != "" && (a == "" || a[0] < b[0] || (a[0] == b[0] && StringLess(a[1..], b[1..])))
  }

  lemma {:induction false} StringLessIrreflexive(a: string)
    ensures !StringLess(a, a)
  {
    if a != "" { StringLessIrreflexive(a[1..]); }
  }

  lemma {:induction false} StringLessTransitive(a: string, b: string, c: string)
    requires StringLess(a, b) && StringLess(b, c)
    ensures StringLess(a, c)
  {
    if a != "" && b != "" && c != "" && a[0] == b[0] == c[0] {
      StringLessTransitive(a[1..], b[1..], c[1..]);
    }
  }

  lemma {:induction false} StringLessTotal(a: string, b: string)
    ensures a == b || StringLess(a, b) || StringLess(b, a)
  {
    if a != "" && b != "" && a[0] == b[0] {
      StringLessTotal(a[1..], b[1..]);
      assert a == [a[0]] + a[1..] && b == [b[0]] + b[1..];
    }
  }

  /** At the first difference the smaller character decides; without one the shorter text comes first. */
  lemma {:induction false} StringLessIff(a: string, b: string, k: nat)
    requires k <= |a| && k <= |b| && a[..k] == b[..k]
    requires k == |a| || k == |b| || a[k] != b[k]
    ensures StringLess(a, b) <==> k < |b| && (k == |a| || a[k] < b[k])
  {
    if k > 0 {
      assert a[0] == a[..k][0] == b[..k][0] == b[0];
      assert a[1..][..k - 1] == a[..k][1..] && b[1..][..k - 1] == b[..k][1..];
      StringLessIff(a[1..], b[1..], k - 1);
    }
  }
}
