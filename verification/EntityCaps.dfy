// The canonical string of entity capabilities (XEP-0115, section 5.1): sorting and
// duplicate removal make it independent of the order in which information arrives.

module EntityCaps {
  import opened Text
  import opened Sorting
  import opened KeyOrders

  datatype Identity = Identity(category: string, itype: string, language: string, name: string)

  /** A form field's value: a text, a list of texts, a boolean, or nothing. */
  datatype Value = Single(text: string) | Multiple(texts: seq<string>) | Flag(on: bool) | Nothing

  datatype Field = Field(key: string, hidden: bool, value: Value)

  datatype Form = Form(fields: seq<Field>)

  datatype Info = Info(identities: seq<Identity>, features: seq<string>, forms: seq<Form>)

  const FORM_TYPE := "FORM_TYPE"

  // -------------------------------------------------------------------- orders

  /** Lexicographic order of tuples of strings. */
  predicate TupleLess(a: seq<string>, b: seq<string>)
    decreases |a|
  {
    a != [] && b != [] && (StringLess(a[0], b[0]) || (!StringLess(b[0], a[0]) && TupleLess(a[1..], b[1..])))
  }

  function IdentityTuple(i: Identity): seq<string> { [i.category, i.itype, i.language, i.name] }

  predicate IdentityLess(a: Identity, b: Identity) { TupleLess(IdentityTuple(a), IdentityTuple(b)) }

  predicate FormLess(a: Form, b: Form) { StringLess(FormType(a), FormType(b)) }

  predicate FieldLess(a: Field, b: Field) { StringLess(a.key, b.key) }

  lemma {:induction false} TupleLessIrreflexive(a: seq<string>)
    ensures !TupleLess(a, a)
    decreases |a|
  {
    if a != [] {
      StringLessIrreflexive(a[0]);
      TupleLessIrreflexive(a[1..]);
    }
  }

  lemma {:induction false} TupleLessTransitive(a: seq<string>, b: seq<string>, c: seq<string>)
    requires TupleLess(a, b) && TupleLess(b, c)
    ensures TupleLess(a, c)
    decreases |a|
  {
    StringLessTotal(a[0], b[0]);
    StringLessTotal(b[0], c[0]);
    if a[0] == b[0] == c[0] {
      StringLessIrreflexive(a[0]);
      TupleLessTransitive(a[1..], b[1..], c[1..]);
    } else if a[0] != b[0] && b[0] != c[0] {
      StringLessTransitive(a[0], b[0], c[0]);
    }
  }

  lemma {:induction false} TupleLessTotal(a: seq<string>, b: seq<string>)
    requires |a| == |b|
    ensures a == b || TupleLess(a, b) || TupleLess(b, a)
    decreases |a|
  {
    if a != [] {
      StringLessTotal(a[0], b[0]);
      if a[0] == b[0] {
        StringLessIrreflexive(a[0]);
        TupleLessTotal(a[1..], b[1..]);
        assert a == [a[0]] + a[1..] && b == [b[0]] + b[1..];
      }
    }
  }

  lemma IdentityLessTotal(a: Identity, b: Identity)
    ensures a == b || IdentityLess(a, b) || IdentityLess(b, a)
  {
    TupleLessTotal(IdentityTuple(a), IdentityTuple(b));
    if IdentityTuple(a) == IdentityTuple(b) {
      assert IdentityTuple(a)[0] == IdentityTuple(b)[0] && IdentityTuple(a)[1] == IdentityTuple(b)[1];
      assert IdentityTuple(a)[2] == IdentityTuple(b)[2] && IdentityTuple(a)[3] == IdentityTuple(b)[3];
    }
  }

  lemma IdentityOrderIsWeak(s: seq<Identity>)
    ensures StrictWeakOrderOn((a, b) => IdentityLess(a, b), s)
  {
    forall a, b, c | a in s && b in s && c in s
      ensures !IdentityLess(a, a)
      ensures IdentityLess(a, b) && IdentityLess(b, c) ==> IdentityLess(a, c)
      ensures !IdentityLess(a, b) && !IdentityLess(b, c) ==> !IdentityLess(a, c)
    {
      hide TupleLess;
      TupleLessIrreflexive(IdentityTuple(a));
      if IdentityLess(a, b) && IdentityLess(b, c) {
        TupleLessTransitive(IdentityTuple(a), IdentityTuple(b), IdentityTuple(c));
      }
      if !IdentityLess(a, b) && !IdentityLess(b, c) && IdentityLess(a, c) {
        IdentityLessTotal(a, b);
        IdentityLessTotal(b, c);
        if a != b && b != c {
          TupleLessTransitive(IdentityTuple(c), IdentityTuple(b), IdentityTuple(a));
          TupleLessTransitive(IdentityTuple(a), IdentityTuple(c), IdentityTuple(a));
        }
      }
    }
  }

  // ---------------------------------------------------------------- pieces of text

  function Concat<T>(s: seq<T>, f: T -> string): string {
    if s == [] then "" else Concat(s[..|s| - 1], f) + f(s[|s| - 1])
  }

  function IdentityText(i: Identity): string { i.category + "/" + i.itype + "/" + i.language + "/" + i.name + "<" }

  function FeatureText(feature: string): string { feature + "<" }

  /** A value as one text; a list converts only if it has one element. */
  function ToText(v: Value): string {
    match v
    case Single(text) => text
    case Multiple(texts) => if |texts| == 1 then texts[0] else ""
    case Flag(on) => if on then "true" else "false"
    case Nothing => ""
  }

  /** The type of a form: the value of its first hidden field of that name. */
  function FormType(form: Form): string { FirstFormType(form.fields) }

  function FirstFormType(fields: seq<Field>): string {
    if fields == [] then ""
    else if fields[0].hidden && fields[0].key == FORM_TYPE then ToText(fields[0].value)
    else FirstFormType(fields[1..])
  }

  function SortedStrings(s: seq<string>): seq<string> { SortBy((a, b) => StringLess(a, b), s) }

  function ValueText(v: Value): string {
    match v
    case Single(text) => text
    case Multiple(texts) => Join(SortedStrings(texts), "<")
    case Flag(_) => ToText(v)
    case Nothing => ""
  }

  function FieldText(f: Field): string {
    if f.key == FORM_TYPE then "" else f.key + "<" + ValueText(f.value) + "<"
  }

  function FieldsText(sorted: seq<Field>): string { Concat(sorted, f => FieldText(f)) }

  /** Keeps the first occurrence of every string. */
  function RemoveDuplicates(s: seq<string>): seq<string> {
    if s == [] then []
    else
      var rest := RemoveDuplicates(s[..|s| - 1]);
      if s[|s| - 1] in rest then rest else rest + [s[|s| - 1]]
  }

  function SortedFields(form: Form): seq<Field> { SortBy((a, b) => FieldLess(a, b), form.fields) }

  function FormText(form: Form): string { FormType(form) + "<" + FieldsText(SortedFields(form)) }

  function IdentitiesText(info: Info): string {
    Concat(SortBy((a, b) => IdentityLess(a, b), info.identities), i => IdentityText(i))
  }

  function FeaturesText(info: Info): string {
    Concat(RemoveDuplicates(SortedStrings(info.features)), f => FeatureText(f))
  }

  function SortedForms(info: Info): seq<Form> { SortBy((a, b) => FormLess(a, b), info.forms) }

  function FormsText(info: Info): string { Concat(SortedForms(info), f => FormText(f)) }

  /** The string that gets hashed. */
  function CapsString(info: Info): string { IdentitiesText(info) + FeaturesText(info) + FormsText(info) }

  // ------------------------------------------- one sorted order where keys are distinct

  ghost predicate DistinctKeys(form: Form) {
    forall i, j :: 0 <= i < j < |form.fields| ==> form.fields[i].key != form.fields[j].key
  }

  ghost predicate DistinctTypes(forms: seq<Form>) {
    forall i, j :: 0 <= i < j < |forms| ==> FormType(forms[i]) != FormType(forms[j])
  }

  lemma StringSortIsUnique(s: seq<string>, sorted: seq<string>)
    requires SortedPermutation((a, b) => StringLess(a, b), s, sorted)
    ensures sorted == SortedStrings(s)
  {
    KeySortIsUnique(s, sorted, (a, b) => StringLess(a, b), x => x);
  }

  lemma IdentitySortIsUnique(s: seq<Identity>, sorted: seq<Identity>)
    requires SortedPermutation((a, b) => IdentityLess(a, b), s, sorted)
    ensures sorted == SortBy((a, b) => IdentityLess(a, b), s)
  {
    var less := (a, b) => IdentityLess(a, b);
    IdentityOrderIsWeak(s);
    SortByIsSorted(less, s);
    forall x, y | x in sorted && y in sorted && x != y ensures less(x, y) || less(y, x) {
      IdentityLessTotal(x, y);
    }
    SortedPermutationIsUnique(less, sorted, SortBy(less, s));
  }

  lemma FieldSortIsUnique(form: Form, sorted: seq<Field>)
    requires SortedPermutation((a, b) => FieldLess(a, b), form.fields, sorted) && DistinctKeys(form)
    ensures sorted == SortedFields(form)
  {
    KeySortIsUnique(form.fields, sorted, (a, b) => FieldLess(a, b), (f: Field) => f.key);
  }

  lemma FormSortIsUnique(forms: seq<Form>, sorted: seq<Form>)
    requires SortedPermutation((a, b) => FormLess(a, b), forms, sorted) && DistinctTypes(forms)
    ensures sorted == SortBy((a, b) => FormLess(a, b), forms)
  {
    KeySortIsUnique(forms, sorted, (a, b) => FormLess(a, b), (f: Form) => FormType(f));
  }

  /** Any two orders of the same elements sort to the same list. */
  lemma SortedFieldsAgree(a: Form, b: Form)
    requires multiset(a.fields) == multiset(b.fields) && DistinctKeys(a)
    ensures SortedFields(a) == SortedFields(b)
  {
    KeyOrderIsWeak(b.fields, (x, y) => FieldLess(x, y), (f: Field) => f.key);
    SortByIsSorted((x, y) => FieldLess(x, y), b.fields);
    FieldSortIsUnique(a, SortedFields(b));
  }

  lemma SortedStringsAgree(a: seq<string>, b: seq<string>)
    requires multiset(a) == multiset(b)
    ensures SortedStrings(a) == SortedStrings(b)
  {
    KeyOrderIsWeak(b, (x, y) => StringLess(x, y), x => x);
    SortByIsSorted((x, y) => StringLess(x, y), b);
    StringSortIsUnique(a, SortedStrings(b));
  }

  lemma SortedIdentitiesAgree(a: seq<Identity>, b: seq<Identity>)
    requires multiset(a) == multiset(b)
    ensures SortBy((x, y) => IdentityLess(x, y), a) == SortBy((x, y) => IdentityLess(x, y), b)
  {
    IdentityOrderIsWeak(b);
    SortByIsSorted((x, y) => IdentityLess(x, y), b);
    IdentitySortIsUnique(a, SortBy((x, y) => IdentityLess(x, y), b));
  }

  lemma SortedFormsAgree(a: seq<Form>, b: seq<Form>)
    requires multiset(a) == multiset(b) && DistinctTypes(a)
    ensures SortBy((x, y) => FormLess(x, y), a) == SortBy((x, y) => FormLess(x, y), b)
  {
    KeyOrderIsWeak(b, (x, y) => FormLess(x, y), (f: Form) => FormType(f));
    SortByIsSorted((x, y) => FormLess(x, y), b);
    FormSortIsUnique(a, SortBy((x, y) => FormLess(x, y), b));
  }

  // ------------------------------------------------------------------- features

  lemma {:induction false} RemoveDuplicatesElements(s: seq<string>)
    ensures Distinct(RemoveDuplicates(s))
    ensures forall x :: x in RemoveDuplicates(s) <==> x in s
  {
    if s != [] {
      RemoveDuplicatesElements(s[..|s| - 1]);
      assert s == s[..|s| - 1] + [s[|s| - 1]];
    }
  }

  /** Dropping repetitions keeps a sorted list sorted. */
  lemma {:induction false} RemoveDuplicatesSorted(s: seq<string>)
    requires Sorted((a, b) => StringLess(a, b), s)
    ensures Sorted((a, b) => StringLess(a, b), RemoveDuplicates(s))
  {
    if s != [] {
      var front, last := s[..|s| - 1], s[|s| - 1];
      RemoveDuplicatesSorted(front);
      RemoveDuplicatesElements(front);
      var rest := RemoveDuplicates(front);
      forall i | 0 <= i < |rest| ensures !StringLess(last, rest[i]) {
        assert rest[i] in front;
        var k :| 0 <= k < |front| && front[k] == rest[i];
        assert !StringLess(s[|s| - 1], s[k]);
      }
    }
  }

  lemma DistinctSameElements(a: seq<string>, b: seq<string>)
    requires Distinct(a) && Distinct(b) && forall x :: x in a <==> x in b
    ensures multiset(a) == multiset(b)
  {
    forall x: string ensures multiset(a)[x] == multiset(b)[x] {
      DistinctCount(a, x);
      DistinctCount(b, x);
      assert (x in a <==> multiset(a)[x] > 0) && (x in b <==> multiset(b)[x] > 0);
    }
  }

  /** The printed features depend only on the set of features. */
  lemma FeaturesAgree(a: seq<string>, b: seq<string>)
    requires forall x :: x in a <==> x in b
    ensures RemoveDuplicates(SortedStrings(a)) == RemoveDuplicates(SortedStrings(b))
  {
    var less := (x, y) => StringLess(x, y);
    var sa, sb := SortedStrings(a), SortedStrings(b);
    KeyOrderIsWeak(a, less, x => x);
    KeyOrderIsWeak(b, less, x => x);
    SortByIsSorted(less, a);
    SortByIsSorted(less, b);
    RemoveDuplicatesSorted(sa);
    RemoveDuplicatesSorted(sb);
    RemoveDuplicatesElements(sa);
    RemoveDuplicatesElements(sb);
    var da, db := RemoveDuplicates(sa), RemoveDuplicates(sb);
    forall x: string ensures x in da <==> x in db {
      PermutationsHaveSameElements(a, sa, x);
      PermutationsHaveSameElements(b, sb, x);
    }
    DistinctSameElements(da, db);
    forall x, y | x in da && y in da && x != y ensures less(x, y) || less(y, x) {
      StringLessTotal(x, y);
    }
    SortedPermutationIsUnique(less, da, db);
  }
}
