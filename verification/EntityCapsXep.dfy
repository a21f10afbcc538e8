// When the capability string is the one XEP-0115 prescribes (section 5.1, and section 5.4
// for forms without a type), stated about the information as it is written to XML.

module EntityCapsXep {
  import opened Text
  import opened Sorting
  import opened KeyOrders
  import opened EntityCaps
  import opened EntityCapsResults

  // -------------------------------------------------------------- the specification

  /** The value elements a field is written with; an empty or missing text writes none. */
  function Values(v: Value): seq<string> {
    match v
    case Single(text) => if text == "" then [] else [text]
    case Multiple(texts) => texts
    case Flag(on) => [if on then "true" else "false"]
    case Nothing => []
  }

  predicate IsTypeField(f: Field) { f.hidden && f.key == "FORM_TYPE" }

  /** The form is written with a hidden FORM_TYPE field of this value. */
  ghost predicate HasType(form: Form, t: string) {
    exists f :: f in form.fields && IsTypeField(f) && Values(f.value) == [t]
  }

  ghost predicate IsTyped(form: Form) { exists t :: HasType(form, t) }

  /** Section 5.4 calls the information ill-formed if a form has several FORM_TYPE values. */
  predicate WellFormed(form: Form) {
    && (forall i, k :: 0 <= i < k < |form.fields| ==> !IsTypeField(form.fields[i]) || !IsTypeField(form.fields[k]))
    && (forall f :: f in form.fields && IsTypeField(f) ==> |Values(f.value)| <= 1)
  }

  /** Category, then type, then language, then name. */
  predicate IdentityBefore(a: Identity, b: Identity) {
    StringLess(a.category, b.category) || (a.category == b.category &&
    (StringLess(a.itype, b.itype) || (a.itype == b.itype &&
    (StringLess(a.language, b.language) || (a.language == b.language && StringLess(a.name, b.name))))))
  }

  /** All identities, in order. */
  ghost predicate AreIdentities(info: Info, identities: seq<Identity>) {
    multiset(identities) == multiset(info.identities) &&
    forall i, k :: 0 <= i < k < |identities| ==> !IdentityBefore(identities[k], identities[i])
  }

  /** Every feature once, in order. */
  ghost predicate AreFeatures(info: Info, features: seq<string>) {
    (forall x :: x in features <==> x in info.features) &&
    forall i, k :: 0 <= i < k < |features| ==> StringLess(features[i], features[k])
  }

  /** Every item of the string ends with the separator. */
  function Item(text: string): string { text + ['<'] }

  /** The four parts of an identity, separated by slashes. */
  function XepIdentityText(i: Identity): string { Item(Join([i.category, i.itype, i.language, i.name], "/")) }

  /** The variable, then every value in order. */
  function XepFieldText(f: Field): string {
    Item(f.key) + Concat(SortedStrings(Values(f.value)), v => Item(v))
  }

  ghost function Select<T>(s: seq<T>, p: T -> bool): seq<T> {
    if s == [] then [] else Select(s[..|s| - 1], p) + (if p(s[|s| - 1]) then [s[|s| - 1]] else [])
  }

  /** The fields of a form other than FORM_TYPE, in order. */
  ghost predicate AreFields(form: Form, fields: seq<Field>) {
    multiset(fields) == multiset(Select(form.fields, (f: Field) => f.key != "FORM_TYPE")) &&
    forall i, k :: 0 <= i < k < |fields| ==> !StringLess(fields[k].key, fields[i].key)
  }

  ghost predicate IsXepFormText(form: Form, text: string) {
    exists t, fields :: HasType(form, t) && AreFields(form, fields) && text == Item(t) + Concat(fields, f => XepFieldText(f))
  }

  /** The forms that have a type, in the order of their types, with a text for each. */
  ghost predicate AreForms(info: Info, forms: seq<Form>, texts: seq<string>) {
    && multiset(forms) == multiset(Select(info.forms, (f: Form) => IsTyped(f)))
    && (forall i, k, s, t :: 0 <= i < k < |forms| && HasType(forms[i], s) && HasType(forms[k], t) ==> !StringLess(t, s))
    && |texts| == |forms| && forall k :: 0 <= k < |forms| ==> IsXepFormText(forms[k], texts[k])
  }

  /** A string that the specification allows for this information. */
  ghost predicate IsXepString(info: Info, s: string) {
    exists identities, features, forms, texts ::
      && AreIdentities(info, identities) && AreFeatures(info, features) && AreForms(info, forms, texts)
      && s == Concat(identities, i => XepIdentityText(i)) + Concat(features, f => Item(f)) + Concat(texts, t => t)
  }

  predicate HasNoValue(f: Field) { f.key != "FORM_TYPE" && Values(f.value) == [] }

  /** Every form has a type and every other field a value. */
  ghost predicate IsComplete(info: Info) { forall form :: form in info.forms ==> FormIsComplete(form) }

  ghost predicate FormIsComplete(form: Form) { IsTyped(form) && forall f :: f in form.fields ==> !HasNoValue(f) }

  // ------------------------------------------------------------------ sums and selections

  function Total<T>(s: seq<T>, size: T -> nat): nat {
    if s == [] then 0 else Total(s[..|s| - 1], size) + size(s[|s| - 1])
  }

  lemma {:induction false} ConcatSize<T>(s: seq<T>, f: T -> string, size: T -> nat)
    requires forall x :: x in s ==> size(x) == |f(x)|
    ensures |Concat(s, f)| == Total(s, size)
  {
    if s != [] { ConcatSize(s[..|s| - 1], f, size); }
  }

  lemma {:induction false} TotalConcat<T>(a: seq<T>, b: seq<T>, size: T -> nat)
    ensures Total(a + b, size) == Total(a, size) + Total(b, size)
    decreases |b|
  {
    if b == [] {
      assert a + b == a;
    } else {
      assert (a + b)[..|a + b| - 1] == a + b[..|b| - 1];
      TotalConcat(a, b[..|b| - 1], size);
    }
  }

  lemma TotalOne<T>(e: T, size: T -> nat)
    ensures Total([e], size) == size(e)
  {
    assert [e][..0] == [];
  }

  lemma TotalWithout<T>(s: seq<T>, k: nat, size: T -> nat)
    requires k < |s|
    ensures Total(s, size) == Total(s[..k] + s[k + 1..], size) + size(s[k])
  {
    hide Total;
    TotalOne(s[k], size);
    TotalMiddle(s[..k], [s[k]], s[k + 1..], size);
    assert s == s[..k] + ([s[k]] + s[k + 1..]);
  }

  lemma TotalMiddle<T>(a: seq<T>, x: seq<T>, b: seq<T>, size: T -> nat)
    ensures Total(a + (x + b), size) == Total(a + b, size) + Total(x, size)
  {
    hide Total;
    TotalConcat(a, b, size);
    TotalConcat(a, x + b, size);
    TotalConcat(x, b, size);
  }

  lemma ElementsWithout<T>(s: seq<T>, k: nat)
    requires k < |s|
    ensures multiset(s[..k] + s[k + 1..]) == multiset(s) - multiset{s[k]}
  {
    assert s == s[..k] + ([s[k]] + s[k + 1..]);
  }

  lemma {:induction false} TotalPermuted<T>(a: seq<T>, b: seq<T>, size: T -> nat)
    requires multiset(a) == multiset(b)
    ensures Total(a, size) == Total(b, size)
    decreases |a|
  {
    if a == [] {
      assert |multiset(b)| == |multiset(a)|;
    } else {
      var front, x := a[..|a| - 1], a[|a| - 1];
      assert a == front + [x];
      PermutationsHaveSameElements(a, b, x);
      var k :| 0 <= k < |b| && b[k] == x;
      var rest := b[..k] + b[k + 1..];
      TotalWithout(b, k, size);
      ElementsWithout(b, k);
      TotalPermuted(front, rest, size);
    }
  }

  lemma {:induction false} SelectCount<T>(s: seq<T>, p: T -> bool, x: T)
    ensures multiset(Select(s, p))[x] == if p(x) then multiset(s)[x] else 0
  {
    if s != [] {
      SelectCount(s[..|s| - 1], p, x);
      assert s == s[..|s| - 1] + [s[|s| - 1]];
    }
  }

  lemma SelectPermuted<T>(a: seq<T>, b: seq<T>, p: T -> bool)
    requires multiset(a) == multiset(b)
    ensures multiset(Select(a, p)) == multiset(Select(b, p))
  {
    hide Select;
    var x, y := multiset(Select(a, p)), multiset(Select(b, p));
    forall e | e in x || e in y ensures x[e] == y[e] {
      SelectCount(a, p, e);
      SelectCount(b, p, e);
    }
    SameCounts(x, y);
  }

  lemma SameCounts<T>(x: multiset<T>, y: multiset<T>)
    requires forall e :: e in x || e in y ==> x[e] == y[e]
    ensures x == y
  {}

  /** Summing over a selection is summing with zero for the rest. */
  lemma {:induction false} SelectTotal<T>(s: seq<T>, p: T -> bool, size: T -> nat, all: T -> nat)
    requires forall x :: x in s ==> all(x) == if p(x) then size(x) else 0
    ensures Total(Select(s, p), size) == Total(s, all)
  {
    if s != [] {
      var front, last := s[..|s| - 1], s[|s| - 1];
      SelectTotal(front, p, size, all);
      assert last in s;
      var selected := Select(front, p);
      if p(last) {
        assert (selected + [last])[..|selected|] == selected;
      } else {
        assert Select(s, p) == selected;
      }
    }
  }

  /** A sum of smaller terms is smaller, and equal only if all terms are. */
  lemma {:induction false} TotalCompares<T>(s: seq<T>, big: T -> nat, small: T -> nat)
    requires forall x :: x in s ==> small(x) <= big(x)
    ensures Total(s, small) <= Total(s, big)
    ensures Total(s, small) == Total(s, big) ==> forall x :: x in s ==> small(x) == big(x)
  {
    if s != [] {
      TotalCompares(s[..|s| - 1], big, small);
      assert s == s[..|s| - 1] + [s[|s| - 1]];
    }
  }

  // ---------------------------------------------------------------------- one field

  lemma {:induction false} JoinIsConcat(texts: seq<string>)
    requires texts != []
    ensures Join(texts, "<") + "<" == Concat(texts, t => Item(t))
  {
    if |texts| == 1 {
      assert texts[..0] == [];
      assert Concat(texts[..0], t => Item(t)) == "";
    } else {
      var front, last := texts[..|texts| - 1], texts[|texts| - 1];
      JoinIsConcat(front);
      JoinSnoc(front, last);
      assert texts == front + [last];
      assert Join(front, "<") + "<" + last + "<" == (Join(front, "<") + "<") + (last + "<");
    }
  }

  lemma {:induction false} JoinSnoc(front: seq<string>, last: string)
    requires front != []
    ensures Join(front + [last], "<") == Join(front, "<") + "<" + last
  {
    assert (front + [last])[1..] == front[1..] + [last];
    if |front| > 1 {
      JoinSnoc(front[1..], last);
      assert front[0] + "<" + (Join(front[1..], "<") + "<" + last) == front[0] + "<" + Join(front[1..], "<") + "<" + last;
    }
  }

  lemma SortedStringsSize(texts: seq<string>)
    ensures |SortedStrings(texts)| == |texts|
  {
    KeyOrderIsWeak(texts, (x, y) => StringLess(x, y), x => x);
    SortByIsSorted((x, y) => StringLess(x, y), texts);
    assert |multiset(SortedStrings(texts))| == |multiset(texts)|;
  }

  lemma SortedSingle(text: string)
    ensures SortedStrings([text]) == [text]
  {
    assert [text][1..] == [];
    assert SortBy((x, y) => StringLess(x, y), [text][1..]) == [];
  }

  /** The code appends one separator more for a field without a value. */
  lemma FieldTextVersusXep(f: Field)
    requires f.key != FORM_TYPE
    ensures FieldText(f) == XepFieldText(f) + (if HasNoValue(f) then "<" else "")
  {
    var texts := SortedStrings(Values(f.value));
    SortedStringsSize(Values(f.value));
    if Values(f.value) == [] {
      assert texts == [] && ValueText(f.value) == "" by {
        if f.value.Multiple? { assert SortedStrings(f.value.texts) == []; }
      }
      assert Concat(texts, v => Item(v)) == "";
      assert f.key + "<" + "" + "<" == f.key + "<" + "<";
    } else {
      if !f.value.Multiple? {
        SortedSingle(ValueText(f.value));
        assert Values(f.value) == [ValueText(f.value)];
      }
      JoinIsConcat(texts);
      assert f.key + "<" + ValueText(f.value) + "<" == f.key + "<" + (ValueText(f.value) + "<");
    }
  }

  // ----------------------------------------------------------------------- one form

  lemma {:induction false} FirstTypeField(fields: seq<Field>, f: Field)
    requires f in fields && IsTypeField(f)
    requires forall i, k :: 0 <= i < k < |fields| ==> !IsTypeField(fields[i]) || !IsTypeField(fields[k])
    ensures FirstFormType(fields) == ToText(f.value)
  {
    if fields[0] != f {
      var k :| 0 < k < |fields| && fields[k] == f;
      FirstTypeField(fields[1..], f);
    }
  }

  /** The code prints the type that the form is written with, and nothing for a form without a type. */
  lemma FormTypeIsTheType(form: Form)
    requires WellFormed(form)
    ensures forall t :: HasType(form, t) ==> FormType(form) == t
    ensures !IsTyped(form) ==> FormType(form) == ""
  {
    forall t | HasType(form, t) ensures FormType(form) == t {
      var f :| f in form.fields && IsTypeField(f) && Values(f.value) == [t];
      FirstTypeField(form.fields, f);
    }
    if f :| f in form.fields && IsTypeField(f) {
      FirstTypeField(form.fields, f);
      if Values(f.value) != [] {
        assert Values(f.value) == [Values(f.value)[0]];
        assert HasType(form, Values(f.value)[0]);
      }
    } else {
      NoTypeField(form.fields);
    }
  }

  lemma {:induction false} NoTypeField(fields: seq<Field>)
    requires forall f :: f in fields ==> !IsTypeField(f)
    ensures FirstFormType(fields) == ""
  {
    if fields != [] {
      assert fields[0] in fields && !IsTypeField(fields[0]);
      NoTypeField(fields[1..]);
    }
  }

  function CodeFieldSize(f: Field): nat { |FieldText(f)| }

  function XepFieldSize(f: Field): nat { if f.key != "FORM_TYPE" then |XepFieldText(f)| else 0 }

  function CodeSize(form: Form): nat { |FormType(form)| + 1 + Total(form.fields, f => CodeFieldSize(f)) }

  ghost function XepSize(form: Form): nat {
    if IsTyped(form) then |FormType(form)| + 1 + Total(form.fields, f => XepFieldSize(f)) else 0
  }

  lemma FieldSizes(f: Field)
    ensures CodeFieldSize(f) == XepFieldSize(f) + if HasNoValue(f) then 1 else 0
  {
    if f.key != FORM_TYPE { FieldTextVersusXep(f); }
  }

  lemma FormSizes(form: Form)
    ensures XepSize(form) <= CodeSize(form)
    ensures XepSize(form) == CodeSize(form) ==> FormIsComplete(form)
  {
    forall f | f in form.fields ensures CodeFieldSize(f) == XepFieldSize(f) + if HasNoValue(f) then 1 else 0 {
      FieldSizes(f);
    }
    hide CodeFieldSize, XepFieldSize, HasNoValue, IsTyped;
    TotalCompares(form.fields, f => CodeFieldSize(f), f => XepFieldSize(f));
  }

  lemma CodeTextSize(form: Form, text: string)
    requires IsFormText(form, text)
    ensures |text| == CodeSize(form)
  {
    var fields :| SortedPermutation((a, b) => FieldLess(a, b), form.fields, fields)
                  && text == FormType(form) + "<" + FieldsText(fields);
    hide FieldText;
    ConcatSize(fields, f => FieldText(f), f => CodeFieldSize(f));
    TotalPermuted(fields, form.fields, f => CodeFieldSize(f));
  }

  lemma XepTextSize(form: Form, text: string)
    requires WellFormed(form) && IsXepFormText(form, text)
    ensures |text| == XepSize(form)
  {
    hide XepFieldText, WellFormed, HasType;
    FormTypeIsTheType(form);
    var t, fields :| HasType(form, t) && AreFields(form, fields) && text == Item(t) + Concat(fields, f => XepFieldText(f));
    var other, size := (f: Field) => f.key != "FORM_TYPE", (f: Field) => |XepFieldText(f)|;
    ConcatSize(fields, f => XepFieldText(f), size);
    TotalPermuted(fields, Select(form.fields, other), size);
    SelectTotal(form.fields, other, size, f => XepFieldSize(f));
  }

  lemma {:induction false} OtherFieldsText(fields: seq<Field>)
    requires forall f :: f in fields ==> !HasNoValue(f)
    ensures Concat(Select(fields, (f: Field) => f.key != FORM_TYPE), f => XepFieldText(f)) == FieldsText(fields)
  {
    if fields != [] {
      var front, last := fields[..|fields| - 1], fields[|fields| - 1];
      var rest := Select(front, (f: Field) => f.key != FORM_TYPE);
      OtherFieldsText(front);
      assert last in fields;
      if last.key != FORM_TYPE {
        FieldTextVersusXep(last);
        hide FieldText, XepFieldText;
        assert FieldText(last) == XepFieldText(last);
        assert (rest + [last])[..|rest|] == rest;
        assert Select(fields, (f: Field) => f.key != FORM_TYPE) == rest + [last];
      } else {
        assert FieldText(last) == "";
        assert Select(fields, (f: Field) => f.key != FORM_TYPE) == rest;
      }
    }
  }

  lemma {:induction false} SelectKeepsOrder(fields: seq<Field>)
    requires Sorted((a, b) => FieldLess(a, b), fields)
    ensures Sorted((a, b) => FieldLess(a, b), Select(fields, (f: Field) => f.key != FORM_TYPE))
  {
    if fields != [] {
      var front, last := fields[..|fields| - 1], fields[|fields| - 1];
      SelectKeepsOrder(front);
      forall f | f in Select(front, (g: Field) => g.key != FORM_TYPE) ensures !FieldLess(last, f) {
        SelectCount(front, (g: Field) => g.key != FORM_TYPE, f);
        assert f in multiset(front);
        var k :| 0 <= k < |front| && front[k] == f;
        assert fields[k] == f;
      }
    }
  }

  lemma OtherFieldsAreFields(form: Form, fields: seq<Field>)
    requires SortedPermutation((a, b) => FieldLess(a, b), form.fields, fields)
    ensures AreFields(form, Select(fields, (f: Field) => f.key != FORM_TYPE))
  {
    var other := Select(fields, (f: Field) => f.key != FORM_TYPE);
    SelectPermuted(fields, form.fields, (f: Field) => f.key != FORM_TYPE);
    SelectKeepsOrder(fields);
    forall i, k | 0 <= i < k < |other| ensures !StringLess(other[k].key, other[i].key) {
      assert !FieldLess(other[k], other[i]);
    }
  }

  /** A complete form's text is one the specification allows. */
  lemma CompleteFormText(form: Form, text: string)
    requires WellFormed(form) && FormIsComplete(form) && IsFormText(form, text)
    ensures IsXepFormText(form, text)
  {
    hide WellFormed, HasType, HasNoValue, AreFields, XepFieldText, FieldsText, Sorted, Select, FormType;
    FormTypeIsTheType(form);
    var t :| HasType(form, t);
    var fields :| SortedPermutation((a, b) => FieldLess(a, b), form.fields, fields)
                  && text == FormType(form) + "<" + FieldsText(fields);
    forall f | f in fields ensures !HasNoValue(f) { PermutationsHaveSameElements(fields, form.fields, f); }
    var other := Select(fields, (f: Field) => f.key != FORM_TYPE);
    OtherFieldsText(fields);
    OtherFieldsAreFields(form, fields);
    assert text == Item(t) + Concat(other, f => XepFieldText(f));
  }

  // ------------------------------------------------------------------- whole strings

  lemma OrdersAgree(a: Identity, b: Identity)
    ensures IdentityBefore(a, b) <==> IdentityLess(a, b)
  {
    StringLessTotal(a.category, b.category);
    StringLessTotal(a.itype, b.itype);
    StringLessTotal(a.language, b.language);
    StringLessTotal(a.name, b.name);
    StringLessIrreflexive(a.category);
    StringLessIrreflexive(a.itype);
    StringLessIrreflexive(a.language);
    NotBothWays(a.category, b.category);
    NotBothWays(a.itype, b.itype);
    NotBothWays(a.language, b.language);
    TupleTails(a, b);
  }

  lemma NotBothWays(a: string, b: string)
    ensures StringLess(a, b) ==> !StringLess(b, a)
  {
    StringLessIrreflexive(a);
    if StringLess(a, b) && StringLess(b, a) { StringLessTransitive(a, b, a); }
  }

  lemma TupleTails(a: Identity, b: Identity)
    ensures IdentityLess(a, b) <==>
      var later := TupleLess([a.itype, a.language, a.name], [b.itype, b.language, b.name]);
      StringLess(a.category, b.category) || (!StringLess(b.category, a.category) && later)
    ensures TupleLess([a.itype, a.language, a.name], [b.itype, b.language, b.name]) <==>
      (StringLess(a.itype, b.itype) || (!StringLess(b.itype, a.itype) &&
      (StringLess(a.language, b.language) || (!StringLess(b.language, a.language) && StringLess(a.name, b.name)))))
  {
    var x, y := IdentityTuple(a), IdentityTuple(b);
    var x3, y3 := [a.itype, a.language, a.name], [b.itype, b.language, b.name];
    assert x[1..] == x3 && y[1..] == y3;
    assert x3[1..] == [a.language, a.name] && y3[1..] == [b.language, b.name];
    var x1, y1 := [a.name], [b.name];
    assert [a.language, a.name][1..] == x1 && [b.language, b.name][1..] == y1;
    assert x1[1..] == [] && y1[1..] == [];
    assert TupleLess(x1, y1) <==> StringLess(a.name, b.name);
    assert TupleLess([a.language, a.name], [b.language, b.name]) <==>
           StringLess(a.language, b.language) || (!StringLess(b.language, a.language) && TupleLess(x1, y1));
  }

  /** The code's identities and features are the specification's. */
  lemma CodeIdentities(info: Info) returns (identities: seq<Identity>)
    ensures AreIdentities(info, identities) && IdentitiesText(info) == Concat(identities, i => XepIdentityText(i))
  {
    identities := SortBy((a, b) => IdentityLess(a, b), info.identities);
    IdentityOrderIsWeak(info.identities);
    SortByIsSorted((a, b) => IdentityLess(a, b), info.identities);
    forall i, k | 0 <= i < k < |identities| ensures !IdentityBefore(identities[k], identities[i]) {
      OrdersAgree(identities[k], identities[i]);
      assert !IdentityLess(identities[k], identities[i]);
    }
    forall i | i in identities ensures IdentityText(i) == XepIdentityText(i) { IdentityTextIsTheParts(i); }
    ConcatAlike(identities, identities, i => IdentityText(i), i => XepIdentityText(i));
  }

  /** An identity is printed as its category, type, language and name, in that order. */
  lemma IdentityTextIsTheParts(i: Identity)
    ensures IdentityText(i) == XepIdentityText(i)
  {
    var parts := [i.category, i.itype, i.language, i.name];
    assert parts[1..] == [i.itype, i.language, i.name] && parts[1..][1..] == [i.language, i.name];
    assert parts[1..][1..][1..] == [i.name];
    assert Join(parts[1..][1..], "/") == i.language + "/" + i.name;
    assert Join(parts[1..], "/") == i.itype + "/" + (i.language + "/" + i.name);
  }

  lemma CodeFeatures(info: Info) returns (features: seq<string>)
    ensures AreFeatures(info, features) && FeaturesText(info) == Concat(features, f => Item(f))
  {
    var less := (a, b) => StringLess(a, b);
    var sorted := SortedStrings(info.features);
    features := RemoveDuplicates(sorted);
    KeyOrderIsWeak(info.features, less, x => x);
    SortByIsSorted(less, info.features);
    RemoveDuplicatesSorted(sorted);
    RemoveDuplicatesElements(sorted);
    ConcatAlike(features, features, f => FeatureText(f), f => Item(f));
    forall x ensures x in features <==> x in info.features { PermutationsHaveSameElements(sorted, info.features, x); }
    forall i, k | 0 <= i < k < |features| ensures StringLess(features[i], features[k]) {
      assert !less(features[k], features[i]);
      StringLessTotal(features[i], features[k]);
    }
  }

  lemma IdentitiesSize(info: Info, identities: seq<Identity>)
    requires AreIdentities(info, identities)
    ensures |Concat(identities, i => XepIdentityText(i))| == Total(info.identities, i => |XepIdentityText(i)|)
  {
    ConcatSize(identities, i => XepIdentityText(i), i => |XepIdentityText(i)|);
    TotalPermuted(identities, info.identities, i => |XepIdentityText(i)|);
  }

  lemma FeaturesAreUnique(info: Info, a: seq<string>, b: seq<string>)
    requires AreFeatures(info, a) && AreFeatures(info, b)
    ensures a == b
  {
    var less := (x, y) => StringLess(x, y);
    StrictlySorted(a);
    StrictlySorted(b);
    DistinctSameElements(a, b);
    forall x, y | x in a && y in a && x != y ensures less(x, y) || less(y, x) { StringLessTotal(x, y); }
    SortedPermutationIsUnique(less, a, b);
  }

  lemma StrictlySorted(s: seq<string>)
    requires forall i, k :: 0 <= i < k < |s| ==> StringLess(s[i], s[k])
    ensures Distinct(s) && Sorted((x, y) => StringLess(x, y), s)
  {
    forall i, k | 0 <= i < k < |s| ensures s[i] != s[k] && !StringLess(s[k], s[i]) {
      assert StringLess(s[i], s[k]);
      StringLessIrreflexive(s[i]);
      NotBothWays(s[i], s[k]);
    }
  }

  lemma {:induction false} TextsSize(forms: seq<Form>, texts: seq<string>, size: Form -> nat)
    requires |texts| == |forms| && forall k :: 0 <= k < |forms| ==> |texts[k]| == size(forms[k])
    ensures |Concat(texts, t => t)| == Total(forms, size)
  {
    if forms != [] { TextsSize(forms[..|forms| - 1], texts[..|texts| - 1], size); }
  }

  /** All strings the code may build for some information are equally long. */
  lemma CodeFormsSize(info: Info, text: string)
    requires IsFormsText(info, text)
    ensures |text| == Total(info.forms, f => CodeSize(f))
  {
    var forms, parts :| SortedPermutation((a, b) => FormLess(a, b), info.forms, forms) && AreFormTexts(forms, parts)
                        && text == Concat(parts, part => part);
    forall k | 0 <= k < |forms| ensures |parts[k]| == CodeSize(forms[k]) { CodeTextSize(forms[k], parts[k]); }
    hide IsFormText, CodeSize;
    TextsSize(forms, parts, f => CodeSize(f));
    TotalPermuted(forms, info.forms, f => CodeSize(f));
  }

  lemma XepFormsSize(info: Info, forms: seq<Form>, texts: seq<string>)
    requires (forall f :: f in info.forms ==> WellFormed(f)) && AreForms(info, forms, texts)
    ensures |Concat(texts, t => t)| == Total(info.forms, f => XepSize(f))
  {
    hide WellFormed, IsXepFormText, IsTyped;
    var typed := (f: Form) => IsTyped(f);
    forall k | 0 <= k < |forms| ensures |texts[k]| == XepSize(forms[k]) {
      SelectCount(info.forms, typed, forms[k]);
      assert forms[k] in multiset(forms);
      XepTextSize(forms[k], texts[k]);
    }
    TextsSize(forms, texts, f => XepSize(f));
    TotalPermuted(forms, Select(info.forms, typed), f => XepSize(f));
    SelectTotal(info.forms, typed, f => XepSize(f), f => XepSize(f));
  }

  lemma {:induction false} SelectAll<T>(s: seq<T>, p: T -> bool)
    requires forall x :: x in s ==> p(x)
    ensures Select(s, p) == s
  {
    if s != [] {
      assert s[|s| - 1] in s && s == s[..|s| - 1] + [s[|s| - 1]];
      SelectAll(s[..|s| - 1], p);
    }
  }

  lemma FormsKeepTypeOrder(forms: seq<Form>)
    requires Sorted((a, b) => FormLess(a, b), forms) && forall f :: f in forms ==> WellFormed(f)
    ensures forall i, k, s, t :: 0 <= i < k < |forms| && HasType(forms[i], s) && HasType(forms[k], t) ==> !StringLess(t, s)
  {
    hide WellFormed, HasType;
    forall i, k, s, t | 0 <= i < k < |forms| && HasType(forms[i], s) && HasType(forms[k], t) ensures !StringLess(t, s) {
      FormTypeIsTheType(forms[i]);
      FormTypeIsTheType(forms[k]);
      assert !FormLess(forms[k], forms[i]);
    }
  }

  lemma SortedFormsAreForms(info: Info, forms: seq<Form>, texts: seq<string>)
    requires (forall f :: f in forms ==> WellFormed(f) && FormIsComplete(f)) && multiset(forms) == multiset(info.forms)
    requires Sorted((a, b) => FormLess(a, b), forms) && AreFormTexts(forms, texts)
    ensures AreForms(info, forms, texts)
  {
    FormsKeepTypeOrder(forms);
    forall k | 0 <= k < |forms| ensures IsXepFormText(forms[k], texts[k]) {
      hide WellFormed, FormIsComplete, IsFormText, IsXepFormText, Sorted;
      assert forms[k] in forms;
      CompleteFormText(forms[k], texts[k]);
    }
    forall f | f in info.forms ensures IsTyped(f) { PermutationsHaveSameElements(forms, info.forms, f); }
    SelectAll(info.forms, (f: Form) => IsTyped(f));
    hide WellFormed, HasType, HasNoValue, Sorted, Select, IsTyped, IsFormText, IsXepFormText;
  }

  lemma CompleteForms(info: Info, text: string) returns (forms: seq<Form>, texts: seq<string>)
    requires (forall f :: f in info.forms ==> WellFormed(f)) && IsComplete(info) && IsFormsText(info, text)
    ensures AreForms(info, forms, texts) && text == Concat(texts, t => t)
  {
    hide WellFormed, FormIsComplete, AreForms, AreFormTexts, Sorted;
    forms, texts :| SortedPermutation((a, b) => FormLess(a, b), info.forms, forms) && AreFormTexts(forms, texts)
                    && text == Concat(texts, part => part);
    forall f | f in forms ensures WellFormed(f) && FormIsComplete(f) { PermutationsHaveSameElements(forms, info.forms, f); }
    SortedFormsAreForms(info, forms, texts);
  }

  /**
   * Main result.  A string the code builds is one the specification allows if and only if every form is written
   * with a type and every other field of a form with a value.
   */
  lemma CapsStringIsXepStringIff(info: Info, s: string)
    requires (forall f :: f in info.forms ==> WellFormed(f)) && IsCodeString(info, s)
    ensures IsXepString(info, s) <==> IsComplete(info)
  {
    hide AreIdentities, AreFeatures, AreForms, WellFormed, IsFormsText;
    var text :| IsFormsText(info, text) && s == IdentitiesText(info) + FeaturesText(info) + text;
    var identities := CodeIdentities(info);
    var features := CodeFeatures(info);
    if IsComplete(info) {
      var forms, texts := CompleteForms(info, text);
      assert IsXepString(info, s);
    }
    if IsXepString(info, s) {
      EqualSizesAreComplete(info, s, identities, features, text);
    }
  }

  lemma EqualSizesAreComplete(info: Info, s: string, identities: seq<Identity>, features: seq<string>, text: string)
    requires (forall f :: f in info.forms ==> WellFormed(f)) && IsXepString(info, s)
    requires AreIdentities(info, identities) && AreFeatures(info, features) && IsFormsText(info, text)
    requires s == Concat(identities, i => XepIdentityText(i)) + Concat(features, f => Item(f)) + text
    ensures IsComplete(info)
  {
    hide AreIdentities, AreFeatures, AreForms, WellFormed, IsFormsText, XepSize, CodeSize, XepIdentityText, Item, FormIsComplete;
    var i, f, forms, texts :| AreIdentities(info, i) && AreFeatures(info, f) && AreForms(info, forms, texts)
      && s == Concat(i, x => XepIdentityText(x)) + Concat(f, x => Item(x)) + Concat(texts, t => t);
    IdentitiesSize(info, identities);
    IdentitiesSize(info, i);
    FeaturesAreUnique(info, features, f);
    CodeFormsSize(info, text);
    XepFormsSize(info, forms, texts);
    forall form | form in info.forms
      ensures XepSize(form) <= CodeSize(form) && (XepSize(form) == CodeSize(form) ==> FormIsComplete(form))
    {
      FormSizes(form);
    }
    TotalCompares(info.forms, form => CodeSize(form), form => XepSize(form));
  }

  /** A field without a value: the code ends its text with one separator too many. */
  lemma MissingValueFails(key: string)
    requires key != FORM_TYPE
    ensures var f := Field(key, false, Single(""));
            HasNoValue(f) && XepFieldText(f) == key + "<" && FieldText(f) == key + "<<"
    ensures FieldText(Field(key, false, Nothing)) == key + "<<" && FieldText(Field(key, false, Multiple([]))) == key + "<<"
  {
    FieldTextVersusXep(Field(key, false, Single("")));
    FieldTextVersusXep(Field(key, false, Nothing));
    FieldTextVersusXep(Field(key, false, Multiple([])));
    assert SortedStrings([]) == [];
    assert key + "<" + "" == key + "<" && key + "<" + "<" == key + "<<";
  }
}
