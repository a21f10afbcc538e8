// The capability string does not depend on order, and the loops that build it.

module EntityCapsResults {
  import opened Text
  import opened Sorting
  import opened KeyOrders
  import opened EntityCaps

  // ------------------------------------------------------- replacing list elements

  /** The two lists agree, position by position, in key and in text. */
  ghost predicate Alike<T>(a: seq<T>, b: seq<T>, key: T -> string, text: T -> string) {
    |a| == |b| && forall i :: 0 <= i < |a| ==> key(a[i]) == key(b[i]) && text(a[i]) == text(b[i])
  }

  lemma AlikeTail<T>(a: seq<T>, b: seq<T>, key: T -> string, text: T -> string)
    requires Alike(a, b, key, text) && a != []
    ensures Alike(a[1..], b[1..], key, text)
  {}

  lemma AlikeCons<T>(x: T, y: T, a: seq<T>, b: seq<T>, key: T -> string, text: T -> string)
    requires Alike(a, b, key, text) && key(x) == key(y) && text(x) == text(y)
    ensures Alike([x] + a, [y] + b, key, text)
  {}

  lemma {:induction false} InsertAlike<T(!new)>(less: (T, T) -> bool, x: T, y: T, a: seq<T>, b: seq<T>, key: T -> string, text: T -> string)
    requires ComparesKeys(less, key) && Alike(a, b, key, text) && key(x) == key(y) && text(x) == text(y)
    ensures Alike(InsertSorted(less, x, a), InsertSorted(less, y, b), key, text)
  {
    if a == [] {
    } else if less(a[0], x) {
      AlikeTail(a, b, key, text);
      InsertAlike(less, x, y, a[1..], b[1..], key, text);
      AlikeCons(a[0], b[0], InsertSorted(less, x, a[1..]), InsertSorted(less, y, b[1..]), key, text);
    } else {
      AlikeCons(x, y, a, b, key, text);
    }
  }

  lemma {:induction false} SortAlike<T(!new)>(less: (T, T) -> bool, a: seq<T>, b: seq<T>, key: T -> string, text: T -> string)
    requires ComparesKeys(less, key) && Alike(a, b, key, text)
    ensures Alike(SortBy(less, a), SortBy(less, b), key, text)
  {
    if a != [] {
      AlikeTail(a, b, key, text);
      SortAlike(less, a[1..], b[1..], key, text);
      InsertAlike(less, a[0], b[0], SortBy(less, a[1..]), SortBy(less, b[1..]), key, text);
    }
  }

  lemma {:induction false} ConcatAlike<T>(a: seq<T>, b: seq<T>, f: T -> string, g: T -> string)
    requires |a| == |b| && forall i :: 0 <= i < |a| ==> f(a[i]) == g(b[i])
    ensures Concat(a, f) == Concat(b, g)
  {
    if a != [] { ConcatAlike(a[..|a| - 1], b[..|b| - 1], f, g); }
  }

  // ------------------------------------------------------------- order independence

  /** The same value with the texts of a list in any order. */
  predicate SameValue(a: Value, b: Value) {
    a == b || (a.Multiple? && b.Multiple? && multiset(a.texts) == multiset(b.texts))
  }

  predicate SameField(a: Field, b: Field) { a.key == b.key && a.hidden == b.hidden && SameValue(a.value, b.value) }

  /** g has the fields of f in some order, each with its values in some order. */
  ghost predicate SameForm(f: Form, g: Form) {
    exists fields :: multiset(fields) == multiset(f.fields) && SameFields(fields, g.fields)
  }

  predicate SameFields(a: seq<Field>, b: seq<Field>) {
    |a| == |b| && forall k :: 0 <= k < |a| ==> SameField(a[k], b[k])
  }

  ghost predicate SameForms(a: seq<Form>, b: seq<Form>) {
    |a| == |b| && forall k :: 0 <= k < |a| ==> SameForm(a[k], b[k])
  }

  /** b carries the information of a with everything in some order and features possibly repeated. */
  ghost predicate SameInfo(a: Info, b: Info) {
    && multiset(a.identities) == multiset(b.identities)
    && (forall x :: x in a.features <==> x in b.features)
    && (exists forms :: multiset(forms) == multiset(a.forms) && SameForms(forms, b.forms))
  }

  /** What the order-independence needs: distinct form types and, per form, distinct keys. */
  ghost predicate WellKeyed(info: Info) {
    DistinctTypes(info.forms) && forall f :: f in info.forms ==> DistinctKeys(f)
  }

  lemma SameValueSameText(a: Value, b: Value)
    requires SameValue(a, b)
    ensures ValueText(a) == ValueText(b) && ToText(a) == ToText(b)
  {
    if a != b {
      SortedStringsAgree(a.texts, b.texts);
      assert |multiset(a.texts)| == |multiset(b.texts)|;
      if |a.texts| == 1 {
        PermutationsHaveSameElements(a.texts, b.texts, a.texts[0]);
      }
    }
  }

  lemma SameFieldsSameText(a: seq<Field>, b: seq<Field>)
    requires SameFields(a, b)
    ensures Alike(a, b, (f: Field) => f.key, (f: Field) => FieldText(f))
  {
    forall k | 0 <= k < |a| ensures FieldText(a[k]) == FieldText(b[k]) {
      SameValueSameText(a[k].value, b[k].value);
    }
  }

  lemma {:induction false} SameFieldsSameType(a: seq<Field>, b: seq<Field>)
    requires SameFields(a, b)
    ensures FirstFormType(a) == FirstFormType(b)
  {
    if a != [] {
      SameValueSameText(a[0].value, b[0].value);
      SameFieldsSameType(a[1..], b[1..]);
    }
  }

  lemma {:induction false} FormTypeOfHidden(fields: seq<Field>, f: Field)
    requires f in fields && f.hidden && f.key == FORM_TYPE
    requires forall g :: g in fields && g.key == FORM_TYPE ==> g == f
    ensures FirstFormType(fields) == ToText(f.value)
  {
    if fields[0] != f {
      FormTypeOfHidden(fields[1..], f);
    }
  }

  lemma {:induction false} NoFormType(fields: seq<Field>)
    requires forall g :: g in fields ==> !(g.hidden && g.key == FORM_TYPE)
    ensures FirstFormType(fields) == ""
  {
    if fields != [] {
      NoFormType(fields[1..]);
    }
  }

  lemma PermutedFieldsSameType(f: Form, fields: seq<Field>)
    requires multiset(fields) == multiset(f.fields) && DistinctKeys(f)
    ensures FirstFormType(fields) == FormType(f)
  {
    forall g ensures g in fields <==> g in f.fields {
      PermutationsHaveSameElements(fields, f.fields, g);
    }
    if g :| g in f.fields && g.hidden && g.key == FORM_TYPE {
      FormTypeOfHidden(f.fields, g);
      FormTypeOfHidden(fields, g);
    } else {
      NoFormType(f.fields);
      NoFormType(fields);
    }
  }

  lemma SameFormSameText(f: Form, g: Form)
    requires SameForm(f, g) && DistinctKeys(f)
    ensures FormType(f) == FormType(g) && FormText(f) == FormText(g)
  {
    var fields :| multiset(fields) == multiset(f.fields) && SameFields(fields, g.fields);
    PermutedFieldsSameType(f, fields);
    SameFieldsSameType(fields, g.fields);
    SortedFieldsAgree(f, Form(fields));
    SameFieldsSameText(fields, g.fields);
    SortAlike((a, b) => FieldLess(a, b), fields, g.fields, (x: Field) => x.key, (x: Field) => FieldText(x));
    ConcatAlike(SortedFields(Form(fields)), SortedFields(g), x => FieldText(x), x => FieldText(x));
  }

  lemma SameFormsSameText(a: seq<Form>, b: seq<Form>)
    requires SameForms(a, b) && forall f :: f in a ==> DistinctKeys(f)
    ensures Concat(SortBy((x, y) => FormLess(x, y), a), f => FormText(f)) == Concat(SortBy((x, y) => FormLess(x, y), b), f => FormText(f))
  {
    forall k | 0 <= k < |a| ensures FormType(a[k]) == FormType(b[k]) && FormText(a[k]) == FormText(b[k]) {
      assert a[k] in a;
      SameFormSameText(a[k], b[k]);
    }
    hide FormText, FormType;
    SortAlike((x, y) => FormLess(x, y), a, b, (f: Form) => FormType(f), (f: Form) => FormText(f));
    ConcatAlike(SortBy((x, y) => FormLess(x, y), a), SortBy((x, y) => FormLess(x, y), b), f => FormText(f), f => FormText(f));
  }

  /**
   * Main result.  The capability string is the same for every order of identities, features, forms, fields and
   * values, and for repeated features.
   */
  lemma CapsStringIsOrderIndependent(a: Info, b: Info)
    requires WellKeyed(a) && SameInfo(a, b)
    ensures CapsString(a) == CapsString(b)
  {
    SortedIdentitiesAgree(a.identities, b.identities);
    FeaturesAgree(a.features, b.features);
    var forms :| multiset(forms) == multiset(a.forms) && SameForms(forms, b.forms);
    SortedFormsAgree(a.forms, forms);
    forall f | f in forms ensures DistinctKeys(f) {
      PermutationsHaveSameElements(forms, a.forms, f);
    }
    SameFormsSameText(forms, b.forms);
  }

  // -------------------------------------------------------------- the imperative form

  /** A text the field loop may build for a form: its fields in some sorted order. */
  ghost predicate IsFormText(form: Form, text: string) {
    exists fields :: SortedPermutation((a, b) => FieldLess(a, b), form.fields, fields)
                     && text == FormType(form) + "<" + FieldsText(fields)
  }

  /** A text the form loop may build: the forms in some sorted order, each with one of its texts. */
  ghost predicate IsFormsText(info: Info, text: string) {
    exists forms, parts :: SortedPermutation((a, b) => FormLess(a, b), info.forms, forms) && AreFormTexts(forms, parts)
                           && text == Concat(parts, part => part)
  }

  ghost predicate AreFormTexts(forms: seq<Form>, parts: seq<string>) {
    |parts| == |forms| && forall k :: 0 <= k < |forms| ==> IsFormText(forms[k], parts[k])
  }

  /** A string the loops of the code may build, whatever the unstable sorts do. */
  ghost predicate IsCodeString(info: Info, s: string) {
    exists forms :: IsFormsText(info, forms) && s == IdentitiesText(info) + FeaturesText(info) + forms
  }

  lemma {:induction false} PartsAreTheTexts(forms: seq<Form>, parts: seq<string>)
    requires AreFormTexts(forms, parts) && forall f :: f in forms ==> DistinctKeys(f)
    ensures Concat(parts, part => part) == Concat(forms, f => FormText(f))
  {
    if forms != [] {
      var last, part := forms[|forms| - 1], parts[|parts| - 1];
      assert IsFormText(last, part) && last in forms;
      var fields :| SortedPermutation((a, b) => FieldLess(a, b), last.fields, fields)
                    && part == FormType(last) + "<" + FieldsText(fields);
      FieldSortIsUnique(last, fields);
      PartsAreTheTexts(forms[..|forms| - 1], parts[..|parts| - 1]);
    }
  }

  /** With distinct keys and types, whatever the sorts do, only one text can be built. */
  lemma OnlyOneFormsText(info: Info, text: string)
    requires WellKeyed(info) && IsFormsText(info, text)
    ensures text == FormsText(info)
  {
    var forms, parts :| SortedPermutation((a, b) => FormLess(a, b), info.forms, forms) && AreFormTexts(forms, parts)
                        && text == Concat(parts, part => part);
    FormSortIsUnique(info.forms, forms);
    forall f | f in forms ensures DistinctKeys(f) {
      PermutationsHaveSameElements(forms, info.forms, f);
    }
    PartsAreTheTexts(forms, parts);
  }

  method AppendField(s: string, field: Field) returns (r: string)
    ensures r == s + FieldText(field)
  {
    r := s;
    if field.key != FORM_TYPE {
      r := r + field.key + "<";
      if field.value.Multiple? {
        var list := SortStrings(field.value.texts);
        r := r + Join(list, "<");
      } else if field.value.Single? {
        r := r + Join([field.value.text], "<");
      } else {
        r := r + ToText(field.value);
      }
      r := r + "<";
      assert r == s + (field.key + "<" + ValueText(field.value) + "<");
    }
  }

  method AppendFields(s: string, fields: seq<Field>) returns (r: string)
    ensures r == s + FieldsText(fields)
  {
    hide FieldText;
    r := s;
    for k := 0 to |fields|
      invariant r == s + FieldsText(fields[..k])
    {
      assert fields[..k + 1][..k] == fields[..k];
      r := AppendField(r, fields[k]);
    }
    assert fields[..|fields|] == fields;
  }

  method SortFields(form: Form) returns (fields: seq<Field>)
    ensures SortedPermutation((a, b) => FieldLess(a, b), form.fields, fields)
  {
    KeyOrderIsWeak(form.fields, (a, b) => FieldLess(a, b), (f: Field) => f.key);
    fields := Sort(form.fields, (a, b) => FieldLess(a, b));
  }

  method SortForms(info: Info) returns (forms: seq<Form>)
    ensures SortedPermutation((a, b) => FormLess(a, b), info.forms, forms)
  {
    KeyOrderIsWeak(info.forms, (a, b) => FormLess(a, b), (f: Form) => FormType(f));
    forms := Sort(info.forms, (a, b) => FormLess(a, b));
  }

  method SortStrings(texts: seq<string>) returns (sorted: seq<string>)
    ensures sorted == SortedStrings(texts)
  {
    KeyOrderIsWeak(texts, (a, b) => StringLess(a, b), x => x);
    sorted := Sort(texts, (a, b) => StringLess(a, b));
    StringSortIsUnique(texts, sorted);
  }

  method AppendForm(s: string, form: Form) returns (r: string, ghost text: string)
    ensures IsFormText(form, text) && r == s + text
  {
    var fields := SortFields(form);
    r := AppendFields(s + (FormType(form) + "<"), fields);
    text := FormType(form) + "<" + FieldsText(fields);
    assert r == s + text by {
      hide SortedPermutation, FormType, FieldsText;
    }
  }

  method AppendSortedForms(s: string, forms: seq<Form>) returns (r: string, ghost parts: seq<string>)
    ensures AreFormTexts(forms, parts) && r == s + Concat(parts, part => part)
  {
    hide IsFormText;
    r, parts := s, [];
    for k := 0 to |forms|
      invariant |parts| == k && forall i :: 0 <= i < k ==> IsFormText(forms[i], parts[i])
      invariant r == s + Concat(parts, part => part)
    {
      ghost var part;
      r, part := AppendForm(r, forms[k]);
      assert (parts + [part])[..k] == parts;
      parts := parts + [part];
    }
  }

  method AppendForms(s: string, info: Info) returns (r: string, ghost text: string)
    ensures IsFormsText(info, text) && r == s + text
  {
    var forms := SortForms(info);
    ghost var parts;
    r, parts := AppendSortedForms(s, forms);
    text := Concat(parts, part => part);
  }

  method IdentitiesAndFeatures(info: Info) returns (s: string)
    ensures s == IdentitiesText(info) + FeaturesText(info)
  {
    s := "";
    IdentityOrderIsWeak(info.identities);
    var identities := Sort(info.identities, (a, b) => IdentityLess(a, b));
    IdentitySortIsUnique(info.identities, identities);
    hide IdentityLess, IdentityText;
    for k := 0 to |identities|
      invariant s == Concat(identities[..k], i => IdentityText(i))
    {
      assert identities[..k + 1][..k] == identities[..k];
      s := s + IdentityText(identities[k]);
    }
    assert identities[..|identities|] == identities;
    s := AppendFeatures(s, info);
  }

  method AppendFeatures(s: string, info: Info) returns (r: string)
    ensures r == s + FeaturesText(info)
  {
    var features := SortStrings(info.features);
    features := RemoveDuplicates(features);
    r := s;
    for k := 0 to |features|
      invariant r == s + Concat(features[..k], f => FeatureText(f))
    {
      assert features[..k + 1][..k] == features[..k];
      r := r + FeatureText(features[k]);
    }
    assert features[..|features|] == features;
  }

  /** The string built by the nested loops, up to what the sorts may leave open in the forms. */
  method CalculateEntityCapabilitiesString(info: Info) returns (s: string)
    ensures IsCodeString(info, s)
    ensures WellKeyed(info) ==> s == CapsString(info)
  {
    s := IdentitiesAndFeatures(info);
    ghost var forms;
    s, forms := AppendForms(s, info);
    if WellKeyed(info) {
      OnlyOneFormsText(info, forms);
    }
  }
}
