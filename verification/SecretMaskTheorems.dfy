/** Masking hides exactly the secrets, mask and merge undo each other, and the list guard is
    all or nothing. */
module SecretMaskTheorems {
  import opened Wrappers
  import opened SecretMask

  ghost predicate DistinctKeys(fields: seq<Field>) {
    forall i, j :: 0 <= i < j < |fields| ==> fields[i].key != fields[j].key
  }

  /** Keys are distinct in every object, as in any dictionary. */
  ghost predicate Wellformed(v: Json)
    decreases v
  {
    match v
    case Obj(fields) => DistinctKeys(fields) && forall i :: 0 <= i < |fields| ==> WellformedField(fields[i])
    case Arr(items) => forall i :: 0 <= i < |items| ==> Wellformed(items[i])
    case _ => true
  }

  ghost predicate WellformedField(f: Field)
    decreases f
  {
    Wellformed(f.value)
  }

  lemma LookupAt(fields: seq<Field>, i: nat)
    requires DistinctKeys(fields) && i < |fields|
    ensures Find(fields, fields[i].key) == Some(i)
    ensures Lookup(fields, fields[i].key) == fields[i].value
  {
    assert Find(fields, fields[i].key).Some?;
  }

  lemma Prefixes<T>(s: seq<T>, n: nat)
    requires n <= |s|
    ensures s[..|s|] == s && s[..0] == []
    ensures n > 0 ==> s[..n] == s[..n - 1] + [s[n - 1]]
  {
  }

  lemma PutFresh(fields: seq<Field>, f: Field)
    requires forall i :: 0 <= i < |fields| ==> fields[i].key != f.key
    ensures Put(fields, f) == fields + [f]
  {
  }

  // ---------------------------------------------------- what is hidden

  /** The values are the same but for what their non-blank secrets are. */
  ghost predicate SecretsApart(p: Policy, x: Json, y: Json)
    decreases x
  {
    match x
    case Obj(fields) =>
      y.Obj? && |y.fields| == |fields|
      && forall i :: 0 <= i < |fields| ==> SecretsApartField(p, fields[i], y.fields[i])
    case Arr(items) =>
      y.Arr? && |y.items| == |items| && forall i :: 0 <= i < |items| ==> SecretsApart(p, items[i], y.items[i])
    case _ => x == y
  }

  ghost predicate SecretsApartField(p: Policy, f: Field, g: Field)
    decreases f
  {
    && f.key == g.key
    && if p.sensitive(f.key) then f.value == g.value || (!Blank(f.value) && !Blank(g.value))
       else SecretsApart(p, f.value, g.value)
  }

  /** What a client is shown depends on a value exactly up to its non-blank secrets: two
      values look the same if and only if they differ in nothing else. */
  lemma {:induction false} SameViewExactly(p: Policy, x: Json, y: Json)
    ensures Mask(p, x) == Mask(p, y) <==> SecretsApart(p, x, y)
    decreases x
  {
    match x
    case Obj(fields) =>
      if y.Obj? && |y.fields| == |fields| {
        forall i | 0 <= i < |fields|
          ensures MaskField(p, fields[i]) == MaskField(p, y.fields[i])
                  <==> SecretsApartField(p, fields[i], y.fields[i])
        {
          SameFieldView(p, fields[i], y.fields[i]);
        }
        FieldsView(p, fields, y.fields);
      } else {
        assert |Mask(p, x).fields| == |fields|;
      }
    case Arr(items) =>
      if y.Arr? && |y.items| == |items| {
        forall i | 0 <= i < |items|
          ensures Mask(p, items[i]) == Mask(p, y.items[i]) <==> SecretsApart(p, items[i], y.items[i])
        {
          SameViewExactly(p, items[i], y.items[i]);
        }
        ItemsView(p, items, y.items);
      } else {
        assert |Mask(p, x).items| == |items|;
      }
    case _ =>
  }

  lemma FieldsView(p: Policy, a: seq<Field>, b: seq<Field>)
    requires |a| == |b|
    ensures Mask(p, Obj(a)) == Mask(p, Obj(b)) <==>
              forall i :: 0 <= i < |a| ==> MaskField(p, a[i]) == MaskField(p, b[i])
  {
    var m, n := Mask(p, Obj(a)).fields, Mask(p, Obj(b)).fields;
    if m == n {
      forall i | 0 <= i < |a|
        ensures MaskField(p, a[i]) == MaskField(p, b[i])
      {
        assert m[i] == n[i];
      }
    }
  }

  lemma ItemsView(p: Policy, a: seq<Json>, b: seq<Json>)
    requires |a| == |b|
    ensures Mask(p, Arr(a)) == Mask(p, Arr(b)) <==> forall i :: 0 <= i < |a| ==> Mask(p, a[i]) == Mask(p, b[i])
  {
    var m, n := Mask(p, Arr(a)).items, Mask(p, Arr(b)).items;
    if m == n {
      forall i | 0 <= i < |a|
        ensures Mask(p, a[i]) == Mask(p, b[i])
      {
        assert m[i] == n[i];
      }
    }
  }

  lemma {:induction false} SameFieldView(p: Policy, f: Field, g: Field)
    ensures MaskField(p, f) == MaskField(p, g) <==> SecretsApartField(p, f, g)
    decreases f, 0
  {
    SameViewExactly(p, f.value, g.value);
    if f.key == g.key && p.sensitive(f.key) && Blank(f.value) && Blank(g.value) {
      assert Mask(p, f.value) == f.value && Mask(p, g.value) == g.value;
    }
  }

  // ---------------------------------------------------------- round trip

  /** `m` is `x` with some of its non-blank secrets blanked or masked. */
  ghost predicate Veils(p: Policy, m: Json, x: Json)
    decreases m
  {
    match m
    case Obj(fields) => x.Obj? && |fields| == |x.fields|
      && forall i :: 0 <= i < |fields| ==> VeilsField(p, fields[i], x.fields[i])
    case Arr(items) => x.Arr? && |items| == |x.items| && forall i :: 0 <= i < |items| ==> Veils(p, items[i], x.items[i])
    case _ => m == x
  }

  ghost predicate VeilsField(p: Policy, f: Field, x: Field)
    decreases f
  {
    && f.key == x.key
    && ((p.sensitive(f.key) && x.value != Null && x.value != Str("")
         && (f.value == Null || f.value == Str("") || f.value == Str("********")))
        || Veils(p, f.value, x.value))
  }

  lemma {:induction false} MaskVeils(p: Policy, x: Json)
    ensures Veils(p, Mask(p, x), x)
    decreases x
  {
    match x
    case Obj(fields) =>
      forall i | 0 <= i < |fields|
        ensures VeilsField(p, MaskField(p, fields[i]), fields[i])
      {
        MaskVeils(p, fields[i].value);
      }
    case Arr(items) =>
      forall i | 0 <= i < |items|
        ensures Veils(p, Mask(p, items[i]), items[i])
      {
        MaskVeils(p, items[i]);
      }
    case _ =>
  }

  lemma {:induction false} VeilsMatches(p: Policy, m: Json, x: Json)
    requires Veils(p, m, x) && Wellformed(x)
    ensures Matches(p, m, x)
    decreases m
  {
    match m
    case Obj(fields) =>
      forall i | 0 <= i < |fields|
        ensures MatchesField(p, fields[i], Lookup(x.fields, fields[i].key))
        ensures Find(x.fields, fields[i].key).Some? && Find(fields, x.fields[i].key).Some?
      {
        assert VeilsField(p, fields[i], x.fields[i]) && WellformedField(x.fields[i]);
        LookupAt(x.fields, i);
        if !Kept(p, fields[i], x.fields[i].value) {
          VeilsMatches(p, fields[i].value, x.fields[i].value);
        }
      }
    case Arr(items) =>
      forall i | 0 <= i < |items|
        ensures Matches(p, items[i], x.items[i])
      {
        VeilsMatches(p, items[i], x.items[i]);
      }
    case _ =>
  }

  lemma {:induction false} UnveilField(p: Policy, f: Field, x: seq<Field>, i: nat)
    requires DistinctKeys(x) && i < |x| && WellformedField(x[i]) && VeilsField(p, f, x[i])
    ensures MergeField(p, f, x) == Ok(x[i])
    decreases f, 0
  {
    LookupAt(x, i);
    if !Kept(p, f, x[i].value) {
      match f.value
      case Obj(fields) =>
        UnveilFields(p, fields, x[i].value.fields, |fields|);
        Prefixes(x[i].value.fields, 0);
      case Arr(items) =>
        VeilsMatches(p, f.value, x[i].value);
        UnveilItems(p, items, x[i].value.items, |items|);
        Prefixes(x[i].value.items, 0);
      case _ =>
    }
  }

  lemma {:induction false} UnveilFields(p: Policy, m: seq<Field>, x: seq<Field>, n: nat)
    requires n <= |m| && Wellformed(Obj(x)) && Veils(p, Obj(m), Obj(x))
    ensures MergeFields(p, m, x, n) == Ok(x[..n])
    decreases m, n
  {
    Prefixes(x, n);
    if n > 0 {
      UnveilFields(p, m, x, n - 1);
      assert VeilsField(p, m[n - 1], x[n - 1]) && WellformedField(x[n - 1]);
      assert MergeField(p, m[n - 1], x) == Ok(x[n - 1]) by {
        UnveilField(p, m[n - 1], x, n - 1);
      }
      PutFresh(x[..n - 1], x[n - 1]);
    }
  }

  lemma {:induction false} UnveilItems(p: Policy, m: seq<Json>, x: seq<Json>, n: nat)
    requires n <= |m| && Wellformed(Arr(x)) && Veils(p, Arr(m), Arr(x))
    ensures MergeItems(p, m, x, n) == Ok(x[..n])
    decreases m, n
  {
    Prefixes(x, n);
    if n > 0 {
      UnveilItems(p, m, x, n - 1);
      assert Veils(p, m[n - 1], x[n - 1]) && Wellformed(x[n - 1]);
      match m[n - 1]
      case Obj(fields) =>
        UnveilFields(p, fields, x[n - 1].fields, |fields|);
        Prefixes(x[n - 1].fields, 0);
      case Arr(items) =>
        UnveilItems(p, items, x[n - 1].items, |items|);
        Prefixes(x[n - 1].items, 0);
      case _ =>
    }
  }

  /** A copy in which any of the secrets are masked or blanked restores the stored value. */
  lemma VeiledCopyRestores(p: Policy, m: seq<Field>, x: seq<Field>)
    requires Wellformed(Obj(x)) && Veils(p, Obj(m), Obj(x))
    ensures Merge(p, m, Obj(x)) == Ok(x)
  {
    UnveilFields(p, m, x, |m|);
    assert x[..|m|] == x;
  }

  /** Sending back what was shown is accepted and changes nothing, at any nesting. */
  lemma MaskThenMerge(p: Policy, x: seq<Field>)
    requires Wellformed(Obj(x))
    ensures Merge(p, Mask(p, Obj(x)).fields, Obj(x)) == Ok(x)
  {
    MaskVeils(p, Obj(x));
    VeiledCopyRestores(p, Mask(p, Obj(x)).fields, x);
  }

  // ------------------------------------------- the guard: matching lists

  /** Equality of values, where the order of an object's fields does not matter. */
  ghost predicate Same(a: Json, b: Json)
    decreases a
  {
    match a
    case Obj(fields) => b.Obj? && SameKeys(fields, b.fields)
      && forall i :: 0 <= i < |fields| ==> SameField(fields[i], b.fields)
    case Arr(items) => b.Arr? && |items| == |b.items| && forall i :: 0 <= i < |items| ==> Same(items[i], b.items[i])
    case _ => a == b
  }

  ghost predicate SameField(f: Field, b: seq<Field>)
    decreases f
  {
    Same(f.value, Lookup(b, f.key))
  }

  lemma {:induction false} SameReflexive(a: Json)
    requires Wellformed(a)
    ensures Same(a, a)
    decreases a
  {
    match a
    case Obj(fields) =>
      forall i | 0 <= i < |fields|
        ensures SameField(fields[i], fields) && Find(fields, fields[i].key).Some?
      {
        LookupAt(fields, i);
        assert WellformedField(fields[i]);
        SameReflexive(fields[i].value);
      }
    case Arr(items) =>
      forall i | 0 <= i < |items|
        ensures Same(items[i], items[i])
      {
        SameReflexive(items[i]);
      }
    case _ =>
  }

  lemma LookupWellformed(x: seq<Field>, key: string)
    requires Wellformed(Obj(x))
    ensures Wellformed(Lookup(x, key))
  {
    var i := Find(x, key);
    if i.Some? {
      assert WellformedField(x[i.value]);
    }
  }

  lemma {:induction false} MatchedField(p: Policy, f: Field, x: seq<Field>)
    requires Wellformed(Obj(x)) && Wellformed(f.value)
    requires Find(x, f.key).Some? && MatchesField(p, f, Lookup(x, f.key))
    ensures MergeField(p, f, x).Ok? && MergeField(p, f, x).value.key == f.key
    ensures SameField(MergeField(p, f, x).value, x)
    decreases f, 0
  {
    var stored := Lookup(x, f.key);
    LookupWellformed(x, f.key);
    if Kept(p, f, stored) {
      SameReflexive(stored);
    } else {
      match f.value
      case Obj(fields) => MatchedFields(p, fields, stored.fields);
      case Arr(items) => MatchedItems(p, items, stored.items, |items|);
      case _ =>
    }
  }

  /** The first `n` results carry the incoming keys and the stored values. */
  ghost predicate Restored(r: seq<Field>, m: seq<Field>, x: seq<Field>, n: nat)
    requires n <= |m|
  {
    |r| == n && forall i :: 0 <= i < n ==> r[i].key == m[i].key && SameField(r[i], x)
  }

  lemma RestoredNext(r: seq<Field>, m: seq<Field>, x: seq<Field>, n: nat, f: Field)
    requires n < |m| && Restored(r, m, x, n) && DistinctKeys(m)
    requires f.key == m[n].key && SameField(f, x)
    ensures Restored(Put(r, f), m, x, n + 1)
  {
    PutFresh(r, f);
  }

  lemma {:induction false} MatchedPrefix(p: Policy, m: seq<Field>, x: seq<Field>, n: nat)
    requires n <= |m| && Wellformed(Obj(x)) && Wellformed(Obj(m)) && Matches(p, Obj(m), Obj(x))
    ensures MergeFields(p, m, x, n).Ok? && Restored(MergeFields(p, m, x, n).value, m, x, n)
    decreases m, n
  {
    if n > 0 {
      MatchedPrefix(p, m, x, n - 1);
      assert WellformedField(m[n - 1]) && MatchesField(p, m[n - 1], Lookup(x, m[n - 1].key));
      MatchedField(p, m[n - 1], x);
      RestoredNext(MergeFields(p, m, x, n - 1).value, m, x, n - 1, MergeField(p, m[n - 1], x).value);
    }
  }

  lemma {:induction false} MatchedFields(p: Policy, m: seq<Field>, x: seq<Field>)
    requires Wellformed(Obj(x)) && Wellformed(Obj(m)) && Matches(p, Obj(m), Obj(x))
    ensures var r := MergeFields(p, m, x, |m|);
            r.Ok? && Same(Obj(r.value), Obj(x))
    decreases m, |m| + 1
  {
    MatchedPrefix(p, m, x, |m|);
    var r := MergeFields(p, m, x, |m|).value;
    forall i | 0 <= i < |x|
      ensures Find(r, x[i].key).Some?
    {
      var j := Find(m, x[i].key).value;
      assert r[j].key == x[i].key;
    }
  }

  lemma {:induction false} MatchedItems(p: Policy, m: seq<Json>, x: seq<Json>, n: nat)
    requires n <= |m| && Wellformed(Arr(x)) && Wellformed(Arr(m)) && Matches(p, Arr(m), Arr(x))
    ensures var r := MergeItems(p, m, x, n);
            r.Ok? && forall i :: 0 <= i < n ==> Same(r.value[i], x[i])
    decreases m, n
  {
    if n > 0 {
      MatchedItems(p, m, x, n - 1);
      assert Matches(p, m[n - 1], x[n - 1]) && Wellformed(m[n - 1]) && Wellformed(x[n - 1]);
      match m[n - 1]
      case Obj(fields) => MatchedFields(p, fields, x[n - 1].fields);
      case Arr(items) => MatchedItems(p, items, x[n - 1].items, |items|);
      case _ =>
    }
  }

  // -------------------------------------- the guard: lists without placeholders

  /** No incoming spelling is an alias of a differently spelled stored key, at any depth. */
  ghost predicate ExactField(p: Policy, f: Field, existing: seq<Field>)
    decreases f
  {
    Resolve(p, existing, f.key) == f.key && Exact(p, f.value, Lookup(existing, f.key))
  }

  ghost predicate Exact(p: Policy, v: Json, existing: Json)
    decreases v
  {
    match v
    case Obj(fields) => forall i :: 0 <= i < |fields| ==> ExactField(p, fields[i], FieldsOf(existing))
    case Arr(items) => forall i :: 0 <= i < |items| ==> Exact(p, items[i], At(ItemsOf(existing), i))
    case _ => true
  }

  lemma {:induction false} PlainField(p: Policy, f: Field, existing: seq<Field>)
    requires ExactField(p, f, existing) && !ContainsField(p, f, existing) && Wellformed(f.value)
    requires MergeField(p, f, existing).Ok?
    ensures MergeField(p, f, existing) == Ok(f)
    decreases f, 0
  {
    var stored := Lookup(existing, f.key);
    match f.value
    case Obj(fields) =>
      PlainFields(p, fields, stored, |fields|);
      Prefixes(fields, 0);
    case Arr(items) =>
      PlainItems(p, items, stored, |items|);
      Prefixes(items, 0);
    case _ =>
  }

  lemma {:induction false} PlainFields(p: Policy, m: seq<Field>, existing: Json, n: nat)
    requires n <= |m| && Wellformed(Obj(m)) && Exact(p, Obj(m), existing) && !Contains(p, Obj(m), existing)
    ensures MergeFields(p, m, FieldsOf(existing), n).Ok? ==> MergeFields(p, m, FieldsOf(existing), n) == Ok(m[..n])
    decreases m, n
  {
    Prefixes(m, n);
    if n > 0 {
      PlainFields(p, m, existing, n - 1);
      assert ExactField(p, m[n - 1], FieldsOf(existing)) && WellformedField(m[n - 1]);
      assert !ContainsField(p, m[n - 1], FieldsOf(existing));
      if MergeField(p, m[n - 1], FieldsOf(existing)).Ok? {
        PlainField(p, m[n - 1], FieldsOf(existing));
        PutFresh(m[..n - 1], m[n - 1]);
      }
    }
  }

  lemma {:induction false} PlainItems(p: Policy, m: seq<Json>, existing: Json, n: nat)
    requires n <= |m| && Wellformed(Arr(m)) && Exact(p, Arr(m), existing) && !Contains(p, Arr(m), existing)
    ensures MergeItems(p, m, ItemsOf(existing), n).Ok? ==> MergeItems(p, m, ItemsOf(existing), n) == Ok(m[..n])
    decreases m, n
  {
    Prefixes(m, n);
    if n > 0 {
      PlainItems(p, m, existing, n - 1);
      var stored := At(ItemsOf(existing), n - 1);
      assert Exact(p, m[n - 1], stored) && !Contains(p, m[n - 1], stored) && Wellformed(m[n - 1]);
      match m[n - 1]
      case Obj(fields) =>
        PlainFields(p, fields, stored, |fields|);
        Prefixes(fields, 0);
      case Arr(items) =>
        PlainItems(p, items, stored, |items|);
        Prefixes(items, 0);
      case _ =>
    }
  }

  /** An accepted list is either free of placeholders and stored as sent, or it matches the
      stored list under masking and the stored list is kept; never a mixture. */
  lemma ListGuardAllOrNothing(p: Policy, f: Field, existing: seq<Field>)
    requires f.value.Arr? && Wellformed(f.value) && Wellformed(Obj(existing)) && ExactField(p, f, existing)
    requires !Kept(p, f, Lookup(existing, f.key)) && MergeField(p, f, existing).Ok?
    ensures var stored := Arr(ItemsOf(Lookup(existing, f.key)));
            var r := MergeField(p, f, existing).value;
            && r.key == f.key
            && (if Contains(p, f.value, stored) then Matches(p, f.value, stored) && Same(r.value, stored)
                else r.value == f.value)
  {
    LookupWellformed(existing, f.key);
    var stored := Arr(ItemsOf(Lookup(existing, f.key)));
    if Contains(p, f.value, stored) {
      MatchedItems(p, f.value.items, stored.items, |f.value.items|);
    } else {
      PlainItems(p, f.value.items, stored, |f.value.items|);
      Prefixes(f.value.items, 0);
    }
  }
}
