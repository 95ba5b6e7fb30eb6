/** When a merge is accepted, and why it is refused otherwise. */
module SecretMaskAccepts {
  import opened Wrappers
  import opened SecretMask
  import opened SecretMaskTheorems

  ghost predicate IsFirstAlias(p: Policy, existing: seq<Field>, key: string, i: int) {
    && 0 <= i < |existing| && p.normalize(existing[i].key) == p.normalize(key)
    && forall j :: 0 <= j < i ==> p.normalize(existing[j].key) != p.normalize(key)
  }

  /** Where a sent key is stored: under itself if it is a stored key, else under the first
      stored key with the same normal form, else as a new key. */
  lemma {:induction false} ResolvesToFirst(p: Policy, existing: seq<Field>, key: string)
    ensures (exists i :: 0 <= i < |existing| && existing[i].key == key) ==> Resolve(p, existing, key) == key
    ensures (forall i :: 0 <= i < |existing| ==>
               existing[i].key != key && p.normalize(existing[i].key) != p.normalize(key)) ==>
              Resolve(p, existing, key) == key
    ensures (forall j :: 0 <= j < |existing| ==> existing[j].key != key) ==>
              forall i :: IsFirstAlias(p, existing, key, i) ==> Resolve(p, existing, key) == existing[i].key
  {
    forall i | IsFirstAlias(p, existing, key, i)
      ensures Alias(p, existing, key) == existing[i].key
    {
      FirstAlias(p, existing, key, i);
    }
  }

  lemma {:induction false} FirstAlias(p: Policy, existing: seq<Field>, key: string, i: nat)
    requires IsFirstAlias(p, existing, key, i)
    ensures Alias(p, existing, key) == existing[i].key
  {
    if i > 0 {
      FirstAlias(p, existing[1..], key, i - 1);
    }
  }

  // --------------------------------------------------- what is refused

  /** At some depth a masked value is sent where none is stored. */
  ghost predicate LacksValue(p: Policy, v: Json, existing: Json)
    decreases v
  {
    match v
    case Obj(fields) => exists i :: 0 <= i < |fields| && LacksValueField(p, fields[i], FieldsOf(existing))
    case Arr(items) => exists i :: 0 <= i < |items| && LacksValue(p, items[i], At(ItemsOf(existing), i))
    case _ => false
  }

  ghost predicate LacksValueField(p: Policy, f: Field, existing: seq<Field>)
    decreases f
  {
    var stored := Lookup(existing, Resolve(p, existing, f.key));
    || (f.value == Str("********") && (stored == Null || stored == Str("")))
    || (!Kept(p, f, stored) && LacksValue(p, f.value, stored))
  }

  /** At some depth a list with placeholders is sent that is not the stored list as shown. */
  ghost predicate EditsList(p: Policy, v: Json, existing: Json)
    decreases v
  {
    match v
    case Obj(fields) => exists i :: 0 <= i < |fields| && EditsListField(p, fields[i], FieldsOf(existing))
    case Arr(items) => exists i :: 0 <= i < |items| && EditsList(p, items[i], At(ItemsOf(existing), i))
    case _ => false
  }

  ghost predicate EditsListField(p: Policy, f: Field, existing: seq<Field>)
    decreases f
  {
    var stored := Lookup(existing, Resolve(p, existing, f.key));
    && !Kept(p, f, stored)
    && (EditsList(p, f.value, stored)
        || (f.value.Arr?
            && Contains(p, f.value, Arr(ItemsOf(stored))) && !Matches(p, f.value, Arr(ItemsOf(stored)))))
  }

  /** The error names a reason that is there. */
  predicate Explained(e: MergeError, lacks: bool, edits: bool) {
    match e
    case MaskedWithoutValue => lacks
    case ListEdited => edits
  }

  /** What is known about a result once its reasons for refusal are. */
  ghost predicate RefusedFor<T>(r: Result<T, MergeError>, lacks: bool, edits: bool) {
    && (r.Err? <==> lacks || edits)
    && (r.Err? ==> Explained(r.error, lacks, edits))
  }

  lemma ObjectField(p: Policy, f: Field, x: seq<Field>, stored: Json)
    requires stored == Lookup(x, Resolve(p, x, f.key)) && !Kept(p, f, stored) && f.value.Obj?
    requires RefusedFor(MergeFields(p, f.value.fields, FieldsOf(stored), |f.value.fields|),
                        LacksValue(p, f.value, stored), EditsList(p, f.value, stored))
    ensures RefusedFor(MergeField(p, f, x), LacksValueField(p, f, x), EditsListField(p, f, x))
  {
  }

  lemma ListField(p: Policy, f: Field, x: seq<Field>, stored: Json)
    requires stored == Lookup(x, Resolve(p, x, f.key)) && !Kept(p, f, stored) && f.value.Arr?
    requires RefusedFor(MergeItems(p, f.value.items, ItemsOf(stored), |f.value.items|),
                        LacksValue(p, f.value, stored), EditsList(p, f.value, stored))
    ensures RefusedFor(MergeField(p, f, x), LacksValueField(p, f, x), EditsListField(p, f, x))
  {
  }

  lemma {:induction false} FieldRefused(p: Policy, f: Field, x: seq<Field>)
    ensures RefusedFor(MergeField(p, f, x), LacksValueField(p, f, x), EditsListField(p, f, x))
    decreases f, 0
  {
    var stored := Lookup(x, Resolve(p, x, f.key));
    if !Kept(p, f, stored) {
      match f.value
      case Obj(fields) =>
        FieldsRefused(p, fields, FieldsOf(stored), |fields|);
        assert LacksValue(p, f.value, stored) <==> SomeFieldLacks(p, fields, FieldsOf(stored), |fields|);
        assert EditsList(p, f.value, stored) <==> SomeFieldEdits(p, fields, FieldsOf(stored), |fields|);
        ObjectField(p, f, x, stored);
      case Arr(items) =>
        ItemsRefused(p, items, ItemsOf(stored), |items|);
        assert LacksValue(p, f.value, stored) <==> SomeItemLacks(p, items, ItemsOf(stored), |items|);
        assert EditsList(p, f.value, stored) <==> SomeItemEdits(p, items, ItemsOf(stored), |items|);
        ListField(p, f, x, stored);
      case _ =>
    }
  }

  ghost predicate SomeFieldLacks(p: Policy, m: seq<Field>, x: seq<Field>, n: nat)
    requires n <= |m|
  {
    exists i :: 0 <= i < n && LacksValueField(p, m[i], x)
  }

  ghost predicate SomeFieldEdits(p: Policy, m: seq<Field>, x: seq<Field>, n: nat)
    requires n <= |m|
  {
    exists i :: 0 <= i < n && EditsListField(p, m[i], x)
  }

  lemma SomeFieldNext(p: Policy, m: seq<Field>, x: seq<Field>, n: nat)
    requires 0 < n <= |m|
    ensures SomeFieldLacks(p, m, x, n) <==> SomeFieldLacks(p, m, x, n - 1) || LacksValueField(p, m[n - 1], x)
    ensures SomeFieldEdits(p, m, x, n) <==> SomeFieldEdits(p, m, x, n - 1) || EditsListField(p, m[n - 1], x)
  {
  }

  lemma {:induction false} FieldsRefused(p: Policy, m: seq<Field>, x: seq<Field>, n: nat)
    requires n <= |m|
    ensures RefusedFor(MergeFields(p, m, x, n), SomeFieldLacks(p, m, x, n), SomeFieldEdits(p, m, x, n))
    decreases m, n
  {
    if n > 0 {
      FieldsRefused(p, m, x, n - 1);
      FieldRefused(p, m[n - 1], x);
      SomeFieldNext(p, m, x, n);
    }
  }

  ghost predicate SomeItemLacks(p: Policy, m: seq<Json>, x: seq<Json>, n: nat)
    requires n <= |m|
  {
    exists i :: 0 <= i < n && LacksValue(p, m[i], At(x, i))
  }

  ghost predicate SomeItemEdits(p: Policy, m: seq<Json>, x: seq<Json>, n: nat)
    requires n <= |m|
  {
    exists i :: 0 <= i < n && EditsList(p, m[i], At(x, i))
  }

  lemma SomeItemNext(p: Policy, m: seq<Json>, x: seq<Json>, n: nat)
    requires 0 < n <= |m|
    ensures SomeItemLacks(p, m, x, n) <==> SomeItemLacks(p, m, x, n - 1) || LacksValue(p, m[n - 1], At(x, n - 1))
    ensures SomeItemEdits(p, m, x, n) <==> SomeItemEdits(p, m, x, n - 1) || EditsList(p, m[n - 1], At(x, n - 1))
  {
  }

  lemma {:induction false} ItemRefused(p: Policy, item: Json, existing: Json)
    ensures RefusedFor(MergeItem(p, item, existing), LacksValue(p, item, existing), EditsList(p, item, existing))
    decreases item, 0
  {
    match item
    case Obj(fields) =>
      FieldsRefused(p, fields, FieldsOf(existing), |fields|);
      assert LacksValue(p, item, existing) <==> SomeFieldLacks(p, fields, FieldsOf(existing), |fields|);
      assert EditsList(p, item, existing) <==> SomeFieldEdits(p, fields, FieldsOf(existing), |fields|);
    case Arr(items) =>
      ItemsRefused(p, items, ItemsOf(existing), |items|);
      assert LacksValue(p, item, existing) <==> SomeItemLacks(p, items, ItemsOf(existing), |items|);
      assert EditsList(p, item, existing) <==> SomeItemEdits(p, items, ItemsOf(existing), |items|);
    case _ =>
  }

  lemma {:induction false} ItemsRefused(p: Policy, m: seq<Json>, x: seq<Json>, n: nat)
    requires n <= |m|
    ensures RefusedFor(MergeItems(p, m, x, n), SomeItemLacks(p, m, x, n), SomeItemEdits(p, m, x, n))
    decreases m, n
  {
    if n > 0 {
      ItemsRefused(p, m, x, n - 1);
      ItemRefused(p, m[n - 1], At(x, n - 1));
      SomeItemNext(p, m, x, n);
    }
  }

  /** A merge is refused exactly when a masked value has nothing to keep or a list with
      placeholders was edited, and the error names one that is there. */
  lemma RefusedExactly(p: Policy, m: seq<Field>, existing: Json)
    ensures Merge(p, m, existing).Err? <==>
              LacksValue(p, Obj(m), existing) || EditsList(p, Obj(m), existing)
    ensures Merge(p, m, existing) == Err(MaskedWithoutValue) ==> LacksValue(p, Obj(m), existing)
    ensures Merge(p, m, existing) == Err(ListEdited) ==> EditsList(p, Obj(m), existing)
  {
    FieldsRefused(p, m, FieldsOf(existing), |m|);
  }

  // ------------------------------------------------- sending everything

  /** No key carries the mask, and no sensitive key is blank. */
  ghost predicate FullySpelled(p: Policy, v: Json)
    decreases v
  {
    match v
    case Obj(fields) => forall i :: 0 <= i < |fields| ==> FullySpelledField(p, fields[i])
    case Arr(items) => forall i :: 0 <= i < |items| ==> FullySpelled(p, items[i])
    case _ => true
  }

  ghost predicate FullySpelledField(p: Policy, f: Field)
    decreases f
  {
    && f.value != Str("********")
    && !(p.sensitive(f.key) && (f.value == Null || f.value == Str("")))
    && FullySpelled(p, f.value)
  }

  lemma {:induction false} FullySpelledIsPlain(p: Policy, v: Json, existing: Json)
    requires FullySpelled(p, v)
    ensures !Contains(p, v, existing) && !LacksValue(p, v, existing) && !EditsList(p, v, existing)
    decreases v
  {
    match v
    case Obj(fields) =>
      var x := FieldsOf(existing);
      forall i | 0 <= i < |fields|
        ensures !ContainsField(p, fields[i], x) && !LacksValueField(p, fields[i], x)
        ensures !EditsListField(p, fields[i], x)
      {
        assert FullySpelledField(p, fields[i]);
        var stored := Lookup(x, Resolve(p, x, fields[i].key));
        FullySpelledIsPlain(p, fields[i].value, stored);
        if fields[i].value.Arr? {
          FullySpelledIsPlain(p, fields[i].value, Arr(ItemsOf(stored)));
        }
      }
    case Arr(items) =>
      forall i | 0 <= i < |items|
        ensures !Contains(p, items[i], At(ItemsOf(existing), i)) && !LacksValue(p, items[i], At(ItemsOf(existing), i))
        ensures !EditsList(p, items[i], At(ItemsOf(existing), i))
      {
        FullySpelledIsPlain(p, items[i], At(ItemsOf(existing), i));
      }
    case _ =>
  }

  /** An object that spells out every secret replaces the stored one, lists included,
      whatever is stored, as long as no key is an alias of a stored one. */
  lemma SpelledOutReplaces(p: Policy, m: seq<Field>, existing: Json)
    requires Wellformed(Obj(m)) && FullySpelled(p, Obj(m)) && Exact(p, Obj(m), existing)
    ensures Merge(p, m, existing) == Ok(m)
  {
    FullySpelledIsPlain(p, Obj(m), existing);
    RefusedExactly(p, m, existing);
    PlainFields(p, m, existing, |m|);
    assert m[..|m|] == m;
  }
}
