/** When an accepted merge leaves no placeholder behind, and when merging its result again
    changes nothing: the exact conditions on what is sent and what is stored. */
module SecretMaskLeaks {
  import opened Wrappers
  import opened SecretMask
  import opened SecretMaskTheorems

  /** No sensitive key carries the literal placeholder, at any depth. */
  ghost predicate Clean(p: Policy, v: Json)
    decreases v
  {
    match v
    case Obj(fields) => forall i :: 0 <= i < |fields| ==> CleanField(p, fields[i])
    case Arr(items) => forall i :: 0 <= i < |items| ==> Clean(p, items[i])
    case _ => true
  }

  ghost predicate CleanField(p: Policy, f: Field)
    decreases f
  {
    !(p.sensitive(f.key) && f.value == Str(MASK)) && Clean(p, f.value)
  }

  lemma LookupClean(p: Policy, x: seq<Field>, key: string)
    requires Wellformed(Obj(x)) && Clean(p, Obj(x))
    ensures Wellformed(Lookup(x, key)) && Clean(p, Lookup(x, key))
    ensures p.sensitive(key) ==> Lookup(x, key) != Str(MASK)
  {
    var i := Find(x, key);
    if i.Some? {
      assert WellformedField(x[i.value]) && CleanField(p, x[i.value]);
    }
  }

  lemma NestedClean(p: Policy, v: Json)
    requires Wellformed(v) && Clean(p, v)
    ensures Wellformed(Obj(FieldsOf(v))) && Clean(p, Obj(FieldsOf(v)))
    ensures Wellformed(Arr(ItemsOf(v))) && Clean(p, Arr(ItemsOf(v)))
  {
  }

  // ------------------------------------------------- who writes what

  /** Assigning the first `n` fields in turn. */
  ghost function Assigned(out: seq<Field>, n: nat): seq<Field>
    requires n <= |out|
  {
    if n == 0 then [] else Put(Assigned(out, n - 1), out[n - 1])
  }

  ghost predicate LastOfKey(out: seq<Field>, i: int, n: nat)
    requires n <= |out|
  {
    0 <= i < n && forall j :: i < j < n ==> out[j].key != out[i].key
  }

  lemma PutMembers(fields: seq<Field>, g: Field)
    requires DistinctKeys(fields)
    ensures DistinctKeys(Put(fields, g))
    ensures forall f :: f in Put(fields, g) <==> f == g || (f in fields && f.key != g.key)
  {
    var r, i := Put(fields, g), Find(fields, g.key);
    if i.Some? {
      assert r[i.value] == g;
      forall f
        ensures f in r <==> f == g || (f in fields && f.key != g.key)
      {
        if f in fields && f.key != g.key {
          var j :| 0 <= j < |fields| && fields[j] == f;
          assert r[j] == f;
        }
      }
    }
  }

  ghost predicate AssignedTo(out: seq<Field>, n: nat, f: Field)
    requires n <= |out|
  {
    exists i :: LastOfKey(out, i, n) && out[i] == f
  }

  lemma LastOfKeyNext(out: seq<Field>, i: int, n: nat)
    requires 0 < n <= |out|
    ensures LastOfKey(out, i, n) <==> i == n - 1 || (LastOfKey(out, i, n - 1) && out[i].key != out[n - 1].key)
  {
  }

  lemma AssignedNext(out: seq<Field>, n: nat, f: Field)
    requires 0 < n <= |out|
    ensures AssignedTo(out, n, f) <==> f == out[n - 1] || (AssignedTo(out, n - 1, f) && f.key != out[n - 1].key)
  {
    if AssignedTo(out, n, f) {
      var i :| LastOfKey(out, i, n) && out[i] == f;
      LastOfKeyNext(out, i, n);
    }
    LastOfKeyNext(out, n - 1, n);
    if AssignedTo(out, n - 1, f) && f.key != out[n - 1].key {
      var i :| LastOfKey(out, i, n - 1) && out[i] == f;
      LastOfKeyNext(out, i, n);
    }
  }

  /** The object holds exactly the fields that were the last assigned to their keys. */
  lemma {:induction false} AssignedLast(out: seq<Field>, n: nat)
    requires n <= |out|
    ensures DistinctKeys(Assigned(out, n))
    ensures forall f :: f in Assigned(out, n) <==> AssignedTo(out, n, f)
  {
    if n > 0 {
      AssignedLast(out, n - 1);
      PutMembers(Assigned(out, n - 1), out[n - 1]);
      forall f
        ensures f in Assigned(out, n) <==> AssignedTo(out, n, f)
      {
        AssignedNext(out, n, f);
      }
    }
  }

  /** What each incoming field is merged to. */
  ghost predicate Results(p: Policy, m: seq<Field>, x: seq<Field>, out: seq<Field>) {
    && |out| == |m|
    && forall i :: 0 <= i < |m| ==> MergeField(p, m[i], x) == Ok(out[i])
  }

  lemma {:induction false} AcceptedField(p: Policy, m: seq<Field>, x: seq<Field>, n: nat, i: nat)
    requires i < n <= |m| && MergeFields(p, m, x, n).Ok?
    ensures MergeField(p, m[i], x).Ok? && MergeField(p, m[i], x).value.key == Resolve(p, x, m[i].key)
  {
    if i < n - 1 {
      AcceptedField(p, m, x, n - 1, i);
    }
  }

  lemma {:induction false} MergeAssigns(p: Policy, m: seq<Field>, x: seq<Field>, out: seq<Field>, n: nat)
    requires n <= |m| && Results(p, m, x, out) && MergeFields(p, m, x, n).Ok?
    ensures MergeFields(p, m, x, n).value == Assigned(out, n)
  {
    if n > 0 {
      MergeAssigns(p, m, x, out, n - 1);
    }
  }

  /** Field `i` of the incoming object is the last that is stored under its key. */
  ghost predicate LastWord(p: Policy, m: seq<Field>, x: seq<Field>, i: int) {
    0 <= i < |m| && forall j :: i < j < |m| ==> Resolve(p, x, m[j].key) != Resolve(p, x, m[i].key)
  }

  /** An accepted object holds exactly the results of the fields with the last word. */
  lemma {:induction false} Writers(p: Policy, m: seq<Field>, x: seq<Field>) returns (out: seq<Field>)
    requires MergeFields(p, m, x, |m|).Ok?
    ensures |out| == |m| && forall i :: 0 <= i < |m| ==> MergeField(p, m[i], x) == Ok(out[i])
    ensures forall i :: 0 <= i < |m| ==> out[i].key == Resolve(p, x, m[i].key)
    ensures DistinctKeys(MergeFields(p, m, x, |m|).value)
    ensures forall f :: f in MergeFields(p, m, x, |m|).value <==> exists i :: LastWord(p, m, x, i) && out[i] == f
  {
    forall i | 0 <= i < |m|
      ensures MergeField(p, m[i], x).Ok? && MergeField(p, m[i], x).value.key == Resolve(p, x, m[i].key)
    {
      AcceptedField(p, m, x, |m|, i);
    }
    out := seq(|m|, i requires 0 <= i < |m| => MergeField(p, m[i], x).value);
    MergeAssigns(p, m, x, out, |m|);
    AssignedLast(out, |m|);
    assert forall i :: LastWord(p, m, x, i) <==> LastOfKey(out, i, |m|);
  }

  lemma {:induction false} AcceptedItems(p: Policy, m: seq<Json>, x: seq<Json>, n: nat)
    requires n <= |m| && MergeItems(p, m, x, n).Ok?
    ensures forall i :: 0 <= i < n ==> MergeItem(p, m[i], At(x, i)) == Ok(MergeItems(p, m, x, n).value[i])
  {
    if n > 0 {
      AcceptedItems(p, m, x, n - 1);
    }
  }

  // ------------------------------------------------- what slips through

  /** The incoming value asks to keep the stored one; `blanks` counts blank values too. */
  predicate Veil(v: Json, blanks: bool) {
    v == Str(MASK) || (blanks && Blank(v))
  }

  /** A placeholder for a stored secret has the last word on its key, but its own spelling
      of the key does not count as sensitive; or the same at some depth. */
  ghost predicate Slips(p: Policy, v: Json, existing: Json, blanks: bool)
    decreases v
  {
    match v
    case Obj(fields) =>
      exists i :: LastWord(p, fields, FieldsOf(existing), i)
        && SlipsField(p, fields[i], FieldsOf(existing), blanks)
    case Arr(items) => exists i :: 0 <= i < |items| && Slips(p, items[i], At(ItemsOf(existing), i), blanks)
    case _ => false
  }

  ghost predicate SlipsField(p: Policy, f: Field, existing: seq<Field>, blanks: bool)
    decreases f
  {
    var key := Resolve(p, existing, f.key);
    var stored := Lookup(existing, key);
    && !Kept(p, f, stored)
    && ((p.sensitive(key) && Veil(f.value, blanks) && !Blank(stored)) || Slips(p, f.value, stored, blanks))
  }

  // -------------------------------------------------- exactly when clean

  lemma {:induction false} FieldClean(p: Policy, f: Field, x: seq<Field>)
    requires Wellformed(Obj(x)) && Clean(p, Obj(x)) && MergeField(p, f, x).Ok?
    ensures CleanField(p, MergeField(p, f, x).value) <==> !SlipsField(p, f, x, false)
    decreases f, 0
  {
    var key := Resolve(p, x, f.key);
    var stored := Lookup(x, key);
    LookupClean(p, x, key);
    NestedClean(p, stored);
    if !Kept(p, f, stored) {
      match f.value
      case Obj(fields) => FieldsClean(p, fields, FieldsOf(stored), stored);
      case Arr(items) => ItemsClean(p, items, ItemsOf(stored), stored);
      case _ =>
    }
  }

  lemma {:induction false} FieldsClean(p: Policy, m: seq<Field>, x: seq<Field>, existing: Json)
    requires Wellformed(Obj(x)) && Clean(p, Obj(x)) && MergeFields(p, m, x, |m|).Ok? && x == FieldsOf(existing)
    ensures Clean(p, Obj(MergeFields(p, m, x, |m|).value)) <==> !Slips(p, Obj(m), existing, false)
    decreases m, 0
  {
    var out := Writers(p, m, x);
    forall i | 0 <= i < |m|
      ensures CleanField(p, out[i]) <==> !SlipsField(p, m[i], x, false)
    {
      FieldClean(p, m[i], x);
    }
    CleanByWriters(p, m, x, out, existing);
  }

  lemma CleanByWriters(p: Policy, m: seq<Field>, x: seq<Field>, out: seq<Field>, existing: Json)
    requires |out| == |m| && x == FieldsOf(existing) && MergeFields(p, m, x, |m|).Ok?
    requires forall i :: 0 <= i < |m| ==> (CleanField(p, out[i]) <==> !SlipsField(p, m[i], x, false))
    requires forall f :: f in MergeFields(p, m, x, |m|).value <==> exists i :: LastWord(p, m, x, i) && out[i] == f
    ensures Clean(p, Obj(MergeFields(p, m, x, |m|).value)) <==> !Slips(p, Obj(m), existing, false)
  {
    var r := MergeFields(p, m, x, |m|).value;
    if i :| LastWord(p, m, x, i) && SlipsField(p, m[i], x, false) {
      assert out[i] in r;
    }
    if k :| 0 <= k < |r| && !CleanField(p, r[k]) {
      assert r[k] in r;
      var i :| LastWord(p, m, x, i) && out[i] == r[k];
      assert SlipsField(p, m[i], x, false);
    }
  }

  lemma {:induction false} ItemsClean(p: Policy, m: seq<Json>, x: seq<Json>, existing: Json)
    requires Wellformed(Arr(x)) && Clean(p, Arr(x)) && MergeItems(p, m, x, |m|).Ok? && x == ItemsOf(existing)
    ensures Clean(p, Arr(MergeItems(p, m, x, |m|).value)) <==> !Slips(p, Arr(m), existing, false)
    decreases m, 0
  {
    AcceptedItems(p, m, x, |m|);
    forall i | 0 <= i < |m|
      ensures Clean(p, MergeItems(p, m, x, |m|).value[i]) <==> !Slips(p, m[i], At(x, i), false)
    {
      var stored := At(x, i);
      assert Wellformed(stored) && Clean(p, stored);
      NestedClean(p, stored);
      match m[i]
      case Obj(fields) => FieldsClean(p, fields, FieldsOf(stored), stored);
      case Arr(items) => ItemsClean(p, items, ItemsOf(stored), stored);
      case _ =>
    }
  }

  // --------------------------------------- exactly when nothing changes

  /** Merging `v` onto `existing` has nothing to do: keys are spelled as stored, nothing is
      to be kept, and no placeholder lacks a value. */
  ghost predicate Settled(p: Policy, v: Json, existing: Json)
    decreases v
  {
    match v
    case Obj(fields) => forall i :: 0 <= i < |fields| ==> SettledField(p, fields[i], FieldsOf(existing))
    case Arr(items) => forall i :: 0 <= i < |items| ==> Settled(p, items[i], At(ItemsOf(existing), i))
    case _ => true
  }

  ghost predicate SettledField(p: Policy, f: Field, existing: seq<Field>)
    decreases f
  {
    var stored := Lookup(existing, f.key);
    && Resolve(p, existing, f.key) == f.key
    && !(f.value == Str(MASK) && Blank(stored))
    && !Kept(p, f, stored)
    && Settled(p, f.value, stored)
  }

  lemma {:induction false} SelfSettled(p: Policy, x: Json)
    requires Wellformed(x) && Clean(p, x)
    ensures Settled(p, x, x)
    decreases x
  {
    match x
    case Obj(fields) =>
      forall i | 0 <= i < |fields|
        ensures SettledField(p, fields[i], fields)
      {
        assert WellformedField(fields[i]) && CleanField(p, fields[i]);
        LookupAt(fields, i);
        SelfSettled(p, fields[i].value);
      }
    case Arr(items) =>
      forall i | 0 <= i < |items|
        ensures Settled(p, items[i], items[i])
      {
        SelfSettled(p, items[i]);
      }
    case _ =>
  }

  lemma ResolveTwice(p: Policy, existing: seq<Field>, key: string)
    ensures Resolve(p, existing, Resolve(p, existing, key)) == Resolve(p, existing, key)
    ensures p.normalize(Resolve(p, existing, key)) == p.normalize(key)
  {
  }

  lemma {:induction false} FieldSettled(p: Policy, f: Field, x: seq<Field>)
    requires Wellformed(Obj(x)) && Clean(p, Obj(x)) && MergeField(p, f, x).Ok?
    ensures SettledField(p, MergeField(p, f, x).value, x) <==> !SlipsField(p, f, x, true)
    decreases f, 0
  {
    var key := Resolve(p, x, f.key);
    var stored := Lookup(x, key);
    ResolveTwice(p, x, f.key);
    LookupClean(p, x, key);
    NestedClean(p, stored);
    if Kept(p, f, stored) {
      SelfSettled(p, stored);
    } else {
      match f.value
      case Obj(fields) => FieldsSettled(p, fields, FieldsOf(stored), stored);
      case Arr(items) => ItemsSettled(p, items, ItemsOf(stored), stored);
      case _ =>
    }
  }

  lemma {:induction false} FieldsSettled(p: Policy, m: seq<Field>, x: seq<Field>, existing: Json)
    requires Wellformed(Obj(x)) && Clean(p, Obj(x)) && MergeFields(p, m, x, |m|).Ok? && x == FieldsOf(existing)
    ensures Settled(p, Obj(MergeFields(p, m, x, |m|).value), existing) <==> !Slips(p, Obj(m), existing, true)
    decreases m, 0
  {
    var out := Writers(p, m, x);
    forall i | 0 <= i < |m|
      ensures SettledField(p, out[i], x) <==> !SlipsField(p, m[i], x, true)
    {
      FieldSettled(p, m[i], x);
    }
    SettledByWriters(p, m, x, out, existing);
  }

  lemma SettledByWriters(p: Policy, m: seq<Field>, x: seq<Field>, out: seq<Field>, existing: Json)
    requires |out| == |m| && x == FieldsOf(existing) && MergeFields(p, m, x, |m|).Ok?
    requires forall i :: 0 <= i < |m| ==> (SettledField(p, out[i], x) <==> !SlipsField(p, m[i], x, true))
    requires forall f :: f in MergeFields(p, m, x, |m|).value <==> exists i :: LastWord(p, m, x, i) && out[i] == f
    ensures Settled(p, Obj(MergeFields(p, m, x, |m|).value), existing) <==> !Slips(p, Obj(m), existing, true)
  {
    var r := MergeFields(p, m, x, |m|).value;
    if i :| LastWord(p, m, x, i) && SlipsField(p, m[i], x, true) {
      assert out[i] in r;
    }
    if k :| 0 <= k < |r| && !SettledField(p, r[k], x) {
      assert r[k] in r;
      var i :| LastWord(p, m, x, i) && out[i] == r[k];
      assert SlipsField(p, m[i], x, true);
    }
  }

  lemma {:induction false} ItemsSettled(p: Policy, m: seq<Json>, x: seq<Json>, existing: Json)
    requires Wellformed(Arr(x)) && Clean(p, Arr(x)) && MergeItems(p, m, x, |m|).Ok? && x == ItemsOf(existing)
    ensures Settled(p, Arr(MergeItems(p, m, x, |m|).value), existing) <==> !Slips(p, Arr(m), existing, true)
    decreases m, 0
  {
    AcceptedItems(p, m, x, |m|);
    forall i | 0 <= i < |m|
      ensures Settled(p, MergeItems(p, m, x, |m|).value[i], At(x, i)) <==> !Slips(p, m[i], At(x, i), true)
    {
      var stored := At(x, i);
      assert Wellformed(stored) && Clean(p, stored);
      NestedClean(p, stored);
      match m[i]
      case Obj(fields) => FieldsSettled(p, fields, FieldsOf(stored), stored);
      case Arr(items) => ItemsSettled(p, items, ItemsOf(stored), stored);
      case _ =>
    }
  }

  lemma {:induction false} SettledMerges(p: Policy, r: seq<Field>, x: seq<Field>, n: nat)
    requires n <= |r| && Wellformed(Obj(r)) && Settled(p, Obj(r), Obj(x))
    ensures MergeFields(p, r, x, n) == Ok(r[..n])
    decreases r, n
  {
    Prefixes(r, n);
    if n > 0 {
      SettledMerges(p, r, x, n - 1);
      assert SettledField(p, r[n - 1], x) && WellformedField(r[n - 1]);
      SettledEntry(p, r[n - 1], x);
      PutFresh(r[..n - 1], r[n - 1]);
    }
  }

  lemma {:induction false} SettledEntry(p: Policy, f: Field, x: seq<Field>)
    requires SettledField(p, f, x) && Wellformed(f.value)
    ensures MergeField(p, f, x) == Ok(f)
    decreases f, 0
  {
    var stored := Lookup(x, f.key);
    match f.value
    case Obj(fields) =>
      SettledMerges(p, fields, FieldsOf(stored), |fields|);
      Prefixes(fields, 0);
    case Arr(items) =>
      SettledIsPlain(p, f.value, Arr(ItemsOf(stored)));
      SettledItems(p, items, ItemsOf(stored), |items|);
      Prefixes(items, 0);
    case _ =>
  }

  lemma {:induction false} SettledItems(p: Policy, r: seq<Json>, x: seq<Json>, n: nat)
    requires n <= |r| && Wellformed(Arr(r)) && Settled(p, Arr(r), Arr(x))
    ensures MergeItems(p, r, x, n) == Ok(r[..n])
    decreases r, n
  {
    Prefixes(r, n);
    if n > 0 {
      SettledItems(p, r, x, n - 1);
      var stored := At(x, n - 1);
      assert Settled(p, r[n - 1], stored) && Wellformed(r[n - 1]);
      match r[n - 1]
      case Obj(fields) =>
        SettledMerges(p, fields, FieldsOf(stored), |fields|);
        Prefixes(fields, 0);
      case Arr(items) =>
        SettledItems(p, items, ItemsOf(stored), |items|);
        Prefixes(items, 0);
      case _ =>
    }
  }

  /** Settled values have no placeholder for the list guard to see. */
  lemma {:induction false} SettledIsPlain(p: Policy, v: Json, existing: Json)
    requires Settled(p, v, existing)
    ensures !Contains(p, v, existing)
    decreases v
  {
    match v
    case Obj(fields) =>
      forall i | 0 <= i < |fields|
        ensures !ContainsField(p, fields[i], FieldsOf(existing))
      {
        assert SettledField(p, fields[i], FieldsOf(existing));
        SettledIsPlain(p, fields[i].value, Lookup(FieldsOf(existing), fields[i].key));
      }
    case Arr(items) =>
      forall i | 0 <= i < |items|
        ensures !Contains(p, items[i], At(ItemsOf(existing), i))
      {
        SettledIsPlain(p, items[i], At(ItemsOf(existing), i));
      }
    case _ =>
  }

  lemma {:induction false} FieldWellformed(p: Policy, f: Field, x: seq<Field>)
    requires Wellformed(Obj(x)) && MergeField(p, f, x).Ok?
    ensures Wellformed(MergeField(p, f, x).value.value)
    decreases f, 0
  {
    var key := Resolve(p, x, f.key);
    var stored := Lookup(x, key);
    LookupWellformed(x, key);
    if !Kept(p, f, stored) {
      match f.value
      case Obj(fields) => FieldsWellformed(p, fields, FieldsOf(stored));
      case Arr(items) => ItemsWellformed(p, items, ItemsOf(stored));
      case _ =>
    }
  }

  lemma {:induction false} FieldsWellformed(p: Policy, m: seq<Field>, x: seq<Field>)
    requires Wellformed(Obj(x)) && MergeFields(p, m, x, |m|).Ok?
    ensures Wellformed(Obj(MergeFields(p, m, x, |m|).value))
    decreases m, 0
  {
    var r := MergeFields(p, m, x, |m|).value;
    var out := Writers(p, m, x);
    forall i | 0 <= i < |m|
      ensures Wellformed(out[i].value)
    {
      FieldWellformed(p, m[i], x);
    }
    forall k | 0 <= k < |r|
      ensures WellformedField(r[k])
    {
      assert r[k] in r;
    }
  }

  lemma {:induction false} ItemsWellformed(p: Policy, m: seq<Json>, x: seq<Json>)
    requires Wellformed(Arr(x)) && MergeItems(p, m, x, |m|).Ok?
    ensures Wellformed(Arr(MergeItems(p, m, x, |m|).value))
    decreases m, 0
  {
    AcceptedItems(p, m, x, |m|);
    forall i | 0 <= i < |m|
      ensures Wellformed(MergeItems(p, m, x, |m|).value[i])
    {
      var stored := At(x, i);
      assert Wellformed(stored);
      match m[i]
      case Obj(fields) => FieldsWellformed(p, fields, FieldsOf(stored));
      case Arr(items) => ItemsWellformed(p, items, ItemsOf(stored));
      case _ =>
    }
  }

  /** If merging an object gives it back, so does merging each of its fields. */
  lemma StableEntry(p: Policy, r: seq<Field>, x: seq<Field>, k: nat)
    requires k < |r| && MergeFields(p, r, x, |r|) == Ok(r)
    ensures MergeField(p, r[k], x) == Ok(r[k])
  {
    var out := Writers(p, r, x);
    assert r[k] in r;
    forall j | 0 <= j < |r|
      ensures Resolve(p, x, r[j].key) == r[j].key
    {
      assert r[j] in r;
      var i :| LastWord(p, r, x, i) && out[i] == r[j];
      ResolveTwice(p, x, r[i].key);
    }
    assert LastWord(p, r, x, k);
    assert out[k] in r;
  }

  lemma {:induction false} StableField(p: Policy, f: Field, x: seq<Field>)
    requires Wellformed(Obj(x)) && Clean(p, Obj(x)) && MergeField(p, f, x) == Ok(f)
    ensures SettledField(p, f, x)
    decreases f, 0
  {
    var stored := Lookup(x, f.key);
    LookupClean(p, x, f.key);
    NestedClean(p, stored);
    match f.value
    case Obj(fields) => StableFields(p, fields, FieldsOf(stored), stored);
    case Arr(items) => StableItems(p, items, ItemsOf(stored), stored);
    case _ =>
  }

  lemma {:induction false} StableFields(p: Policy, r: seq<Field>, x: seq<Field>, existing: Json)
    requires Wellformed(Obj(x)) && Clean(p, Obj(x)) && x == FieldsOf(existing)
    requires MergeFields(p, r, x, |r|) == Ok(r)
    ensures Settled(p, Obj(r), existing)
    decreases r, 0
  {
    forall k | 0 <= k < |r|
      ensures SettledField(p, r[k], x)
    {
      StableEntry(p, r, x, k);
      StableField(p, r[k], x);
    }
  }

  lemma {:induction false} StableItems(p: Policy, r: seq<Json>, x: seq<Json>, existing: Json)
    requires Wellformed(Arr(x)) && Clean(p, Arr(x)) && x == ItemsOf(existing)
    requires MergeItems(p, r, x, |r|) == Ok(r)
    ensures Settled(p, Arr(r), existing)
    decreases r, 0
  {
    AcceptedItems(p, r, x, |r|);
    forall i | 0 <= i < |r|
      ensures Settled(p, r[i], At(x, i))
    {
      var stored := At(x, i);
      assert Wellformed(stored) && Clean(p, stored);
      NestedClean(p, stored);
      match r[i]
      case Obj(fields) => StableFields(p, fields, FieldsOf(stored), stored);
      case Arr(items) => StableItems(p, items, ItemsOf(stored), stored);
      case _ =>
    }
  }

  // --------------------------------------------------------- the results

  /** An accepted merge onto a clean value is clean exactly when no masked value slips
      through, whatever the policy. */
  lemma CleanExactly(p: Policy, m: seq<Field>, x: seq<Field>)
    requires Wellformed(Obj(x)) && Clean(p, Obj(x)) && Merge(p, m, Obj(x)).Ok?
    ensures Clean(p, Obj(Merge(p, m, Obj(x)).value)) <==> !Slips(p, Obj(m), Obj(x), false)
  {
    FieldsClean(p, m, x, Obj(x));
  }

  /** Merging the result again onto the same stored value changes nothing exactly when
      neither a masked nor a blank value slips through. */
  lemma RepeatExactly(p: Policy, m: seq<Field>, x: seq<Field>)
    requires Wellformed(Obj(x)) && Clean(p, Obj(x)) && Merge(p, m, Obj(x)).Ok?
    ensures Merge(p, Merge(p, m, Obj(x)).value, Obj(x)) == Merge(p, m, Obj(x)) <==> !Slips(p, Obj(m), Obj(x), true)
  {
    var r := Merge(p, m, Obj(x)).value;
    FieldsSettled(p, m, x, Obj(x));
    if Settled(p, Obj(r), Obj(x)) {
      FieldsWellformed(p, m, x);
      SettledMerges(p, r, x, |r|);
      assert r[..|r|] == r;
    }
    if Merge(p, r, Obj(x)) == Ok(r) {
      StableFields(p, r, x, Obj(x));
    }
  }

  /** A key that is stored under a sensitive spelling is sent under a sensitive one. */
  ghost predicate Faithful(p: Policy, v: Json, existing: Json)
    decreases v
  {
    match v
    case Obj(fields) => forall i :: 0 <= i < |fields| ==> FaithfulField(p, fields[i], FieldsOf(existing))
    case Arr(items) => forall i :: 0 <= i < |items| ==> Faithful(p, items[i], At(ItemsOf(existing), i))
    case _ => true
  }

  ghost predicate FaithfulField(p: Policy, f: Field, existing: seq<Field>)
    decreases f
  {
    var key := Resolve(p, existing, f.key);
    (p.sensitive(key) ==> p.sensitive(f.key)) && Faithful(p, f.value, Lookup(existing, key))
  }

  lemma {:induction false} FaithfulNeverSlips(p: Policy, v: Json, existing: Json, blanks: bool)
    requires Faithful(p, v, existing)
    ensures !Slips(p, v, existing, blanks)
    decreases v
  {
    match v
    case Obj(fields) =>
      forall i | 0 <= i < |fields|
        ensures !SlipsField(p, fields[i], FieldsOf(existing), blanks)
      {
        var x := FieldsOf(existing);
        assert FaithfulField(p, fields[i], x);
        FaithfulNeverSlips(p, fields[i].value, Lookup(x, Resolve(p, x, fields[i].key)), blanks);
      }
    case Arr(items) =>
      forall i | 0 <= i < |items|
        ensures !Slips(p, items[i], At(ItemsOf(existing), i), blanks)
      {
        FaithfulNeverSlips(p, items[i], At(ItemsOf(existing), i), blanks);
      }
    case _ =>
  }

  /** When every key is sent under a spelling as sensitive as the stored one, an accepted
      merge leaves no placeholder, and merging its result again changes nothing. */
  lemma MergeLeavesNoPlaceholder(p: Policy, m: seq<Field>, x: seq<Field>)
    requires Wellformed(Obj(x)) && Clean(p, Obj(x)) && Merge(p, m, Obj(x)).Ok?
    requires Faithful(p, Obj(m), Obj(x))
    ensures Clean(p, Obj(Merge(p, m, Obj(x)).value))
    ensures Merge(p, Merge(p, m, Obj(x)).value, Obj(x)) == Merge(p, m, Obj(x))
  {
    FaithfulNeverSlips(p, Obj(m), Obj(x), false);
    FaithfulNeverSlips(p, Obj(m), Obj(x), true);
    CleanExactly(p, m, x);
    RepeatExactly(p, m, x);
  }

  lemma {:induction false} ExactIsFaithful(p: Policy, v: Json, existing: Json)
    requires Exact(p, v, existing)
    ensures Faithful(p, v, existing)
    decreases v
  {
    match v
    case Obj(fields) =>
      forall i | 0 <= i < |fields|
        ensures FaithfulField(p, fields[i], FieldsOf(existing))
      {
        assert ExactField(p, fields[i], FieldsOf(existing));
        ExactIsFaithful(p, fields[i].value, Lookup(FieldsOf(existing), fields[i].key));
      }
    case Arr(items) =>
      forall i | 0 <= i < |items|
        ensures Faithful(p, items[i], At(ItemsOf(existing), i))
      {
        ExactIsFaithful(p, items[i], At(ItemsOf(existing), i));
      }
    case _ =>
  }

  /** Under any policy, as long as no sent key is an alias of a differently spelled stored
      one. */
  lemma UnaliasedMergeIsClean(p: Policy, m: seq<Field>, x: seq<Field>)
    requires Wellformed(Obj(x)) && Clean(p, Obj(x)) && Merge(p, m, Obj(x)).Ok?
    requires Exact(p, Obj(m), Obj(x))
    ensures Clean(p, Obj(Merge(p, m, Obj(x)).value))
    ensures Merge(p, Merge(p, m, Obj(x)).value, Obj(x)) == Merge(p, m, Obj(x))
  {
    ExactIsFaithful(p, Obj(m), Obj(x));
    MergeLeavesNoPlaceholder(p, m, x);
  }

  // --------------------------------------------------------- any input

  /** Spelling a stored sensitive key differently leaves it sensitive. */
  ghost predicate Safe(p: Policy) {
    forall a, b :: p.normalize(a) == p.normalize(b) && p.sensitive(b) ==> p.sensitive(a)
  }

  lemma {:induction false} SafeIsFaithful(p: Policy, v: Json, existing: Json)
    requires Safe(p)
    ensures Faithful(p, v, existing)
    decreases v
  {
    match v
    case Obj(fields) =>
      forall i | 0 <= i < |fields|
        ensures FaithfulField(p, fields[i], FieldsOf(existing))
      {
        var x := FieldsOf(existing);
        ResolveTwice(p, x, fields[i].key);
        SafeIsFaithful(p, fields[i].value, Lookup(x, Resolve(p, x, fields[i].key)));
      }
    case Arr(items) =>
      forall i | 0 <= i < |items|
        ensures Faithful(p, items[i], At(ItemsOf(existing), i))
      {
        SafeIsFaithful(p, items[i], At(ItemsOf(existing), i));
      }
    case _ =>
  }

  /** The smallest value that slips through: the placeholder is stored over the secret when
      a client that spells the key `a` instead of the stored `b` is not seen to send one. */
  lemma AliasLeak(p: Policy, a: string, b: string)
    requires p.normalize(a) == p.normalize(b) && p.sensitive(b) && !p.sensitive(a)
    ensures var m, x := [Field(a, Str(MASK))], [Field(b, Str("value"))];
            && Wellformed(Obj(x)) && Clean(p, Obj(x))
            && Merge(p, m, Obj(x)) == Ok([Field(b, Str(MASK))])
            && !Clean(p, Obj([Field(b, Str(MASK))]))
  {
    var m, x := [Field(a, Str(MASK))], [Field(b, Str("value"))];
    assert Find(x, b) == Some(0);
    assert Find(x, a).None?;
    assert Alias(p, x, a) == b;
    assert Clean(p, Str("value"));
    assert MergeField(p, m[0], x) == Ok(Field(b, Str(MASK)));
    assert MergeFields(p, m, x, 0) == Ok([]);
    PutFresh([], Field(b, Str(MASK)));
    assert [] + [Field(b, Str(MASK))] == [Field(b, Str(MASK))];
    assert MergeFields(p, m, x, 1) == Ok([Field(b, Str(MASK))]);
    var r := [Field(b, Str(MASK))];
    assert !CleanField(p, r[0]);
  }

  /** All accepted merges onto clean values are clean exactly under a safe policy. */
  lemma CleanExactlyWhenSafe(p: Policy)
    ensures Safe(p) <==>
              forall m: seq<Field>, x: seq<Field> ::
                Wellformed(Obj(x)) && Clean(p, Obj(x)) && Merge(p, m, Obj(x)).Ok? ==>
                  Clean(p, Obj(Merge(p, m, Obj(x)).value))
  {
    if Safe(p) {
      forall m: seq<Field>, x: seq<Field> | Wellformed(Obj(x)) && Clean(p, Obj(x)) && Merge(p, m, Obj(x)).Ok?
        ensures Clean(p, Obj(Merge(p, m, Obj(x)).value))
      {
        SafeIsFaithful(p, Obj(m), Obj(x));
        MergeLeavesNoPlaceholder(p, m, x);
      }
    } else {
      var a, b :| p.normalize(a) == p.normalize(b) && p.sensitive(b) && !p.sensitive(a);
      AliasLeak(p, a, b);
      var m, x := [Field(a, Str(MASK))], [Field(b, Str("value"))];
      assert Merge(p, m, Obj(x)).Ok?;
    }
  }
}
