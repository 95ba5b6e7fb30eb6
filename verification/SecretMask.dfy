/** Masking secrets in a configuration that is shown to a client, and merging what the
    client sends back onto the stored configuration.

    An object is an ordered list of fields with distinct keys, as Python's dictionaries
    are.  Which keys are sensitive and how spellings are normalised are parameters. */
module SecretMask {
  import opened Wrappers

  datatype Json =
    | Null
    | Bool(b: bool)
    | Number(n: int)
    | Str(s: string)
    | Arr(items: seq<Json>)
    | Obj(fields: seq<Field>)

  datatype Field = Field(key: string, value: Json)

  datatype Policy = Policy(sensitive: string -> bool, normalize: string -> string)

  datatype MergeError = MaskedWithoutValue | ListEdited

  const MASK: string := "********"

  predicate Blank(v: Json) {
    v == Null || v == Str("")
  }

  predicate Placeholder(v: Json) {
    Blank(v) || v == Str(MASK)
  }

  // ------------------------------------------------------- dictionaries

  function Find(fields: seq<Field>, key: string): (i: Option<nat>)
    ensures i.Some? ==> i.value < |fields| && fields[i.value].key == key
    ensures i.None? ==> forall j :: 0 <= j < |fields| ==> fields[j].key != key
  {
    if fields == [] then None
    else if fields[|fields| - 1].key == key then Some(|fields| - 1)
    else Find(fields[..|fields| - 1], key)
  }

  /** `dict.get`, with null for a missing key. */
  function Lookup(fields: seq<Field>, key: string): Json {
    var i := Find(fields, key);
    if i.Some? then fields[i.value].value else Null
  }

  /** Assignment to a key: in place if it exists, at the end otherwise. */
  function Put(fields: seq<Field>, f: Field): seq<Field> {
    var i := Find(fields, f.key);
    if i.Some? then fields[i.value := f] else fields + [f]
  }

  /** The first stored key with the same normal form, if any. */
  function Alias(p: Policy, fields: seq<Field>, key: string): (k: string)
    ensures k == key || (p.normalize(k) == p.normalize(key) && Find(fields, k).Some?)
    ensures k == key ==> Find(fields, key).Some?
                         || forall j :: 0 <= j < |fields| ==> p.normalize(fields[j].key) != p.normalize(key)
  {
    if fields == [] then key
    else if p.normalize(fields[0].key) == p.normalize(key) then
      assert fields[0].key == fields[0].key;
      fields[0].key
    else
      var k := Alias(p, fields[1..], key);
      assert Find(fields[1..], k).Some? ==> fields[Find(fields[1..], k).value + 1].key == k;
      k
  }

  function Resolve(p: Policy, fields: seq<Field>, key: string): string {
    if Find(fields, key).Some? then key else Alias(p, fields, key)
  }

  function FieldsOf(v: Json): seq<Field> {
    if v.Obj? then v.fields else []
  }

  function ItemsOf(v: Json): seq<Json> {
    if v.Arr? then v.items else []
  }

  function At(items: seq<Json>, i: nat): Json {
    if i < |items| then items[i] else Null
  }

  // ------------------------------------------------------------ masking

  function MaskField(p: Policy, f: Field): Field
    decreases f
  {
    if p.sensitive(f.key) && !Blank(f.value) then Field(f.key, Str(MASK)) else Field(f.key, Mask(p, f.value))
  }

  function Mask(p: Policy, v: Json): Json
    decreases v
  {
    match v
    case Obj(fields) => Obj(seq(|fields|, i requires 0 <= i < |fields| => MaskField(p, fields[i])))
    case Arr(items) => Arr(seq(|items|, i requires 0 <= i < |items| => Mask(p, items[i])))
    case _ => v
  }

  /** `r` shows `v`: the same shape and the same keys in the same order; a sensitive key
      carries the mask if its value is not blank, at any depth; and nothing else differs. */
  ghost predicate Hides(p: Policy, v: Json, r: Json)
    decreases v
  {
    match v
    case Obj(fields) =>
      r.Obj? && |r.fields| == |fields|
      && forall i :: 0 <= i < |fields| ==> HidesField(p, fields[i], r.fields[i])
    case Arr(items) =>
      r.Arr? && |r.items| == |items| && forall i :: 0 <= i < |items| ==> Hides(p, items[i], r.items[i])
    case _ => r == v
  }

  ghost predicate HidesField(p: Policy, f: Field, g: Field)
    decreases f
  {
    && g.key == f.key
    && (p.sensitive(f.key) && f.value != Null && f.value != Str("") ==> g.value == Str("********"))
    && (p.sensitive(f.key) && (f.value == Null || f.value == Str("")) ==> g.value == f.value)
    && (!p.sensitive(f.key) ==> Hides(p, f.value, g.value))
  }

  /** Masking hides every non-blank secret and shows the rest as it is. */
  lemma {:induction false} MaskHides(p: Policy, v: Json)
    ensures Hides(p, v, Mask(p, v))
    decreases v
  {
    match v
    case Obj(fields) =>
      forall i | 0 <= i < |fields|
        ensures HidesField(p, fields[i], MaskField(p, fields[i]))
      {
        if !p.sensitive(fields[i].key) {
          MaskHides(p, fields[i].value);
        }
      }
    case Arr(items) =>
      forall i | 0 <= i < |items|
        ensures Hides(p, items[i], Mask(p, items[i]))
      {
        MaskHides(p, items[i]);
      }
    case _ =>
  }

  // ------------------------------------------------------ the list guard

  /** The client left this secret as it was shown, or blank, and there is one to keep. */
  predicate Kept(p: Policy, f: Field, stored: Json) {
    p.sensitive(f.key) && Placeholder(f.value) && !Blank(stored)
  }

  predicate ContainsField(p: Policy, f: Field, existing: seq<Field>)
    decreases f
  {
    var stored := Lookup(existing, Resolve(p, existing, f.key));
    Kept(p, f, stored) || Contains(p, f.value, stored)
  }

  predicate Contains(p: Policy, v: Json, existing: Json)
    decreases v
  {
    match v
    case Obj(fields) => exists i :: 0 <= i < |fields| && ContainsField(p, fields[i], FieldsOf(existing))
    case Arr(items) => exists i :: 0 <= i < |items| && Contains(p, items[i], At(ItemsOf(existing), i))
    case _ => false
  }

  predicate SameKeys(a: seq<Field>, b: seq<Field>) {
    && (forall i :: 0 <= i < |a| ==> Find(b, a[i].key).Some?)
    && (forall i :: 0 <= i < |b| ==> Find(a, b[i].key).Some?)
  }

  predicate MatchesField(p: Policy, f: Field, stored: Json)
    decreases f
  {
    Kept(p, f, stored) || Matches(p, f.value, stored)
  }

  predicate Matches(p: Policy, v: Json, existing: Json)
    decreases v
  {
    match v
    case Obj(fields) =>
      existing.Obj? && SameKeys(fields, existing.fields)
      && forall i :: 0 <= i < |fields| ==> MatchesField(p, fields[i], Lookup(existing.fields, fields[i].key))
    case Arr(items) =>
      existing.Arr? && |items| == |existing.items|
      && forall i :: 0 <= i < |items| ==> Matches(p, items[i], existing.items[i])
    case _ => v == existing
  }

  // ------------------------------------------------------------- merging

  function MergeField(p: Policy, f: Field, existing: seq<Field>): Result<Field, MergeError>
    decreases f, 0
  {
    var key := Resolve(p, existing, f.key);
    var stored := Lookup(existing, key);
    if f.value == Str(MASK) && Blank(stored) then Err(MaskedWithoutValue)
    else if Kept(p, f, stored) then Ok(Field(key, stored))
    else
      match f.value
      case Obj(fields) =>
        (match MergeFields(p, fields, FieldsOf(stored), |fields|)
         case Ok(merged) => Ok(Field(key, Obj(merged)))
         case Err(e) => Err(e))
      case Arr(items) =>
        var guarded := Arr(ItemsOf(stored));
        if Contains(p, f.value, guarded) && !Matches(p, f.value, guarded) then Err(ListEdited)
        else
          (match MergeItems(p, items, ItemsOf(stored), |items|)
           case Ok(merged) => Ok(Field(key, Arr(merged)))
           case Err(e) => Err(e))
      case _ => Ok(Field(key, f.value))
  }

  /** The merge of the first `n` incoming fields. */
  function MergeFields(p: Policy, incoming: seq<Field>, existing: seq<Field>, n: nat): Result<seq<Field>, MergeError>
    requires n <= |incoming|
    decreases incoming, n
  {
    if n == 0 then Ok([])
    else
      match MergeFields(p, incoming, existing, n - 1)
      case Err(e) => Err(e)
      case Ok(merged) =>
        match MergeField(p, incoming[n - 1], existing)
        case Err(e) => Err(e)
        case Ok(f) => Ok(Put(merged, f))
  }

  function MergeItem(p: Policy, item: Json, existing: Json): Result<Json, MergeError>
    decreases item, 0
  {
    match item
    case Obj(fields) =>
      (match MergeFields(p, fields, FieldsOf(existing), |fields|)
       case Ok(merged) => Ok(Obj(merged))
       case Err(e) => Err(e))
    case Arr(items) =>
      (match MergeItems(p, items, ItemsOf(existing), |items|)
       case Ok(merged) => Ok(Arr(merged))
       case Err(e) => Err(e))
    case _ => Ok(item)
  }

  function MergeItems(p: Policy, incoming: seq<Json>, existing: seq<Json>, n: nat): (r: Result<seq<Json>, MergeError>)
    requires n <= |incoming|
    ensures r.Ok? ==> |r.value| == n
    decreases incoming, n
  {
    if n == 0 then Ok([])
    else
      match MergeItems(p, incoming, existing, n - 1)
      case Err(e) => Err(e)
      case Ok(merged) =>
        match MergeItem(p, incoming[n - 1], At(existing, n - 1))
        case Err(e) => Err(e)
        case Ok(item) => Ok(merged + [item])
  }

  /** What an update stores: the incoming object merged onto the stored value. */
  function Merge(p: Policy, incoming: seq<Field>, existing: Json): Result<seq<Field>, MergeError> {
    MergeFields(p, incoming, FieldsOf(existing), |incoming|)
  }

  // ---------------------------------------- the same, filling local lists

  method MaskValue(p: Policy, v: Json) returns (r: Json)
    ensures r == Mask(p, v) && Hides(p, v, r)
    decreases v
  {
    MaskHides(p, v);
    match v
    case Obj(fields) =>
      var masked := [];
      for i := 0 to |fields|
        invariant |masked| == i
        invariant forall j :: 0 <= j < i ==> masked[j] == MaskField(p, fields[j])
      {
        if p.sensitive(fields[i].key) && !Blank(fields[i].value) {
          masked := masked + [Field(fields[i].key, Str(MASK))];
        } else {
          var item := MaskValue(p, fields[i].value);
          masked := masked + [Field(fields[i].key, item)];
        }
      }
      r := Obj(masked);
    case Arr(items) =>
      var masked := [];
      for i := 0 to |items|
        invariant |masked| == i
        invariant forall j :: 0 <= j < i ==> masked[j] == Mask(p, items[j])
      {
        var item := MaskValue(p, items[i]);
        masked := masked + [item];
      }
      r := Arr(masked);
    case _ => r := v;
  }

  method MergeValues(p: Policy, incoming: seq<Field>, existing: seq<Field>) returns (r: Result<seq<Field>, MergeError>)
    ensures r == MergeFields(p, incoming, existing, |incoming|)
    decreases incoming, 0
  {
    var merged := [];
    for i := 0 to |incoming|
      invariant Merged(p, incoming, existing, i, merged)
    {
      var entry := MergeEntry(p, incoming[i], existing);
      MergeNext(p, incoming, existing, i, merged, entry);
      match entry
      case Err(e) => return Err(e);
      case Ok(f) => merged := Put(merged, f);
    }
    return Ok(merged);
  }

  /** The body of the loop over incoming fields: the key to write and its value. */
  method MergeEntry(p: Policy, f: Field, existing: seq<Field>) returns (r: Result<Field, MergeError>)
    ensures r == MergeField(p, f, existing)
    decreases f, 1
  {
    var key := Resolve(p, existing, f.key);
    var stored := Lookup(existing, key);
    if f.value == Str(MASK) && Blank(stored) {
      return Err(MaskedWithoutValue);
    }
    if p.sensitive(f.key) && Placeholder(f.value) && !Blank(stored) {
      return Ok(Field(key, stored));
    }
    match f.value
    case Obj(fields) =>
      var inner := MergeValues(p, fields, FieldsOf(stored));
      r := if inner.Ok? then Ok(Field(key, Obj(inner.value))) else Err(inner.error);
    case Arr(items) =>
      var guarded := Arr(ItemsOf(stored));
      if Contains(p, f.value, guarded) && !Matches(p, f.value, guarded) {
        return Err(ListEdited);
      }
      var inner := MergeList(p, items, ItemsOf(stored));
      r := if inner.Ok? then Ok(Field(key, Arr(inner.value))) else Err(inner.error);
    case _ => r := Ok(Field(key, f.value));
  }

  method MergeList(p: Policy, incoming: seq<Json>, existing: seq<Json>) returns (r: Result<seq<Json>, MergeError>)
    ensures r == MergeItems(p, incoming, existing, |incoming|)
    decreases incoming, 0
  {
    var merged := [];
    for i := 0 to |incoming|
      invariant MergeItems(p, incoming, existing, i) == Ok(merged)
    {
      MergeItemsStops(p, incoming, existing, i + 1);
      var item, stored := incoming[i], if i < |existing| then existing[i] else Null;
      match item
      case Obj(fields) =>
        var inner := MergeValues(p, fields, FieldsOf(stored));
        if inner.Err? {
          assert MergeItem(p, item, stored) == Err(inner.error);
          return Err(inner.error);
        }
        merged := merged + [Obj(inner.value)];
      case Arr(items) =>
        var inner := MergeList(p, items, ItemsOf(stored));
        if inner.Err? {
          assert MergeItem(p, item, stored) == Err(inner.error);
          return Err(inner.error);
        }
        merged := merged + [Arr(inner.value)];
      case _ => merged := merged + [item];
    }
    return Ok(merged);
  }

  /** An error in a prefix is the error of the whole. */
  lemma {:induction false} MergeStops(p: Policy, incoming: seq<Field>, existing: seq<Field>, n: nat)
    requires n <= |incoming|
    ensures MergeFields(p, incoming, existing, n).Err? ==>
              MergeFields(p, incoming, existing, |incoming|) == MergeFields(p, incoming, existing, n)
    decreases |incoming| - n
  {
    if n < |incoming| {
      MergeStops(p, incoming, existing, n + 1);
    }
  }

  /** `merged` is the merge of the first `n` incoming fields. */
  ghost predicate Merged(p: Policy, incoming: seq<Field>, existing: seq<Field>, n: nat, merged: seq<Field>) {
    n <= |incoming| && MergeFields(p, incoming, existing, n) == Ok(merged)
  }

  /** One round of the loop over incoming fields. */
  lemma MergeNext(p: Policy, incoming: seq<Field>, existing: seq<Field>, i: nat, merged: seq<Field>,
                  entry: Result<Field, MergeError>)
    requires i < |incoming| && Merged(p, incoming, existing, i, merged)
    requires entry == MergeField(p, incoming[i], existing)
    ensures entry.Ok? ==> Merged(p, incoming, existing, i + 1, Put(merged, entry.value))
    ensures entry.Err? ==> MergeFields(p, incoming, existing, |incoming|) == Err(entry.error)
  {
    MergeStops(p, incoming, existing, i + 1);
  }

  lemma {:induction false} MergeItemsStops(p: Policy, incoming: seq<Json>, existing: seq<Json>, n: nat)
    requires n <= |incoming|
    ensures MergeItems(p, incoming, existing, n).Err? ==>
              MergeItems(p, incoming, existing, |incoming|) == MergeItems(p, incoming, existing, n)
    decreases |incoming| - n
  {
    if n < |incoming| {
      MergeItemsStops(p, incoming, existing, n + 1);
    }
  }
}
