/** Masking of secrets on the way out (internal/api/handler/settings.go) and their restoration on
  * the way in (internal/config/settings.go).
  *
  * Strings are sequences of bytes; lower-casing is that of ASCII.
  */
module SettingsMask {
  import opened Options
  import opened Texts

  /** A JSON value as Go's encoding/json decodes it. */
  datatype Json =
    | Null
    | Bool(b: bool)
    | Num(n: real)
    | Str(s: string)
    | Arr(items: seq<Json>)
    | Obj(fields: map<string, Json>)

  const PLACEHOLDER := "****"

  const SENSITIVE_PATTERNS := ["token", "api_key", "secret", "password", "private_key", "webhook_secret", "jwt_secret"]

  function Lower(s: string): string {
    seq(|s|, i requires 0 <= i < |s| => if 'A' <= s[i] <= 'Z' then s[i] + ('a' - 'A') else s[i])
  }

  predicate IsSensitiveKey(key: string) {
    exists i | 0 <= i < |SENSITIVE_PATTERNS| :: Contains(Lower(key), SENSITIVE_PATTERNS[i])
  }

  predicate IsMaskedValue(s: string) {
    Contains(s, PLACEHOLDER)
  }

  // ---------- Masking, when settings are read ----------

  /** The first and last four bytes of a longer secret stay visible. */
  function MaskString(s: string): string {
    if s == "" then "" else if |s| <= 8 then PLACEHOLDER else s[..4] + PLACEHOLDER + s[|s| - 4..]
  }

  /** Objects are masked at every depth; arrays only in the objects they hold directly. */
  function Mask(key: string, v: Json): Json
    decreases v
  {
    match v
    case Str(s) => if IsSensitiveKey(key) && s != "" then Str(MaskString(s)) else v
    case Obj(o) => Obj(map k | k in o :: Mask(k, o[k]))
    case Arr(a) => Arr(seq(|a|, i requires 0 <= i < |a| => MaskItem(a[i])))
    case _ => v
  }

  function MaskItem(v: Json): Json
    decreases v
  {
    match v
    case Obj(o) => Obj(map k | k in o :: Mask(k, o[k]))
    case _ => v
  }

  lemma MaskedIsMasked(s: string)
    requires s != ""
    ensures IsMaskedValue(MaskString(s))
  {
    var m := MaskString(s);
    if |s| <= 8 {
      assert At(m, PLACEHOLDER, 0);
    } else {
      assert At(m, PLACEHOLDER, 4);
    }
  }

  // ---------- Restoring, when settings are written ----------

  /** A submitted value under `key` that asks for the stored secret. */
  predicate AsksForStored(key: string, v: Json) {
    v.Str? && IsSensitiveKey(key) && IsMaskedValue(v.s)
  }

  /** The value decoded into a Go string: null leaves the empty string, other kinds fail. */
  function AsText(v: Json): Option<string> {
    match v
    case Str(s) => Some(s)
    case Null => Some("")
    case _ => None
  }

  /** One field of an object, given the fields of the stored object at the same place. */
  function RestoreField(k: string, v: Json, stored: map<string, Json>): Json {
    if AsksForStored(k, v) && k in stored then stored[k] else v
  }

  function StoredFields(stored: Option<Json>): map<string, Json> {
    if stored.Some? && stored.value.Obj? then stored.value.fields else map[]
  }

  function StoredItem(stored: Option<Json>, i: nat): map<string, Json> {
    if stored.Some? && stored.value.Arr? && i < |stored.value.items| && stored.value.items[i].Obj?
    then stored.value.items[i].fields else map[]
  }

  function RestoreObject(o: map<string, Json>, stored: map<string, Json>): map<string, Json> {
    map k | k in o :: RestoreField(k, o[k], stored)
  }

  function RestoreItem(v: Json, stored: map<string, Json>): Json {
    if v.Obj? then Obj(RestoreObject(v.fields, stored)) else v
  }

  /** `stored` is the decoded value of the existing setting under `key`, if there is one. */
  function Restore(key: string, v: Json, stored: Option<Json>): Json {
    match v
    case Str(s) =>
      if AsksForStored(key, v) && stored.Some? && AsText(stored.value).Some?
      then Str(AsText(stored.value).value) else v
    case Obj(o) => Obj(RestoreObject(o, StoredFields(stored)))
    case Arr(a) => Arr(seq(|a|, i requires 0 <= i < |a| => RestoreItem(a[i], StoredItem(stored, i))))
    case _ => v
  }

  // ---------- Restoration is the inverse of masking, exactly where it looks ----------

  /** `sub` is `stored`, or a masked text standing for it under a sensitive key. */
  predicate CopyOfField(k: string, stored: Json, sub: Json) {
    sub == stored || AsksForStored(k, sub)
  }

  predicate CopyOfObject(stored: map<string, Json>, sub: map<string, Json>) {
    stored.Keys == sub.Keys && forall k | k in stored :: CopyOfField(k, stored[k], sub[k])
  }

  predicate CopyOfItem(stored: Json, sub: Json) {
    if stored.Obj? && sub.Obj? then CopyOfObject(stored.fields, sub.fields) else stored == sub
  }

  /** `sub` differs from `stored` only in sensitive text fields at the places restoration visits:
    * the top level, the fields of an object, the fields of objects in an array. */
  predicate MaskedCopy(key: string, stored: Json, sub: Json) {
    match sub
    case Str(_) => stored.Str? && CopyOfField(key, stored, sub)
    case Obj(o) => stored.Obj? && CopyOfObject(stored.fields, o)
    case Arr(a) => stored.Arr? && |stored.items| == |a| && forall i | 0 <= i < |a| :: CopyOfItem(stored.items[i], a[i])
    case _ => stored == sub
  }

  lemma RestoreObjectIff(stored: map<string, Json>, sub: map<string, Json>)
    ensures RestoreObject(sub, stored) == stored <==> CopyOfObject(stored, sub)
  {
  }

  lemma RestoreItemIff(stored: Json, sub: Json)
    ensures RestoreItem(sub, if stored.Obj? then stored.fields else map[]) == stored <==> CopyOfItem(stored, sub)
  {
  }

  /** A submitted value restores to the stored one if and only if it is a masked copy of it. */
  lemma RestoreIff(key: string, stored: Json, sub: Json)
    ensures Restore(key, sub, Some(stored)) == stored <==> MaskedCopy(key, stored, sub)
  {
    match sub
    case Obj(o) =>
      if stored.Obj? {
        RestoreObjectIff(stored.fields, o);
      }
    case Arr(a) =>
      var r := Restore(key, sub, Some(stored)).items;
      if stored.Arr? && |stored.items| == |a| {
        forall i | 0 <= i < |a| ensures r[i] == stored.items[i] <==> CopyOfItem(stored.items[i], a[i]) {
          RestoreItemIff(stored.items[i], a[i]);
        }
        if r == stored.items {
          forall i | 0 <= i < |a| ensures CopyOfItem(stored.items[i], a[i]) { assert r[i] == stored.items[i]; }
        }
      }
    case _ =>
  }

  /** Some text at a place that restoration visits asks for the stored one. */
  predicate AsksSomewhere(key: string, v: Json) {
    match v
    case Str(_) => AsksForStored(key, v)
    case Obj(o) => AsksInFields(o)
    case Arr(a) => exists i | 0 <= i < |a| :: a[i].Obj? && AsksInFields(a[i].fields)
    case _ => false
  }

  predicate AsksInFields(o: map<string, Json>) {
    exists k | k in o :: AsksForStored(k, o[k])
  }

  /** What is submitted for a new key, or asks for nothing, is kept whatever is stored. */
  lemma RestoreKeeps(key: string, v: Json, stored: Option<Json>)
    requires stored.None? || !AsksSomewhere(key, v)
    ensures Restore(key, v, stored) == v
  {
    match v
    case Obj(o) => RestoreObjectKeeps(o, StoredFields(stored));
    case Arr(a) =>
      forall i | 0 <= i < |a| ensures RestoreItem(a[i], StoredItem(stored, i)) == a[i] {
        if a[i].Obj? { RestoreObjectKeeps(a[i].fields, StoredItem(stored, i)); }
      }
      assert Restore(key, v, stored).items == a;
    case _ =>
  }

  lemma RestoreObjectKeeps(o: map<string, Json>, stored: map<string, Json>)
    requires stored == map[] || !AsksInFields(o)
    ensures RestoreObject(o, stored) == o
  {
  }

  /** A text at the top asks for a stored text: over null the empty text comes back, over any other kind the mask stays.
    * A field of an object comes back whatever its stored kind. */
  lemma RestoreOverKinds(key: string, mask: Json, stored: Json, outer: string)
    requires AsksForStored(key, mask)
    ensures Restore(key, mask, Some(stored)) == if stored.Str? then stored else if stored.Null? then Str("") else mask
    ensures Restore(outer, Obj(map[key := mask]), Some(Obj(map[key := stored]))) == Obj(map[key := stored])
  {
    assert RestoreObject(map[key := mask], map[key := stored]) == map[key := stored];
  }

  // ---------- Reading settings and writing them back ----------

  /** Masking changes some text inside `v`. */
  predicate HidesSomething(key: string, v: Json)
    decreases v
  {
    match v
    case Str(s) => IsSensitiveKey(key) && MaskString(s) != s
    case Obj(o) => exists k | k in o :: HidesSomething(k, o[k])
    case Arr(a) => exists i | 0 <= i < |a| :: HidesInItem(a[i])
    case _ => false
  }

  predicate HidesInItem(v: Json)
    decreases v
  {
    v.Obj? && exists k | k in v.fields :: HidesSomething(k, v.fields[k])
  }

  /** Some hidden text lies below a field that is not itself a text: deeper than restoration looks. */
  predicate HidesBelow(o: map<string, Json>) {
    exists k | k in o :: !o[k].Str? && HidesSomething(k, o[k])
  }

  predicate HidesTooDeep(v: Json) {
    match v
    case Obj(o) => HidesBelow(o)
    case Arr(a) => exists i | 0 <= i < |a| :: a[i].Obj? && HidesBelow(a[i].fields)
    case _ => false
  }

  lemma MaskFieldsFixed(o: map<string, Json>)
    requires forall k | k in o :: Mask(k, o[k]) == o[k] <==> !HidesSomething(k, o[k])
    ensures (map k | k in o :: Mask(k, o[k])) == o <==> !exists k | k in o :: HidesSomething(k, o[k])
  {
  }

  /** Masking is the identity exactly where it hides nothing. */
  lemma {:induction false} MaskFixed(key: string, v: Json)
    ensures Mask(key, v) == v <==> !HidesSomething(key, v)
    decreases v
  {
    match v
    case Obj(o) =>
      forall k | k in o ensures Mask(k, o[k]) == o[k] <==> !HidesSomething(k, o[k]) { MaskFixed(k, o[k]); }
      MaskFieldsFixed(o);
    case Arr(a) =>
      var m := Mask(key, v).items;
      forall i | 0 <= i < |a| ensures m[i] == a[i] <==> !HidesInItem(a[i]) {
        MaskItemFixed(a[i]);
      }
      if m == a {
        forall i | 0 <= i < |a| ensures !HidesInItem(a[i]) { assert m[i] == a[i]; }
      }
    case _ =>
  }

  lemma {:induction false} MaskItemFixed(v: Json)
    ensures MaskItem(v) == v <==> !HidesInItem(v)
    decreases v
  {
    if v.Obj? {
      forall k | k in v.fields ensures Mask(k, v.fields[k]) == v.fields[k] <==> !HidesSomething(k, v.fields[k]) {
        MaskFixed(k, v.fields[k]);
      }
      MaskFieldsFixed(v.fields);
    }
  }

  function MaskFields(o: map<string, Json>): map<string, Json> {
    map k | k in o :: Mask(k, o[k])
  }

  lemma MaskFieldCopy(k: string, v: Json)
    ensures CopyOfField(k, v, Mask(k, v)) <==> v.Str? || !HidesSomething(k, v)
  {
    MaskFixed(k, v);
    if v.Str? && v.s != "" { MaskedIsMasked(v.s); }
  }

  lemma MaskFieldsCopy(o: map<string, Json>)
    ensures CopyOfObject(o, MaskFields(o)) <==> !HidesBelow(o)
  {
    var m := MaskFields(o);
    forall k | k in o ensures CopyOfField(k, o[k], m[k]) <==> o[k].Str? || !HidesSomething(k, o[k]) {
      MaskFieldCopy(k, o[k]);
    }
    assert m.Keys == o.Keys;
    if CopyOfObject(o, m) {
      forall k | k in o ensures o[k].Str? || !HidesSomething(k, o[k]) { assert CopyOfField(k, o[k], m[k]); }
    }
  }

  lemma MaskItemsCopy(a: seq<Json>, m: seq<Json>)
    requires |m| == |a| && forall i | 0 <= i < |a| :: m[i] == MaskItem(a[i])
    ensures (forall i | 0 <= i < |a| :: CopyOfItem(a[i], m[i])) <==>
            !exists i | 0 <= i < |a| :: a[i].Obj? && HidesBelow(a[i].fields)
  {
    forall i | 0 <= i < |a| ensures CopyOfItem(a[i], m[i]) <==> !(a[i].Obj? && HidesBelow(a[i].fields)) {
      if a[i].Obj? {
        assert m[i] == Obj(MaskFields(a[i].fields));
        MaskFieldsCopy(a[i].fields);
      }
    }
  }

  /** Masking a stored value and submitting the result gives the stored value back if and only if
    * no hidden text lies deeper than one object, or one object inside an array. */
  lemma ReadThenWriteIff(key: string, v: Json)
    ensures Restore(key, Mask(key, v), Some(v)) == v <==> !HidesTooDeep(v)
  {
    RestoreIff(key, v, Mask(key, v));
    match v
    case Str(s) => if s != "" { MaskedIsMasked(s); }
    case Obj(o) =>
      assert Mask(key, v) == Obj(MaskFields(o));
      MaskFieldsCopy(o);
    case Arr(a) => MaskItemsCopy(a, Mask(key, v).items);
    case _ =>
  }

  // ---------- Editing one value beside masked ones ----------

  /** The object shown with one field edited, or added, is saved with exactly that edit if and only if nothing hidden
    * lies too deep in its other fields. */
  lemma EditOneFieldIff(key: string, o: map<string, Json>, field: string, x: Json)
    requires !AsksForStored(field, x)
    ensures Restore(key, Obj(MaskFields(o)[field := x]), Some(Obj(o))) == Obj(o[field := x]) <==>
      forall k | k in o && k != field :: o[k].Str? || !HidesSomething(k, o[k])
  {
    hide Mask, AsksForStored, HidesSomething;
    var sub, want := MaskFields(o)[field := x], o[field := x];
    var r := RestoreObject(sub, o);
    assert r.Keys == want.Keys && r[field] == want[field];
    forall k | k in o && k != field ensures r[k] == o[k] <==> o[k].Str? || !HidesSomething(k, o[k]) {
      MaskFieldCopy(k, o[k]);
    }
    if forall k | k in o && k != field :: o[k].Str? || !HidesSomething(k, o[k]) {
      assert r == want;
    }
    if r == want {
      forall k | k in o && k != field ensures o[k].Str? || !HidesSomething(k, o[k]) { assert r[k] == want[k]; }
    }
  }

  /** An item of an array finds its secrets at the place to which it has been moved: each sensitive text is there
    * already, or is its own mask and the place has no such field. */
  predicate AtHome(o: map<string, Json>, place: map<string, Json>) {
    forall k | k in o :: FieldAtHome(k, o[k], place)
  }

  predicate FieldAtHome(k: string, v: Json, place: map<string, Json>) {
    if v.Str? && v.s != "" && IsSensitiveKey(k)
    then if k in place then place[k] == v else MaskString(v.s) == v.s
    else !HidesSomething(k, v)
  }

  lemma FieldAtHomeIff(k: string, v: Json, place: map<string, Json>)
    ensures RestoreField(k, Mask(k, v), place) == v <==> FieldAtHome(k, v, place)
  {
    MaskFixed(k, v);
    if v.Str? && v.s != "" { MaskedIsMasked(v.s); }
  }

  lemma AtHomeIff(o: map<string, Json>, place: map<string, Json>)
    ensures RestoreObject(MaskFields(o), place) == o <==> AtHome(o, place)
  {
    hide Mask, RestoreField, FieldAtHome;
    var r := RestoreObject(MaskFields(o), place);
    forall k | k in o ensures r[k] == o[k] <==> FieldAtHome(k, o[k], place) { FieldAtHomeIff(k, o[k], place); }
    assert r.Keys == o.Keys;
    if r == o {
      forall k | k in o ensures FieldAtHome(k, o[k], place) { assert r[k] == o[k]; }
    }
  }

  function Picked(a: seq<Json>, pick: seq<nat>): seq<Json>
    requires forall i | 0 <= i < |pick| :: pick[i] < |a|
  {
    seq(|pick|, i requires 0 <= i < |pick| => a[pick[i]])
  }

  function MaskItems(a: seq<Json>): (r: seq<Json>)
    ensures |r| == |a|
  {
    seq(|a|, i requires 0 <= i < |a| => MaskItem(a[i]))
  }

  /** Restoration goes by position. Items of a shown array that are dropped, repeated or moved come out as picked if and
    * only if every item finds its secrets at its new place. */
  lemma PickedItemsIff(key: string, a: seq<Json>, pick: seq<nat>)
    requires forall i | 0 <= i < |pick| :: pick[i] < |a|
    ensures Restore(key, Arr(Picked(MaskItems(a), pick)), Some(Arr(a))) == Arr(Picked(a, pick)) <==>
      forall i | 0 <= i < |pick| && a[pick[i]].Obj? :: AtHome(a[pick[i]].fields, StoredItem(Some(Arr(a)), i))
  {
    var r := Restore(key, Arr(Picked(MaskItems(a), pick)), Some(Arr(a))).items;
    forall i | 0 <= i < |pick|
      ensures r[i] == a[pick[i]] <==>
              (a[pick[i]].Obj? ==> AtHome(a[pick[i]].fields, StoredItem(Some(Arr(a)), i)))
    {
      if a[pick[i]].Obj? {
        assert MaskItem(a[pick[i]]) == Obj(MaskFields(a[pick[i]].fields));
        AtHomeIff(a[pick[i]].fields, StoredItem(Some(Arr(a)), i));
      }
    }
    if r == Picked(a, pick) {
      forall i | 0 <= i < |pick| ensures r[i] == a[pick[i]] { }
    }
  }

  lemma SecretAtHand(field: string, s: string, t: string)
    requires IsSensitiveKey(field) && t != ""
    ensures RestoreItem(MaskItem(Obj(map[field := Str(t)])), map[field := Str(s)]) == Obj(map[field := Str(s)])
  {
    var item, place := MaskItem(Obj(map[field := Str(t)])), map[field := Str(s)];
    assert Mask(field, Str(t)) == Str(MaskString(t));
    assert item.fields == map[field := Str(MaskString(t))];
    MaskedIsMasked(t);
    hide MaskItem, MaskString, IsMaskedValue, IsSensitiveKey;
    assert RestoreObject(item.fields, place) == place;
  }

  /** Two items with a secret each: once the first is dropped on the page, the second is saved with the first one's. */
  lemma DroppedItemShifts(key: string, field: string, s: string, t: string)
    requires IsSensitiveKey(field) && s != "" && t != "" && s != t
    ensures var a := [Obj(map[field := Str(s)]), Obj(map[field := Str(t)])];
      Restore(key, Arr(Picked(MaskItems(a), [1])), Some(Arr(a))) == Arr([Obj(map[field := Str(s)])])
  {
    SecretAtHand(field, s, t);
    hide RestoreItem, MaskItem, IsSensitiveKey;
    var a := [Obj(map[field := Str(s)]), Obj(map[field := Str(t)])];
    assert Picked(MaskItems(a), [1]) == [MaskItem(a[1])];
    assert StoredItem(Some(Arr(a)), 0) == map[field := Str(s)];
  }

  // ---------- What a masked value gives away ----------

  /** Secrets that look alike: both empty, both short, or both long with the same first and last four bytes. */
  predicate SameEnds(s: string, t: string) {
    || (s == "" && t == "")
    || (1 <= |s| <= 8 && 1 <= |t| <= 8)
    || (|s| > 8 && |t| > 8 && s[..4] == t[..4] && s[|s| - 4..] == t[|t| - 4..])
  }

  /** The values differ at most in sensitive texts that look alike. */
  predicate LooksLike(key: string, v: Json, w: Json)
    decreases v
  {
    match v
    case Str(s) => w.Str? && if IsSensitiveKey(key) then SameEnds(s, w.s) else s == w.s
    case Obj(o) => w.Obj? && o.Keys == w.fields.Keys && forall k | k in o :: LooksLike(k, o[k], w.fields[k])
    case Arr(a) => w.Arr? && |a| == |w.items| && forall i | 0 <= i < |a| :: ItemLooksLike(a[i], w.items[i])
    case _ => v == w
  }

  predicate ItemLooksLike(v: Json, w: Json)
    decreases v
  {
    if v.Obj? && w.Obj? then
      v.fields.Keys == w.fields.Keys && forall k | k in v.fields :: LooksLike(k, v.fields[k], w.fields[k])
    else v == w
  }

  lemma MaskStringIff(s: string, t: string)
    ensures MaskString(s) == MaskString(t) <==> SameEnds(s, t)
  {
    var m, n := MaskString(s), MaskString(t);
    if |s| > 8 && |t| > 8 {
      assert m[..4] == s[..4] && m[8..] == s[|s| - 4..];
      assert n[..4] == t[..4] && n[8..] == t[|t| - 4..];
    }
  }

  lemma MaskFieldsIff(o: map<string, Json>, p: map<string, Json>)
    requires forall k | k in o && k in p :: Mask(k, o[k]) == Mask(k, p[k]) <==> LooksLike(k, o[k], p[k])
    ensures MaskFields(o) == MaskFields(p) <==> o.Keys == p.Keys && forall k | k in o :: LooksLike(k, o[k], p[k])
  {
    var m, n := MaskFields(o), MaskFields(p);
    assert m.Keys == o.Keys && n.Keys == p.Keys;
    if m == n {
      forall k | k in o ensures LooksLike(k, o[k], p[k]) { assert m[k] == n[k]; }
    }
  }

  /** What is shown of two values is the same exactly when they differ in nothing but sensitive texts that look alike:
    * of a secret nothing is given away but its first and last four bytes, and of a short one nothing. */
  lemma {:induction false} MaskHidesIff(key: string, v: Json, w: Json)
    ensures Mask(key, v) == Mask(key, w) <==> LooksLike(key, v, w)
    decreases v
  {
    match v
    case Str(s) => if w.Str? { MaskStringIff(s, w.s); }
    case Obj(o) =>
      if w.Obj? {
        forall k | k in o && k in w.fields
          ensures Mask(k, o[k]) == Mask(k, w.fields[k]) <==> LooksLike(k, o[k], w.fields[k])
        {
          MaskHidesIff(k, o[k], w.fields[k]);
        }
        MaskFieldsIff(o, w.fields);
        assert Mask(key, v) == Obj(MaskFields(o)) && Mask(key, w) == Obj(MaskFields(w.fields));
      }
    case Arr(a) =>
      if w.Arr? && |a| == |w.items| {
        var m, n := Mask(key, v).items, Mask(key, w).items;
        forall i | 0 <= i < |a| ensures m[i] == n[i] <==> ItemLooksLike(a[i], w.items[i]) {
          MaskItemHidesIff(a[i], w.items[i]);
        }
        if m == n {
          forall i | 0 <= i < |a| ensures ItemLooksLike(a[i], w.items[i]) { assert m[i] == n[i]; }
        }
      } else if w.Arr? {
        assert |Mask(key, v).items| != |Mask(key, w).items|;
      }
    case _ =>
  }

  lemma {:induction false} MaskItemHidesIff(v: Json, w: Json)
    ensures MaskItem(v) == MaskItem(w) <==> ItemLooksLike(v, w)
    decreases v
  {
    if v.Obj? && w.Obj? {
      forall k | k in v.fields && k in w.fields
        ensures Mask(k, v.fields[k]) == Mask(k, w.fields[k]) <==> LooksLike(k, v.fields[k], w.fields[k])
      {
        MaskHidesIff(k, v.fields[k], w.fields[k]);
      }
      MaskFieldsIff(v.fields, w.fields);
      assert MaskItem(v) == Obj(MaskFields(v.fields)) && MaskItem(w) == Obj(MaskFields(w.fields));
    }
  }

  /** A secret two objects deep, say a password under "smtp" under "email", comes back as its own mask. */
  lemma DeepSecretLost(secret: string)
    requires |secret| > 8
    ensures var v := Nested("smtp", "password", secret);
      Restore("email", Mask("email", v), Some(v)) == Nested("smtp", "password", MaskString(secret))
  {
    SensitivePassword();
    NestedSecretLost("email", "smtp", "password", secret);
  }

  function Nested(outer: string, inner: string, text: string): Json {
    Obj(map[outer := Obj(map[inner := Str(text)])])
  }

  lemma NestedSecretLost(key: string, outer: string, inner: string, secret: string)
    requires IsSensitiveKey(inner) && secret != ""
    ensures Restore(key, Mask(key, Nested(outer, inner, secret)), Some(Nested(outer, inner, secret))) ==
      Nested(outer, inner, MaskString(secret))
  {
    var v, w := Nested(outer, inner, secret), Nested(outer, inner, MaskString(secret));
    assert Mask(inner, Str(secret)) == Str(MaskString(secret));
    assert Mask(outer, v.fields[outer]).fields == map[inner := Str(MaskString(secret))];
    assert Mask(key, v).fields == w.fields;
    assert RestoreObject(w.fields, v.fields) == w.fields;
  }

  lemma SensitivePassword()
    ensures IsSensitiveKey("password")
  {
    var l := Lower("password");
    assert l == "password";
    assert SENSITIVE_PATTERNS[3] == "password" && At(l, SENSITIVE_PATTERNS[3], 0);
    assert Contains(l, SENSITIVE_PATTERNS[3]);
  }

  /** The same ASCII letters, capitals or not. */
  predicate SameLetters(k: string, lower: string) {
    |k| == |lower| &&
    forall i | 0 <= i < |k| ::
      if 'A' <= k[i] <= 'Z' then lower[i] as int == k[i] as int + 32 else lower[i] == k[i]
  }

  /** Any key with a pattern inside, in capitals or not, is sensitive. */
  lemma SensitiveInside(a: string, k: string, b: string, i: nat)
    requires i < |SENSITIVE_PATTERNS| && SameLetters(k, SENSITIVE_PATTERNS[i])
    ensures IsSensitiveKey(a + k + b)
  {
    var l := Lower(a + k + b);
    assert Lower(k) == SENSITIVE_PATTERNS[i];
    assert l == Lower(a) + Lower(k) + Lower(b);
    assert At(l, SENSITIVE_PATTERNS[i], |a|);
    assert Contains(l, SENSITIVE_PATTERNS[i]);
  }

  // ---------- The loops of restoreMaskedValues ----------

  method RestoreFields(o: map<string, Json>, stored: map<string, Json>) returns (result: map<string, Json>)
    ensures result == RestoreObject(o, stored)
  {
    result := map[];
    var todo := o.Keys;
    while todo != {}
      invariant todo <= o.Keys
      invariant result == map k | k in o && k !in todo :: RestoreField(k, o[k], stored)
    {
      var k :| k in todo;
      if AsksForStored(k, o[k]) && k in stored {
        result := result[k := stored[k]];
      } else {
        result := result[k := o[k]];
      }
      todo := todo - {k};
    }
  }

  /** restoreMaskedValues, fields and items visited in any order Go's maps give. */
  method RestoreMaskedValues(key: string, v: Json, stored: Option<Json>) returns (result: Json)
    ensures result == Restore(key, v, stored)
  {
    match v
    case Str(s) =>
      if AsksForStored(key, v) && stored.Some? && AsText(stored.value).Some? {
        return Str(AsText(stored.value).value);
      }
      return v;
    case Obj(o) =>
      var fields := RestoreFields(o, StoredFields(stored));
      return Obj(fields);
    case Arr(a) =>
      var items: seq<Json> := [];
      for i := 0 to |a|
        invariant |items| == i
        invariant forall j | 0 <= j < i :: items[j] == RestoreItem(a[j], StoredItem(stored, j))
      {
        if a[i].Obj? {
          var fields := RestoreFields(a[i].fields, StoredItem(stored, i));
          items := items + [Obj(fields)];
        } else {
          items := items + [a[i]];
        }
      }
      return Arr(items);
    case _ =>
      return v;
  }
}
