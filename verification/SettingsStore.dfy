/** Replacing a settings category over soft-deleted, uniquely indexed rows
  * (SetCategory in internal/config/settings.go, the table in internal/model/settings.go).
  *
  * The database is the table of rows; a transaction is atomic. JSON text is left to a codec.
  */
module SettingsStore {
  import opened SettingsMask
  import opened Options

  datatype Row = Row(id: nat, category: string, key: string, value: string, valueType: string, deleted: bool)

  /** json.Marshal, which may refuse a value, and json.Unmarshal, which may refuse a text. */
  datatype Codec = Codec(marshal: Json -> Option<string>, unmarshal: string -> Option<Json>)

  type Table = map<nat, Row>

  predicate SameSlot(r: Row, category: string, key: string) {
    r.category == category && r.key == key
  }

  /** Rows under their own ID, at most one row, live or soft-deleted, for each (category, key). */
  predicate TableOk(t: Table) {
    && (forall i | i in t :: t[i].id == i)
    && (forall i, j | i in t && j in t && SameSlot(t[i], t[j].category, t[j].key) :: i == j)
  }

  predicate Live(r: Row, category: string) {
    r.category == category && !r.deleted
  }

  /** The live row of (category, key), if there is one. */
  predicate HasLive(t: Table, category: string, key: string) {
    exists i | i in t :: Live(t[i], category) && t[i].key == key
  }

  /** The text each live key of the category holds. */
  ghost predicate LiveValues(t: Table, category: string, m: map<string, string>) {
    && (forall i | i in t && Live(t[i], category) :: t[i].key in m && m[t[i].key] == t[i].value)
    && (forall k | k in m :: HasLive(t, category, k))
  }

  /** Kind of a decoded JSON value, as stored beside it. */
  function TypeName(v: Json): string {
    match v
    case Str(_) => "string"
    case Bool(_) => "boolean"
    case Num(_) => "number"
    case Arr(_) => "array"
    case Obj(_) => "object"
    case Null => "string"
  }

  /** Live rows of a category by key: the source's existingMap. */
  ghost predicate IsExisting(t: Table, category: string, existing: map<string, Row>) {
    && (forall i | i in t && Live(t[i], category) :: t[i].key in existing)
    && (forall k | k in existing :: existing[k].id in t && t[existing[k].id] == existing[k]
                                    && Live(existing[k], category) && existing[k].key == k)
  }

  /** The decoded stored value of a key. */
  function Stored(codec: Codec, existing: map<string, Row>, key: string): Option<Json> {
    if key in existing then codec.unmarshal(existing[key].value) else None
  }

  function Restored(codec: Codec, existing: map<string, Row>, settings: map<string, Json>, key: string): Json
    requires key in settings
  {
    Restore(key, settings[key], Stored(codec, existing, key))
  }

  predicate Marshals(codec: Codec, existing: map<string, Row>, settings: map<string, Json>, key: string) {
    key in settings && codec.marshal(Restored(codec, existing, settings, key)).Some?
  }

  datatype Entry = Entry(text: string, kind: string)

  /** What the category must hold afterwards: an entry for every submitted value that marshals. */
  function Wanted(codec: Codec, existing: map<string, Row>, settings: map<string, Json>): map<string, Entry> {
    map k | k in settings && Marshals(codec, existing, settings, k) ::
      var value := Restored(codec, existing, settings, k);
      Entry(codec.marshal(value).value, TypeName(value))
  }

  /** `r` brought to a wanted entry: left alone when it is live with that text. */
  function Written(r: Row, e: Entry): Row {
    if !r.deleted && r.value == e.text then r else r.(value := e.text, valueType := e.kind, deleted := false)
  }

  /** What becomes of an old row when the keys in `done` are written and those in `gone` deleted. */
  function Outcome(r: Row, category: string, wanted: map<string, Entry>, done: set<string>, gone: set<string>): Row
    requires done <= wanted.Keys
  {
    if r.category != category then r
    else if r.key in done then Written(r, wanted[r.key])
    else if r.key in gone then r.(deleted := true)
    else r
  }

  /** Table `t'` is `t` after that, with a new live row for each done key that had no row at all. */
  ghost predicate Progress(t: Table, t': Table, category: string, wanted: map<string, Entry>,
                           done: set<string>, gone: set<string>)
  {
    && done <= wanted.Keys
    && OldRowsDone(t, t', category, wanted, done, gone)
    && NewRowsDone(t, t', category, wanted, done)
    && (forall k | k in done :: HasLive(t', category, k))
  }

  ghost predicate OldRowsDone(t: Table, t': Table, category: string, wanted: map<string, Entry>,
                              done: set<string>, gone: set<string>)
    requires done <= wanted.Keys
  {
    forall i | i in t :: i in t' && t'[i] == Outcome(t[i], category, wanted, done, gone)
  }

  ghost predicate NewRowsDone(t: Table, t': Table, category: string, wanted: map<string, Entry>, done: set<string>)
    requires done <= wanted.Keys
  {
    forall i | i in t' && i !in t ::
      t'[i].key in done && t'[i] == Row(i, category, t'[i].key, wanted[t'[i].key].text, wanted[t'[i].key].kind, false)
  }

  // ---------- One key ----------

  lemma UpdateOk(t: Table, r: Row)
    requires TableOk(t) && r.id in t && SameSlot(r, t[r.id].category, t[r.id].key)
    ensures TableOk(t[r.id := r])
  {
  }

  /** Writing a key whose row exists, live or soft-deleted. */
  lemma WriteRow(t: Table, t1: Table, category: string, wanted: map<string, Entry>, done: set<string>, i: nat)
    requires TableOk(t1) && Progress(t, t1, category, wanted, done, {})
    requires i in t1 && t1[i].category == category && t1[i].key !in done && t1[i].key in wanted
    ensures var k := t1[i].key;
      var t2 := t1[i := Written(t1[i], wanted[k])];
      TableOk(t2) && Progress(t, t2, category, wanted, done + {k}, {})
  {
    var k := t1[i].key;
    var r := Written(t1[i], wanted[k]);
    UpdateOk(t1, r);
    WriteOldRows(t, t1, category, wanted, done, i);
    WriteNewRows(t, t1, category, wanted, done, i);
    KeepsLive(t1, t1[i := r], category, done);
    AddsLive(t1, category, i, r);
  }

  lemma WriteOldRows(t: Table, t1: Table, category: string, wanted: map<string, Entry>, done: set<string>, i: nat)
    requires TableOk(t1) && done <= wanted.Keys && OldRowsDone(t, t1, category, wanted, done, {})
    requires i in t1 && t1[i].category == category && t1[i].key !in done && t1[i].key in wanted
    ensures OldRowsDone(t, t1[i := Written(t1[i], wanted[t1[i].key])], category, wanted, done + {t1[i].key}, {})
  {
    var k := t1[i].key;
    var t2 := t1[i := Written(t1[i], wanted[k])];
    forall j | j in t ensures j in t2 && t2[j] == Outcome(t[j], category, wanted, done + {k}, {}) {
      assert t1[j] == Outcome(t[j], category, wanted, done, {});
      if j != i { assert !SameSlot(t1[j], category, k); }
    }
  }

  lemma WriteNewRows(t: Table, t1: Table, category: string, wanted: map<string, Entry>, done: set<string>, i: nat)
    requires done <= wanted.Keys && NewRowsDone(t, t1, category, wanted, done)
    requires i in t1 && t1[i].key !in done && t1[i].key in wanted
    ensures NewRowsDone(t, t1[i := Written(t1[i], wanted[t1[i].key])], category, wanted, done + {t1[i].key})
  {
  }

  lemma NothingDone(t: Table, category: string, wanted: map<string, Entry>)
    ensures Progress(t, t, category, wanted, {}, {})
  {
  }

  lemma KeepsLive(t1: Table, t2: Table, category: string, done: set<string>)
    requires forall k | k in done :: HasLive(t1, category, k)
    requires forall i | i in t1 && Live(t1[i], category) && t1[i].key in done :: i in t2 && t2[i] == t1[i]
    ensures forall k | k in done :: HasLive(t2, category, k)
  {
  }

  lemma AddsLive(t: Table, category: string, i: nat, r: Row)
    requires Live(r, category)
    ensures HasLive(t[i := r], category, r.key)
  {
    assert t[i := r][i] == r;
  }

  /** Creating a row for a key that has none. */
  lemma CreateRow(t: Table, t1: Table, category: string, wanted: map<string, Entry>, done: set<string>, i: nat,
                  k: string)
    requires TableOk(t1) && Progress(t, t1, category, wanted, done, {})
    requires k in wanted && k !in done && i !in t1 && forall j | j in t1 :: !SameSlot(t1[j], category, k)
    ensures var t2 := t1[i := Row(i, category, k, wanted[k].text, wanted[k].kind, false)];
      TableOk(t2) && Progress(t, t2, category, wanted, done + {k}, {})
  {
    var r := Row(i, category, k, wanted[k].text, wanted[k].kind, false);
    CreateOk(t1, r);
    CreateOldRows(t, t1, category, wanted, done, r);
    CreateNewRows(t, t1, category, wanted, done, r);
    KeepsLive(t1, t1[i := r], category, done);
    AddsLive(t1, category, i, r);
  }

  lemma CreateOk(t: Table, r: Row)
    requires TableOk(t) && r.id !in t && forall j | j in t :: !SameSlot(t[j], r.category, r.key)
    ensures TableOk(t[r.id := r])
  {
  }

  lemma CreateOldRows(t: Table, t1: Table, category: string, wanted: map<string, Entry>, done: set<string>, r: Row)
    requires done <= wanted.Keys && OldRowsDone(t, t1, category, wanted, done, {})
    requires r.key in wanted && r.id !in t1 && forall j | j in t1 :: !SameSlot(t1[j], category, r.key)
    ensures OldRowsDone(t, t1[r.id := r], category, wanted, done + {r.key}, {})
  {
    forall j | j in t ensures t1[j] == Outcome(t[j], category, wanted, done + {r.key}, {}) {
      assert t1[j] == Outcome(t[j], category, wanted, done, {});
      assert !SameSlot(t1[j], category, r.key);
    }
  }

  lemma CreateNewRows(t: Table, t1: Table, category: string, wanted: map<string, Entry>, done: set<string>, r: Row)
    requires done <= wanted.Keys && NewRowsDone(t, t1, category, wanted, done)
    requires r.key in wanted && r == Row(r.id, category, r.key, wanted[r.key].text, wanted[r.key].kind, false)
    ensures NewRowsDone(t, t1[r.id := r], category, wanted, done + {r.key})
  {
  }

  /** Soft-deleting a live row whose key is not wanted. */
  lemma DeleteRow(t: Table, t1: Table, category: string, wanted: map<string, Entry>, gone: set<string>, i: nat)
    requires TableOk(t1) && Progress(t, t1, category, wanted, wanted.Keys, gone)
    requires i in t1 && t1[i].category == category && t1[i].key !in wanted
    ensures var t2 := t1[i := t1[i].(deleted := true)];
      TableOk(t2) && Progress(t, t2, category, wanted, wanted.Keys, gone + {t1[i].key})
  {
    var r := t1[i].(deleted := true);
    UpdateOk(t1, r);
    DeleteOldRows(t, t1, category, wanted, gone, i);
    KeepsLive(t1, t1[i := r], category, wanted.Keys);
  }

  lemma DeleteOldRows(t: Table, t1: Table, category: string, wanted: map<string, Entry>, gone: set<string>, i: nat)
    requires TableOk(t1) && OldRowsDone(t, t1, category, wanted, wanted.Keys, gone)
    requires i in t1 && t1[i].category == category && t1[i].key !in wanted
    ensures OldRowsDone(t, t1[i := t1[i].(deleted := true)], category, wanted, wanted.Keys, gone + {t1[i].key})
  {
    var k := t1[i].key;
    var t2 := t1[i := t1[i].(deleted := true)];
    forall j | j in t ensures j in t2 && t2[j] == Outcome(t[j], category, wanted, wanted.Keys, gone + {k}) {
      assert t1[j] == Outcome(t[j], category, wanted, wanted.Keys, gone);
      if j != i { assert !SameSlot(t1[j], category, k); }
    }
  }

  /** A live row whose key is not written yet is still as it was. */
  lemma LeftRow(t: Table, t1: Table, category: string, existing: map<string, Row>, wanted: map<string, Entry>,
                done: set<string>, k: string)
    requires IsExisting(t, category, existing) && Progress(t, t1, category, wanted, done, {})
    requires k in existing && k !in done
    ensures existing[k].id in t1 && t1[existing[k].id] == existing[k] && SameSlot(existing[k], category, k)
  {
  }

  // ---------- The service ----------

  class SettingsService {
    const codec: Codec
    var rows: Table
    var nextId: nat

    constructor (codec: Codec)
      ensures this.codec == codec && rows == map[] && Valid()
    {
      this.codec := codec;
      rows, nextId := map[], 0;
    }

    ghost predicate Valid()
      reads this
    {
      TableOk(rows) && forall i | i in rows :: i < nextId
    }

    /** An insert. The unique index refuses it when any row, live or soft-deleted, has the slot. */
    method Create(category: string, key: string, value: string, valueType: string) returns (ok: bool)
      requires Valid()
      modifies this
      ensures Valid()
      ensures ok <==> forall i | i in old(rows) :: !SameSlot(old(rows)[i], category, key)
      ensures !ok ==> rows == old(rows)
      ensures ok ==> rows == old(rows)[old(nextId) := Row(old(nextId), category, key, value, valueType, false)]
    {
      if exists i | i in rows :: SameSlot(rows[i], category, key) {
        return false;
      }
      rows := rows[nextId := Row(nextId, category, key, value, valueType, false)];
      nextId := nextId + 1;
      return true;
    }

    /** GetByCategory, as the source's existingMap: live rows only. */
    method GetByCategory(category: string) returns (existing: map<string, Row>)
      requires Valid()
      ensures IsExisting(rows, category, existing)
    {
      existing := map[];
      var todo := rows.Keys;
      while todo != {}
        invariant todo <= rows.Keys
        invariant forall i | i in rows && i !in todo && Live(rows[i], category) :: rows[i].key in existing
        invariant forall k | k in existing :: existing[k].id in rows && rows[existing[k].id] == existing[k]
                                              && Live(existing[k], category) && existing[k].key == k
      {
        var i :| i in todo;
        if rows[i].category == category && !rows[i].deleted {
          existing := existing[rows[i].key := rows[i]];
        }
        todo := todo - {i};
      }
    }

    /** Replace a category by `settings`, as one transaction. `existing` records what was there.
      * No insert is ever refused, so the transaction never rolls back. */
    method SetCategory(category: string, settings: map<string, Json>)
      returns (ok: bool, ghost existing: map<string, Row>)
      requires Valid()
      modifies this
      ensures ok && Valid()
      ensures IsExisting(old(rows), category, existing)
      ensures var wanted := Wanted(codec, existing, settings);
        Progress(old(rows), rows, category, wanted, wanted.Keys, existing.Keys - wanted.Keys)
    {
      ghost var before := rows;
      var left := GetByCategory(category);
      existing := left;
      ok, left := WriteAll(before, category, settings, left);
      DeleteRest(before, category, Wanted(codec, existing, settings), left);
    }

    /** The loop over the submitted settings, in any order. `left` is what stays to be deleted. */
    method WriteAll(ghost t: Table, category: string, settings: map<string, Json>, existing: map<string, Row>)
      returns (ok: bool, left: map<string, Row>)
      requires Valid() && rows == t && IsExisting(t, category, existing)
      modifies this
      ensures ok && Valid()
      ensures var wanted := Wanted(codec, existing, settings);
        left == existing - wanted.Keys && Progress(t, rows, category, wanted, wanted.Keys, {})
    {
      hide Progress, TableOk, IsExisting;
      left, ok := existing, true;
      ghost var wanted := Wanted(codec, existing, settings);
      ghost var done: set<string> := {};
      var todo := settings.Keys;
      NothingDone(t, category, wanted);
      while todo != {}
        invariant ok && Valid() && todo <= settings.Keys
        invariant done + todo * wanted.Keys == wanted.Keys && done !! todo
        invariant left == existing - done
        invariant Progress(t, rows, category, wanted, done, {})
      {
        var key :| key in todo;
        ok, left, done := WriteSetting(t, category, settings, existing, wanted, done, left, key);
        todo := todo - {key};
      }
      assert done == wanted.Keys;
    }

    /** One round: restore, marshal, write. A value that does not marshal is skipped. */
    method WriteSetting(ghost t: Table, category: string, settings: map<string, Json>, ghost existing: map<string, Row>,
                        ghost wanted: map<string, Entry>, ghost done: set<string>, left: map<string, Row>, key: string)
      returns (ok: bool, left': map<string, Row>, ghost done': set<string>)
      requires Valid() && IsExisting(t, category, existing) && wanted == Wanted(codec, existing, settings)
      requires left == existing - done && key in settings && key !in done
      requires Progress(t, rows, category, wanted, done, {})
      modifies this
      ensures ok && Valid() && left' == existing - done'
      ensures done' == if key in wanted then done + {key} else done
      ensures Progress(t, rows, category, wanted, done', {})
    {
      hide Progress, TableOk, IsExisting;
      var value := RestoreMaskedValues(key, settings[key], Stored(codec, left, key));
      assert value == Restored(codec, existing, settings, key);
      var text := codec.marshal(value);
      if text.None? {
        return true, left, done;
      }
      assert wanted[key] == Entry(text.value, TypeName(value));
      ok := WriteKey(t, existing, wanted, done, category, left, key, text.value, TypeName(value));
      left' := left - {key};
      done' := done + {key};
    }

    /** The loop over the live rows whose keys were not written. */
    method DeleteRest(ghost t: Table, category: string, ghost wanted: map<string, Entry>, left: map<string, Row>)
      requires Valid() && Progress(t, rows, category, wanted, wanted.Keys, {})
      requires forall k | k in left :: k !in wanted && left[k].id in t && SameSlot(t[left[k].id], category, k)
      modifies this
      ensures Valid() && Progress(t, rows, category, wanted, wanted.Keys, left.Keys)
    {
      hide Progress, TableOk;
      ghost var gone: set<string> := {};
      var rest := left.Keys;
      while rest != {}
        invariant Valid() && rest <= left.Keys && gone + rest == left.Keys
        invariant Progress(t, rows, category, wanted, wanted.Keys, gone)
      {
        var key :| key in rest;
        DeleteSetting(t, category, wanted, gone, key, left[key].id);
        gone := gone + {key};
        rest := rest - {key};
      }
    }

    method DeleteSetting(ghost t: Table, category: string, ghost wanted: map<string, Entry>, ghost gone: set<string>,
                         key: string, id: nat)
      requires Valid() && Progress(t, rows, category, wanted, wanted.Keys, gone)
      requires key !in wanted && id in t && SameSlot(t[id], category, key)
      modifies this
      ensures Valid() && Progress(t, rows, category, wanted, wanted.Keys, gone + {key})
    {
      assert rows[id] == Outcome(t[id], category, wanted, wanted.Keys, gone);
      DeleteRow(t, rows, category, wanted, gone, id);
      rows := rows[id := rows[id].(deleted := true)];
    }

    /** Bring one key to its wanted text: update the live row, revive the soft-deleted one, or create one. */
    method WriteKey(ghost t: Table, ghost existing: map<string, Row>, ghost wanted: map<string, Entry>,
                    ghost done: set<string>, category: string, left: map<string, Row>, key: string,
                    text: string, kind: string) returns (ok: bool)
      requires Valid() && IsExisting(t, category, existing) && left == existing - done
      requires Progress(t, rows, category, wanted, done, {})
      requires key in wanted && key !in done && wanted[key] == Entry(text, kind)
      modifies this
      ensures ok && Valid() && Progress(t, rows, category, wanted, done + {key}, {})
    {
      hide Progress, TableOk, IsExisting;
      if key in left {
        LeftRow(t, rows, category, existing, wanted, done, key);
        Update(t, wanted, done, category, left[key].id, text, kind);
      } else if exists i | i in rows :: SameSlot(rows[i], category, key) {
        Revive(t, wanted, done, category, key, text, kind);
      } else {
        CreateRow(t, rows, category, wanted, done, nextId, key);
        ok := Create(category, key, text, kind);
        return;
      }
      ok := true;
    }

    /** Save the row of a key that has no live one. */
    method Revive(ghost t: Table, ghost wanted: map<string, Entry>, ghost done: set<string>,
                  category: string, key: string, text: string, kind: string)
      requires Valid() && Progress(t, rows, category, wanted, done, {})
      requires exists i | i in rows :: SameSlot(rows[i], category, key)
      requires key in wanted && key !in done && wanted[key] == Entry(text, kind)
      modifies this
      ensures Valid() && Progress(t, rows, category, wanted, done + {key}, {})
    {
      hide Progress, TableOk;
      var i :| i in rows && SameSlot(rows[i], category, key);
      Update(t, wanted, done, category, i, text, kind);
    }

    /** Save an existing row, unless it is live and already holds the text. */
    method Update(ghost t: Table, ghost wanted: map<string, Entry>, ghost done: set<string>,
                  category: string, i: nat, text: string, kind: string)
      requires Valid() && Progress(t, rows, category, wanted, done, {})
      requires i in rows && rows[i].category == category && rows[i].key in wanted && rows[i].key !in done
      requires wanted[rows[i].key] == Entry(text, kind)
      modifies this
      ensures Valid() && Progress(t, rows, category, wanted, done + {old(rows)[i].key}, {})
    {
      WriteRow(t, rows, category, wanted, done, i);
      if !rows[i].deleted && rows[i].value == text {
        assert rows[i := rows[i]] == rows;
        return;
      }
      rows := rows[i := rows[i].(value := text, valueType := kind, deleted := false)];
    }
  }

  // ---------- What it means ----------

  function Texts(wanted: map<string, Entry>): map<string, string> {
    map k | k in wanted :: wanted[k].text
  }

  lemma OldRows(t: Table, t': Table, category: string, existing: map<string, Row>, wanted: map<string, Entry>, i: nat)
    requires IsExisting(t, category, existing) && i in t
    requires Progress(t, t', category, wanted, wanted.Keys, existing.Keys - wanted.Keys)
    ensures i in t' && SameSlot(t'[i], t[i].category, t[i].key)
    ensures t[i].category != category ==> t'[i] == t[i]
    ensures Live(t'[i], category) ==> t[i].key in wanted && t'[i].value == wanted[t[i].key].text
  {
  }

  /** After SetCategory the live rows of the category are exactly the submitted values that marshal,
    * masked secrets restored; other categories are untouched and no row is ever dropped. */
  lemma CategoryReplaced(t: Table, t': Table, category: string, existing: map<string, Row>, wanted: map<string, Entry>)
    requires IsExisting(t, category, existing)
    requires Progress(t, t', category, wanted, wanted.Keys, existing.Keys - wanted.Keys)
    ensures LiveValues(t', category, Texts(wanted))
    ensures forall i | i in t && t[i].category != category :: i in t' && t'[i] == t[i]
    ensures forall i | i in t' && t'[i].category != category :: i in t && t'[i] == t[i]
    ensures forall i | i in t :: i in t' && SameSlot(t'[i], t[i].category, t[i].key)
  {
    forall i | i in t
      ensures i in t' && SameSlot(t'[i], t[i].category, t[i].key)
      ensures t[i].category != category ==> t'[i] == t[i]
      ensures Live(t'[i], category) ==> t[i].key in wanted && t'[i].value == wanted[t[i].key].text
    {
      OldRows(t, t', category, existing, wanted, i);
    }
  }

  /** SetCategory leaves the whole table as it was exactly when it is given, after restoration and
    * marshalling, the keys and texts that are live. */
  lemma SameValuesIff(t: Table, t': Table, category: string, existing: map<string, Row>, wanted: map<string, Entry>)
    requires TableOk(t) && TableOk(t') && IsExisting(t, category, existing)
    requires Progress(t, t', category, wanted, wanted.Keys, existing.Keys - wanted.Keys)
    ensures t' == t <==> wanted.Keys == existing.Keys && forall k | k in existing :: wanted[k].text == existing[k].value
  {
    CategoryReplaced(t, t', category, existing, wanted);
    if wanted.Keys == existing.Keys && forall k | k in existing :: wanted[k].text == existing[k].value {
      Unchanged(t, t', category, existing, wanted);
    }
    if t' == t {
      forall k | k in wanted ensures k in existing {
        assert HasLive(t', category, k);
      }
      forall k | k in existing ensures k in wanted && wanted[k].text == existing[k].value {
        assert Live(t'[existing[k].id], category);
      }
    }
  }

  lemma Unchanged(t: Table, t': Table, category: string, existing: map<string, Row>, wanted: map<string, Entry>)
    requires TableOk(t) && TableOk(t') && IsExisting(t, category, existing)
    requires Progress(t, t', category, wanted, wanted.Keys, existing.Keys - wanted.Keys)
    requires wanted.Keys == existing.Keys && forall k | k in existing :: wanted[k].text == existing[k].value
    ensures t' == t
  {
    forall i | i in t ensures i in t' && t'[i] == t[i] {
      if t[i].category == category && t[i].key in wanted {
        var j := existing[t[i].key].id;
        assert j in t && SameSlot(t[j], category, t[i].key);
      }
    }
    forall i | i in t' ensures i in t {
      if i !in t {
        var j := existing[t'[i].key].id;
        assert j in t && t'[j] == t[j] && SameSlot(t'[j], category, t'[i].key);
      }
    }
  }

  lemma WantedAsSubmitted(codec: Codec, existing: map<string, Row>, settings: map<string, Json>, key: string)
    requires key in settings && codec.marshal(settings[key]).Some?
    requires key !in existing || !AsksSomewhere(key, settings[key])
    ensures var wanted := Wanted(codec, existing, settings);
      key in wanted && wanted[key].text == codec.marshal(settings[key]).value
  {
    RestoreKeeps(key, settings[key], Stored(codec, existing, key));
  }

  /** A value submitted for a new key, or in which no text asks for a stored one, is live afterwards as the text of that
    * very value. */
  lemma SavedAsSubmitted(codec: Codec, t: Table, t': Table, category: string, existing: map<string, Row>,
                         settings: map<string, Json>, key: string)
    requires IsExisting(t, category, existing)
    requires var wanted := Wanted(codec, existing, settings);
      Progress(t, t', category, wanted, wanted.Keys, existing.Keys - wanted.Keys)
    requires key in settings && codec.marshal(settings[key]).Some?
    requires key !in existing || !AsksSomewhere(key, settings[key])
    ensures HasLive(t', category, key)
    ensures forall i | i in t' && Live(t'[i], category) && t'[i].key == key ::
      t'[i].value == codec.marshal(settings[key]).value
  {
    var wanted := Wanted(codec, existing, settings);
    CategoryReplaced(t, t', category, existing, wanted);
    WantedAsSubmitted(codec, existing, settings, key);
    hide Progress, IsExisting, Wanted;
    assert key in Texts(wanted);
  }

  /** A row that stays live is as it was where it already held the text; otherwise it is stored with the kind of its
    * new value. */
  lemma KindFollowsText(codec: Codec, t: Table, t': Table, category: string, existing: map<string, Row>,
                        settings: map<string, Json>, i: nat)
    requires IsExisting(t, category, existing) && i in t
    requires var wanted := Wanted(codec, existing, settings);
      Progress(t, t', category, wanted, wanted.Keys, existing.Keys - wanted.Keys)
    ensures i in t' && (Live(t'[i], category) ==> t[i].key in settings)
    ensures Live(t'[i], category) ==>
      if Live(t[i], category) && t'[i].value == t[i].value then t'[i] == t[i]
      else t'[i].valueType == TypeName(Restored(codec, existing, settings, t[i].key))
  {
    var wanted := Wanted(codec, existing, settings);
    hide TypeName;
    assert t'[i] == Outcome(t[i], category, wanted, wanted.Keys, existing.Keys - wanted.Keys);
  }

  /** A key without any row gets one live row with the text of the submitted value and its kind. */
  lemma NewKeyRow(codec: Codec, t: Table, t': Table, category: string, existing: map<string, Row>,
                  settings: map<string, Json>, key: string) returns (i: nat)
    requires IsExisting(t, category, existing) && forall j | j in t :: !SameSlot(t[j], category, key)
    requires var wanted := Wanted(codec, existing, settings);
      Progress(t, t', category, wanted, wanted.Keys, existing.Keys - wanted.Keys)
    requires key in settings && codec.marshal(settings[key]).Some?
    ensures i !in t && i in t' && t'[i].id == i && SameSlot(t'[i], category, key) && !t'[i].deleted
    ensures t'[i].value == codec.marshal(settings[key]).value
    ensures var v := settings[key];
      && (t'[i].valueType == "string" <==> v.Str? || v.Null?) && (t'[i].valueType == "boolean" <==> v.Bool?)
      && (t'[i].valueType == "number" <==> v.Num?) && (t'[i].valueType == "array" <==> v.Arr?)
      && (t'[i].valueType == "object" <==> v.Obj?)
  {
    var wanted := Wanted(codec, existing, settings);
    RestoreKeeps(key, settings[key], None);
    assert key !in existing;
    KindNames(settings[key]);
    hide Restore, TypeName;
    assert key in wanted && wanted[key] == Entry(codec.marshal(settings[key]).value, TypeName(settings[key]));
    i := NewRow(t, t', category, wanted, existing.Keys - wanted.Keys, key);
  }

  lemma NewRow(t: Table, t': Table, category: string, wanted: map<string, Entry>, gone: set<string>, key: string)
    returns (i: nat)
    requires Progress(t, t', category, wanted, wanted.Keys, gone)
    requires key in wanted && forall j | j in t :: !SameSlot(t[j], category, key)
    ensures i !in t && i in t' && t'[i] == Row(i, category, key, wanted[key].text, wanted[key].kind, false)
  {
    assert HasLive(t', category, key);
    i :| i in t' && Live(t'[i], category) && t'[i].key == key;
  }

  lemma KindNames(v: Json)
    ensures (TypeName(v) == "string" <==> v.Str? || v.Null?) && (TypeName(v) == "boolean" <==> v.Bool?)
    ensures (TypeName(v) == "number" <==> v.Num?) && (TypeName(v) == "array" <==> v.Arr?)
    ensures TypeName(v) == "object" <==> v.Obj?
  {
  }

  // ---------- Reading a category and writing it back ----------

  /** Unmarshalling undoes marshalling. */
  ghost predicate CodecOk(codec: Codec) {
    forall v: Json :: codec.marshal(v).Some? ==> codec.unmarshal(codec.marshal(v).value) == Some(v)
  }

  /** Every live row of the category holds a text that marshal produces. */
  ghost predicate Canonical(codec: Codec, existing: map<string, Row>) {
    forall k | k in existing ::
      codec.unmarshal(existing[k].value).Some? &&
      codec.marshal(codec.unmarshal(existing[k].value).value) == Some(existing[k].value)
  }

  /** The decoded value of a live key. */
  function Decoded(codec: Codec, existing: map<string, Row>, k: string): Json
    requires k in existing && codec.unmarshal(existing[k].value).Some?
  {
    codec.unmarshal(existing[k].value).value
  }

  lemma SubmittedKey(codec: Codec, existing: map<string, Row>, settings: map<string, Json>, k: string)
    requires CodecOk(codec) && Canonical(codec, existing) && k in existing && k in settings
    ensures var wanted := Wanted(codec, existing, settings);
      (k in wanted && wanted[k].text == existing[k].value) <==> MaskedCopy(k, Decoded(codec, existing, k), settings[k])
  {
    var v := Decoded(codec, existing, k);
    assert Restored(codec, existing, settings, k) == Restore(k, settings[k], Some(v));
    RestoreIff(k, v, settings[k]);
    assert codec.marshal(v) == Some(existing[k].value);
  }

  /** Saving a copy of a category changes no row of the database if and only if every submitted value is a masked
    * copy of the live one. */
  lemma CopySavedIff(codec: Codec, t: Table, t': Table, category: string, existing: map<string, Row>,
                     settings: map<string, Json>)
    requires CodecOk(codec) && Canonical(codec, existing)
    requires TableOk(t) && TableOk(t') && IsExisting(t, category, existing)
    requires settings.Keys == existing.Keys
    requires var wanted := Wanted(codec, existing, settings);
      Progress(t, t', category, wanted, wanted.Keys, existing.Keys - wanted.Keys)
    ensures t' == t <==> forall k | k in existing :: MaskedCopy(k, Decoded(codec, existing, k), settings[k])
  {
    hide Progress, TableOk;
    var wanted := Wanted(codec, existing, settings);
    SameValuesIff(t, t', category, existing, wanted);
    forall k | k in existing
      ensures (k in wanted && wanted[k].text == existing[k].value) <==>
              MaskedCopy(k, Decoded(codec, existing, k), settings[k])
    {
      SubmittedKey(codec, existing, settings, k);
    }
    assert wanted.Keys <= existing.Keys;
  }

  /** What the settings page shows: every live value, decoded and masked. */
  function Shown(codec: Codec, existing: map<string, Row>): map<string, Json>
    requires forall k | k in existing :: codec.unmarshal(existing[k].value).Some?
  {
    map k | k in existing :: Mask(k, codec.unmarshal(existing[k].value).value)
  }

  /** Saving the page unedited changes no row of the database if and only if no secret of the
    * category lies deeper than one object, or one object inside an array. */
  lemma UneditedSaveIff(codec: Codec, t: Table, t': Table, category: string, existing: map<string, Row>)
    requires CodecOk(codec) && Canonical(codec, existing)
    requires TableOk(t) && TableOk(t') && IsExisting(t, category, existing)
    requires var wanted := Wanted(codec, existing, Shown(codec, existing));
      Progress(t, t', category, wanted, wanted.Keys, existing.Keys - wanted.Keys)
    ensures t' == t <==> forall k | k in existing :: !HidesTooDeep(Decoded(codec, existing, k))
  {
    hide Progress, TableOk, IsExisting;
    CopySavedIff(codec, t, t', category, existing, Shown(codec, existing));
    forall k | k in existing
      ensures MaskedCopy(k, Decoded(codec, existing, k), Shown(codec, existing)[k]) <==>
              !HidesTooDeep(Decoded(codec, existing, k))
    {
      var v := Decoded(codec, existing, k);
      RestoreIff(k, v, Mask(k, v));
      ReadThenWriteIff(k, v);
    }
  }
}
