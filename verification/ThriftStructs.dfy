/** The read loop that all generated structs share: each has a table of field ids, and reads what is
    in the table with the right type and skips the rest. */
module ThriftStructs {
  import opened Options
  import opened ThriftProtocol

  /** One case of a struct's switch: a scalar with its initial value, a list of structs, or a map
      from strings to structs.  The cases of a struct are those of field ids 1, 2, 3 and so on. */
  datatype Slot = One(initial: Prim) | Many(inner: Layout) | Keyed(inner: Layout)
  datatype Layout = Layout(slots: seq<Slot>)

  datatype Content = Value(prim: Prim) | Records(items: seq<Record>) | Rows(rows: map<string, Record>)

  /** A struct: its members, and the field ids that `__isset` has marked. */
  datatype Record = Record(contents: seq<Content>, isset: set<int>)

  function SlotType(slot: Slot): TType {
    match slot
    case One(p) => PrimType(p)
    case Many(_) => T_LIST
    case Keyed(_) => T_MAP
  }

  /** What the constructors initialize a member to. */
  function Initial(slot: Slot): Content {
    match slot
    case One(p) => Value(p)
    case Many(_) => Records([])
    case Keyed(_) => Rows(map[])
  }

  function New(l: Layout): Record {
    Record(seq(|l.slots|, i requires 0 <= i < |l.slots| => Initial(l.slots[i])), {})
  }

  function Assign(x: Record, fid: int, c: Content): Record {
    if 1 <= fid <= |x.contents| then Record(x.contents[fid - 1 := c], x.isset + {fid}) else x
  }

  /** Whether the switch reads such a field, rather than skip it. */
  predicate Wanted(l: Layout, fid: int, t: TType) {
    1 <= fid <= |l.slots| && SlotType(l.slots[fid - 1]) == t
  }

  // ------------------------------------------------------------------ reading tokens

  function ReadStruct(l: Layout, x: Record, ts: Tokens): (r: Option<(Record, Tokens)>)
    ensures r.Some? ==> |r.value.1| < |ts|
    decreases |ts|, 0
  {
    if ts == [] || !ts[0].StructBegin? then None else ReadFields(l, x, ts[1..])
  }

  function ReadFields(l: Layout, x: Record, ts: Tokens): (r: Option<(Record, Tokens)>)
    ensures r.Some? ==> |r.value.1| < |ts|
    decreases |ts|, 0
  {
    if ts == [] then None
    else if ts[0].FieldStop? then
      var e := Expect(StructEnd, ts[1..]);
      if e.None? then None else Some((x, e.value))
    else if !ts[0].FieldBegin? || ts[0].ftype.T_STOP? then None
    else
      var r := ReadField(l, x, ts[0].fid, ts[0].ftype, ts[1..]);
      if r.None? then None
      else
        var e := Expect(FieldEnd, r.value.1);
        if e.None? then None else ReadFields(l, r.value.0, e.value)
  }

  function ReadField(l: Layout, x: Record, fid: int, t: TType, ts: Tokens): (r: Option<(Record, Tokens)>)
    ensures r.Some? ==> |r.value.1| <= |ts|
    decreases |ts|, 1
  {
    if Wanted(l, fid, t) then
      var c := ReadSlot(l.slots[fid - 1], ts);
      if c.None? then None else Some((Assign(x, fid, c.value.0), c.value.1))
    else
      var r := Skip(t, ts);
      if r.None? then None else Some((x, r.value))
  }

  function ReadSlot(slot: Slot, ts: Tokens): (r: Option<(Content, Tokens)>)
    ensures r.Some? ==> |r.value.1| <= |ts|
    decreases |ts|, 0
  {
    match slot
    case One(p) =>
      var v := ReadScalar(PrimType(p), ts);
      if v.None? then None else Some((Value(v.value), ts[1..]))
    case Many(inner) =>
      if ts == [] || !ts[0].ListBegin? then None
      else
        var r := ReadItems(inner, ts[0].size, [], ts[1..]);
        if r.None? then None
        else
          var e := Expect(ListEnd, r.value.1);
          if e.None? then None else Some((Records(r.value.0), e.value))
    case Keyed(inner) =>
      if ts == [] || !ts[0].MapBegin? then None
      else
        var r := ReadRows(inner, ts[0].size, map[], ts[1..]);
        if r.None? then None
        else
          var e := Expect(MapEnd, r.value.1);
          if e.None? then None else Some((Rows(r.value.0), e.value))
  }

  /** The list loop; whatever element type the header names, it reads structs. */
  function ReadItems(inner: Layout, n: nat, items: seq<Record>, ts: Tokens): (r: Option<(seq<Record>, Tokens)>)
    ensures r.Some? ==> |r.value.1| <= |ts|
    decreases |ts|, 1
  {
    if n == 0 then Some((items, ts))
    else
      var r := ReadStruct(inner, New(inner), ts);
      if r.None? then None else ReadItems(inner, n - 1, items + [r.value.0], r.value.1)
  }

  function RowAt(rows: map<string, Record>, key: string, inner: Layout): Record {
    if key in rows then rows[key] else New(inner)
  }

  /** The map loop; a key that comes again is read into the struct that is there. */
  function ReadRows(inner: Layout, n: nat, rows: map<string, Record>, ts: Tokens): (r: Option<(map<string, Record>, Tokens)>)
    ensures r.Some? ==> |r.value.1| <= |ts|
    decreases |ts|, 1
  {
    if n == 0 then Some((rows, ts))
    else
      var key := ReadScalar(T_STRING, ts);
      if key.None? then None
      else
        var r := ReadStruct(inner, RowAt(rows, key.value.s, inner), ts[1..]);
        if r.None? then None else ReadRows(inner, n - 1, rows[key.value.s := r.value.0], r.value.1)
  }

  // ------------------------------------------------------------------ what the fields mean

  /** The value that fields, in the order they come, make of a struct. */
  function Meaning(l: Layout, x: Record, fields: seq<Field>): Record
    decreases fields
  {
    if fields == [] then x else Meaning(l, FieldMeaning(l, x, fields[0]), fields[1..])
  }

  function FieldMeaning(l: Layout, x: Record, f: Field): Record
    decreases f
  {
    if Wanted(l, f.fid, TreeType(f.value)) then Assign(x, f.fid, SlotMeaning(l.slots[f.fid - 1], f.value)) else x
  }

  function SlotMeaning(slot: Slot, t: Tree): Content
    decreases t
  {
    match slot
    case One(p) => if t.Leaf? then Value(t.prim) else Value(p)
    case Many(inner) => Records(if t.List? then ItemsMeaning(inner, t.items) else [])
    case Keyed(inner) => Rows(if t.Map? then RowsMeaning(inner, map[], t.entries) else map[])
  }

  function StructMeaning(l: Layout, x: Record, t: Tree): Record
    decreases t
  {
    if t.Struct? then Meaning(l, x, t.fields) else x
  }

  function ItemsMeaning(inner: Layout, items: seq<Tree>): seq<Record>
    decreases items
  {
    if items == [] then [] else [StructMeaning(inner, New(inner), items[0])] + ItemsMeaning(inner, items[1..])
  }

  function KeyString(t: Tree): string {
    if t.Leaf? && t.prim.PString? then t.prim.s else ""
  }

  function EntryMeaning(inner: Layout, rows: map<string, Record>, e: Entry): map<string, Record>
    decreases e
  {
    var key := KeyString(e.key);
    rows[key := StructMeaning(inner, RowAt(rows, key, inner), e.value)]
  }

  function RowsMeaning(inner: Layout, rows: map<string, Record>, entries: seq<Entry>): map<string, Record>
    decreases entries
  {
    if entries == [] then rows else RowsMeaning(inner, EntryMeaning(inner, rows, entries[0]), entries[1..])
  }

  /** A field may be anything well typed; only where the switch reads a list or a map must the
      elements be what the loops read. */
  ghost predicate Conforms(l: Layout, f: Field)
    decreases f
  {
    && WellTyped(f.value)
    && (Wanted(l, f.fid, TreeType(f.value)) ==> SlotConforms(l.slots[f.fid - 1], f.value))
  }

  ghost predicate SlotConforms(slot: Slot, t: Tree)
    decreases t
  {
    match slot
    case One(_) => t.Leaf?
    case Many(inner) => t.List? && forall i | i in t.items :: StructConforms(inner, i)
    case Keyed(inner) => t.Map? && forall e | e in t.entries :: EntryConforms(inner, e)
  }

  ghost predicate EntryConforms(inner: Layout, e: Entry)
    decreases e
  {
    e.key.Leaf? && e.key.prim.PString? && StructConforms(inner, e.value)
  }

  ghost predicate StructConforms(l: Layout, t: Tree)
    decreases t
  {
    t.Struct? && forall f | f in t.fields :: Conforms(l, f)
  }

  // ------------------------------------------------------------------ reading finds the meaning

  /** Reading any conforming struct, its fields in any order and among any others, yields what the
      fields mean and consumes exactly the struct. */
  lemma {:induction false} ReadIsMeaning(l: Layout, x: Record, t: Tree, rest: Tokens)
    requires StructConforms(l, t)
    ensures ReadStruct(l, x, Encode(t) + rest) == Some((StructMeaning(l, x, t), rest))
    decreases t, 2
  {
    hide ReadFields, EncodeFields, Meaning, Conforms;
    Front1(StructBegin, EncodeFields(t.fields), [FieldStop, StructEnd], rest);
    ReadFieldsIsMeaning(l, x, t.fields, rest);
  }

  lemma {:induction false} ReadFieldsIsMeaning(l: Layout, x: Record, fields: seq<Field>, rest: Tokens)
    requires forall f | f in fields :: Conforms(l, f)
    ensures ReadFields(l, x, EncodeFields(fields) + ([FieldStop, StructEnd] + rest)) ==
            Some((Meaning(l, x, fields), rest))
    decreases fields, 4
  {
    hide ReadField, EncodeField, FieldMeaning, Conforms;
    var tail := [FieldStop, StructEnd] + rest;
    if fields == [] {
      assert EncodeFields(fields) + tail == tail;
      assert tail[1..] == [StructEnd] + rest;
      Expected(StructEnd, rest);
    } else {
      var f, after := fields[0], EncodeFields(fields[1..]) + tail;
      ReadFieldIsMeaning(l, x, f, after);
      ReadFieldsIsMeaning(l, FieldMeaning(l, x, f), fields[1..], rest);
      assert EncodeFields(fields) + tail == EncodeField(f) + after;
      NextField(l, x, FieldMeaning(l, x, f), EncodeField(f) + after, after);
    }
  }

  lemma NextField(l: Layout, x: Record, y: Record, ts: Tokens, after: Tokens)
    requires ts != [] && ts[0].FieldBegin? && !ts[0].ftype.T_STOP?
    requires ReadField(l, x, ts[0].fid, ts[0].ftype, ts[1..]) == Some((y, [FieldEnd] + after))
    ensures ReadFields(l, x, ts) == ReadFields(l, y, after)
  {
    hide ReadField;
    Expected(FieldEnd, after);
  }

  lemma {:induction false} ReadFieldIsMeaning(l: Layout, x: Record, f: Field, rest: Tokens)
    requires Conforms(l, f)
    ensures EncodeField(f) != [] && EncodeField(f)[0] == FieldBegin(TreeType(f.value), f.fid)
    ensures ReadField(l, x, f.fid, TreeType(f.value), (EncodeField(f) + rest)[1..]) ==
            Some((FieldMeaning(l, x, f), [FieldEnd] + rest))
    decreases f, 3
  {
    hide Skip, ReadSlot, SlotMeaning, Assign, SlotConforms;
    Front1(FieldBegin(TreeType(f.value), f.fid), Encode(f.value), [FieldEnd], rest);
    if Wanted(l, f.fid, TreeType(f.value)) {
      ReadSlotIsMeaning(l.slots[f.fid - 1], f.value, [FieldEnd] + rest);
    } else {
      SkipEncoded(f.value, [FieldEnd] + rest);
    }
  }

  lemma {:induction false} ReadSlotIsMeaning(slot: Slot, t: Tree, rest: Tokens)
    requires SlotType(slot) == TreeType(t) && SlotConforms(slot, t)
    ensures ReadSlot(slot, Encode(t) + rest) == Some((SlotMeaning(slot, t), rest))
    decreases t, 2
  {
    hide Expect, ReadItems, ReadRows, EncodeItems, EncodeEntries, ItemsMeaning, RowsMeaning, StructConforms, EntryConforms;
    match t
    case Leaf(p) =>
      assert ([Scalar(p)] + rest)[1..] == rest;
    case List(e, items) =>
      Front1(ListBegin(e, |items|), EncodeItems(items), [ListEnd], rest);
      ReadItemsIsMeaning(slot.inner, items, [], [ListEnd] + rest);
      Expected(ListEnd, rest);
      assert [] + ItemsMeaning(slot.inner, items) == ItemsMeaning(slot.inner, items);
    case Map(k, v, entries) =>
      Front1(MapBegin(k, v, |entries|), EncodeEntries(entries), [MapEnd], rest);
      ReadRowsIsMeaning(slot.inner, entries, map[], [MapEnd] + rest);
      Expected(MapEnd, rest);
  }

  lemma Concat(a: seq<Record>, r: Record, b: seq<Record>)
    ensures a + [r] + b == a + ([r] + b)
  {}

  lemma {:induction false} ReadItemsIsMeaning(inner: Layout, items: seq<Tree>, done: seq<Record>, rest: Tokens)
    requires forall i | i in items :: StructConforms(inner, i)
    ensures ReadItems(inner, |items|, done, EncodeItems(items) + rest) == Some((done + ItemsMeaning(inner, items), rest))
    decreases items, 4
  {
    hide ReadStruct, StructMeaning, Encode, StructConforms;
    if items == [] {
      assert EncodeItems(items) + rest == rest && done + ItemsMeaning(inner, items) == done;
    } else {
      var after, r := EncodeItems(items[1..]) + rest, StructMeaning(inner, New(inner), items[0]);
      ReadIsMeaning(inner, New(inner), items[0], after);
      ReadItemsIsMeaning(inner, items[1..], done + [r], rest);
      assert EncodeItems(items) + rest == Encode(items[0]) + after;
      Concat(done, r, ItemsMeaning(inner, items[1..]));
    }
  }

  lemma {:induction false} ReadEntryIsMeaning(inner: Layout, e: Entry, rows: map<string, Record>, rest: Tokens)
    requires EntryConforms(inner, e)
    ensures var ts, key := EncodeEntry(e) + rest, KeyString(e.key);
            && ReadScalar(T_STRING, ts) == Some(PString(key))
            && ReadStruct(inner, RowAt(rows, key, inner), ts[1..]) ==
               Some((StructMeaning(inner, RowAt(rows, key, inner), e.value), rest))
    decreases e, 3
  {
    hide ReadStruct, StructMeaning, StructConforms;
    ReadIsMeaning(inner, RowAt(rows, KeyString(e.key), inner), e.value, rest);
    assert EncodeEntry(e) + rest == [Scalar(e.key.prim)] + (Encode(e.value) + rest);
    assert ([Scalar(e.key.prim)] + (Encode(e.value) + rest))[1..] == Encode(e.value) + rest;
  }

  lemma {:induction false} ReadRowsIsMeaning(inner: Layout, entries: seq<Entry>, rows: map<string, Record>, rest: Tokens)
    requires forall e | e in entries :: EntryConforms(inner, e)
    ensures ReadRows(inner, |entries|, rows, EncodeEntries(entries) + rest) ==
            Some((RowsMeaning(inner, rows, entries), rest))
    decreases entries, 4
  {
    hide ReadStruct, StructMeaning, EncodeEntry, EntryConforms, RowAt, KeyString, ReadScalar;
    if entries == [] {
      assert EncodeEntries(entries) + rest == rest;
    } else {
      var after := EncodeEntries(entries[1..]) + rest;
      ReadEntryIsMeaning(inner, entries[0], rows, after);
      ReadRowsIsMeaning(inner, entries[1..], EntryMeaning(inner, rows, entries[0]), rest);
      assert EncodeEntries(entries) + rest == EncodeEntry(entries[0]) + after;
    }
  }
}
