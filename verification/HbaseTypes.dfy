/** The generated structs: their switch tables, and the read and write loops over a protocol. */
module HbaseTypes {
  import opened Options
  import Keys = HbaseTable
  import opened ThriftProtocol
  import opened ThriftStructs
  import opened ThriftTheorems

  const TEXT := One(PString(""))
  const FALSE := One(PBool(false))
  const ZERO := One(PI32(0))

  /** value, timestamp */
  const T_CELL := Layout([TEXT, One(PI64(0))])
  /** name, maxVersions, compression, inMemory, maxValueLength, bloomFilterType,
      bloomFilterVectorSize, bloomFilterNbHashes, blockCacheEnabled, timeToLive */
  const COLUMN_DESCRIPTOR := Layout([TEXT, One(PI32(3)), One(PString("NONE")), FALSE, One(PI32(2147483647)),
                                     One(PString("NONE")), ZERO, ZERO, FALSE, One(PI32(-1))])
  /** startKey, endKey, id, name, version */
  const T_REGION_INFO := Layout([TEXT, TEXT, One(PI64(0)), TEXT, One(PByte(0))])
  /** isDelete, column, value */
  const MUTATION := Layout([FALSE, TEXT, TEXT])
  /** row, mutations */
  const BATCH_MUTATION := Layout([TEXT, Many(MUTATION)])
  /** row, columns */
  const T_ROW_RESULT := Layout([TEXT, Keyed(T_CELL)])

  // ------------------------------------------------------------------ the protocol

  class Protocol {
    var input: Tokens
    var output: Tokens

    constructor (tokens: Tokens)
      ensures input == tokens && output == []
    {
      input, output := tokens, [];
    }

    /** The reads that find one certain token, such as `readFieldEnd`. */
    method Take(token: Token) returns (ok: bool)
      modifies this`input
      ensures Expect(token, old(input)) == if ok then Some(input) else None
    {
      ok := input != [] && input[0] == token;
      if ok {
        input := input[1..];
      }
    }

    /** The reads whose token carries something. */
    method Next() returns (token: Option<Token>)
      modifies this`input
      ensures token == if old(input) == [] then None else Some(old(input)[0])
      ensures input == if old(input) == [] then [] else old(input)[1..]
    {
      if input == [] {
        return None;
      }
      token := Some(input[0]);
      input := input[1..];
    }

    method SkipValue(t: TType) returns (ok: bool)
      modifies this`input
      ensures Skip(t, old(input)) == if ok then Some(input) else None
    {
      var r := Skip(t, input);
      ok := r.Some?;
      if ok {
        input := r.value;
      }
    }

    method Write(tokens: Tokens)
      modifies this`output
      ensures output == old(output) + tokens
    {
      output := output + tokens;
    }
  }

  // ------------------------------------------------------------------ read

  /** The read loop of the struct whose table is `l`; None is an exception of the protocol. */
  method Read(iprot: Protocol, l: Layout, into: Record) returns (r: Option<Record>)
    modifies iprot`input
    ensures ReadStruct(l, into, old(iprot.input)) == if r.Some? then Some((r.value, iprot.input)) else None
    decreases |iprot.input|, 1
  {
    var head := iprot.Next();
    if head.None? || !head.value.StructBegin? {
      return None;
    }
    var x := into;
    ghost var start := iprot.input;
    while true
      invariant |iprot.input| <= |start| && ReadFields(l, into, start) == ReadFields(l, x, iprot.input)
      decreases |iprot.input|
    {
      var field := iprot.Next();
      if field.None? {
        return None;
      }
      if field.value.FieldStop? {
        break;
      }
      if !field.value.FieldBegin? || field.value.ftype.T_STOP? {
        return None;
      }
      var fid, ftype := field.value.fid, field.value.ftype;
      if 1 <= fid <= |l.slots| && SlotType(l.slots[fid - 1]) == ftype {
        var content := ReadMember(iprot, l.slots[fid - 1]);
        if content.None? {
          return None;
        }
        x := Assign(x, fid, content.value);
      } else {
        var skipped := iprot.SkipValue(ftype);
        if !skipped {
          return None;
        }
      }
      var ended := iprot.Take(FieldEnd);
      if !ended {
        return None;
      }
    }
    var ended := iprot.Take(StructEnd);
    r := if ended then Some(x) else None;
  }

  /** One member: a scalar, a list, or a map. */
  method ReadMember(iprot: Protocol, slot: Slot) returns (c: Option<Content>)
    modifies iprot`input
    ensures ReadSlot(slot, old(iprot.input)) == if c.Some? then Some((c.value, iprot.input)) else None
    decreases |iprot.input|, 0
  {
    var head := iprot.Next();
    if head.None? {
      return None;
    }
    match slot
    case One(p) =>
      c := if head.value.Scalar? && PrimType(head.value.prim) == PrimType(p) then Some(Value(head.value.prim)) else None;
    case Many(inner) =>
      if !head.value.ListBegin? {
        return None;
      }
      var items := ReadList(iprot, inner, head.value.size);
      var ended := false;
      if items.Some? {
        ended := iprot.Take(ListEnd);
      }
      c := if ended then Some(Records(items.value)) else None;
    case Keyed(inner) =>
      if !head.value.MapBegin? {
        return None;
      }
      var rows := ReadMap(iprot, inner, head.value.size);
      var ended := false;
      if rows.Some? {
        ended := iprot.Take(MapEnd);
      }
      c := if ended then Some(Rows(rows.value)) else None;
  }

  method ReadList(iprot: Protocol, inner: Layout, size: nat) returns (r: Option<seq<Record>>)
    modifies iprot`input
    ensures ReadItems(inner, size, [], old(iprot.input)) == if r.Some? then Some((r.value, iprot.input)) else None
    decreases |iprot.input|, 2
  {
    var items := [];
    var i := 0;
    while i < size
      invariant i <= size && |iprot.input| <= |old(iprot.input)|
      invariant ReadItems(inner, size, [], old(iprot.input)) == ReadItems(inner, size - i, items, iprot.input)
    {
      var item := Read(iprot, inner, New(inner));
      if item.None? {
        return None;
      }
      items := items + [item.value];
      i := i + 1;
    }
    r := Some(items);
  }

  method ReadMap(iprot: Protocol, inner: Layout, size: nat) returns (r: Option<map<string, Record>>)
    modifies iprot`input
    ensures ReadRows(inner, size, map[], old(iprot.input)) == if r.Some? then Some((r.value, iprot.input)) else None
    decreases |iprot.input|, 2
  {
    var rows: map<string, Record> := map[];
    var i := 0;
    while i < size
      invariant i <= size && |iprot.input| <= |old(iprot.input)|
      invariant ReadRows(inner, size, map[], old(iprot.input)) == ReadRows(inner, size - i, rows, iprot.input)
    {
      var key := iprot.Next();
      if key.None? || !key.value.Scalar? || !key.value.prim.PString? {
        return None;
      }
      var row := Read(iprot, inner, RowAt(rows, key.value.prim.s, inner));
      if row.None? {
        return None;
      }
      rows := rows[key.value.prim.s := row.value];
      i := i + 1;
    }
    r := Some(rows);
  }

  // ------------------------------------------------------------------ write

  lemma {:induction false} FieldsSnoc(fields: seq<Field>, f: Field)
    ensures EncodeFields(fields + [f]) == EncodeFields(fields) + EncodeField(f)
  {
    if fields == [] {
      assert fields + [f] == [f];
    } else {
      assert (fields + [f])[1..] == fields[1..] + [f];
      FieldsSnoc(fields[1..], f);
    }
  }

  lemma {:induction false} ItemsSnoc(items: seq<Tree>, t: Tree)
    ensures EncodeItems(items + [t]) == EncodeItems(items) + Encode(t)
  {
    if items == [] {
      assert items + [t] == [t];
    } else {
      assert (items + [t])[1..] == items[1..] + [t];
      ItemsSnoc(items[1..], t);
    }
  }

  lemma {:induction false} EntriesSnoc(entries: seq<Entry>, e: Entry)
    ensures EncodeEntries(entries + [e]) == EncodeEntries(entries) + EncodeEntry(e)
  {
    if entries == [] {
      assert entries + [e] == [e];
    } else {
      assert (entries + [e])[1..] == entries[1..] + [e];
      EntriesSnoc(entries[1..], e);
    }
  }

  /** The first of the fields of `x`. */
  ghost predicate FieldsWrite(l: Layout, x: Record, fields: seq<Field>)
    requires |x.contents| == |l.slots|
  {
    && |fields| <= |l.slots|
    && forall j | 0 <= j < |fields| ::
         fields[j].fid == j + 1 && SlotWrites(l.slots[j], x.contents[j], fields[j].value)
  }

  lemma FieldTokens(slot: Slot, c: Content, fid: int, value: Tree)
    requires SlotWrites(slot, c, value)
    ensures EncodeField(Field(fid, value)) == [FieldBegin(SlotType(slot), fid)] + Encode(value) + [FieldEnd]
  {
    SlotWrittenConforms(slot, c, value);
  }

  lemma FieldsWriteSnoc(l: Layout, x: Record, fields: seq<Field>, value: Tree)
    requires |x.contents| == |l.slots| && FieldsWrite(l, x, fields) && |fields| < |l.slots|
    requires SlotWrites(l.slots[|fields|], x.contents[|fields|], value)
    ensures FieldsWrite(l, x, fields + [Field(|fields| + 1, value)])
  {
    hide SlotWrites;
  }

  lemma AllFieldsWrite(l: Layout, x: Record, fields: seq<Field>)
    requires |x.contents| == |l.slots| && FieldsWrite(l, x, fields) && |fields| == |l.slots|
    ensures Writes(l, x, Struct(fields))
    ensures Encode(Struct(fields)) == [StructBegin] + EncodeFields(fields) + [FieldStop] + [StructEnd]
  {
    hide SlotWrites;
  }

  /** What the struct whose table is `l` writes: the tokens of `t`, one of the trees that are `x`. */
  method Write(oprot: Protocol, l: Layout, x: Record) returns (ghost t: Tree)
    requires Typed(l, x)
    modifies oprot`output
    ensures Writes(l, x, t) && oprot.output == old(oprot.output) + Encode(t)
    decreases l, 1
  {
    hide Writes, SlotWrites, FieldsWrite, Encode, EncodeField, TypedContent;
    oprot.Write([StructBegin]);
    ghost var fields: seq<Field> := [];
    NoFields(l, x);
    var i := 0;
    while i < |l.slots|
      invariant i <= |l.slots| && |fields| == i && FieldsWrite(l, x, fields)
      invariant oprot.output == old(oprot.output) + ([StructBegin] + EncodeFields(fields))
    {
      oprot.Write([FieldBegin(SlotType(l.slots[i]), i + 1)]);
      ghost var value := WriteMember(oprot, l.slots[i], x.contents[i]);
      oprot.Write([FieldEnd]);
      FieldTokens(l.slots[i], x.contents[i], i + 1, value);
      FieldsSnoc(fields, Field(i + 1, value));
      FieldsWriteSnoc(l, x, fields, value);
      fields := fields + [Field(i + 1, value)];
      i := i + 1;
    }
    oprot.Write([FieldStop]);
    oprot.Write([StructEnd]);
    t := Struct(fields);
    AllFieldsWrite(l, x, fields);
  }

  lemma NoFields(l: Layout, x: Record)
    requires |x.contents| == |l.slots|
    ensures FieldsWrite(l, x, []) && EncodeFields([]) == []
  {}

  method WriteMember(oprot: Protocol, slot: Slot, c: Content) returns (ghost t: Tree)
    requires TypedContent(slot, c)
    modifies oprot`output
    ensures SlotWrites(slot, c, t) && oprot.output == old(oprot.output) + Encode(t)
    decreases slot, 0
  {
    hide Writes, EncodeItems, EncodeEntries, Typed, Ascending, Enumerates;
    match slot
    case One(_) =>
      oprot.Write([Scalar(c.prim)]);
      t := Leaf(c.prim);
    case Many(inner) =>
      oprot.Write([ListBegin(T_STRUCT, |c.items|)]);
      ghost var trees := WriteList(oprot, inner, c.items);
      oprot.Write([ListEnd]);
      t := List(T_STRUCT, trees);
    case Keyed(inner) =>
      oprot.Write([MapBegin(T_STRING, T_STRUCT, |c.rows|)]);
      ghost var keys, entries := WriteMap(oprot, inner, c.rows);
      oprot.Write([MapEnd]);
      t := Map(T_STRING, T_STRUCT, entries);
      EnumerationLength(keys, c.rows);
  }

  method WriteList(oprot: Protocol, inner: Layout, items: seq<Record>) returns (ghost trees: seq<Tree>)
    requires forall r | r in items :: Typed(inner, r)
    modifies oprot`output
    ensures ItemsWrite(inner, items, trees) && oprot.output == old(oprot.output) + EncodeItems(trees)
    decreases inner, 2
  {
    trees := [];
    var i := 0;
    while i < |items|
      invariant i <= |items| && ItemsWrite(inner, items[..i], trees)
      invariant oprot.output == old(oprot.output) + EncodeItems(trees)
    {
      ghost var t := Write(oprot, inner, items[i]);
      ItemsSnoc(trees, t);
      trees := trees + [t];
      i := i + 1;
    }
    assert items[..i] == items;
  }

  lemma RowsWriteSnoc(inner: Layout, rows: map<string, Record>, keys: seq<string>, entries: seq<Entry>, key: string, t: Tree)
    requires RowsWrite(inner, rows, keys, entries) && key in rows && Writes(inner, rows[key], t)
    ensures RowsWrite(inner, rows, keys + [key], entries + [Entry(Leaf(PString(key)), t)])
  {
    hide Writes;
  }

  lemma NoRows(inner: Layout, rows: map<string, Record>)
    ensures RowsWrite(inner, rows, [], []) && EncodeEntries([]) == []
  {}

  lemma EntryTokens(key: string, t: Tree)
    ensures EncodeEntry(Entry(Leaf(PString(key)), t)) == [Scalar(PString(key))] + Encode(t)
  {}

  /** The order in which a `std::map` is gone through. */
  ghost predicate Ascending(keys: seq<string>) {
    forall i, j | 0 <= i < j < |keys| :: Keys.Less(keys[i], keys[j])
  }

  lemma {:induction false} LeastKey(left: set<string>) returns (key: string)
    requires left != {}
    ensures key in left && forall k | k in left && k != key :: Keys.Less(key, k)
    decreases |left|
  {
    key :| key in left;
    var rest := left - {key};
    if rest != {} {
      var other := LeastKey(rest);
      Keys.LessIsStrict(key, other);
      if Keys.Less(other, key) {
        key := other;
      } else {
        forall k | k in rest && k != other ensures Keys.Less(key, k) {
          Keys.LessTransitive(key, other, k);
        }
      }
    }
  }

  method WriteMap(oprot: Protocol, inner: Layout, rows: map<string, Record>)
    returns (ghost keys: seq<string>, ghost entries: seq<Entry>)
    requires forall k | k in rows :: Typed(inner, rows[k])
    modifies oprot`output
    ensures Enumerates(keys, rows) && Ascending(keys) && RowsWrite(inner, rows, keys, entries)
    ensures oprot.output == old(oprot.output) + EncodeEntries(entries)
    decreases inner, 2
  {
    hide Writes, RowsWrite, Encode, EncodeEntry, EncodeEntries, Typed, Keys.Less;
    keys, entries := [], [];
    NoRows(inner, rows);
    var left := rows.Keys;
    while left != {}
      invariant left <= rows.Keys && forall k | k in rows :: k in left <==> k !in keys
      invariant forall i | 0 <= i < |keys| :: keys[i] in rows
      invariant Ascending(keys) && forall i, k | 0 <= i < |keys| && k in left :: Keys.Less(keys[i], k)
      invariant RowsWrite(inner, rows, keys, entries)
      invariant oprot.output == old(oprot.output) + EncodeEntries(entries)
      decreases |left|
    {
      ghost var least := LeastKey(left);
      var key :| key in left && forall k | k in left && k != key :: Keys.Less(key, k);
      oprot.Write([Scalar(PString(key))]);
      ghost var t := Write(oprot, inner, rows[key]);
      ghost var entry := Entry(Leaf(PString(key)), t);
      EntryTokens(key, t);
      EntriesSnoc(entries, entry);
      RowsWriteSnoc(inner, rows, keys, entries, key, t);
      keys, entries := keys + [key], entries + [entry];
      left := left - {key};
    }
    AscendingDistinct(keys);
  }

  lemma AscendingDistinct(keys: seq<string>)
    requires Ascending(keys)
    ensures forall i, j | 0 <= i < j < |keys| :: keys[i] != keys[j]
  {
    forall i, j | 0 <= i < j < |keys| ensures keys[i] != keys[j] {
      Keys.LessIsStrict(keys[i], keys[j]);
    }
  }

  lemma EnumerationLength(keys: seq<string>, rows: map<string, Record>)
    requires Enumerates(keys, rows)
    ensures |keys| == |rows|
  {
    DistinctCount(keys);
    assert (set k | k in keys) == rows.Keys;
  }

  lemma {:induction false} DistinctCount(keys: seq<string>)
    requires forall i, j | 0 <= i < j < |keys| :: keys[i] != keys[j]
    ensures |set k | k in keys| == |keys|
  {
    if keys == [] {
      assert (set k | k in keys) == {};
    } else {
      DistinctCount(keys[1..]);
      assert (set k | k in keys) == (set k | k in keys[1..]) + {keys[0]};
    }
  }
}
