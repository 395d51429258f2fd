/** The six structs on the wire, token by token, in their own members. */
module HbaseWire {
  import opened Options
  import opened ThriftProtocol
  import opened ThriftStructs
  import opened ThriftTheorems
  import opened HbaseTypes
  import opened HbaseStructs

  // ------------------------------------------------------------------ structs of scalars

  type Member = (TType, Prim)

  /** Members as fields with the ids from `fid` on. */
  function MemberTokens(members: seq<Member>, fid: int): Tokens {
    if members == [] then []
    else [FieldBegin(members[0].0, fid), Scalar(members[0].1), FieldEnd] + MemberTokens(members[1..], fid + 1)
  }

  function Wire(members: seq<Member>): Tokens {
    [StructBegin] + MemberTokens(members, 1) + [FieldStop, StructEnd]
  }

  function CellMembers(c: TCell): seq<Member> {
    [(T_STRING, PString(c.value)), (T_I64, PI64(c.timestamp))]
  }

  function ColumnMembers(d: ColumnDescriptor): seq<Member> {
    [(T_STRING, PString(d.name)), (T_I32, PI32(d.maxVersions)), (T_STRING, PString(d.compression)),
     (T_BOOL, PBool(d.inMemory)), (T_I32, PI32(d.maxValueLength)), (T_STRING, PString(d.bloomFilterType)),
     (T_I32, PI32(d.bloomFilterVectorSize)), (T_I32, PI32(d.bloomFilterNbHashes)), (T_BOOL, PBool(d.blockCacheEnabled)),
     (T_I32, PI32(d.timeToLive))]
  }

  function RegionMembers(r: TRegionInfo): seq<Member> {
    [(T_STRING, PString(r.startKey)), (T_STRING, PString(r.endKey)), (T_I64, PI64(r.id)), (T_STRING, PString(r.name)),
     (T_BYTE, PByte(r.version))]
  }

  function MutationMembers(m: Mutation): seq<Member> {
    [(T_BOOL, PBool(m.isDelete)), (T_STRING, PString(m.column)), (T_STRING, PString(m.value))]
  }

  /** The record has these members, and no others. */
  ghost predicate Has(x: Record, members: seq<Member>) {
    && |x.contents| == |members|
    && forall i | 0 <= i < |members| :: x.contents[i] == Value(members[i].1) && PrimType(members[i].1) == members[i].0
  }

  lemma {:induction false} FieldsAreMembers(fields: seq<Field>, members: seq<Member>, fid: int)
    requires |fields| == |members|
    requires forall i | 0 <= i < |fields| ::
               fields[i] == Field(fid + i, Leaf(members[i].1)) && PrimType(members[i].1) == members[i].0
    ensures EncodeFields(fields) == MemberTokens(members, fid)
  {
    if fields != [] {
      assert fields[0] == Field(fid + 0, Leaf(members[0].1));
      forall i | 0 <= i < |fields| - 1
        ensures fields[1..][i] == Field(fid + 1 + i, Leaf(members[1..][i].1)) && PrimType(members[1..][i].1) == members[1..][i].0
      {
        assert fields[i + 1] == Field(fid + (i + 1), Leaf(members[i + 1].1));
      }
      FieldsAreMembers(fields[1..], members[1..], fid + 1);
      assert EncodeField(fields[0]) == [FieldBegin(members[0].0, fid), Scalar(members[0].1), FieldEnd];
    }
  }

  /** A struct of scalars is its members on the wire, in the order of their ids. */
  lemma ScalarsWire(l: Layout, x: Record, t: Tree, members: seq<Member>)
    requires Writes(l, x, t) && Has(x, members) && forall i | 0 <= i < |l.slots| :: l.slots[i].One?
    ensures Encode(t) == Wire(members)
  {
    forall i | 0 <= i < |members| ensures t.fields[i] == Field(1 + i, Leaf(members[i].1)) {
      assert SlotWrites(l.slots[i], x.contents[i], t.fields[i].value);
    }
    FieldsAreMembers(t.fields, members, 1);
  }

  lemma CellWritten(c: TCell, t: Tree)
    requires Writes(T_CELL, CellRecord(c), t)
    ensures Encode(t) == Wire(CellMembers(c))
  {
    hide Writes, Wire, Encode;
    ScalarsWire(T_CELL, CellRecord(c), t, CellMembers(c));
  }

  lemma ColumnHas(d: ColumnDescriptor)
    ensures Has(ColumnRecord(d), ColumnMembers(d))
  {
    hide AllIds;
  }

  lemma ColumnWritten(d: ColumnDescriptor, t: Tree)
    requires Writes(COLUMN_DESCRIPTOR, ColumnRecord(d), t)
    ensures Encode(t) == Wire(ColumnMembers(d))
  {
    hide Writes, Wire, Encode, Has, ColumnRecord, ColumnMembers;
    ColumnHas(d);
    ScalarsWire(COLUMN_DESCRIPTOR, ColumnRecord(d), t, ColumnMembers(d));
  }

  lemma RegionWritten(r: TRegionInfo, t: Tree)
    requires Writes(T_REGION_INFO, RegionRecord(r), t)
    ensures Encode(t) == Wire(RegionMembers(r))
  {
    hide Writes, Wire, Encode;
    ScalarsWire(T_REGION_INFO, RegionRecord(r), t, RegionMembers(r));
  }

  lemma MutationWritten(m: Mutation, t: Tree)
    requires Writes(MUTATION, MutationRecord(m), t)
    ensures Encode(t) == Wire(MutationMembers(m))
  {
    hide Writes, Wire, Encode;
    ScalarsWire(MUTATION, MutationRecord(m), t, MutationMembers(m));
  }

  // ------------------------------------------------------------------ reading them

  /** Reading the members off the wire, into whatever struct of the kind, gives a struct with exactly
      these members, all marked, and leaves what follows. */
  ghost predicate ReadsWire(l: Layout, members: seq<Member>) {
    forall into, rest | Shaped(l, into) ::
      var r := ReadStruct(l, into, Wire(members) + rest);
      r.Some? && Has(r.value.0, members) && r.value.0.isset == AllIds(|members|) && r.value.1 == rest
  }

  /** The tree that a struct of scalars writes. */
  function TreeOf(members: seq<Member>): Tree {
    Struct(seq(|members|, i requires 0 <= i < |members| => Field(1 + i, Leaf(members[i].1))))
  }

  lemma MembersWritten(l: Layout, x: Record, members: seq<Member>)
    requires Has(x, members) && Typed(l, x) && forall i | 0 <= i < |l.slots| :: l.slots[i].One?
    ensures Writes(l, x, TreeOf(members)) && Encode(TreeOf(members)) == Wire(members)
  {
    var t := TreeOf(members);
    forall i | 0 <= i < |l.slots| ensures SlotWrites(l.slots[i], x.contents[i], t.fields[i].value) {
      assert TypedContent(l.slots[i], x.contents[i]);
    }
    ScalarsWire(l, x, t, members);
  }

  lemma ScalarsRead(l: Layout, x: Record, members: seq<Member>)
    requires ReadsBack(l, x) && Has(x, members) && x.isset == AllIds(|members|)
    requires forall i | 0 <= i < |l.slots| :: l.slots[i].One?
    ensures ReadsWire(l, members)
  {
    hide Writes, ReadStruct, Encode, Wire, Has, AllIds, Typed, TreeOf;
    MembersWritten(l, x, members);
    forall into, rest | Shaped(l, into)
      ensures ReadStruct(l, into, Wire(members) + rest) == Some((x, rest)) {
      assert ReadStruct(l, into, Encode(TreeOf(members)) + rest) == Some((x, rest));
    }
  }

  lemma CellRead(c: TCell)
    ensures ReadsWire(T_CELL, CellMembers(c))
  {
    hide ReadsWire, ReadsBack;
    CellRoundTrip(c);
    ScalarsRead(T_CELL, CellRecord(c), CellMembers(c));
  }

  lemma ColumnRead(d: ColumnDescriptor)
    ensures ReadsWire(COLUMN_DESCRIPTOR, ColumnMembers(d))
  {
    hide ReadsWire, ReadsBack, Has, AllIds;
    ColumnHas(d);
    ColumnRoundTrip(d);
    ScalarsRead(COLUMN_DESCRIPTOR, ColumnRecord(d), ColumnMembers(d));
  }

  lemma RegionRead(r: TRegionInfo)
    ensures ReadsWire(T_REGION_INFO, RegionMembers(r))
  {
    hide ReadsWire, ReadsBack, AllIds;
    RegionRoundTrip(r);
    ScalarsRead(T_REGION_INFO, RegionRecord(r), RegionMembers(r));
  }

  lemma MutationRead(m: Mutation)
    ensures ReadsWire(MUTATION, MutationMembers(m))
  {
    hide ReadsWire, ReadsBack, AllIds;
    MutationRoundTrip(m);
    ScalarsRead(MUTATION, MutationRecord(m), MutationMembers(m));
  }

  // ------------------------------------------------------------------ the two nested structs

  function MutationsWire(ms: seq<Mutation>): Tokens {
    if ms == [] then [] else Wire(MutationMembers(ms[0])) + MutationsWire(ms[1..])
  }

  function CellsWire(keys: seq<string>, columns: map<string, TCell>): Tokens
    requires forall i | 0 <= i < |keys| :: keys[i] in columns
  {
    if keys == [] then []
    else [Scalar(PString(keys[0]))] + Wire(CellMembers(columns[keys[0]])) + CellsWire(keys[1..], columns)
  }

  function BatchWire(b: BatchMutation): Tokens {
    [StructBegin, FieldBegin(T_STRING, 1), Scalar(PString(b.row)), FieldEnd,
     FieldBegin(T_LIST, 2), ListBegin(T_STRUCT, |b.mutations|)] + MutationsWire(b.mutations) +
    [ListEnd, FieldEnd, FieldStop, StructEnd]
  }

  /** With the cells in the order of `keys`. */
  function RowWire(r: TRowResult, keys: seq<string>): Tokens
    requires forall i | 0 <= i < |keys| :: keys[i] in r.columns
  {
    [StructBegin, FieldBegin(T_STRING, 1), Scalar(PString(r.row)), FieldEnd,
     FieldBegin(T_MAP, 2), MapBegin(T_STRING, T_STRUCT, |keys|)] + CellsWire(keys, r.columns) +
    [MapEnd, FieldEnd, FieldStop, StructEnd]
  }

  ghost predicate Orders(keys: seq<string>, columns: map<string, TCell>) {
    && (forall i | 0 <= i < |keys| :: keys[i] in columns)
    && (forall k | k in columns :: k in keys)
    && (forall i, j | 0 <= i < j < |keys| :: keys[i] != keys[j])
  }

  lemma {:induction false} MutationsWritten(ms: seq<Mutation>, items: seq<Record>, trees: seq<Tree>)
    requires |items| == |ms| && forall i | 0 <= i < |ms| :: items[i] == MutationRecord(ms[i])
    requires ItemsWrite(MUTATION, items, trees)
    ensures EncodeItems(trees) == MutationsWire(ms)
  {
    hide Writes, Encode, MutationRecord, Wire;
    if ms != [] {
      MutationWritten(ms[0], trees[0]);
      MutationsWritten(ms[1..], items[1..], trees[1..]);
    }
  }

  lemma TwoFields(f: Field, g: Field)
    ensures EncodeFields([f, g]) == EncodeField(f) + EncodeField(g)
  {
    assert [f, g][1..] == [g] && [g][1..] == [];
    assert EncodeFields([g]) == EncodeField(g) + [];
  }

  lemma BatchWritten(b: BatchMutation, t: Tree)
    requires Writes(BATCH_MUTATION, BatchRecord(b), t)
    ensures Encode(t) == BatchWire(b)
  {
    hide MutationsWire, Wire, MutationRecord, AllIds, ItemsWrite;
    var x := BatchRecord(b);
    var f, g := t.fields[0], t.fields[1];
    assert SlotWrites(BATCH_MUTATION.slots[0], x.contents[0], f.value);
    assert SlotWrites(BATCH_MUTATION.slots[1], x.contents[1], g.value);
    assert t.fields == [f, g];
    TwoFields(f, g);
    MutationsWritten(b.mutations, x.contents[1].items, g.value.items);
    SameLength(x.contents[1].items, g.value.items);
  }

  lemma SameLength(items: seq<Record>, trees: seq<Tree>)
    requires ItemsWrite(MUTATION, items, trees)
    ensures |items| == |trees|
  {}

  lemma {:induction false} CellsWritten(columns: map<string, TCell>, rows: map<string, Record>, keys: seq<string>, entries: seq<Entry>)
    requires forall i | 0 <= i < |keys| :: keys[i] in columns && keys[i] in rows && rows[keys[i]] == CellRecord(columns[keys[i]])
    requires RowsWrite(T_CELL, rows, keys, entries)
    ensures |entries| == |keys| && EncodeEntries(entries) == CellsWire(keys, columns)
  {
    hide Writes, Encode, CellRecord, Wire;
    if keys != [] {
      assert entries[0].key == Leaf(PString(keys[0]));
      CellWritten(columns[keys[0]], entries[0].value);
      KeyTokens(keys[0]);
      CellsWritten(columns, rows, keys[1..], entries[1..]);
    }
  }

  lemma KeyTokens(key: string)
    ensures Encode(Leaf(PString(key))) == [Scalar(PString(key))]
  {}

  lemma RowWritten(r: TRowResult, t: Tree) returns (keys: seq<string>)
    requires Writes(T_ROW_RESULT, RowRecord(r), t)
    ensures Orders(keys, r.columns) && Encode(t) == RowWire(r, keys)
  {
    hide CellsWire, Wire, CellRecord, AllIds, RowsWrite;
    var x := RowRecord(r);
    var f, g := t.fields[0], t.fields[1];
    assert SlotWrites(T_ROW_RESULT.slots[0], x.contents[0], f.value);
    assert SlotWrites(T_ROW_RESULT.slots[1], x.contents[1], g.value);
    assert t.fields == [f, g];
    TwoFields(f, g);
    keys :| Enumerates(keys, x.contents[1].rows) && RowsWrite(T_CELL, x.contents[1].rows, keys, g.value.entries);
    CellsWritten(r.columns, x.contents[1].rows, keys, g.value.entries);
  }

  lemma TwoSlots(l: Layout, x: Record, v: Tree, w: Tree)
    requires |l.slots| == |x.contents| == 2
    requires SlotWrites(l.slots[0], x.contents[0], v) && SlotWrites(l.slots[1], x.contents[1], w)
    ensures Writes(l, x, Struct([Field(1, v), Field(2, w)]))
  {}

  /** The same two structs off the wire. */
  lemma BatchRead(b: BatchMutation, into: Record, rest: Tokens)
    requires Shaped(BATCH_MUTATION, into)
    ensures ReadStruct(BATCH_MUTATION, into, BatchWire(b) + rest) == Some((BatchRecord(b), rest))
  {
    hide Encode, BatchWire, ReadStruct, AllIds, Shaped, Writes, MutationRecord, MutationMembers, TreeOf;
    var x := BatchRecord(b);
    var trees := seq(|b.mutations|, i requires 0 <= i < |b.mutations| => TreeOf(MutationMembers(b.mutations[i])));
    var v, w := Leaf(PString(b.row)), List(T_STRUCT, trees);
    var t := Struct([Field(1, v), Field(2, w)]);
    forall i | 0 <= i < |trees| ensures Writes(MUTATION, x.contents[1].items[i], trees[i]) {
      MutationTree(b.mutations[i]);
    }
    assert ItemsWrite(MUTATION, x.contents[1].items, trees);
    assert SlotWrites(BATCH_MUTATION.slots[0], x.contents[0], v);
    assert SlotWrites(BATCH_MUTATION.slots[1], x.contents[1], w);
    TwoSlots(BATCH_MUTATION, x, v, w);
    BatchWritten(b, t);
    BatchRoundTrip(b);
    assert ReadStruct(BATCH_MUTATION, into, Encode(t) + rest) == Some((x, rest));
  }

  lemma MutationTree(m: Mutation)
    ensures Writes(MUTATION, MutationRecord(m), TreeOf(MutationMembers(m)))
  {
    hide Writes, Encode, TreeOf;
    MutationRoundTrip(m);
    MembersWritten(MUTATION, MutationRecord(m), MutationMembers(m));
  }

  lemma CellTree(c: TCell)
    ensures Writes(T_CELL, CellRecord(c), TreeOf(CellMembers(c)))
  {
    hide Writes, Encode, TreeOf;
    CellRoundTrip(c);
    MembersWritten(T_CELL, CellRecord(c), CellMembers(c));
  }

  lemma CellTrees(columns: map<string, TCell>, rows: map<string, Record>, keys: seq<string>) returns (entries: seq<Entry>)
    requires forall i | 0 <= i < |keys| :: keys[i] in columns && keys[i] in rows && rows[keys[i]] == CellRecord(columns[keys[i]])
    ensures RowsWrite(T_CELL, rows, keys, entries)
  {
    hide Writes, CellRecord, TreeOf, CellMembers;
    entries := seq(|keys|, i requires 0 <= i < |keys| => Entry(Leaf(PString(keys[i])), TreeOf(CellMembers(columns[keys[i]]))));
    forall i | 0 <= i < |keys| ensures Writes(T_CELL, rows[keys[i]], entries[i].value) {
      CellTree(columns[keys[i]]);
    }
  }

  lemma RowTree(r: TRowResult, keys: seq<string>) returns (t: Tree)
    requires Orders(keys, r.columns)
    ensures Writes(T_ROW_RESULT, RowRecord(r), t) && Encode(t) == RowWire(r, keys)
  {
    hide CellsWire, CellRecord, AllIds, Writes, RowsWrite;
    var x := RowRecord(r);
    var entries := CellTrees(r.columns, x.contents[1].rows, keys);
    CellsWritten(r.columns, x.contents[1].rows, keys, entries);
    var v, w := Leaf(PString(r.row)), Map(T_STRING, T_STRUCT, entries);
    assert Enumerates(keys, x.contents[1].rows);
    assert SlotWrites(T_ROW_RESULT.slots[0], x.contents[0], v);
    assert SlotWrites(T_ROW_RESULT.slots[1], x.contents[1], w);
    TwoSlots(T_ROW_RESULT, x, v, w);
    TwoFields(Field(1, v), Field(2, w));
    t := Struct([Field(1, v), Field(2, w)]);
  }

  lemma RowRead(r: TRowResult, keys: seq<string>, into: Record, rest: Tokens)
    requires Shaped(T_ROW_RESULT, into) && Orders(keys, r.columns)
    ensures ReadStruct(T_ROW_RESULT, into, RowWire(r, keys) + rest) == Some((RowRecord(r), rest))
  {
    hide Encode, RowWire, ReadStruct, Shaped, Writes, RowRecord;
    var t := RowTree(r, keys);
    RowRoundTrip(r);
    assert ReadStruct(T_ROW_RESULT, into, Encode(t) + rest) == Some((RowRecord(r), rest));
  }

  // ------------------------------------------------------------------ what a struct starts with

  lemma {:induction false} EmptyRead(l: Layout, rest: Tokens)
    ensures ReadStruct(l, New(l), [StructBegin, FieldStop, StructEnd] + rest) == Some((New(l), rest))
  {
    var ts := [StructBegin, FieldStop, StructEnd] + rest;
    assert ts[1..] == [FieldStop, StructEnd] + rest && ts[1..][1..] == [StructEnd] + rest;
    assert ([StructEnd] + rest)[1..] == rest;
  }

  /** A struct off the wire without fields has the members its constructor gives it, none marked. */
  lemma Defaults(rest: Tokens)
    ensures var ts := [StructBegin, FieldStop, StructEnd] + rest;
            && ReadStruct(T_CELL, New(T_CELL), ts) == Some((Record([Text(""), Value(PI64(0))], {}), rest))
            && ReadStruct(T_REGION_INFO, New(T_REGION_INFO), ts) ==
               Some((Record([Text(""), Text(""), Value(PI64(0)), Text(""), Value(PByte(0))], {}), rest))
            && ReadStruct(MUTATION, New(MUTATION), ts) == Some((Record([Value(PBool(false)), Text(""), Text("")], {}), rest))
            && ReadStruct(BATCH_MUTATION, New(BATCH_MUTATION), ts) == Some((Record([Text(""), Records([])], {}), rest))
            && ReadStruct(T_ROW_RESULT, New(T_ROW_RESULT), ts) == Some((Record([Text(""), Rows(map[])], {}), rest))
  {
    hide ReadStruct;
    EmptyRead(T_CELL, rest);
    EmptyRead(T_REGION_INFO, rest);
    EmptyRead(MUTATION, rest);
    EmptyRead(BATCH_MUTATION, rest);
    EmptyRead(T_ROW_RESULT, rest);
    assert New(T_CELL).contents == [Text(""), Value(PI64(0))];
    assert New(T_REGION_INFO).contents == [Text(""), Text(""), Value(PI64(0)), Text(""), Value(PByte(0))];
    assert New(MUTATION).contents == [Value(PBool(false)), Text(""), Text("")];
    assert New(BATCH_MUTATION).contents == [Text(""), Records([])];
    assert New(T_ROW_RESULT).contents == [Text(""), Rows(map[])];
  }

  lemma ColumnDefaults(rest: Tokens)
    ensures ReadStruct(COLUMN_DESCRIPTOR, New(COLUMN_DESCRIPTOR), [StructBegin, FieldStop, StructEnd] + rest) ==
            Some((Record([Text(""), Value(PI32(3)), Text("NONE"), Value(PBool(false)), Value(PI32(2147483647)),
                          Text("NONE"), Value(PI32(0)), Value(PI32(0)), Value(PBool(false)), Value(PI32(-1))], {}), rest))
  {
    hide ReadStruct;
    EmptyRead(COLUMN_DESCRIPTOR, rest);
    assert New(COLUMN_DESCRIPTOR).contents ==
           [Text(""), Value(PI32(3)), Text("NONE"), Value(PBool(false)), Value(PI32(2147483647)),
            Text("NONE"), Value(PI32(0)), Value(PI32(0)), Value(PBool(false)), Value(PI32(-1))];
  }

  // ------------------------------------------------------------------ what readers put up with

  /** A list is read as one of structs, whatever its header says that it holds; so is a map. */
  lemma HeadersIgnored(inner: Layout, e: TType, k: TType, v: TType, n: nat, ts: Tokens)
    ensures ReadSlot(Many(inner), [ListBegin(e, n)] + ts) == ReadSlot(Many(inner), [ListBegin(T_STRUCT, n)] + ts)
    ensures ReadSlot(Keyed(inner), [MapBegin(k, v, n)] + ts) == ReadSlot(Keyed(inner), [MapBegin(T_STRING, T_STRUCT, n)] + ts)
  {
    assert ([ListBegin(e, n)] + ts)[1..] == ts == ([ListBegin(T_STRUCT, n)] + ts)[1..];
    assert ([MapBegin(k, v, n)] + ts)[1..] == ts == ([MapBegin(T_STRING, T_STRUCT, n)] + ts)[1..];
  }

  function OneField(t: TType, fid: int, p: Prim): Tokens {
    [StructBegin, FieldBegin(t, fid), Scalar(p), FieldEnd, FieldStop, StructEnd]
  }

  /** A cell that comes twice under one column is read into one struct, where members that the second
      does not carry stay. */
  lemma RepeatedColumn(key: string, value: string, timestamp: int, rest: Tokens)
    ensures var once, twice := OneField(T_STRING, 1, PString(value)), OneField(T_I64, 2, PI64(timestamp));
            ReadRows(T_CELL, 2, map[], [Scalar(PString(key))] + once + ([Scalar(PString(key))] + twice + rest)) ==
            Some((map[key := CellRecord(TCell(value, timestamp))], rest))
  {
    hide ReadStruct, OneField;
    var once, twice := OneField(T_STRING, 1, PString(value)), OneField(T_I64, 2, PI64(timestamp));
    var after := [Scalar(PString(key))] + twice + rest;
    var ts := [Scalar(PString(key))] + once + after;
    var x := New(T_CELL);
    OneFieldRead(x, T_STRING, 1, PString(value), after);
    var y := Assign(x, 1, Value(PString(value)));
    OneFieldRead(y, T_I64, 2, PI64(timestamp), rest);
    var z := Assign(y, 2, Value(PI64(timestamp)));
    assert ts[1..] == once + after && after[1..] == twice + rest;
    assert ReadScalar(T_STRING, ts) == Some(PString(key)) == ReadScalar(T_STRING, after);
    var none: map<string, Record> := map[];
    assert RowAt(none, key, T_CELL) == x && RowAt(none[key := y], key, T_CELL) == y;
    assert ReadRows(T_CELL, 2, none, ts) == ReadRows(T_CELL, 1, none[key := y], after);
    assert ReadRows(T_CELL, 1, none[key := y], after) == ReadRows(T_CELL, 0, none[key := y][key := z], rest);
    assert z.contents == [Text(value), Value(PI64(timestamp))] && z.isset == AllIds(2);
    assert z == CellRecord(TCell(value, timestamp));
    assert none[key := y][key := z] == map[key := z];
  }

  lemma OneFieldRead(x: Record, t: TType, fid: int, p: Prim, rest: Tokens)
    requires Wanted(T_CELL, fid, t) && PrimType(p) == t && 1 <= fid <= |x.contents|
    ensures ReadStruct(T_CELL, x, OneField(t, fid, p) + rest) == Some((Assign(x, fid, Value(p)), rest))
  {
    var ts := OneField(t, fid, p) + rest;
    var a, b, c, e := ts[1..], ts[2..], ts[3..], ts[4..];
    assert ts[1..][1..] == b && b[1..] == c && c[1..] == e && e[1..] == ts[5..] && ts[5..][1..] == ts[6..] == rest;
    assert ReadSlot(T_CELL.slots[fid - 1], b) == Some((Value(p), c));
    assert ReadFields(T_CELL, x, a) == ReadFields(T_CELL, Assign(x, fid, Value(p)), e);
  }
}
