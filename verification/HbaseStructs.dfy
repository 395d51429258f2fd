/** The six structs with their own members, as the tables of their switches see them. */
module HbaseStructs {
  import opened Options
  import opened ThriftProtocol
  import opened ThriftStructs
  import opened ThriftTheorems
  import opened HbaseTypes

  datatype TCell = TCell(value: string, timestamp: int)
  datatype ColumnDescriptor = ColumnDescriptor(name: string, maxVersions: int, compression: string, inMemory: bool,
                                               maxValueLength: int, bloomFilterType: string, bloomFilterVectorSize: int,
                                               bloomFilterNbHashes: int, blockCacheEnabled: bool, timeToLive: int)
  datatype TRegionInfo = TRegionInfo(startKey: string, endKey: string, id: int, name: string, version: int)
  datatype Mutation = Mutation(isDelete: bool, column: string, value: string)
  datatype BatchMutation = BatchMutation(row: string, mutations: seq<Mutation>)
  datatype TRowResult = TRowResult(row: string, columns: map<string, TCell>)

  function Text(s: string): Content {
    Value(PString(s))
  }

  function CellRecord(c: TCell): Record {
    Record([Text(c.value), Value(PI64(c.timestamp))], AllIds(2))
  }

  function ColumnRecord(d: ColumnDescriptor): Record {
    Record([Text(d.name), Value(PI32(d.maxVersions)), Text(d.compression), Value(PBool(d.inMemory)),
            Value(PI32(d.maxValueLength)), Text(d.bloomFilterType), Value(PI32(d.bloomFilterVectorSize)),
            Value(PI32(d.bloomFilterNbHashes)), Value(PBool(d.blockCacheEnabled)), Value(PI32(d.timeToLive))], AllIds(10))
  }

  function RegionRecord(r: TRegionInfo): Record {
    Record([Text(r.startKey), Text(r.endKey), Value(PI64(r.id)), Text(r.name), Value(PByte(r.version))], AllIds(5))
  }

  function MutationRecord(m: Mutation): Record {
    Record([Value(PBool(m.isDelete)), Text(m.column), Text(m.value)], AllIds(3))
  }

  function BatchRecord(b: BatchMutation): Record {
    Record([Text(b.row), Records(seq(|b.mutations|, i requires 0 <= i < |b.mutations| => MutationRecord(b.mutations[i])))],
           AllIds(2))
  }

  function RowRecord(r: TRowResult): Record {
    Record([Text(r.row), Rows(map k | k in r.columns :: CellRecord(r.columns[k]))], AllIds(2))
  }

  /** Structs of scalars only. */
  lemma ScalarsTyped(l: Layout, x: Record)
    requires |x.contents| == |l.slots| && x.isset == AllIds(|l.slots|)
    requires forall i | 0 <= i < |l.slots| ::
               l.slots[i].One? && x.contents[i].Value? && PrimType(x.contents[i].prim) == PrimType(l.slots[i].initial)
    ensures Typed(l, x) && AllSet(l, x) == x
  {
    assert AllSet(l, x).contents == x.contents;
  }

  lemma {:induction false} CellFits(c: TCell)
    ensures Typed(T_CELL, CellRecord(c)) && AllSet(T_CELL, CellRecord(c)) == CellRecord(c)
  {
    ScalarsTyped(T_CELL, CellRecord(c));
  }

  lemma {:induction false} MutationFits(m: Mutation)
    ensures Typed(MUTATION, MutationRecord(m)) && AllSet(MUTATION, MutationRecord(m)) == MutationRecord(m)
  {
    ScalarsTyped(MUTATION, MutationRecord(m));
  }

  lemma BatchFits(b: BatchMutation)
    ensures Typed(BATCH_MUTATION, BatchRecord(b)) && AllSet(BATCH_MUTATION, BatchRecord(b)) == BatchRecord(b)
  {
    hide AllIds;
    forall m ensures Typed(MUTATION, MutationRecord(m)) && AllSet(MUTATION, MutationRecord(m)) == MutationRecord(m) {
      MutationFits(m);
    }
    var x := BatchRecord(b);
    assert AllSetContent(Many(MUTATION), x.contents[1]).items == x.contents[1].items;
    assert AllSet(BATCH_MUTATION, x).contents == x.contents;
  }

  lemma RowFits(r: TRowResult)
    ensures Typed(T_ROW_RESULT, RowRecord(r)) && AllSet(T_ROW_RESULT, RowRecord(r)) == RowRecord(r)
  {
    hide AllIds;
    forall c ensures Typed(T_CELL, CellRecord(c)) && AllSet(T_CELL, CellRecord(c)) == CellRecord(c) {
      CellFits(c);
    }
    var x := RowRecord(r);
    assert AllSetContent(Keyed(T_CELL), x.contents[1]).rows == x.contents[1].rows;
    assert AllSet(T_ROW_RESULT, x).contents == x.contents;
  }

  // ------------------------------------------------------------------ round trips

  /** `x` written is read back, whatever it is read into and whatever follows. */
  ghost predicate ReadsBack(l: Layout, x: Record) {
    && Typed(l, x)
    && forall t, into, rest :: Writes(l, x, t) && Shaped(l, into) ==> ReadStruct(l, into, Encode(t) + rest) == Some((x, rest))
  }

  lemma FitsReadBack(l: Layout, x: Record)
    requires Typed(l, x) && AllSet(l, x) == x
    ensures ReadsBack(l, x)
  {
    forall t, into, rest | Writes(l, x, t) && Shaped(l, into)
      ensures ReadStruct(l, into, Encode(t) + rest) == Some((x, rest)) {
      RoundTrip(l, x, t, into, rest);
    }
  }

  lemma CellRoundTrip(c: TCell)
    ensures ReadsBack(T_CELL, CellRecord(c))
  {
    CellFits(c);
    FitsReadBack(T_CELL, CellRecord(c));
  }

  lemma ColumnRoundTrip(d: ColumnDescriptor)
    ensures ReadsBack(COLUMN_DESCRIPTOR, ColumnRecord(d))
  {
    ScalarsTyped(COLUMN_DESCRIPTOR, ColumnRecord(d));
    FitsReadBack(COLUMN_DESCRIPTOR, ColumnRecord(d));
  }

  lemma RegionRoundTrip(r: TRegionInfo)
    ensures ReadsBack(T_REGION_INFO, RegionRecord(r))
  {
    ScalarsTyped(T_REGION_INFO, RegionRecord(r));
    FitsReadBack(T_REGION_INFO, RegionRecord(r));
  }

  lemma MutationRoundTrip(m: Mutation)
    ensures ReadsBack(MUTATION, MutationRecord(m))
  {
    MutationFits(m);
    FitsReadBack(MUTATION, MutationRecord(m));
  }

  /** Through the list loop. */
  lemma BatchRoundTrip(b: BatchMutation)
    ensures ReadsBack(BATCH_MUTATION, BatchRecord(b))
  {
    BatchFits(b);
    FitsReadBack(BATCH_MUTATION, BatchRecord(b));
  }

  /** Through the map loop. */
  lemma RowRoundTrip(r: TRowResult)
    ensures ReadsBack(T_ROW_RESULT, RowRecord(r))
  {
    RowFits(r);
    FitsReadBack(T_ROW_RESULT, RowRecord(r));
  }

  /** The records lose nothing of the two nested structs. */
  lemma RecordsInjective(a: BatchMutation, b: BatchMutation, r: TRowResult, s: TRowResult)
    ensures BatchRecord(a) == BatchRecord(b) ==> a == b
    ensures RowRecord(r) == RowRecord(s) ==> r == s
  {
    hide AllIds;
    if BatchRecord(a) == BatchRecord(b) {
      var p, q := BatchRecord(a).contents, BatchRecord(b).contents;
      assert p[0] == Text(a.row) && q[0] == Text(b.row) && p[1].items == q[1].items;
      forall i | 0 <= i < |a.mutations| ensures a.mutations[i] == b.mutations[i] {
        var m, n := p[1].items[i].contents, q[1].items[i].contents;
        assert m == MutationRecord(a.mutations[i]).contents && n == MutationRecord(b.mutations[i]).contents;
        assert m[0] == n[0] && m[1] == n[1] && m[2] == n[2];
      }
      assert a.mutations == b.mutations;
    }
    if RowRecord(r) == RowRecord(s) {
      var p, q := RowRecord(r).contents, RowRecord(s).contents;
      assert p[0] == Text(r.row) && q[0] == Text(s.row) && p[1].rows == q[1].rows;
      forall k | k in r.columns ensures k in s.columns && r.columns[k] == s.columns[k] {
        assert k in p[1].rows;
        var c, d := p[1].rows[k].contents, q[1].rows[k].contents;
        assert c == CellRecord(r.columns[k]).contents && d == CellRecord(s.columns[k]).contents;
        assert c[0] == d[0] && c[1] == d[1];
      }
      assert forall k | k in s.columns :: k in q[1].rows;
      assert r.columns == s.columns;
    }
  }

  /** What two values write differs, and neither is the start of the other, unless they are equal. */
  lemma WireInjective(l: Layout, x: Record, y: Record, t: Tree, u: Tree, after: Tokens, after': Tokens)
    requires ReadsBack(l, x) && ReadsBack(l, y) && Writes(l, x, t) && Writes(l, y, u)
    requires Encode(t) + after == Encode(u) + after'
    ensures x == y && after == after'
  {
    hide Writes, ReadStruct, Encode, Typed, Shaped;
    NewShape(l);
    assert ReadStruct(l, New(l), Encode(t) + after) == Some((x, after));
    assert ReadStruct(l, New(l), Encode(u) + after') == Some((y, after'));
  }

  /** So no two batches and no two rows look alike on the wire. */
  lemma BatchesDiffer(a: BatchMutation, b: BatchMutation, t: Tree, u: Tree, after: Tokens, after': Tokens)
    requires Writes(BATCH_MUTATION, BatchRecord(a), t) && Writes(BATCH_MUTATION, BatchRecord(b), u)
    requires Encode(t) + after == Encode(u) + after'
    ensures a == b && after == after'
  {
    hide Writes, Encode, ReadsBack, BatchRecord;
    BatchRoundTrip(a);
    BatchRoundTrip(b);
    WireInjective(BATCH_MUTATION, BatchRecord(a), BatchRecord(b), t, u, after, after');
    RecordsInjective(a, b, TRowResult("", map[]), TRowResult("", map[]));
  }

  lemma RowsDiffer(r: TRowResult, s: TRowResult, t: Tree, u: Tree, after: Tokens, after': Tokens)
    requires Writes(T_ROW_RESULT, RowRecord(r), t) && Writes(T_ROW_RESULT, RowRecord(s), u)
    requires Encode(t) + after == Encode(u) + after'
    ensures r == s && after == after'
  {
    hide Writes, Encode, ReadsBack, RowRecord;
    RowRoundTrip(r);
    RowRoundTrip(s);
    WireInjective(T_ROW_RESULT, RowRecord(r), RowRecord(s), t, u, after, after');
    RecordsInjective(BatchMutation("", []), BatchMutation("", []), r, s);
  }
}
