/** Streams that do not hold a whole struct: what a reader has read stays read when more comes, and
    less than a written struct is never read. */
module ThriftStream {
  import opened Options
  import opened ThriftProtocol
  import opened ThriftStructs
  import opened ThriftTheorems

  lemma Longer(ts: Tokens, more: Tokens)
    requires ts != []
    ensures ts + more != [] && (ts + more)[0] == ts[0] && (ts + more)[1..] == ts[1..] + more
  {}

  lemma ExpectMore(token: Token, ts: Tokens, more: Tokens)
    requires Expect(token, ts).Some?
    ensures Expect(token, ts + more) == Some(Expect(token, ts).value + more)
  {
    Longer(ts, more);
  }

  // ------------------------------------------------------------------ skipping

  lemma {:induction false} SkipMore(t: TType, ts: Tokens, more: Tokens)
    requires Skip(t, ts).Some?
    ensures Skip(t, ts + more) == Some(Skip(t, ts).value + more)
    decreases |ts|, 0
  {
    hide Expect, SkipAll, SkipFields, Repeat;
    if ts != [] {
      Longer(ts, more);
      match t
      case T_STRUCT => SkipFieldsMore(ts[1..], more);
      case T_LIST =>
        SkipAllMore(Repeat([ts[0].etype], ts[0].size), ts[1..], more);
        ExpectMore(ListEnd, SkipAll(Repeat([ts[0].etype], ts[0].size), ts[1..]).value, more);
      case T_SET =>
        SkipAllMore(Repeat([ts[0].etype], ts[0].size), ts[1..], more);
        ExpectMore(SetEnd, SkipAll(Repeat([ts[0].etype], ts[0].size), ts[1..]).value, more);
      case T_MAP =>
        SkipAllMore(Repeat([ts[0].ktype, ts[0].vtype], ts[0].size), ts[1..], more);
        ExpectMore(MapEnd, SkipAll(Repeat([ts[0].ktype, ts[0].vtype], ts[0].size), ts[1..]).value, more);
      case _ =>
    }
  }

  lemma {:induction false} SkipAllMore(kinds: seq<TType>, ts: Tokens, more: Tokens)
    requires SkipAll(kinds, ts).Some?
    ensures SkipAll(kinds, ts + more) == Some(SkipAll(kinds, ts).value + more)
    decreases |ts|, 1 + |kinds|
  {
    hide Skip;
    if kinds != [] {
      SkipMore(kinds[0], ts, more);
      SkipAllMore(kinds[1..], Skip(kinds[0], ts).value, more);
    }
  }

  lemma {:induction false} SkipFieldsMore(ts: Tokens, more: Tokens)
    requires SkipFields(ts).Some?
    ensures SkipFields(ts + more) == Some(SkipFields(ts).value + more)
    decreases |ts|, 0
  {
    hide Skip, Expect;
    Longer(ts, more);
    if ts[0].FieldStop? {
      ExpectMore(StructEnd, ts[1..], more);
    } else {
      SkipMore(ts[0].ftype, ts[1..], more);
      var r := Skip(ts[0].ftype, ts[1..]).value;
      ExpectMore(FieldEnd, r, more);
      SkipFieldsMore(Expect(FieldEnd, r).value, more);
    }
  }

  // ------------------------------------------------------------------ reading

  lemma {:induction false} ReadStructMore(l: Layout, x: Record, ts: Tokens, more: Tokens)
    requires ReadStruct(l, x, ts).Some?
    ensures ReadStruct(l, x, ts + more) == Some((ReadStruct(l, x, ts).value.0, ReadStruct(l, x, ts).value.1 + more))
    decreases |ts|, 0
  {
    hide ReadFields;
    Longer(ts, more);
    ReadFieldsMore(l, x, ts[1..], more);
  }

  lemma {:induction false} ReadFieldsMore(l: Layout, x: Record, ts: Tokens, more: Tokens)
    requires ReadFields(l, x, ts).Some?
    ensures ReadFields(l, x, ts + more) == Some((ReadFields(l, x, ts).value.0, ReadFields(l, x, ts).value.1 + more))
    decreases |ts|, 0
  {
    hide ReadField, Expect;
    Longer(ts, more);
    if ts[0].FieldStop? {
      ExpectMore(StructEnd, ts[1..], more);
    } else {
      ReadFieldMore(l, x, ts[0].fid, ts[0].ftype, ts[1..], more);
      var (y, rest) := ReadField(l, x, ts[0].fid, ts[0].ftype, ts[1..]).value;
      ExpectMore(FieldEnd, rest, more);
      ReadFieldsMore(l, y, Expect(FieldEnd, rest).value, more);
    }
  }

  lemma {:induction false} ReadFieldMore(l: Layout, x: Record, fid: int, t: TType, ts: Tokens, more: Tokens)
    requires ReadField(l, x, fid, t, ts).Some?
    ensures ReadField(l, x, fid, t, ts + more) ==
            Some((ReadField(l, x, fid, t, ts).value.0, ReadField(l, x, fid, t, ts).value.1 + more))
    decreases |ts|, 1
  {
    hide ReadSlot, Skip;
    if Wanted(l, fid, t) {
      ReadSlotMore(l.slots[fid - 1], ts, more);
    } else {
      SkipMore(t, ts, more);
    }
  }

  lemma {:induction false} ReadSlotMore(slot: Slot, ts: Tokens, more: Tokens)
    requires ReadSlot(slot, ts).Some?
    ensures ReadSlot(slot, ts + more) == Some((ReadSlot(slot, ts).value.0, ReadSlot(slot, ts).value.1 + more))
    decreases |ts|, 0
  {
    hide ReadItems, ReadRows, Expect;
    Longer(ts, more);
    match slot
    case One(_) =>
    case Many(inner) =>
      ReadItemsMore(inner, ts[0].size, [], ts[1..], more);
      ExpectMore(ListEnd, ReadItems(inner, ts[0].size, [], ts[1..]).value.1, more);
    case Keyed(inner) =>
      ReadRowsMore(inner, ts[0].size, map[], ts[1..], more);
      ExpectMore(MapEnd, ReadRows(inner, ts[0].size, map[], ts[1..]).value.1, more);
  }

  lemma {:induction false} ReadItemsMore(inner: Layout, n: nat, items: seq<Record>, ts: Tokens, more: Tokens)
    requires ReadItems(inner, n, items, ts).Some?
    ensures ReadItems(inner, n, items, ts + more) ==
            Some((ReadItems(inner, n, items, ts).value.0, ReadItems(inner, n, items, ts).value.1 + more))
    decreases |ts|, 1
  {
    hide ReadStruct;
    if n > 0 {
      ReadStructMore(inner, New(inner), ts, more);
      var (x, rest) := ReadStruct(inner, New(inner), ts).value;
      ReadItemsMore(inner, n - 1, items + [x], rest, more);
    }
  }

  lemma {:induction false} ReadRowsMore(inner: Layout, n: nat, rows: map<string, Record>, ts: Tokens, more: Tokens)
    requires ReadRows(inner, n, rows, ts).Some?
    ensures ReadRows(inner, n, rows, ts + more) ==
            Some((ReadRows(inner, n, rows, ts).value.0, ReadRows(inner, n, rows, ts).value.1 + more))
    decreases |ts|, 1
  {
    hide ReadStruct, RowAt;
    if n > 0 {
      Longer(ts, more);
      var key := ReadScalar(T_STRING, ts).value.s;
      ReadStructMore(inner, RowAt(rows, key, inner), ts[1..], more);
      var (x, rest) := ReadStruct(inner, RowAt(rows, key, inner), ts[1..]).value;
      ReadRowsMore(inner, n - 1, rows[key := x], rest, more);
    }
  }

  /** A stream that ends within a written struct is not read. */
  lemma Truncated(l: Layout, x: Record, t: Tree, into: Record, ts: Tokens)
    requires Writes(l, x, t) && Shaped(l, into) && ts <= Encode(t) && ts != Encode(t)
    ensures ReadStruct(l, into, ts) == None
  {
    hide Writes, ReadStruct, Encode, Shaped;
    var more := Encode(t)[|ts|..];
    assert ts + more == Encode(t) && Encode(t) + [] == Encode(t);
    RoundTrip(l, x, t, into, []);
    if ReadStruct(l, into, ts).Some? {
      ReadStructMore(l, into, ts, more);
    }
  }

  lemma ScalarSkipped(p: Prim, ts: Tokens)
    requires ts != [] && ts[0] == Scalar(p)
    ensures Skip(PrimType(p), ts) == Some(ts[1..])
  {}

  /** Nor is one without the token that ends the struct, or with another one behind a field. */
  lemma EndsMatter(l: Layout, x: Record, fid: int, p: Prim, other: Token, rest: Tokens)
    ensures other != StructEnd ==> ReadStruct(l, x, [StructBegin, FieldStop, other] + rest) == None
    ensures other != FieldEnd ==>
              ReadStruct(l, x, [StructBegin, FieldBegin(PrimType(p), fid), Scalar(p), other] + rest) == None
  {
    var ts := [StructBegin, FieldBegin(PrimType(p), fid), Scalar(p), other] + rest;
    assert ts[1..][1..] == ts[2..] && ts[2..][0] == Scalar(p) && ts[2..][1..] == ts[3..] && ts[3..][0] == other;
    ScalarSkipped(p, ts[2..]);
    assert ReadField(l, x, fid, PrimType(p), ts[2..]).Some? ==> ReadField(l, x, fid, PrimType(p), ts[2..]).value.1 == ts[3..];
  }

  /** A list or map that is skipped has to end where its header says. */
  lemma HeadersMatter(p: Prim, other: Token, rest: Tokens)
    ensures other != ListEnd ==> Skip(T_LIST, [ListBegin(PrimType(p), 1), Scalar(p), other] + rest) == None
    ensures other != MapEnd ==> Skip(T_MAP, [MapBegin(PrimType(p), PrimType(p), 0), other] + rest) == None
  {
    var ts := [ListBegin(PrimType(p), 1), Scalar(p), other] + rest;
    assert ts[1..][0] == Scalar(p) && ts[1..][1..] == [other] + rest;
    ScalarSkipped(p, ts[1..]);
    assert Repeat([PrimType(p)], 1) == [PrimType(p)];
    assert SkipAll([PrimType(p)], ts[1..]) == SkipAll([], [other] + rest);
  }
}
