/** A Thrift protocol as a stream of typed tokens: the trees of values it carries, how they are
    written, and how a reader skips a value it does not want. */
module ThriftProtocol {
  import opened Options

  datatype TType = T_STOP | T_VOID | T_BOOL | T_BYTE | T_DOUBLE | T_I16 | T_I32 | T_I64 | T_STRING |
                   T_STRUCT | T_MAP | T_SET | T_LIST

  datatype Prim = PBool(b: bool) | PByte(n: int) | PI16(n: int) | PI32(n: int) | PI64(n: int) |
                  PDouble(r: real) | PString(s: string)

  datatype Token =
    | StructBegin | StructEnd
    | FieldBegin(ftype: TType, fid: int) | FieldEnd | FieldStop
    | ListBegin(etype: TType, size: nat) | ListEnd
    | SetBegin(etype: TType, size: nat) | SetEnd
    | MapBegin(ktype: TType, vtype: TType, size: nat) | MapEnd
    | Scalar(prim: Prim)

  type Tokens = seq<Token>

  function PrimType(p: Prim): TType {
    match p
    case PBool(_) => T_BOOL
    case PByte(_) => T_BYTE
    case PI16(_) => T_I16
    case PI32(_) => T_I32
    case PI64(_) => T_I64
    case PDouble(_) => T_DOUBLE
    case PString(_) => T_STRING
  }

  /** What remains after a token that has to come next. */
  function Expect(token: Token, ts: Tokens): (r: Option<Tokens>)
    ensures r.Some? ==> |r.value| < |ts|
  {
    if ts != [] && ts[0] == token then Some(ts[1..]) else None
  }

  function ReadScalar(t: TType, ts: Tokens): Option<Prim> {
    if ts != [] && ts[0].Scalar? && PrimType(ts[0].prim) == t then Some(ts[0].prim) else None
  }

  // ------------------------------------------------------------------ skipping

  function Repeat(ks: seq<TType>, n: nat): seq<TType> {
    if n == 0 then [] else ks + Repeat(ks, n - 1)
  }

  /** What remains after skipping a value of type `t`; None stands for a protocol exception. */
  function Skip(t: TType, ts: Tokens): (r: Option<Tokens>)
    ensures r.Some? ==> |r.value| <= |ts|
    decreases |ts|, 0
  {
    match t
    case T_STOP | T_VOID => Some(ts)
    case T_BOOL | T_BYTE | T_DOUBLE | T_I16 | T_I32 | T_I64 | T_STRING =>
      if ReadScalar(t, ts).Some? then Some(ts[1..]) else None
    case T_STRUCT => if ts != [] && ts[0].StructBegin? then SkipFields(ts[1..]) else None
    case T_LIST =>
      if ts == [] || !ts[0].ListBegin? then None
      else
        var r := SkipAll(Repeat([ts[0].etype], ts[0].size), ts[1..]);
        if r.None? then None else Expect(ListEnd, r.value)
    case T_SET =>
      if ts == [] || !ts[0].SetBegin? then None
      else
        var r := SkipAll(Repeat([ts[0].etype], ts[0].size), ts[1..]);
        if r.None? then None else Expect(SetEnd, r.value)
    case T_MAP =>
      if ts == [] || !ts[0].MapBegin? then None
      else
        var r := SkipAll(Repeat([ts[0].ktype, ts[0].vtype], ts[0].size), ts[1..]);
        if r.None? then None else Expect(MapEnd, r.value)
  }

  function SkipAll(kinds: seq<TType>, ts: Tokens): (r: Option<Tokens>)
    ensures r.Some? ==> |r.value| <= |ts|
    decreases |ts|, 1 + |kinds|
  {
    if kinds == [] then Some(ts)
    else
      var r := Skip(kinds[0], ts);
      if r.None? then None else SkipAll(kinds[1..], r.value)
  }

  function SkipFields(ts: Tokens): (r: Option<Tokens>)
    ensures r.Some? ==> |r.value| <= |ts|
    decreases |ts|, 0
  {
    if ts == [] then None
    else if ts[0].FieldStop? then Expect(StructEnd, ts[1..])
    else if !ts[0].FieldBegin? || ts[0].ftype.T_STOP? then None
    else
      var r := Skip(ts[0].ftype, ts[1..]);
      if r.None? then None
      else
        var e := Expect(FieldEnd, r.value);
        if e.None? then None else SkipFields(e.value)
  }

  // ------------------------------------------------------------------ values and how they are written

  datatype Tree =
    | Leaf(prim: Prim)
    | Struct(fields: seq<Field>)
    | List(etype: TType, items: seq<Tree>)
    | Set(etype: TType, items: seq<Tree>)
    | Map(ktype: TType, vtype: TType, entries: seq<Entry>)

  datatype Field = Field(fid: int, value: Tree)
  datatype Entry = Entry(key: Tree, value: Tree)

  function TreeType(t: Tree): TType {
    match t
    case Leaf(p) => PrimType(p)
    case Struct(_) => T_STRUCT
    case List(_, _) => T_LIST
    case Set(_, _) => T_SET
    case Map(_, _, _) => T_MAP
  }

  /** The types in the headers are those of the elements. */
  ghost predicate WellTyped(t: Tree) {
    match t
    case Leaf(_) => true
    case Struct(fields) => forall f | f in fields :: WellTyped(f.value)
    case List(e, items) => forall i | i in items :: TreeType(i) == e && WellTyped(i)
    case Set(e, items) => forall i | i in items :: TreeType(i) == e && WellTyped(i)
    case Map(k, v, entries) =>
      forall e | e in entries ::
        TreeType(e.key) == k && TreeType(e.value) == v && WellTyped(e.key) && WellTyped(e.value)
  }

  function Encode(t: Tree): Tokens
    decreases t
  {
    match t
    case Leaf(p) => [Scalar(p)]
    case Struct(fields) => [StructBegin] + EncodeFields(fields) + [FieldStop, StructEnd]
    case List(e, items) => [ListBegin(e, |items|)] + EncodeItems(items) + [ListEnd]
    case Set(e, items) => [SetBegin(e, |items|)] + EncodeItems(items) + [SetEnd]
    case Map(k, v, entries) => [MapBegin(k, v, |entries|)] + EncodeEntries(entries) + [MapEnd]
  }

  function EncodeField(f: Field): Tokens
    decreases f
  {
    [FieldBegin(TreeType(f.value), f.fid)] + Encode(f.value) + [FieldEnd]
  }

  function EncodeFields(fields: seq<Field>): Tokens
    decreases fields
  {
    if fields == [] then [] else EncodeField(fields[0]) + EncodeFields(fields[1..])
  }

  function EncodeItems(items: seq<Tree>): Tokens
    decreases items
  {
    if items == [] then [] else Encode(items[0]) + EncodeItems(items[1..])
  }

  function EncodeEntries(entries: seq<Entry>): Tokens
    decreases entries
  {
    if entries == [] then [] else EncodeEntry(entries[0]) + EncodeEntries(entries[1..])
  }

  function EncodeEntry(e: Entry): Tokens
    decreases e
  {
    Encode(e.key) + Encode(e.value)
  }

  // ------------------------------------------------------------------ skipping undoes writing

  /** Taking one token off the front. */
  lemma Front1(head: Token, body: Tokens, end: Tokens, rest: Tokens)
    ensures ([head] + body + end + rest)[0] == head && ([head] + body + end + rest)[1..] == body + (end + rest)
  {}

  lemma Expected(token: Token, rest: Tokens)
    ensures Expect(token, [token] + rest) == Some(rest)
  {}

  /** Skipping by the declared type consumes exactly the value written, whatever it contains. */
  lemma {:induction false} SkipEncoded(t: Tree, rest: Tokens)
    requires WellTyped(t)
    ensures Skip(TreeType(t), Encode(t) + rest) == Some(rest)
    decreases t, 2
  {
    hide Expect, SkipAll, SkipFields, EncodeFields, EncodeItems, EncodeEntries, Repeat;
    match t
    case Leaf(p) =>
      assert ([Scalar(p)] + rest)[1..] == rest;
    case Struct(fields) =>
      Front1(StructBegin, EncodeFields(fields), [FieldStop, StructEnd], rest);
      SkipFieldsEncoded(fields, rest);
    case List(e, items) =>
      Front1(ListBegin(e, |items|), EncodeItems(items), [ListEnd], rest);
      SkipItemsEncoded(e, items, [ListEnd] + rest);
      Expected(ListEnd, rest);
    case Set(e, items) =>
      Front1(SetBegin(e, |items|), EncodeItems(items), [SetEnd], rest);
      SkipItemsEncoded(e, items, [SetEnd] + rest);
      Expected(SetEnd, rest);
    case Map(k, v, entries) =>
      Front1(MapBegin(k, v, |entries|), EncodeEntries(entries), [MapEnd], rest);
      SkipEntriesEncoded(k, v, entries, [MapEnd] + rest);
      Expected(MapEnd, rest);
  }

  lemma {:induction false} SkipFieldEncoded(f: Field, rest: Tokens)
    requires WellTyped(f.value)
    ensures EncodeField(f) != [] && EncodeField(f)[0] == FieldBegin(TreeType(f.value), f.fid)
    ensures Skip(TreeType(f.value), (EncodeField(f) + rest)[1..]) == Some([FieldEnd] + rest)
    decreases f, 3
  {
    Front1(FieldBegin(TreeType(f.value), f.fid), Encode(f.value), [FieldEnd], rest);
    SkipEncoded(f.value, [FieldEnd] + rest);
  }

  lemma {:induction false} SkipFieldsEncoded(fields: seq<Field>, rest: Tokens)
    requires forall f | f in fields :: WellTyped(f.value)
    ensures SkipFields(EncodeFields(fields) + ([FieldStop, StructEnd] + rest)) == Some(rest)
    decreases fields, 4
  {
    hide Skip, EncodeField;
    var tail := [FieldStop, StructEnd] + rest;
    if fields == [] {
      assert EncodeFields(fields) + tail == tail;
      assert tail[1..] == [StructEnd] + rest;
      Expected(StructEnd, rest);
    } else {
      var f, after := fields[0], EncodeFields(fields[1..]) + tail;
      SkipFieldEncoded(f, after);
      SkipFieldsEncoded(fields[1..], rest);
      Expected(FieldEnd, after);
      assert EncodeFields(fields) + tail == EncodeField(f) + after;
    }
  }

  lemma {:induction false} SkipItemsEncoded(e: TType, items: seq<Tree>, rest: Tokens)
    requires forall i | i in items :: TreeType(i) == e && WellTyped(i)
    ensures SkipAll(Repeat([e], |items|), EncodeItems(items) + rest) == Some(rest)
    decreases items, 4
  {
    hide Skip, Encode;
    if items == [] {
      assert EncodeItems(items) + rest == rest;
    } else {
      SkipEncoded(items[0], EncodeItems(items[1..]) + rest);
      SkipItemsEncoded(e, items[1..], rest);
      assert EncodeItems(items) + rest == Encode(items[0]) + (EncodeItems(items[1..]) + rest);
      assert Repeat([e], |items|)[1..] == Repeat([e], |items| - 1);
    }
  }

  lemma {:induction false} SkipEntryEncoded(e: Entry, rest: Tokens)
    requires WellTyped(e.key) && WellTyped(e.value)
    ensures Skip(TreeType(e.key), EncodeEntry(e) + rest) == Some(Encode(e.value) + rest)
    ensures Skip(TreeType(e.value), Encode(e.value) + rest) == Some(rest)
    decreases e, 3
  {
    SkipEncoded(e.value, rest);
    SkipEncoded(e.key, Encode(e.value) + rest);
    assert EncodeEntry(e) + rest == Encode(e.key) + (Encode(e.value) + rest);
  }

  lemma {:induction false} SkipEntriesEncoded(k: TType, v: TType, entries: seq<Entry>, rest: Tokens)
    requires forall e | e in entries ::
               TreeType(e.key) == k && TreeType(e.value) == v && WellTyped(e.key) && WellTyped(e.value)
    ensures SkipAll(Repeat([k, v], |entries|), EncodeEntries(entries) + rest) == Some(rest)
    decreases entries, 4
  {
    hide Skip, Encode, EncodeEntry;
    if entries == [] {
      assert EncodeEntries(entries) + rest == rest;
    } else {
      var e, after := entries[0], EncodeEntries(entries[1..]) + rest;
      SkipEntryEncoded(e, after);
      SkipEntriesEncoded(k, v, entries[1..], rest);
      assert EncodeEntries(entries) + rest == EncodeEntry(e) + after;
      var kinds := Repeat([k, v], |entries|);
      assert kinds[0] == k && kinds[1..][0] == v && kinds[1..][1..] == Repeat([k, v], |entries| - 1);
      assert SkipAll(kinds, EncodeEntry(e) + after) == SkipAll(kinds[1..], Encode(e.value) + after);
    }
  }
}
