/** Tolerance and round trips of the generated structs. */
module ThriftTheorems {
  import opened Options
  import opened ThriftProtocol
  import opened ThriftStructs

  // ------------------------------------------------------------------ tolerance

  predicate WantedField(l: Layout, f: Field) {
    Wanted(l, f.fid, TreeType(f.value))
  }

  /** The value of the last field with this id that is read and not skipped. */
  function LastWanted(l: Layout, fields: seq<Field>, fid: int): Option<Tree> {
    if fields == [] then None
    else if LastWanted(l, fields[1..], fid).Some? then LastWanted(l, fields[1..], fid)
    else if fields[0].fid == fid && WantedField(l, fields[0]) then Some(fields[0].value)
    else None
  }

  lemma {:induction false} MeaningAt(l: Layout, x: Record, fields: seq<Field>, fid: int)
    requires |x.contents| == |l.slots|
    ensures var m, last := Meaning(l, x, fields), LastWanted(l, fields, fid);
            && |m.contents| == |l.slots|
            && (fid in m.isset <==> fid in x.isset || last.Some?)
            && (1 <= fid <= |l.slots| ==>
                  m.contents[fid - 1] == if last.Some? then SlotMeaning(l.slots[fid - 1], last.value) else x.contents[fid - 1])
    decreases |fields|
  {
    hide SlotMeaning;
    if fields != [] {
      MeaningAt(l, FieldMeaning(l, x, fields[0]), fields[1..], fid);
    }
  }

  /** Only the last wanted value of each field id matters. */
  lemma SameLastSameMeaning(l: Layout, x: Record, a: seq<Field>, b: seq<Field>)
    requires |x.contents| == |l.slots|
    requires forall fid :: LastWanted(l, a, fid) == LastWanted(l, b, fid)
    ensures Meaning(l, x, a) == Meaning(l, x, b)
  {
    hide Meaning, LastWanted, SlotMeaning;
    var m, n := Meaning(l, x, a), Meaning(l, x, b);
    forall fid: int ensures fid in m.isset <==> fid in n.isset {
      MeaningAt(l, x, a, fid);
      MeaningAt(l, x, b, fid);
    }
    MeaningAt(l, x, a, 0);
    MeaningAt(l, x, b, 0);
    forall i | 0 <= i < |l.slots| ensures m.contents[i] == n.contents[i] {
      MeaningAt(l, x, a, i + 1);
      MeaningAt(l, x, b, i + 1);
    }
    assert m.isset == n.isset && m.contents == n.contents;
  }

  ghost predicate DistinctIds(fields: seq<Field>) {
    forall i, j | 0 <= i < j < |fields| :: fields[i].fid != fields[j].fid
  }

  function WantedOnly(l: Layout, fields: seq<Field>): seq<Field> {
    if fields == [] then []
    else (if WantedField(l, fields[0]) then [fields[0]] else []) + WantedOnly(l, fields[1..])
  }

  lemma {:induction false} LastWantedOnly(l: Layout, fields: seq<Field>, fid: int)
    ensures LastWanted(l, WantedOnly(l, fields), fid) == LastWanted(l, fields, fid)
  {
    if fields != [] {
      LastWantedOnly(l, fields[1..], fid);
      if WantedField(l, fields[0]) {
        assert WantedOnly(l, fields)[1..] == WantedOnly(l, fields[1..]);
      } else {
        assert WantedOnly(l, fields) == WantedOnly(l, fields[1..]);
      }
    }
  }

  lemma {:induction false} LastIsMember(l: Layout, fields: seq<Field>, fid: int)
    ensures var last := LastWanted(l, fields, fid);
            last.Some? ==> Field(fid, last.value) in fields && WantedField(l, Field(fid, last.value))
    ensures LastWanted(l, fields, fid).None? ==>
              forall f | f in fields :: !(f.fid == fid && WantedField(l, f))
  {
    if fields != [] {
      LastIsMember(l, fields[1..], fid);
      assert fields == [fields[0]] + fields[1..];
      assert Field(fields[0].fid, fields[0].value) == fields[0];
    }
  }

  lemma MemberIsLast(l: Layout, fields: seq<Field>, fid: int, f: Field)
    requires DistinctIds(fields) && f in fields && f.fid == fid && WantedField(l, f)
    ensures LastWanted(l, fields, fid) == Some(f.value)
  {
    LastIsMember(l, fields, fid);
    var last := LastWanted(l, fields, fid);
    var i :| 0 <= i < |fields| && fields[i] == f;
    var j :| 0 <= j < |fields| && fields[j] == Field(fid, last.value);
  }

  lemma SameBagSameLast(l: Layout, a: seq<Field>, b: seq<Field>, fid: int)
    requires multiset(a) == multiset(b) && DistinctIds(b)
    ensures LastWanted(l, a, fid) == LastWanted(l, b, fid)
  {
    LastIsMember(l, a, fid);
    LastIsMember(l, b, fid);
    var last, other := LastWanted(l, a, fid), LastWanted(l, b, fid);
    assert forall f :: f in a <==> f in multiset(a);
    assert forall f :: f in b <==> f in multiset(b);
    assert last.Some? <==> other.Some?;
    if last.Some? {
      MemberIsLast(l, b, fid, Field(fid, last.value));
    }
  }

  ghost predicate AllConform(l: Layout, fields: seq<Field>) {
    forall f | f in fields :: Conforms(l, f)
  }

  /** The order of the fields does not matter, nor does what comes between them: fields with ids the
      struct does not know, and fields of another type than the one it knows. */
  lemma Tolerance(l: Layout, x: Record, fields: seq<Field>, wire: seq<Field>, rest: Tokens)
    requires |x.contents| == |l.slots| && AllConform(l, fields) && AllConform(l, wire)
    requires DistinctIds(fields) && multiset(WantedOnly(l, wire)) == multiset(fields)
    ensures ReadStruct(l, x, Encode(Struct(wire)) + rest) == ReadStruct(l, x, Encode(Struct(fields)) + rest)
    ensures ReadStruct(l, x, Encode(Struct(wire)) + rest) == Some((Meaning(l, x, fields), rest))
  {
    hide Encode, ReadStruct, WantedOnly, Meaning, LastWanted, Conforms;
    assert StructConforms(l, Struct(fields)) && StructConforms(l, Struct(wire));
    ReadIsMeaning(l, x, Struct(fields), rest);
    ReadIsMeaning(l, x, Struct(wire), rest);
    forall fid ensures LastWanted(l, wire, fid) == LastWanted(l, fields, fid) {
      LastWantedOnly(l, wire, fid);
      SameBagSameLast(l, WantedOnly(l, wire), fields, fid);
    }
    SameLastSameMeaning(l, x, wire, fields);
  }

  // ------------------------------------------------------------------ what a struct writes

  /** The members are of the kinds and types of the layout. */
  ghost predicate Typed(l: Layout, x: Record)
    decreases l
  {
    |x.contents| == |l.slots| && forall i | 0 <= i < |l.slots| :: TypedContent(l.slots[i], x.contents[i])
  }

  ghost predicate TypedContent(slot: Slot, c: Content)
    decreases slot
  {
    match slot
    case One(p) => c.Value? && PrimType(c.prim) == PrimType(p)
    case Many(inner) => c.Records? && forall r | r in c.items :: Typed(inner, r)
    case Keyed(inner) => c.Rows? && forall k | k in c.rows :: Typed(inner, c.rows[k])
  }

  /** Each key of `rows` once. */
  ghost predicate Enumerates(keys: seq<string>, rows: map<string, Record>) {
    && (forall i | 0 <= i < |keys| :: keys[i] in rows)
    && (forall k | k in rows :: k in keys)
    && (forall i, j | 0 <= i < j < |keys| :: keys[i] != keys[j])
  }

  /** `t` is what writing `x` puts on the wire: its fields in the order of their ids, and a map's
      entries in the order of some enumeration of its keys. */
  ghost predicate Writes(l: Layout, x: Record, t: Tree)
    decreases l, 0
  {
    && t.Struct? && |t.fields| == |l.slots| == |x.contents|
    && forall i | 0 <= i < |l.slots| ::
         t.fields[i].fid == i + 1 && SlotWrites(l.slots[i], x.contents[i], t.fields[i].value)
  }

  ghost predicate SlotWrites(slot: Slot, c: Content, t: Tree)
    decreases slot, 0
  {
    match slot
    case One(p) => c.Value? && PrimType(c.prim) == PrimType(p) && t == Leaf(c.prim)
    case Many(inner) => c.Records? && t.List? && t.etype == T_STRUCT && ItemsWrite(inner, c.items, t.items)
    case Keyed(inner) =>
      && c.Rows? && t.Map? && t.ktype == T_STRING && t.vtype == T_STRUCT
      && exists keys :: Enumerates(keys, c.rows) && RowsWrite(inner, c.rows, keys, t.entries)
  }

  ghost predicate ItemsWrite(inner: Layout, items: seq<Record>, trees: seq<Tree>)
    decreases inner, 1
  {
    |trees| == |items| && forall i | 0 <= i < |trees| :: Writes(inner, items[i], trees[i])
  }

  ghost predicate RowsWrite(inner: Layout, rows: map<string, Record>, keys: seq<string>, entries: seq<Entry>)
    decreases inner, 1
  {
    && |entries| == |keys|
    && forall i | 0 <= i < |keys| ::
         keys[i] in rows && entries[i].key == Leaf(PString(keys[i])) && Writes(inner, rows[keys[i]], entries[i].value)
  }

  // ------------------------------------------------------------------ reading back what was written

  function AllIds(n: nat): (ids: set<int>)
    ensures forall fid :: fid in ids <==> 1 <= fid <= n
  {
    if n == 0 then {} else AllIds(n - 1) + {n}
  }

  /** A struct of the kind that `l` is the table of. */
  ghost predicate Shaped(l: Layout, x: Record) {
    |x.contents| == |l.slots| && x.isset <= AllIds(|l.slots|)
  }

  /** The same members, every one marked: what `operator==` compares two structs by. */
  ghost function AllSet(l: Layout, x: Record): Record
    decreases l
  {
    Record(seq(|x.contents|, i requires 0 <= i < |x.contents| =>
                 if i < |l.slots| then AllSetContent(l.slots[i], x.contents[i]) else x.contents[i]),
           AllIds(|l.slots|))
  }

  ghost function AllSetContent(slot: Slot, c: Content): Content
    decreases slot
  {
    match slot
    case One(_) => c
    case Many(inner) =>
      if c.Records? then Records(seq(|c.items|, i requires 0 <= i < |c.items| => AllSet(inner, c.items[i]))) else c
    case Keyed(inner) =>
      if c.Rows? then Rows(map k | k in c.rows :: AllSet(inner, c.rows[k])) else c
  }

  lemma {:induction false} WrittenConforms(l: Layout, x: Record, t: Tree)
    requires Writes(l, x, t)
    ensures WellTyped(t) && StructConforms(l, t)
    decreases l, 1
  {
    hide SlotWrites;
    forall f | f in t.fields ensures Conforms(l, f) {
      var i :| 0 <= i < |t.fields| && t.fields[i] == f;
      SlotWrittenConforms(l.slots[i], x.contents[i], f.value);
    }
  }

  lemma {:induction false} SlotWrittenConforms(slot: Slot, c: Content, t: Tree)
    requires SlotWrites(slot, c, t)
    ensures WellTyped(t) && SlotConforms(slot, t) && TreeType(t) == SlotType(slot)
    decreases slot, 0
  {
    hide Writes, StructConforms, EntryConforms, ItemsWrite, RowsWrite, Enumerates;
    match slot
    case One(_) =>
    case Many(inner) =>
      ItemsConform(inner, c.items, t.items);
    case Keyed(inner) =>
      var keys :| Enumerates(keys, c.rows) && RowsWrite(inner, c.rows, keys, t.entries);
      RowsConform(inner, c.rows, keys, t.entries);
  }

  lemma {:induction false} ItemsConform(inner: Layout, items: seq<Record>, trees: seq<Tree>)
    requires ItemsWrite(inner, items, trees)
    ensures forall t | t in trees :: TreeType(t) == T_STRUCT && WellTyped(t) && StructConforms(inner, t)
    decreases inner, 2
  {
    hide Writes, StructConforms, WellTyped;
    forall t | t in trees ensures TreeType(t) == T_STRUCT && WellTyped(t) && StructConforms(inner, t) {
      var i :| 0 <= i < |trees| && trees[i] == t;
      WrittenConforms(inner, items[i], t);
      ConformingIsStruct(inner, t);
    }
  }

  lemma ConformingIsStruct(l: Layout, t: Tree)
    requires StructConforms(l, t)
    ensures TreeType(t) == T_STRUCT
  {}

  lemma {:induction false} RowsConform(inner: Layout, rows: map<string, Record>, keys: seq<string>, entries: seq<Entry>)
    requires RowsWrite(inner, rows, keys, entries)
    ensures forall e | e in entries ::
              && TreeType(e.key) == T_STRING && TreeType(e.value) == T_STRUCT
              && WellTyped(e.key) && WellTyped(e.value) && EntryConforms(inner, e)
    decreases inner, 2
  {
    hide Writes, StructConforms;
    forall e | e in entries
      ensures && TreeType(e.key) == T_STRING && TreeType(e.value) == T_STRUCT
              && WellTyped(e.key) && WellTyped(e.value) && EntryConforms(inner, e) {
      var i :| 0 <= i < |entries| && entries[i] == e;
      WrittenConforms(inner, rows[keys[i]], e.value);
      ConformingIsStruct(inner, e.value);
    }
  }

  lemma {:induction false} MeaningOfWritten(l: Layout, into: Record, x: Record, t: Tree)
    requires Writes(l, x, t) && Shaped(l, into)
    ensures StructMeaning(l, into, t) == AllSet(l, x)
    decreases l, 1
  {
    hide SlotWrites, AllSetContent, SlotMeaning, Meaning, Conforms, AllIds, StructConforms;
    var m := Meaning(l, into, t.fields);
    MeaningAt(l, into, t.fields, 0);
    forall i | 0 <= i < |l.slots| ensures i + 1 in m.isset && m.contents[i] == AllSetContent(l.slots[i], x.contents[i]) {
      SlotOfWritten(l.slots[i], x.contents[i], t.fields[i].value);
      SlotWrittenConforms(l.slots[i], x.contents[i], t.fields[i].value);
      MemberIsLast(l, t.fields, i + 1, t.fields[i]);
      MeaningAt(l, into, t.fields, i + 1);
    }
    forall fid: int ensures fid in m.isset <==> fid in AllIds(|l.slots|) {
      MeaningAt(l, into, t.fields, fid);
      LastIsMember(l, t.fields, fid);
      if 1 <= fid <= |l.slots| {
        assert fid - 1 + 1 in m.isset;
      }
    }
    assert m.contents == AllSet(l, x).contents;
  }

  lemma {:induction false} SlotOfWritten(slot: Slot, c: Content, t: Tree)
    requires SlotWrites(slot, c, t)
    ensures SlotMeaning(slot, t) == AllSetContent(slot, c)
    decreases slot, 0
  {
    hide Writes, AllSet, ItemsMeaning, RowsMeaning, ItemsWrite, RowsWrite;
    match slot
    case One(_) =>
    case Many(inner) =>
      ItemsOfWritten(inner, c.items, t.items);
    case Keyed(inner) =>
      var keys :| Enumerates(keys, c.rows) && RowsWrite(inner, c.rows, keys, t.entries);
      RowsOfWritten(inner, c.rows, keys, t.entries, map[]);
  }

  lemma {:induction false} ItemsOfWritten(inner: Layout, items: seq<Record>, trees: seq<Tree>)
    requires ItemsWrite(inner, items, trees)
    ensures |ItemsMeaning(inner, trees)| == |items|
    ensures forall i | 0 <= i < |items| :: ItemsMeaning(inner, trees)[i] == AllSet(inner, items[i])
    decreases inner, 2, |trees|
  {
    hide Writes, AllSet, StructMeaning;
    if trees != [] {
      NewShape(inner);
      MeaningOfWritten(inner, New(inner), items[0], trees[0]);
      ItemsOfWritten(inner, items[1..], trees[1..]);
    }
  }

  lemma NewShape(l: Layout)
    ensures Shaped(l, New(l))
  {}

  lemma {:induction false} RowsOfWritten(inner: Layout, rows: map<string, Record>, keys: seq<string>, entries: seq<Entry>,
                                         done: map<string, Record>)
    requires RowsWrite(inner, rows, keys, entries)
    requires forall i, j | 0 <= i < j < |keys| :: keys[i] != keys[j]
    requires forall k | k in keys :: k !in done
    ensures var m := RowsMeaning(inner, done, entries);
            && (forall k :: k in m <==> k in done || k in keys)
            && (forall k | k in done :: m[k] == done[k])
            && (forall k | k in keys :: m[k] == AllSet(inner, rows[k]))
    decreases inner, 2, |keys|
  {
    hide Writes, AllSet, StructMeaning, Shaped;
    if keys != [] {
      var k := keys[0];
      NewShape(inner);
      MeaningOfWritten(inner, New(inner), rows[k], entries[0].value);
      var more := EntryMeaning(inner, done, entries[0]);
      assert more == done[k := AllSet(inner, rows[k])];
      RowsOfWritten(inner, rows, keys[1..], entries[1..], more);
      assert keys == [k] + keys[1..];
    }
  }

  /** Whatever struct is written, reading it back into any struct of the same kind yields its members,
      every one marked, and leaves exactly what follows. */
  lemma RoundTrip(l: Layout, x: Record, t: Tree, into: Record, rest: Tokens)
    requires Writes(l, x, t) && Shaped(l, into)
    ensures ReadStruct(l, into, Encode(t) + rest) == Some((AllSet(l, x), rest))
  {
    hide Writes, ReadStruct, Encode, AllSet, StructConforms;
    WrittenConforms(l, x, t);
    ReadIsMeaning(l, into, t, rest);
    MeaningOfWritten(l, into, x, t);
  }
}
