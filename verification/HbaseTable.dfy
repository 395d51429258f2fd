/** An HBase table: rows in the byte order of their keys, each a map of columns; and the decimal
    strings that serve as ids in it. */
module HbaseTable {
  import opened Options

  type Columns = map<string, string>

  datatype Row = Row(key: string, columns: Columns)

  /** Key order: the order a scanner returns rows in. */
  predicate Less(a: string, b: string) {
    b != "" && (a == "" || a[0] < b[0] || (a[0] == b[0] && Less(a[1..], b[1..])))
  }

  ghost predicate Sorted(t: seq<Row>) {
    forall i, j | 0 <= i < j < |t| :: Less(t[i].key, t[j].key)
  }

  /** The columns stored under `key`, none if it is no row. */
  function ColumnsAt(t: seq<Row>, key: string): Columns {
    if t == [] then map[] else if t[0].key == key then t[0].columns else ColumnsAt(t[1..], key)
  }

  function Put(t: seq<Row>, row: Row): seq<Row> {
    if t == [] || Less(row.key, t[0].key) then [row] + t
    else if t[0].key == row.key then [row] + t[1..]
    else [t[0]] + Put(t[1..], row)
  }

  /** What one mutation of one column makes of the table. */
  function Mutated(t: seq<Row>, key: string, column: string, value: string): seq<Row> {
    Put(t, Row(key, ColumnsAt(t, key)[column := value]))
  }

  // ------------------------------------------------------------------ order

  lemma {:induction false} LessIsStrict(a: string, b: string)
    ensures Less(a, b) || Less(b, a) <==> a != b
    ensures !(Less(a, b) && Less(b, a))
  {
    if a != "" && b != "" {
      LessIsStrict(a[1..], b[1..]);
      assert a == [a[0]] + a[1..] && b == [b[0]] + b[1..];
    }
  }

  lemma {:induction false} LessTransitive(a: string, b: string, c: string)
    requires Less(a, b) && Less(b, c)
    ensures Less(a, c)
  {
    if a != "" && a[0] == b[0] == c[0] {
      LessTransitive(a[1..], b[1..], c[1..]);
    }
  }

  lemma {:induction false} LessAfterPrefix(p: string, a: string, b: string)
    ensures Less(p + a, p + b) <==> Less(a, b)
  {
    if p == "" {
      assert p + a == a && p + b == b;
    } else {
      assert (p + a)[1..] == p[1..] + a && (p + b)[1..] == p[1..] + b;
      LessAfterPrefix(p[1..], a, b);
    }
  }

  // ------------------------------------------------------------------ rows after a put

  lemma {:induction false} PutKeeps(t: seq<Row>, row: Row)
    requires Sorted(t)
    ensures forall r :: r in Put(t, row) <==> r == row || (r in t && r.key != row.key)
    ensures Sorted(Put(t, row))
  {
    if t == [] {
    } else if Less(row.key, t[0].key) {
      forall j | 0 <= j < |t| ensures Less(row.key, t[j].key) && t[j].key != row.key {
        if 0 < j {
          LessTransitive(row.key, t[0].key, t[j].key);
        }
        LessIsStrict(row.key, t[j].key);
      }
    } else if t[0].key == row.key {
      forall j | 0 < j < |t| ensures t[j].key != row.key {
        LessIsStrict(row.key, t[j].key);
      }
      assert t == [t[0]] + t[1..];
    } else {
      PutKeeps(t[1..], row);
      LessIsStrict(row.key, t[0].key);
      assert t == [t[0]] + t[1..];
      forall r | r in Put(t[1..], row) ensures Less(t[0].key, r.key) {
        if r != row {
          assert r in t[1..];
        }
      }
    }
  }

  lemma {:induction false} PutLength(t: seq<Row>, row: Row)
    requires forall r | r in t :: r.key != row.key
    ensures |Put(t, row)| == |t| + 1
  {
    if t != [] {
      assert t[0] in t;
      PutLength(t[1..], row);
    }
  }

  lemma {:induction false} ColumnsAtRow(t: seq<Row>, row: Row)
    requires Sorted(t) && row in t
    ensures ColumnsAt(t, row.key) == row.columns
  {
    if t[0] == row {
    } else {
      var j :| 0 < j < |t| && t[j] == row;
      LessIsStrict(t[0].key, row.key);
      ColumnsAtRow(t[1..], row);
    }
  }

  lemma {:induction false} ColumnsAtNone(t: seq<Row>, key: string)
    requires forall r | r in t :: r.key != key
    ensures ColumnsAt(t, key) == map[]
  {
    if t != [] {
      assert t[0] in t;
      ColumnsAtNone(t[1..], key);
    }
  }

  lemma {:induction false} PutPut(t: seq<Row>, key: string, a: Columns, b: Columns)
    ensures ColumnsAt(Put(t, Row(key, a)), key) == a
    ensures Put(Put(t, Row(key, a)), Row(key, b)) == Put(t, Row(key, b))
  {
    LessIsStrict(key, key);
    if t == [] || Less(key, t[0].key) {
      assert ([Row(key, a)] + t)[1..] == t;
    } else if t[0].key == key {
      assert ([Row(key, a)] + t[1..])[1..] == t[1..];
    } else {
      PutPut(t[1..], key, a, b);
      assert ([t[0]] + Put(t[1..], Row(key, a)))[1..] == Put(t[1..], Row(key, a));
    }
  }

  lemma {:induction false} PutElsewhere(t: seq<Row>, row: Row, key: string)
    requires row.key != key
    ensures ColumnsAt(Put(t, row), key) == ColumnsAt(t, key)
  {
    if t == [] || Less(row.key, t[0].key) {
      assert ([row] + t)[1..] == t;
    } else if t[0].key == row.key {
      assert ([row] + t[1..])[1..] == t[1..];
    } else {
      PutElsewhere(t[1..], row, key);
      assert ([t[0]] + Put(t[1..], row))[1..] == Put(t[1..], row);
    }
  }

  // ------------------------------------------------------------------ decimal strings

  const INT_MAX := 0x7fff_ffff

  predicate IsDigit(c: char) {
    '0' <= c <= '9'
  }

  function Digit(d: nat): (c: char)
    requires d < 10
    ensures IsDigit(c) && (c - '0') as nat == d
  {
    '0' + d as char
  }

  ghost predicate Digits(s: string) {
    forall i | 0 <= i < |s| :: IsDigit(s[i])
  }

  /** `lexical_cast<std::string>` of a number that is not negative. */
  function Dec(n: nat): (s: string)
    ensures s != "" && Digits(s)
  {
    if n < 10 then [Digit(n)] else Dec(n / 10) + [Digit(n % 10)]
  }

  function IntString(n: int): string {
    if n < 0 then "-" + Dec(-n) else Dec(n)
  }

  /** The value of a string of digits, if it is one. */
  function Value(s: string): Option<nat> {
    if s == "" then None
    else
      var c := s[|s| - 1];
      if !IsDigit(c) then None
      else if |s| == 1 then Some((c - '0') as nat)
      else
        var front := Value(s[..|s| - 1]);
        if front.None? then None else Some(10 * front.value + (c - '0') as nat)
  }

  /** `lexical_cast<int>`: None where it throws. */
  function ParseInt(s: string): Option<int> {
    var negative := s != "" && s[0] == '-';
    var digits := if negative || (s != "" && s[0] == '+') then s[1..] else s;
    var v := Value(digits);
    if v.None? || v.value > (if negative then INT_MAX + 1 else INT_MAX) then None
    else
      var n: int := v.value;
      Some(if negative then -n else n)
  }

  lemma {:induction false} ValueOfDec(n: nat)
    ensures Value(Dec(n)) == Some(n)
  {
    if n >= 10 {
      ValueOfDec(n / 10);
      assert Dec(n)[..|Dec(n)| - 1] == Dec(n / 10);
    }
  }

  /** Ids survive the trip through their strings as long as they fit an int. */
  lemma IntRoundTrip(n: nat)
    ensures ParseInt(Dec(n)) == if n <= INT_MAX then Some(n) else None
    ensures IntString(n) == Dec(n)
  {
    ValueOfDec(n);
    assert IsDigit(Dec(n)[0]);
  }

  lemma DecInjective(m: nat, n: nat)
    requires Dec(m) == Dec(n)
    ensures m == n
  {
    ValueOfDec(m);
    ValueOfDec(n);
  }

  /** A row key `name-id` has one reading, whatever the names contain. */
  lemma KeySplit(a: string, m: nat, b: string, n: nat)
    requires a + "-" + Dec(m) == b + "-" + Dec(n)
    ensures a == b && m == n
  {
    var s := a + "-" + Dec(m);
    assert s[|a|] == '-' && s[|b|] == '-';
    assert forall j | |a| < j < |s| :: s[j] == Dec(m)[j - |a| - 1];
    assert forall j | |b| < j < |s| :: s[j] == Dec(n)[j - |b| - 1];
    assert |a| == |b|;
    assert s[..|a|] == a && s[..|a|] == b;
    assert s[|a| + 1..] == Dec(m) && s[|b| + 1..] == Dec(n);
    DecInjective(m, n);
  }
}
