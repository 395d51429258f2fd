/** What the scans and mutations come to on any table, and the rows and strings themselves. */
module HbaseMeaning {
  import opened Options
  import opened Paths
  import opened HbaseTable
  import opened HbaseForest
  import opened HbaseNamespace
  import opened HbaseRefinement

  // ------------------------------------------------------------------ decimal strings

  function Pow10(n: nat): nat {
    if n == 0 then 1 else 10 * Pow10(n - 1)
  }

  /** What the digits are worth at their places. */
  function Worth(s: string): nat
    requires forall i | 0 <= i < |s| :: '0' <= s[i] <= '9'
  {
    if s == "" then 0 else (s[0] - '0') as nat * Pow10(|s| - 1) + Worth(s[1..])
  }

  lemma TenTimes(d: nat, p: nat)
    ensures d * (10 * p) == 10 * (d * p)
  {}

  lemma {:induction false} WorthSnoc(s: string, c: char)
    requires (forall i | 0 <= i < |s| :: '0' <= s[i] <= '9') && '0' <= c <= '9'
    ensures forall i | 0 <= i < |s + [c]| :: '0' <= (s + [c])[i] <= '9'
    ensures Worth(s + [c]) == 10 * Worth(s) + (c - '0') as nat
  {
    var t := s + [c];
    if s == "" {
      assert t[1..] == "";
    } else {
      var d, p := (s[0] - '0') as nat, Pow10(|s| - 1);
      assert t[1..] == s[1..] + [c] && t[0] == s[0];
      WorthSnoc(s[1..], c);
      assert Pow10(|t| - 1) == 10 * p;
      assert Worth(t) == d * (10 * p) + Worth(t[1..]);
      TenTimes(d, p);
    }
  }

  /** An id string is the decimal of its id, without a leading zero. */
  lemma {:induction false} DecIsDecimal(n: nat)
    ensures Dec(n) != "" && (forall i | 0 <= i < |Dec(n)| :: '0' <= Dec(n)[i] <= '9')
    ensures Worth(Dec(n)) == n && (n > 0 ==> Dec(n)[0] != '0') && (n == 0 ==> Dec(n) == "0")
  {
    if n >= 10 {
      DecIsDecimal(n / 10);
      WorthSnoc(Dec(n / 10), Digit(n % 10));
    } else {
      assert [Digit(n)][1..] == "";
    }
  }

  lemma {:induction false} ValueIsWorth(s: string)
    ensures Value(s).Some? <==> s != "" && forall i | 0 <= i < |s| :: '0' <= s[i] <= '9'
    ensures Value(s).Some? ==> Value(s).value == Worth(s)
  {
    if |s| == 1 {
      assert s[1..] == "";
    } else if s != "" {
      var t, c := s[..|s| - 1], s[|s| - 1];
      assert s == t + [c];
      ValueIsWorth(t);
      if Value(s).Some? {
        WorthSnoc(t, c);
      }
    }
  }

  /** A string converts to an int exactly if it is digits, with a sign or none before them, and fits. */
  lemma ParseIntMeans(s: string)
    ensures var signed := s != "" && (s[0] == '-' || s[0] == '+');
            var minus, digits := s != "" && s[0] == '-', if signed then s[1..] else s;
            if digits == "" || exists i :: 0 <= i < |digits| && !('0' <= digits[i] <= '9') then ParseInt(s) == None
            else ParseInt(s) ==
                 if minus then (if Worth(digits) <= 0x8000_0000 then Some(-(Worth(digits) as int)) else None)
                 else if Worth(digits) <= 0x7fff_ffff then Some(Worth(digits)) else None
  {
    hide Value, Worth;
    ValueIsWorth(s);
    if s != "" {
      ValueIsWorth(s[1..]);
    }
  }

  // ------------------------------------------------------------------ the scan

  predicate Named(row: Row, entry: string) {
    entry <= row.key && "entry:node_id" in row.columns
  }

  /** The scan stops at row `k`, or runs to the end. */
  ghost predicate Stops(rows: seq<Row>, entry: string, parent: string, k: nat) {
    && k <= |rows| && (k < |rows| ==> Matches(rows[k], entry, parent))
    && forall i | 0 <= i < k :: !Matches(rows[i], entry, parent)
  }

  lemma StopsRest(rows: seq<Row>, entry: string, parent: string, k: nat)
    requires Stops(rows, entry, parent, k) && 0 < k
    ensures Stops(rows[1..], entry, parent, k - 1)
  {
    assert forall i | 0 < i < |rows| :: rows[i] == rows[1..][i - 1];
  }

  lemma {:induction false} ScanStale(rows: seq<Row>, entry: string, parent: string, stale: string, k: nat)
    requires Stops(rows, entry, parent, k)
    requires forall i | 0 <= i <= k && i < |rows| :: !Named(rows[i], entry)
    ensures NodeIdFrom(rows, entry, parent, stale) == stale
    decreases |rows|
  {
    if k > 0 {
      StopsRest(rows, entry, parent, k);
      ScanStale(rows[1..], entry, parent, stale, k - 1);
    }
  }

  lemma {:induction false} ScanLast(rows: seq<Row>, entry: string, parent: string, stale: string, k: nat, j: nat)
    requires Stops(rows, entry, parent, k) && j <= k && j < |rows| && Named(rows[j], entry)
    requires forall i | j < i <= k && i < |rows| :: !Named(rows[i], entry)
    ensures NodeIdFrom(rows, entry, parent, stale) == rows[j].columns["entry:node_id"]
    decreases |rows|
  {
    var id := if Named(rows[0], entry) then rows[0].columns["entry:node_id"] else stale;
    if k > 0 {
      StopsRest(rows, entry, parent, k);
      assert forall i | 0 < i < |rows| :: rows[i] == rows[1..][i - 1];
      if j == 0 {
        ScanStale(rows[1..], entry, parent, id, k - 1);
      } else {
        ScanLast(rows[1..], entry, parent, id, k - 1, j - 1);
      }
    }
  }

  /** On any table: with `k` the row the scan stops at, or the end, `get_node_id` finds the id of the last
      row up to `k` whose key starts with the entry's name, whoever its parent is, and nothing if there
      is none. */
  lemma NodeIdMeans(rows: seq<Row>, entry: string, parent: string, k: nat)
    requires Stops(rows, entry, parent, k)
    ensures forall j | 0 <= j <= k && j < |rows| && Named(rows[j], entry)
                       && (forall i | j < i <= k && i < |rows| :: !Named(rows[i], entry)) ::
              NodeId(rows, entry, parent) == rows[j].columns["entry:node_id"]
    ensures (forall i | 0 <= i <= k && i < |rows| :: !Named(rows[i], entry)) ==> NodeId(rows, entry, parent) == ""
  {
    forall j | 0 <= j <= k && j < |rows| && Named(rows[j], entry)
               && (forall i | j < i <= k && i < |rows| :: !Named(rows[i], entry))
      ensures NodeId(rows, entry, parent) == rows[j].columns["entry:node_id"] {
      ScanLast(rows, entry, parent, "", k, j);
    }
    if forall i | 0 <= i <= k && i < |rows| :: !Named(rows[i], entry) {
      ScanStale(rows, entry, parent, "", k);
    }
  }

  // ------------------------------------------------------------------ mutations

  /** A mutation sets one column of one row, which it makes if need be, and keeps the order of the keys. */
  lemma MutatedMeans(t: seq<Row>, key: string, column: string, value: string)
    requires Sorted(t)
    ensures var after := Mutated(t, key, column, value);
            && Sorted(after) && Row(key, ColumnsAt(t, key)[column := value]) in after
            && forall r: Row | r.key != key :: r in after <==> r in t
  {
    PutKeeps(t, Row(key, ColumnsAt(t, key)[column := value]));
  }

  /** Setting an attribute sets its cell and that of the id; removing it takes the one cell away. */
  lemma AttributeRows(t: seq<Row>, rowKey: string, id: string, key: string, value: string)
    requires Sorted(t)
    ensures var before := ColumnsAt(t, rowKey);
            && ColumnsAt(WithAttribute(t, rowKey, id, key, value), rowKey) ==
               before["metakey:" + key := value]["entry:node_id" := id]
            && ColumnsAt(WithoutAttribute(t, rowKey, key), rowKey) == before - {"metakey:" + key}
            && forall k | k != rowKey ::
                 && ColumnsAt(WithAttribute(t, rowKey, id, key, value), k) == ColumnsAt(t, k)
                 && ColumnsAt(WithoutAttribute(t, rowKey, key), k) == ColumnsAt(t, k)
  {
    hide Put, ColumnsAt, Sorted;
    var c, before := "metakey:" + key, ColumnsAt(t, rowKey);
    var first := Mutated(t, rowKey, c, value);
    PutPut(t, rowKey, before[c := value], before - {c});
    PutPut(t, rowKey, before - {c}, before);
    PutPut(first, rowKey, before[c := value]["entry:node_id" := id], before);
    assert c !in before ==> before - {c} == before;
    forall k | k != rowKey
      ensures ColumnsAt(WithAttribute(t, rowKey, id, key, value), k) == ColumnsAt(t, k)
      ensures ColumnsAt(WithoutAttribute(t, rowKey, key), k) == ColumnsAt(t, k)
    {
      PutElsewhere(t, Row(rowKey, before[c := value]), k);
      PutElsewhere(first, Row(rowKey, before[c := value]["entry:node_id" := id]), k);
      PutElsewhere(t, Row(rowKey, before - {c}), k);
    }
  }

  /** The row of a node. */
  lemma NodeRows(f: Forest, i: nat)
    requires i < |f|
    ensures Row(f[i].name + "-" + Dec(i + 1),
                map["entry:node_id" := Dec(i + 1), "entry:node_name" := f[i].name, "entry:parent_id" := Dec(f[i].parent),
                    "entry:is_dir" := if f[i].dir then "true" else "false"]) in TableOf(f)
  {
    hide TableOf;
    TableRows(f);
    assert RowAt(f, i) in TableOf(f);
  }

  // ------------------------------------------------------------------ exceptions and roots

  /** An id that is no int breaks off every walk over it. */
  lemma BadIdThrows(rows: seq<Row>, url: Url, key: string, value: string, dir: bool)
    requires Names(url) != [] && ParseInt(NodeId(rows, Names(url)[0], "0")).None?
    ensures EntryExists(rows, Names(url)[0], "0") ==>
              && UrlExists(rows, url) == None
              && CreateUrl(rows, url, dir) == (rows, false)
              && Constructed(rows, url, false, false, false) == (rows, Thrown)
              && Constructed(rows, url, true, false, false) == (rows, Thrown)
    ensures Target(rows, url) == None && AttributeAt(rows, rows, url, key) == None
  {
    hide NodeId, EntryExists, ParseInt, Names;
    assert IntString(0) == "0";
  }

  /** A directory at the root is opened without a look at the table. */
  lemma RootDirectory(rows: seq<Row>, head: string, create: bool, exclusive: bool)
    ensures Constructed(rows, Url(head, ""), create, exclusive, true) == (rows, Done)
    ensures Constructed(rows, Url(head, "/"), create, exclusive, true) == (rows, Done)
  {}

  /** Ids below zero go through their strings as well. */
  lemma NegativeRoundTrip(n: int)
    requires -0x8000_0000 <= n < 0
    ensures IntString(n) == "-" + Dec(-n) && ParseInt(IntString(n)) == Some(n)
  {
    ValueOfDec(-n);
    assert ("-" + Dec(-n))[1..] == Dec(-n);
  }

  /** Without a path there is no name to create: what is written is a row with an empty id under the
      last token of the URL, its host. */
  lemma NamelessRow(host: string, dir: bool)
    requires ValidName(host)
    ensures var url := Url("hbase://" + host, "");
            && GetLast(url) == host && Names(url) == []
            && CreateUrl([], url, dir) == ([Row(host + "-", map["entry:is_dir" := if dir then "true" else "false"])], true)
  {
    hide GetPathArray;
    var url := Url("hbase://" + host, "");
    PathArrayMeans("hbase:/", host, host);
    assert "hbase:/" + "/" + host == url.head + url.path;
    assert host + "-" + "" == host + "-";
    assert [Row(host + "-", map[]["entry:is_dir" := Flag(dir)])] + [] ==
           [Row(host + "-", map["entry:is_dir" := if dir then "true" else "false"])];
  }
}
