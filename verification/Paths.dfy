/** Path strings of the advert server: splitting, joining and the canonical key of a path. */
module Paths {

  predicate ValidName(n: string) {
    n != "" && '/' !in n
  }

  ghost predicate ValidNames(a: seq<string>) {
    forall i | 0 <= i < |a| :: ValidName(a[i])
  }

  /** JavaScript's `s.split("/")`. */
  function Split(s: string): (r: seq<string>)
    ensures r != []
  {
    if s == "" then [""]
    else
      var r := Split(s[1..]);
      if s[0] == '/' then [""] + r else [[s[0]] + r[0]] + r[1..]
  }

  function DropEmpty(a: seq<string>): seq<string> {
    if a == [] then []
    else if a[0] == "" then DropEmpty(a[1..])
    else [a[0]] + DropEmpty(a[1..])
  }

  /** The non-empty components of a path string. */
  function GetPathArray(s: string): (a: seq<string>)
    ensures ValidNames(a)
  {
    SplitSlashFree(s);
    DropEmptyValid(Split(s));
    DropEmpty(Split(s))
  }

  /** JavaScript's `a.join("/")`. */
  function Join(a: seq<string>): string {
    if a == [] then ""
    else if |a| == 1 then a[0]
    else a[0] + "/" + Join(a[1..])
  }

  function PathString(a: seq<string>): string {
    "/" + Join(a)
  }

  /** JavaScript's `a.slice(0, -1)`. */
  function Front(a: seq<string>): seq<string> {
    if a == [] then [] else a[..|a| - 1]
  }

  function Last(a: seq<string>): string {
    if a == [] then "" else a[|a| - 1]
  }

  /** The key every server command looks a path up by. */
  function Key(s: string): string {
    PathString(GetPathArray(s))
  }

  predicate Canonical(s: string) {
    Key(s) == s
  }

  // ------------------------------------------------------------------ split and join

  lemma {:induction false} SplitSlashFree(s: string)
    ensures forall i | 0 <= i < |Split(s)| :: '/' !in Split(s)[i]
  {
    if s != "" {
      SplitSlashFree(s[1..]);
    }
  }

  lemma {:induction false} DropEmptyValid(a: seq<string>)
    requires forall i | 0 <= i < |a| :: '/' !in a[i]
    ensures ValidNames(DropEmpty(a))
  {
    if a != [] {
      DropEmptyValid(a[1..]);
    }
  }

  lemma {:induction false} SplitName(n: string, rest: string)
    requires '/' !in n
    ensures Split(n) == [n]
    ensures Split(n + "/" + rest) == [n] + Split(rest)
  {
    if n == "" {
      assert n + "/" + rest == "/" + rest && ("/" + rest)[1..] == rest;
    } else {
      SplitName(n[1..], rest);
      assert (n + "/" + rest)[1..] == n[1..] + "/" + rest;
      assert [n[0]] + n[1..] == n;
    }
  }

  lemma {:induction false} SplitJoin(a: seq<string>)
    requires ValidNames(a)
    ensures Split(Join(a)) == if a == [] then [""] else a
  {
    if |a| == 1 {
      SplitName(a[0], "");
    } else if a != [] {
      SplitName(a[0], Join(a[1..]));
      SplitJoin(a[1..]);
    }
  }

  lemma {:induction false} DropEmptyNames(a: seq<string>)
    requires ValidNames(a)
    ensures DropEmpty(a) == a
  {
    if a != [] {
      DropEmptyNames(a[1..]);
    }
  }

  lemma SplitSlash(s: string)
    ensures Split("/" + s) == [""] + Split(s)
  {
    assert ("/" + s)[1..] == s;
  }

  lemma DropEmptyHead(a: seq<string>)
    ensures DropEmpty([""] + a) == DropEmpty(a)
  {
    assert ([""] + a)[1..] == a;
  }

  /** Splitting the string of an array of names gives the array back. */
  lemma ArrayRoundTrip(a: seq<string>)
    requires ValidNames(a)
    ensures GetPathArray(PathString(a)) == a
  {
    hide Split, DropEmpty, Join;
    SplitSlash(Join(a));
    DropEmptyHead(Split(Join(a)));
    SplitJoin(a);
    if a == [] {
      EmptyDropped();
    } else {
      DropEmptyNames(a);
    }
  }

  lemma EmptyDropped()
    ensures DropEmpty([""]) == []
  {}

  lemma KeyIsCanonical(s: string)
    ensures Canonical(Key(s)) && GetPathArray(Key(s)) == GetPathArray(s)
  {
    ArrayRoundTrip(GetPathArray(s));
  }

  lemma {:induction false} JoinSnoc(a: seq<string>, n: string)
    ensures Join(a + [n]) == if a == [] then n else Join(a) + "/" + n
  {
    if |a| == 1 {
      assert (a + [n])[1..] == [n];
    } else if a != [] {
      assert (a + [n])[1..] == a[1..] + [n];
      JoinSnoc(a[1..], n);
    }
  }

  lemma {:induction false} SplitConcat(x: string, y: string)
    ensures Split(x + "/" + y) == Split(x) + Split(y)
  {
    if x == "" {
      assert x + "/" + y == "/" + y && ("/" + y)[1..] == y;
    } else {
      assert (x + "/" + y)[1..] == x[1..] + "/" + y;
      SplitConcat(x[1..], y);
    }
  }

  lemma {:induction false} DropEmptyConcat(a: seq<string>, b: seq<string>)
    ensures DropEmpty(a + b) == DropEmpty(a) + DropEmpty(b)
  {
    if a == [] {
      assert a + b == b;
    } else {
      assert (a + b)[1..] == a[1..] + b;
      DropEmptyConcat(a[1..], b);
    }
  }

  // ------------------------------------------------------------------ strings of array keys

  lemma PathStringInjective(a: seq<string>, b: seq<string>)
    requires ValidNames(a) && ValidNames(b) && PathString(a) == PathString(b)
    ensures a == b
  {
    ArrayRoundTrip(a);
    ArrayRoundTrip(b);
  }

  /** The string the recursive remove looks up for an entry `n` of the document at `a`:
      the child's path, except at the root, where it is no canonical path at all. */
  lemma StepString(a: seq<string>, n: string)
    requires ValidNames(a) && ValidName(n)
    ensures a != [] ==> PathString(a) + "/" + n == PathString(a + [n])
    ensures a == [] ==> !Canonical(PathString(a) + "/" + n)
  {
    JoinSnoc(a, n);
    if a == [] {
      var s := "//" + n;
      SplitName("", "/" + n);
      SplitName("", n);
      SplitName(n, "");
      assert s == "" + "/" + ("/" + n) && "/" + n == "" + "/" + n;
      assert Split(s) == ["", "", n];
      DropEmptyNames([n]);
      assert ["", "", n][1..] == ["", n] && ["", n][1..] == [n];
      assert DropEmpty(["", "", n]) == DropEmpty(["", n]) == DropEmpty([n]);
      assert Key(s)[1] == n[0] && s[1] == '/';
      assert PathString(a) + "/" + n == s;
    } else {
      assert PathString(a) + "/" + n == "/" + (Join(a) + "/" + n);
    }
  }

  /** The components of a path string, whatever its slashes: these three facts fix them. */
  lemma PathArrayMeans(s: string, t: string, n: string)
    ensures GetPathArray("") == [] && (ValidName(n) ==> GetPathArray(n) == [n])
    ensures GetPathArray(s + "/" + t) == GetPathArray(s) + GetPathArray(t)
  {
    EmptyDropped();
    SplitConcat(s, t);
    DropEmptyConcat(Split(s), Split(t));
    if ValidName(n) {
      SplitName(n, "");
      DropEmptyNames([n]);
    }
  }
}
