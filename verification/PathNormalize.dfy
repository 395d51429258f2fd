/** The adaptors' path normalization, and how a directory joins a relative entry to its own path. */
module PathNormalize {
  import opened Paths

  // ------------------------------------------------------------------ filesystem paths as strings

  predicate Absolute(s: string) {
    s != "" && s[0] == '/'
  }

  /** "//" or "//host": the path library takes two slashes for the start of a root name. */
  predicate HasRootName(s: string) {
    |s| >= 2 && s[0] == '/' && s[1] == '/' && (|s| == 2 || s[2] != '/')
  }

  function UpToSlash(s: string): string {
    if s == "" || s[0] == '/' then "" else [s[0]] + UpToSlash(s[1..])
  }

  function RootName(s: string): (r: string)
    ensures |r| <= |s|
  {
    if HasRootName(s) then RootNameFits(s); "//" + UpToSlash(s[2..]) else ""
  }

  lemma RootNameFits(s: string)
    requires HasRootName(s)
    ensures |UpToSlash(s[2..])| <= |s| - 2
  {
    UpToSlashFits(s[2..]);
  }

  lemma {:induction false} UpToSlashFits(s: string)
    ensures |UpToSlash(s)| <= |s| && UpToSlash(s) + s[|UpToSlash(s)|..] == s && '/' !in UpToSlash(s)
    ensures |UpToSlash(s)| < |s| ==> s[|UpToSlash(s)|] == '/'
  {
    if s != "" && s[0] != '/' {
      UpToSlashFits(s[1..]);
    }
  }

  /** Behind the root name: the root, the names, and "." for a trailing slash. */
  function PlainElements(s: string): seq<string> {
    var names := GetPathArray(s);
    (if Absolute(s) then ["/"] else []) + names + (if names != [] && s != "" && s[|s| - 1] == '/' then ["."] else [])
  }

  /** What iterating over a path yields. */
  function Elements(s: string): seq<string> {
    var r := RootName(s);
    (if r != "" then [r] else []) + PlainElements(s[|r|..])
  }

  /** `p /= e`: a separator goes in between unless it would be redundant. */
  function Append(p: string, e: string): string {
    if p == "" || p[|p| - 1] == '/' || (e != "" && e[0] == '/') then p + e else p + "/" + e
  }

  /** Everything before the last name: the parent of "/a" is "/", that of "/" and of "a" is empty. */
  function PlainParent(p: string): string {
    if p == "" then ""
    else if p[|p| - 1] == '/' then p[..|p| - 1]
    else if |p| > 1 && p[|p| - 2] == '/' then (if |p| == 2 then "/" else p[..|p| - 2])
    else PlainParent(p[..|p| - 1])
  }

  /** The parent of "//host/a" is "//host/", that of "//host/" is "//host", and that of "//host" is empty. */
  function ParentPath(p: string): string {
    var r := RootName(p);
    if r == p then "" else r + PlainParent(p[|r|..])
  }

  // ------------------------------------------------------------------ the loop, on names

  /** What `normalized_path` holds: its root name, whether it has a root, and its names. */
  datatype Walk = Walk(root: string, rooted: bool, names: seq<string>)

  const START := Walk("", false, [])

  function Plain(rooted: bool, names: seq<string>): string {
    if rooted then PathString(names) else Join(names)
  }

  function Render(w: Walk): string {
    w.root + Plain(w.rooted, w.names)
  }

  function Step(w: Walk, e: string): Walk {
    if e == "." then w
    else if e == ".." then
      if w.names != [] then w.(names := Front(w.names))
      else if w.root != "" && w.rooted then w.(rooted := false)
      else START
    else if e == "/" then w.(rooted := true)
    else if HasRootName(e) then w.(root := e)
    else w.(rooted := w.rooted || w.root != "", names := w.names + [e])
  }

  function Steps(w: Walk, es: seq<string>): Walk
    decreases |es|
  {
    if es == [] then w else Steps(Step(w, es[0]), es[1..])
  }

  function Finish(w: Walk): string {
    if Render(w) == "" then "/" else Render(w)
  }

  function Normalized(s: string): string {
    Finish(Steps(START, Elements(s)))
  }

  // ------------------------------------------------------------------ the strings follow the names

  lemma {:induction false} JoinEnd(a: seq<string>)
    requires ValidNames(a) && a != []
    ensures Join(a) != "" && Join(a)[|Join(a)| - 1] != '/' && Join(a)[0] != '/'
  {
    if |a| > 1 {
      JoinEnd(a[1..]);
    }
  }

  lemma {:induction false} ParentOfName(p: string, n: string)
    requires ValidName(n)
    ensures PlainParent(p + "/" + n) == if p == "" then "/" else p
    ensures PlainParent(n) == ""
    decreases |n|
  {
    var m := n[..|n| - 1];
    if |n| == 1 {
      assert (p + "/" + n)[..|p + "/" + n| - 2] == p;
    } else {
      ParentOfName(p, m);
      assert (p + "/" + n)[..|p + "/" + n| - 1] == p + "/" + m;
      assert (p + "/" + n)[|p + "/" + n| - 2] == n[|n| - 2];
    }
  }

  ghost predicate IsRoot(e: string) {
    HasRootName(e) && '/' !in e[2..]
  }

  /** A root name that more may follow is not just the two slashes, and names follow it behind a root. */
  ghost predicate Fine(w: Walk) {
    && ValidNames(w.names)
    && (w.root != "" ==>
          && IsRoot(w.root)
          && (w.names != [] ==> w.rooted) && (w.root == "//" ==> !w.rooted))
  }

  lemma {:induction false} UpToSlashOf(h: string, rest: string)
    requires '/' !in h && (rest == "" || rest[0] == '/')
    ensures UpToSlash(h + rest) == h
  {
    if h == "" {
      assert h + rest == rest;
    } else {
      assert (h + rest)[1..] == h[1..] + rest;
      UpToSlashOf(h[1..], rest);
    }
  }

  lemma RootOfNamed(r: string, rest: string)
    requires HasRootName(r) && '/' !in r[2..] && (rest == "" || (rest[0] == '/' && r != "//"))
    ensures RootName(r + rest) == r && (r + rest)[|r|..] == rest
  {
    assert (r + rest)[2..] == r[2..] + rest;
    UpToSlashOf(r[2..], rest);
    assert r == "//" + r[2..];
    assert |r| > 2 ==> (r + rest)[2] == r[2];
  }

  lemma PlainIsUnnamed(rooted: bool, names: seq<string>)
    requires ValidNames(names)
    ensures !HasRootName(Plain(rooted, names))
  {
    if names != [] {
      JoinEnd(names);
    }
  }

  lemma RootOfRender(w: Walk)
    requires Fine(w)
    ensures RootName(Render(w)) == w.root && Render(w)[|w.root|..] == Plain(w.rooted, w.names)
  {
    if w.root == "" {
      PlainIsUnnamed(w.rooted, w.names);
      assert Render(w) == Plain(w.rooted, w.names);
    } else {
      RootOfNamed(w.root, Plain(w.rooted, w.names));
    }
  }

  lemma AppendPlain(rooted: bool, names: seq<string>, n: string)
    requires ValidNames(names) && ValidName(n)
    ensures Append(Plain(rooted, names), n) == Plain(rooted, names + [n])
  {
    JoinSnoc(names, n);
    if names != [] {
      JoinEnd(names);
      if rooted {
        assert "/" + (Join(names) + "/" + n) == ("/" + Join(names)) + "/" + n;
      }
    }
  }

  lemma AppendAfter(r: string, p: string, n: string)
    requires p != "" && n != "" && n[0] != '/'
    ensures Append(r + p, n) == r + Append(p, n)
  {
    assert (r + p)[|r + p| - 1] == p[|p| - 1];
    assert r + p + n == r + (p + n) && r + p + "/" + n == r + (p + "/" + n);
  }

  lemma AppendToRoot(r: string, n: string)
    requires IsRoot(r) && r != "//" && ValidName(n)
    ensures Append(r, n) == r + PathString([n])
  {
    assert r[|r| - 1] == r[2..][|r| - 3];
  }

  lemma AppendName(w: Walk, n: string)
    requires Fine(w) && ValidName(n) && n != "." && n != ".." && w.root != "//"
    ensures Append(Render(w), n) == Render(Step(w, n)) && Fine(Step(w, n))
  {
    hide Append, Plain;
    var p := Plain(w.rooted, w.names);
    AppendPlain(w.rooted, w.names, n);
    PlainEmpty(w.rooted, w.names);
    if w.root == "" {
      assert "" + p == p;
    } else if p == "" {
      AppendToRoot(w.root, n);
      assert w.names + [n] == [n] && w.root + "" == w.root;
      RootedIs([n]);
    } else {
      AppendAfter(w.root, p, n);
    }
  }

  lemma RootedIs(names: seq<string>)
    ensures Plain(true, names) == PathString(names)
  {}

  lemma PlainEmpty(rooted: bool, names: seq<string>)
    requires ValidNames(names)
    ensures Plain(rooted, names) == "" <==> !rooted && names == []
  {
    if names != [] {
      JoinEnd(names);
    }
  }

  lemma PlainParentDrops(rooted: bool, names: seq<string>)
    requires ValidNames(names)
    ensures PlainParent(Plain(rooted, names)) == if names != [] then Plain(rooted, Front(names)) else ""
  {
    if names != [] {
      var f, n := Front(names), names[|names| - 1];
      assert names == f + [n];
      JoinSnoc(f, n);
      if f != [] {
        ParentOfJoin(f, n);
      } else {
        ParentOfName("", n);
        assert "" + "/" + n == "/" + n;
      }
    }
  }

  lemma ParentDrops(w: Walk)
    requires Fine(w)
    ensures ParentPath(Render(w)) == Render(Step(w, "..")) && Fine(Step(w, ".."))
  {
    hide PlainParent, Plain;
    RootOfRender(w);
    PlainParentDrops(w.rooted, w.names);
    PlainEmpty(w.rooted, w.names);
    PlainEmpty(false, []);
    if Render(w) == w.root {
      assert Plain(w.rooted, w.names) == "";
    }
  }

  lemma ParentOfJoin(f: seq<string>, n: string)
    requires ValidNames(f) && f != [] && ValidName(n)
    ensures PlainParent(Join(f) + "/" + n) == Join(f) && PlainParent("/" + (Join(f) + "/" + n)) == "/" + Join(f)
  {
    hide PlainParent;
    JoinEnd(f);
    ParentOfName(Join(f), n);
    ParentOfName("/" + Join(f), n);
    assert "/" + (Join(f) + "/" + n) == ("/" + Join(f)) + "/" + n;
  }

  /** A root name comes first, and nothing follows it if it is just the two slashes; a root comes
      next; all else are names. */
  ghost predicate ElementsOk(es: seq<string>) {
    && (forall i | 0 <= i < |es| :: ValidName(es[i]) || (i == 0 && IsRoot(es[i])) || (es[i] == "/" && i <= 1))
    && (|es| > 1 && es[1] == "/" ==> IsRoot(es[0]))
    && (|es| > 0 && es[0] == "//" ==> |es| == 1)
  }

  lemma ElementsAreOk(s: string)
    ensures ElementsOk(Elements(s))
  {
    var r := RootName(s);
    if r != "" {
      UpToSlashFits(s[2..]);
      assert r[2..] == UpToSlash(s[2..]);
      assert s[|r|..] == s[2..][|UpToSlash(s[2..])|..];
      assert r == "//" ==> s[|r|..] == "";
      assert PlainElements("") == [] by {
        assert GetPathArray("") == [];
      }
    }
  }

  lemma {:induction false} StepsSnoc(w: Walk, es: seq<string>, e: string)
    ensures Steps(w, es + [e]) == Step(Steps(w, es), e)
    decreases |es|
  {
    if es == [] {
      assert ([] + [e])[1..] == [];
    } else {
      assert (es + [e])[1..] == es[1..] + [e];
      StepsSnoc(Step(w, es[0]), es[1..], e);
    }
  }

  /** Entering the root name, or the root behind it. */
  lemma EnterRoot(w: Walk, e: string)
    requires || (w == START && (e == "/" || IsRoot(e)))
             || (IsRoot(w.root) && w.root != "//" && w == Walk(w.root, false, []) && e == "/")
    ensures Append(Render(w), e) == Render(Step(w, e)) && Fine(Step(w, e))
  {
    assert w.root + "" == w.root && w.root + ("/" + "") == w.root + "/";
  }

  method NormalizeBoostPath(path: string) returns (normalized: string)
    ensures normalized == Normalized(path)
  {
    hide ParentPath, Append, Render, Step, HasRootName, Elements;
    var elements := Elements(path);
    ElementsAreOk(path);
    normalized := "";
    ghost var w := START;
    StartIsEmpty();
    var i := 0;
    while i < |elements|
      invariant i <= |elements|
      invariant w == Steps(START, elements[..i]) && Fine(w) && normalized == Render(w)
      invariant w.root == "" || (i > 0 && w.root == elements[0])
      invariant i == 0 ==> w == START
      invariant i == 1 && IsRoot(elements[0]) ==> w == Walk(elements[0], false, [])
    {
      assert elements[..i + 1] == elements[..i] + [elements[i]];
      StepsSnoc(START, elements[..i], elements[i]);
      StepRoot(w, elements[i]);
      if elements[i] == "." {
      } else if elements[i] == ".." {
        ParentDrops(w);
        normalized := ParentPath(normalized);
      } else {
        if ValidName(elements[i]) {
          AppendName(w, elements[i]);
        } else {
          EnterRoot(w, elements[i]);
        }
        normalized := Append(normalized, elements[i]);
      }
      w := Step(w, elements[i]);
      i := i + 1;
    }
    assert elements[..i] == elements;
    if normalized == "" {
      normalized := Append(normalized, "/");
      SlashAppended();
    }
  }

  lemma StartIsEmpty()
    ensures Render(START) == "" && Fine(START)
  {}

  lemma SlashAppended()
    ensures Append("", "/") == "/"
  {}

  lemma StepRoot(w: Walk, e: string)
    ensures Step(w, e).root == "" || Step(w, e).root == w.root || Step(w, e).root == e
    ensures e == "." ==> Step(w, e) == w
    ensures ValidName(e) || e == "/" ==> Step(w, e).root == "" || Step(w, e).root == w.root
    ensures w == START && IsRoot(e) ==> Step(w, e) == Walk(e, false, [])
  {}

  // ------------------------------------------------------------------ what the names come to

  /** Walking `cs` from a directory, with `q` entered below it: how often it climbs above the
      directory, and the names it ends with. */
  function Over(q: seq<string>, cs: seq<string>): (nat, seq<string>)
    decreases |cs|
  {
    if cs == [] then (0, q)
    else if cs[0] == "." then Over(q, cs[1..])
    else if cs[0] == ".." then
      if q != [] then Over(Front(q), cs[1..]) else var (k, r) := Over([], cs[1..]); (k + 1, r)
    else Over(q + [cs[0]], cs[1..])
  }

  /** `base` without its last `k` names, or without all of them. */
  function Up(base: seq<string>, k: nat): seq<string> {
    if k <= |base| then base[..|base| - k] else []
  }

  ghost predicate NoDots(a: seq<string>) {
    forall i | 0 <= i < |a| :: a[i] != "." && a[i] != ".."
  }

  lemma {:induction false} StepsOver(rooted: bool, base: seq<string>, q: seq<string>, cs: seq<string>)
    requires ValidNames(cs)
    ensures var (k, r) := Over(q, cs);
            Steps(Walk("", rooted, base + q), cs) == Walk("", rooted && k <= |base|, Up(base, k) + r)
    decreases |cs|
  {
    if cs == [] {
      assert Up(base, 0) == base;
    } else if cs[0] == "." {
      StepsOver(rooted, base, q, cs[1..]);
    } else if cs[0] == ".." {
      if q != [] {
        assert Front(base + q) == base + Front(q);
        StepsOver(rooted, base, Front(q), cs[1..]);
      } else if base != [] {
        assert base + q == base && Front(base) + [] == Front(base);
        StepsOver(rooted, Front(base), [], cs[1..]);
        var k := Over([], cs[1..]).0;
        assert Up(Front(base), k) == Up(base, k + 1);
      } else {
        StepsOver(false, base, q, cs[1..]);
        var k := Over(q, cs[1..]).0;
        assert base + q == q && Up(base, k) == Up(base, k + 1);
      }
    } else {
      assert cs[0] != "/" by { assert ValidName(cs[0]); }
      assert base + q + [cs[0]] == base + (q + [cs[0]]);
      StepsOver(rooted, base, q + [cs[0]], cs[1..]);
    }
  }

  lemma {:induction false} OverClean(q: seq<string>, cs: seq<string>)
    requires ValidNames(cs) && ValidNames(q) && NoDots(q)
    ensures ValidNames(Over(q, cs).1) && NoDots(Over(q, cs).1)
    decreases |cs|
  {
    if cs != [] {
      OverClean(if cs[0] == "." then q else if cs[0] == ".." then Front(q) else q + [cs[0]], cs[1..]);
    }
  }

  lemma {:induction false} OverPlain(q: seq<string>, cs: seq<string>)
    requires NoDots(cs)
    ensures Over(q, cs) == (0, q + cs)
    decreases |cs|
  {
    if cs != [] {
      OverPlain(q + [cs[0]], cs[1..]);
      assert q + [cs[0]] + cs[1..] == q + cs;
    } else {
      assert q + [] == q;
    }
  }

  /** The loop in closed form, for a path without a root name. */
  lemma NormalizedIs(s: string)
    ensures var (k, names) := Over([], GetPathArray(s));
            !HasRootName(s) ==> Normalized(s) == Finish(Walk("", Absolute(s) && k == 0, names))
  {
    if !HasRootName(s) {
      PlainSteps(s);
      assert RootName(s) == "" && s[0..] == s && Elements(s) == PlainElements(s);
    }
  }

  lemma PlainSteps(s: string)
    ensures var (k, names) := Over([], GetPathArray(s));
            Steps(START, PlainElements(s)) == Walk("", Absolute(s) && k == 0, names)
  {
    var cs := GetPathArray(s);
    var start := Walk("", Absolute(s), []);
    var tail := PlainElements(s)[if Absolute(s) then 1 else 0..];
    assert tail == cs || tail == cs + ["."];
    if Absolute(s) {
      assert PlainElements(s)[0] == "/" && PlainElements(s)[1..] == tail;
    } else {
      assert PlainElements(s) == tail;
    }
    assert Steps(START, PlainElements(s)) == Steps(start, tail);
    StepsSnoc(start, cs, ".");
    assert start.names + [] == start.names;
    StepsOver(Absolute(s), [], [], cs);
    var (k, names) := Over([], cs);
    assert Up([], k) + names == names;
  }

  lemma FinishNames(w: Walk)
    requires Fine(w) && w.root == ""
    ensures GetPathArray(Finish(w)) == w.names
    ensures Absolute(Finish(w)) <==> w.rooted || w.names == []
    ensures Canonical(Finish(w)) <==> w.rooted || w.names == []
    ensures !HasRootName(Finish(w))
  {
    ArrayRoundTrip(w.names);
    PlainIsUnnamed(w.rooted, w.names);
    assert Render(w) == Plain(w.rooted, w.names);
    if w.rooted || w.names == [] {
      assert Finish(w) == PathString(w.names);
    } else {
      JoinEnd(w.names);
      SplitJoin(w.names);
      DropEmptyNames(w.names);
      assert Finish(w) == Join(w.names);
      assert Key(Finish(w))[0] != Finish(w)[0];
    }
  }

  // ------------------------------------------------------------------ normalizing again

  /** The walk stays fine, and the names it has gathered are no dots. */
  lemma {:induction false} StepsFine(w: Walk, es: seq<string>)
    requires Fine(w) && NoDots(w.names) && w.root != "//" && forall i | 0 <= i < |es| :: ValidName(es[i])
    ensures Fine(Steps(w, es)) && NoDots(Steps(w, es).names)
    decreases |es|
  {
    if es != [] {
      StepsFine(Step(w, es[0]), es[1..]);
    }
  }

  lemma FinalFine(s: string)
    ensures var w := Steps(START, Elements(s)); Fine(w) && NoDots(w.names)
  {
    hide Elements;
    var es := Elements(s);
    ElementsAreOk(s);
    if es == [] {
    } else if ValidName(es[0]) {
      StepsFine(START, es);
    } else if |es| > 1 && es[1] == "/" {
      assert es[1..][1..] == es[2..];
      var w := Walk(es[0], true, []);
      assert Steps(START, es) == Steps(w, es[2..]);
      StepsFine(w, es[2..]);
    } else {
      var w := Step(START, es[0]);
      if es[0] == "//" {
        assert es[1..] == [];
      } else {
        StepsFine(w, es[1..]);
      }
    }
  }

  /** What iterating over a rendered walk yields: its root name, its root, its names. */
  lemma RenderElements(w: Walk)
    requires Fine(w)
    ensures Elements(Render(w)) == (if w.root != "" then [w.root] else []) + (if w.rooted then ["/"] else []) + w.names
  {
    hide Render, RootName, PlainElements, Plain;
    RootOfRender(w);
    PlainElementsOf(w.rooted, w.names);
    var root: seq<string> := if w.root != "" then [w.root] else [];
    var slash: seq<string> := if w.rooted then ["/"] else [];
    assert root + (slash + w.names) == root + slash + w.names;
  }

  lemma PlainElementsOf(rooted: bool, names: seq<string>)
    requires ValidNames(names)
    ensures PlainElements(Plain(rooted, names)) == (if rooted then ["/"] else []) + names
  {
    hide GetPathArray;
    PlainEnds(rooted, names);
    PlainArray(rooted, names);
    assert forall a: seq<string> :: a + [] == a;
  }

  lemma PlainEnds(rooted: bool, names: seq<string>)
    requires ValidNames(names)
    ensures var p := Plain(rooted, names);
            (Absolute(p) <==> rooted) && (names != [] ==> p != "" && p[|p| - 1] != '/')
  {
    if names != [] {
      JoinEnd(names);
    }
  }

  lemma PlainArray(rooted: bool, names: seq<string>)
    requires ValidNames(names)
    ensures GetPathArray(Plain(rooted, names)) == names
  {
    hide Split, DropEmpty, Join;
    if rooted {
      ArrayRoundTrip(names);
    } else {
      SplitJoin(names);
      DropEmptyNames(names);
      EmptyDropped();
    }
  }

  lemma {:induction false} StepsPlain(w: Walk, base: seq<string>, cs: seq<string>)
    requires NoDots(base) && ValidNames(base) && (w.root == "" || w.rooted)
    ensures Steps(w, base + cs) == Steps(w.(names := w.names + base), cs)
    decreases |base|
  {
    if base == [] {
      assert base + cs == cs && w.names + base == w.names;
    } else {
      assert ValidName(base[0]);
      assert (base + cs)[0] == base[0] && (base + cs)[1..] == base[1..] + cs;
      StepsPlain(Step(w, base[0]), base[1..], cs);
      assert w.names + [base[0]] + base[1..] == w.names + base;
    }
  }

  lemma StepsNames(w: Walk, cs: seq<string>)
    requires NoDots(cs) && ValidNames(cs) && (w.root == "" || w.rooted)
    ensures Steps(w, cs) == w.(names := w.names + cs)
  {
    assert cs + [] == cs;
    StepsPlain(w, cs, []);
  }

  /** Walking over what a walk has come to comes to the same. */
  lemma StepsAgain(w: Walk)
    requires Fine(w) && NoDots(w.names)
    ensures Steps(START, Elements(Render(w))) == w
  {
    hide Elements, Render;
    RenderElements(w);
    if w.root == "" {
      StepsRooted(w.rooted, w.names);
      assert [] + (if w.rooted then ["/"] else []) == if w.rooted then ["/"] else [];
    } else {
      StepsNamed(w);
    }
  }

  lemma StepsRooted(rooted: bool, names: seq<string>)
    requires ValidNames(names) && NoDots(names)
    ensures Steps(START, (if rooted then ["/"] else []) + names) == Walk("", rooted, names)
  {
    hide HasRootName;
    var none: seq<string> := [];
    assert none + names == names;
    if rooted {
      var es := ["/"] + names;
      assert es[0] == "/" && es[1..] == names;
      SlashStep();
      StepsNames(Walk("", true, none), names);
    } else {
      StepsNames(START, names);
    }
  }

  lemma SlashStep()
    ensures Step(START, "/") == Walk("", true, [])
  {}

  lemma StepsNamed(w: Walk)
    requires Fine(w) && NoDots(w.names) && w.root != ""
    ensures Steps(START, [w.root] + (if w.rooted then ["/"] else []) + w.names) == w
  {
    var none: seq<string> := [];
    var es := [w.root] + (if w.rooted then ["/"] else []) + w.names;
    assert none + w.names == w.names && es[0] == w.root;
    if w.rooted {
      assert es[1..][0] == "/" && es[1..][1..] == w.names;
      assert Steps(START, es) == Steps(Walk(w.root, true, none), w.names);
      StepsNames(Walk(w.root, true, none), w.names);
    } else {
      assert es[1..] == none;
    }
  }

  /** Normalizing leaves no "." and no "..", and normalizing again changes nothing. */
  lemma NormalizedIdempotent(s: string)
    ensures NoDots(Elements(Normalized(s))) && Normalized(Normalized(s)) == Normalized(s)
  {
    hide Elements, Render, Steps, Fine;
    var w := Steps(START, Elements(s));
    FinalFine(s);
    if Render(w) == "" {
      SlashAgain();
    } else {
      StepsAgain(w);
      NoDotsRendered(w);
    }
  }

  lemma SlashAgain()
    ensures Elements("/") == ["/"] && Steps(START, ["/"]) == Walk("", true, []) && Render(Walk("", true, [])) == "/"
  {
    RenderElements(Walk("", true, []));
    assert ["/"][1..] == [];
  }

  lemma NoDotsRendered(w: Walk)
    requires Fine(w) && NoDots(w.names)
    ensures NoDots(Elements(Render(w)))
  {
    RenderElements(w);
  }

  // ------------------------------------------------------------------ below a root name

  /** Component `i` climbs, and nothing has been entered that it could climb out of. */
  predicate ClimbsOut(cs: seq<string>, i: nat) {
    i < |cs| && cs[i] == ".." && Over([], cs[..i]).1 == []
  }

  /** But for ".", the components end with such a climb. */
  ghost predicate EndsOutside(cs: seq<string>) {
    exists i: nat :: ClimbsOut(cs, i) && forall m | i < m < |cs| :: cs[m] == "."
  }

  /** Such a climb is followed, but for ".", by another one: the first leaves the root, the second the
      root name. */
  ghost predicate LeavesRootName(cs: seq<string>) {
    exists i: nat, j :: ClimbsOut(cs, i) && i < j < |cs| && cs[j] == ".." && forall m | i < m < j :: cs[m] == "."
  }

  lemma {:induction false} OverSnoc(q: seq<string>, cs: seq<string>, e: string)
    ensures Over(q, cs + [e]).1 ==
            if e == "." then Over(q, cs).1 else if e == ".." then Front(Over(q, cs).1) else Over(q, cs).1 + [e]
    decreases |cs|
  {
    if cs == [] {
      assert ([] + [e])[1..] == [];
    } else {
      assert (cs + [e])[1..] == cs[1..] + [e] && (cs + [e])[0] == cs[0];
      OverSnoc(if cs[0] == "." then q else if cs[0] == ".." then Front(q) else q + [cs[0]], cs[1..], e);
    }
  }

  lemma OutsideSnoc(cs: seq<string>, e: string)
    ensures EndsOutside(cs + [e]) <==> (e == "." && EndsOutside(cs)) || (e == ".." && Over([], cs).1 == [])
    ensures LeavesRootName(cs + [e]) <==> LeavesRootName(cs) || (e == ".." && EndsOutside(cs))
  {
    hide Over;
    var ds, n := cs + [e], |cs|;
    forall i | 0 <= i < n ensures ClimbsOut(ds, i) <==> ClimbsOut(cs, i) {
      assert ds[..i] == cs[..i];
    }
    assert ds[..n] == cs && ds[n] == e;
    assert ClimbsOut(ds, n) <==> e == ".." && Over([], cs).1 == [];
    assert forall m | 0 <= m < n :: ds[m] == cs[m];
  }

  /** Where a walk below the root name `r` is after `cs`. */
  ghost predicate Below(w: Walk, r: string, cs: seq<string>) {
    && w.names == Over([], cs).1
    && (EndsOutside(cs) ==> w.names == [])
    && w.root == (if LeavesRootName(cs) then "" else r)
    && w.rooted == (w.root != "" && !EndsOutside(cs))
  }

  lemma NamedStep(w: Walk, r: string, cs: seq<string>, e: string)
    requires Below(w, r, cs) && IsRoot(r) && ValidName(e)
    ensures Below(Step(w, e), r, cs + [e])
  {
    hide Over, EndsOutside, LeavesRootName;
    OverSnoc([], cs, e);
    OutsideSnoc(cs, e);
    assert e != "/" && !HasRootName(e);
  }

  lemma AtRootName(r: string)
    requires IsRoot(r)
    ensures Below(Walk(r, true, []), r, []) && !LeavesRootName([])
  {}

  lemma {:induction false} NamedSteps(r: string, cs: seq<string>)
    requires IsRoot(r) && ValidNames(cs)
    ensures Below(Steps(Walk(r, true, []), cs), r, cs)
    decreases |cs|
  {
    hide Below;
    if cs == [] {
      AtRootName(r);
    } else {
      var ds, e := cs[..|cs| - 1], cs[|cs| - 1];
      assert ds + [e] == cs && ValidName(e);
      NamedSteps(r, ds);
      StepsSnoc(Walk(r, true, []), ds, e);
      NamedStep(Steps(Walk(r, true, []), ds), r, ds, e);
    }
  }

  /** What is left of a path with a root name. */
  lemma NamedWalk(s: string)
    requires HasRootName(s)
    ensures var cs, w := GetPathArray(s[|RootName(s)|..]), Steps(START, Elements(s));
            && w.names == Over([], cs).1 && w.root == (if LeavesRootName(cs) then "" else RootName(s))
            && (w.root == "" ==> !w.rooted)
  {
    hide GetPathArray, Over, LeavesRootName, EndsOutside, HasRootName, RootName, Elements, Step;
    var r := RootName(s);
    var cs, es := GetPathArray(s[|r|..]), Elements(s);
    NamedElements(s);
    AtRootName(r);
    EnterBoth(r);
    assert Steps(START, es) == Steps(Walk(r, false, []), es[1..]);
    if es[1..] != [] {
      assert Steps(START, es) == Steps(Walk(r, true, []), es[1..][1..]);
      StepsSnoc(Walk(r, true, []), cs, ".");
      StepRoot(Steps(Walk(r, true, []), cs), ".");
      NamedSteps(r, cs);
    }
  }

  lemma EnterBoth(r: string)
    requires IsRoot(r)
    ensures r != "" && Step(START, r) == Walk(r, false, []) && Step(Walk(r, false, []), "/") == Walk(r, true, [])
  {}

  lemma NamedElements(s: string)
    requires HasRootName(s)
    ensures var r, es, cs := RootName(s), Elements(s), GetPathArray(s[|RootName(s)|..]);
            && IsRoot(r) && es != [] && es[0] == r && ValidNames(cs)
            && if es[1..] == [] then cs == [] else es[1..][0] == "/" && (es[1..][1..] == cs || es[1..][1..] == cs + ["."])
  {
    hide GetPathArray;
    UpToSlashFits(s[2..]);
    var rest := s[|RootName(s)|..];
    assert rest == s[2..][|UpToSlash(s[2..])|..];
    assert Elements(s)[1..] == PlainElements(rest);
    if rest == "" {
      NothingSplit();
    } else {
      var cs := GetPathArray(rest);
      var tail := cs + (if cs != [] && rest[|rest| - 1] == '/' then ["."] else []);
      assert PlainElements(rest) == ["/"] + tail;
      assert (["/"] + tail)[1..] == tail && cs + [] == cs;
    }
  }

  lemma NothingSplit()
    ensures GetPathArray("") == []
  {
    EmptyDropped();
  }

  /** For an absolute path the result is a key the server's split and join leave alone exactly if the
      path never climbs above the root, or ends there; with a root name, exactly if it climbs out of
      that and ends there. */
  lemma NormalizedCanonicalIff(s: string)
    requires Absolute(s)
    ensures Canonical(Normalized(s)) <==>
            if HasRootName(s) then
              var cs := GetPathArray(s[|RootName(s)|..]);
              LeavesRootName(cs) && Over([], cs).1 == []
            else Over([], GetPathArray(s)).0 == 0 || Over([], GetPathArray(s)).1 == []
  {
    var w := Steps(START, Elements(s));
    FinalFine(s);
    if HasRootName(s) {
      NamedWalk(s);
      if w.root != "" {
        NamedIsNoKey(w);
      } else {
        FinishNames(w);
      }
    } else {
      PlainSteps(s);
      assert RootName(s) == "" && s[0..] == s && Elements(s) == PlainElements(s);
      FinishNames(w);
    }
  }

  lemma NamedIsNoKey(w: Walk)
    requires Fine(w) && w.root != ""
    ensures Finish(w) == Render(w) && !Canonical(Finish(w))
  {
    var p := Render(w);
    assert p[0] == w.root[0] && p[1] == w.root[1];
    var a := GetPathArray(p);
    if a != [] {
      JoinEnd(a);
      assert Key(p)[1] == Join(a)[0];
      assert p[1] == '/';
    } else {
      assert |Key(p)| == 1;
    }
  }

  // ------------------------------------------------------------------ joining an entry to a directory

  lemma ArrayOfAppend(p: string, e: string)
    requires Absolute(p) && !Absolute(e)
    ensures GetPathArray(Append(p, e)) == GetPathArray(p) + GetPathArray(e) && Absolute(Append(p, e))
  {
    if p[|p| - 1] == '/' {
      var x := p[..|p| - 1];
      assert p == x + "/" && p + e == x + "/" + e && x + "/" == x + "/" + "";
      SplitConcat(x, e);
      SplitConcat(x, "");
      DropEmptyConcat(Split(x), Split(e));
      DropEmptyConcat(Split(x), [""]);
    } else {
      SplitConcat(p, e);
      DropEmptyConcat(Split(p), Split(e));
    }
  }

  /** The path a directory at `path` asks the server about for `entry`. */
  method EntryPath(path: string, entry: string) returns (p: string)
    ensures p == EntryPathOf(path, entry)
  {
    p := NormalizeBoostPath(entry);
    NormalizedNotEmpty(entry);
    if p[0] != '/' {
      p := Append(path, p);
    }
  }

  function EntryPathOf(path: string, entry: string): string {
    var p := Normalized(entry);
    if Absolute(p) then p else Append(path, p)
  }

  lemma NormalizedNotEmpty(s: string)
    ensures Normalized(s) != ""
  {}

  /** The path asked about drops the entry's climbs, and is the root if the entry names nothing. */
  lemma EntryAsked(path: string, entry: string)
    requires Canonical(path) && !Absolute(entry)
    ensures var names := Over([], GetPathArray(entry)).1;
            EntryPathOf(path, entry) == PathString(if names == [] then [] else GetPathArray(path) + names)
  {
    hide Over, Normalized, Append, GetPathArray, HasRootName;
    var names := Over([], GetPathArray(entry)).1;
    OverClean([], GetPathArray(entry));
    RelativeIsUnnamed(entry);
    NormalizedIs(entry);
    FinishNames(Walk("", false, names));
    if names != [] {
      assert "" + Join(names) == Join(names);
      JoinEnd(names);
      AppendNames(GetPathArray(path), names);
    }
  }

  lemma RelativeIsUnnamed(s: string)
    requires !Absolute(s)
    ensures !HasRootName(s)
  {}

  lemma {:induction false} JoinConcat(a: seq<string>, b: seq<string>)
    requires a != [] && b != []
    ensures Join(a + b) == Join(a) + "/" + Join(b)
  {
    if |a| == 1 {
      assert (a + b)[1..] == b;
    } else {
      assert (a + b)[1..] == a[1..] + b;
      JoinConcat(a[1..], b);
    }
  }

  lemma AppendNames(base: seq<string>, names: seq<string>)
    requires ValidNames(base) && ValidNames(names) && names != []
    ensures Append(PathString(base), Join(names)) == PathString(base + names)
  {
    JoinEnd(names);
    if base == [] {
      assert base + names == names;
    } else {
      JoinEnd(base);
      JoinConcat(base, names);
    }
  }

  lemma JoinedIsUnnamed(path: string, entry: string)
    requires Canonical(path) && !Absolute(entry)
    ensures !HasRootName(Append(path, entry))
  {
    var a := GetPathArray(path);
    assert path == PathString(a);
    if a != [] {
      JoinEnd(a);
      assert Append(path, entry)[1] == path[1];
    }
  }

  /** The joined path climbs through the directory's own path, and may lose its root. */
  lemma NormalizedOfJoin(path: string, entry: string)
    requires Canonical(path) && NoDots(GetPathArray(path)) && !Absolute(entry)
    ensures var (k, names) := Over([], GetPathArray(entry));
            var base := GetPathArray(path);
            Normalized(Append(path, entry)) == Finish(Walk("", k <= |base|, Up(base, k) + names))
  {
    var base, cs := GetPathArray(path), GetPathArray(entry);
    var none: seq<string> := [];
    ArrayOfAppend(path, entry);
    JoinedIsUnnamed(path, entry);
    NormalizedIs(Append(path, entry));
    StepsOver(true, none, none, base + cs);
    assert none + none == none;
    StepsPlain(Walk("", true, none), base, cs);
    assert none + base == base && base + none == base;
    StepsOver(true, base, none, cs);
    var (k1, r1) := Over(none, base + cs);
    assert Up(none, k1) + r1 == r1;
  }

  /** For a relative entry, the path asked about is the normalized joined path exactly if the entry
      ends below its start without climbing above it, or ends where it started or above after
      climbing through all of the directory's path. */
  lemma EntryPathIff(path: string, entry: string)
    requires Canonical(path) && NoDots(GetPathArray(path)) && !Absolute(entry)
    ensures var (k, names) := Over([], GetPathArray(entry));
            EntryPathOf(path, entry) == Normalized(Append(path, entry)) <==>
            if names == [] then |GetPathArray(path)| <= k else k == 0
  {
    hide Over, EntryPathOf, Normalized, Finish, Append, NoDots, PathString;
    var base := GetPathArray(path);
    var (k, names) := Over([], GetPathArray(entry));
    OverClean([], GetPathArray(entry));
    EntryAsked(path, entry);
    NormalizedOfJoin(path, entry);
    var joined := Up(base, k) + names;
    assert ValidNames(joined);
    if names == [] {
      SameNames([], k <= |base|, joined);
    } else {
      SameNames(base + names, k <= |base|, joined);
      assert k == 0 ==> joined == base + names;
    }
  }

  lemma SameNames(a: seq<string>, rooted: bool, b: seq<string>)
    requires ValidNames(a) && ValidNames(b)
    ensures PathString(a) == Finish(Walk("", rooted, b)) <==> a == b && (rooted || b == [])
  {
    ArrayRoundTrip(a);
    FinishNames(Walk("", rooted, b));
  }

  lemma Joined2(a: string, b: string)
    ensures Join([a, b]) == a + "/" + b
  {
    assert [a, b][1..] == [b];
  }

  lemma ClimbOnce(n: string)
    requires n != "." && n != ".."
    ensures Over([], ["..", n]) == (1, [n])
  {
    assert ["..", n][1..] == [n] && [n][1..] == [] && [] + [n] == [n];
    assert Over([], [n]) == Over([n], []);
  }

  /** Above the root the normalized path is no key: a climb at the start costs the path its root. */
  lemma ClimbIsNoKey()
    ensures Absolute("/../a") && Normalized("/../a") == "a" && !Canonical("a")
  {}

  /** A climb is forgotten: a directory at "/a/b" asks about its own "c" for "../c". */
  lemma ClimbIsForgotten()
    ensures Canonical("/a/b") && EntryPathOf("/a/b", "../c") == "/a/b/c" && Normalized(Append("/a/b", "../c")) == "/a/c"
  {
    hide Split, DropEmpty, Join, Over, EntryPathOf, Normalized, Append, GetPathArray, HasRootName;
    var base, cs := ["a", "b"], ["..", "c"];
    Joined2("a", "b");
    Joined2("b", "c");
    Joined2("..", "c");
    assert "/" + ("a" + "/" + "b") == "/a/b" && ".." + "/" + "c" == "../c" && "/" + ("a" + "/" + "c") == "/a/c";
    assert "/" + ("a" + "/" + ("b" + "/" + "c")) == "/a/b/c";
    PlainArray(true, base);
    PlainArray(false, cs);
    ClimbOnce("c");
    EntryAsked("/a/b", "../c");
    NormalizedOfJoin("/a/b", "../c");
    JoinConcat(["a"], ["b", "c"]);
    Joined2("a", "c");
    JoinOne("a");
    assert base + ["c"] == ["a"] + ["b", "c"] && Up(base, 1) + ["c"] == ["a", "c"];
  }

  lemma JoinOne(n: string)
    ensures Join([n]) == n
  {}

  /** An absolute entry is normalized on its own, wherever the directory is. */
  lemma AbsoluteEntry(path: string, entry: string)
    requires Absolute(entry) && !HasRootName(entry) && Over([], GetPathArray(entry)).0 == 0
    ensures EntryPathOf(path, entry) == PathString(Over([], GetPathArray(entry)).1)
  {
    hide Over, GetPathArray, Normalized, HasRootName, Join, Append;
    NormalizedIs(entry);
    var names := Over([], GetPathArray(entry)).1;
    assert "" + PathString(names) == PathString(names);
    assert Finish(Walk("", true, names)) == PathString(names);
  }

  lemma FineStays(w: Walk)
    requires Fine(w) && NoDots(w.names) && Render(w) != ""
    ensures Normalized(Render(w)) == Render(w)
  {
    hide Elements, Render;
    StepsAgain(w);
  }

  /** Two slashes at the start are a root name and stay; three are one. */
  lemma RootNameStays(host: string, names: seq<string>)
    requires ValidName(host) && ValidNames(names) && NoDots(names)
    ensures Normalized("//" + host) == "//" + host && Normalized("//") == "//"
    ensures Normalized("//" + host + PathString(names)) == "//" + host + PathString(names)
    ensures Normalized("//" + PathString(names)) == PathString(names)
  {
    hide Elements, GetPathArray, Join, Steps, Finish, Normalized;
    var r := "//" + host;
    assert r[2..] == host && r[2] == host[0];
    FineStays(Walk(r, false, []));
    FineStays(Walk(r, true, names));
    FineStays(Walk("//", false, []));
    NothingJoined();
    assert Render(Walk(r, false, [])) == r && Render(Walk("//", false, [])) == "//";
    ThreeSlashes(names);
  }

  lemma NothingJoined()
    ensures Join([]) == ""
  {}

  lemma ThreeSlashes(names: seq<string>)
    requires ValidNames(names) && NoDots(names)
    ensures Normalized("//" + PathString(names)) == PathString(names)
  {
    hide GetPathArray, Join, Normalized;
    var p := PathString(names);
    var s := "//" + p;
    assert s == "" + "/" + ("" + "/" + p);
    PathArrayMeans("", p, "");
    PathArrayMeans("", "" + "/" + p, "");
    ArrayRoundTrip(names);
    assert [] + ([] + names) == names && [] + names == names;
    NormalizedIs(s);
    OverPlain([], names);
    assert "" + p == p;
  }
}
