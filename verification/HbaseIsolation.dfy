/** Attribute calls that miss their node: exactly when a set at one URL leaves the others alone, and a
    run in which it does not. */
module HbaseIsolation {
  import opened Options
  import opened Paths
  import opened HbaseTable
  import opened HbaseForest
  import opened HbaseNamespace
  import opened HbaseRefinement
  import opened HbaseShadows
  import opened HbaseAttributes

  /** A set at `u` is in the row of `u` afterwards. */
  ghost predicate SetsOwn(f: Forest, u: Url, metadata: seq<Row>, key: string, value: string)
    requires Exists(f, Names(u))
  {
    CellAt(MetadataSet(TableOf(f), metadata, u, key, value), KeyOf(f, Names(u)), "metakey:" + key) == Some(value)
  }

  /** The sets that go where they should are those that look up their own node. */
  lemma SetRightIff(f: Forest, u: Url)
    requires ForestInv(f) && UrlOk(u) && Exists(f, Names(u))
    ensures Aimed(f, u) <==> forall metadata, key, value | Sorted(metadata) :: SetsOwn(f, u, metadata, key, value)
  {
    hide TableOf, Names, KeyOf, CellAt, MetadataSet, ForestInv, Aimed, Lands, Exists;
    AimedIff(f, u);
    if Aimed(f, u) {
      forall metadata, key, value | Sorted(metadata) ensures SetsOwn(f, u, metadata, key, value) {
        SetCellOf(f, metadata, u, key, value, Names(u), key);
      }
    } else {
      SetCellOf(f, [], u, "", "", Names(u), "");
      NoCells(KeyOf(f, Names(u)), "metakey:" + "");
      assert !SetsOwn(f, u, [], "", "");
    }
  }

  lemma NoCells(key: string, column: string)
    ensures CellAt([], key, column) == None
  {}

  lemma AimedIff(f: Forest, u: Url)
    requires UrlOk(u) && Exists(f, Names(u))
    ensures Aimed(f, u) <==> Lands(f, u, Names(u))
  {
    hide TableOf, Target, Names, Dec, GetLast;
    NamesOfUrl(u);
  }

  /** A set at `u`, whatever is set and whatever was there before, changes nothing that is read at a
      URL with another path whose calls find their node. */
  ghost predicate Isolated(f: Forest, u: Url) {
    forall metadata, key, value, w, other | Sorted(metadata) && UrlOk(w) && Aimed(f, w) && Names(w) != Names(u) ::
      AttributeAt(TableOf(f), MetadataSet(TableOf(f), metadata, u, key, value), w, other) ==
      AttributeAt(TableOf(f), metadata, w, other)
  }

  /** The same of a remove. */
  ghost predicate RemovalIsolated(f: Forest, u: Url) {
    forall metadata, key, w, other | Sorted(metadata) && UrlOk(w) && Aimed(f, w) && Names(w) != Names(u) ::
      AttributeAt(TableOf(f), MetadataRemoved(TableOf(f), metadata, u, key), w, other) ==
      AttributeAt(TableOf(f), metadata, w, other)
  }

  function UrlOf(names: seq<string>): Url {
    Url("", PathString(names))
  }

  /** The id looked up for `u` is that of another node with the same last name, whose own calls find it. */
  ghost predicate StraysTo(f: Forest, u: Url, m: nat)
    requires ForestInv(f)
  {
    && 0 < m <= |f| && Target(TableOf(f), u) == Some(Dec(m)) && f[m - 1].name == GetLast(u)
    && PathOf(f, m) != Names(u) && Aimed(f, UrlOf(PathOf(f, m)))
  }

  ghost predicate Strays(f: Forest, u: Url)
    requires ForestInv(f)
  {
    exists m :: StraysTo(f, u, m)
  }

  lemma UrlOfNames(names: seq<string>)
    requires ValidNames(names)
    ensures UrlOk(UrlOf(names)) && Names(UrlOf(names)) == names
  {
    ArrayRoundTrip(names);
  }

  /** The calls see of a URL its names only. */
  lemma SameTarget(nodes: seq<Row>, u: Url, w: Url)
    requires UrlOk(u) && UrlOk(w) && Names(u) == Names(w) && Names(u) != []
    ensures Target(nodes, u) == Target(nodes, w)
  {
    hide Names, GetLast, NodeId, ParentFrom;
    NamesOfUrl(u);
    NamesOfUrl(w);
  }

  lemma LastOfPath(f: Forest, m: nat)
    requires ForestInv(f) && 0 < m <= |f|
    ensures ValidNames(PathOf(f, m)) && PathOf(f, m) != [] && Last(PathOf(f, m)) == f[m - 1].name
    ensures Resolve(f, 0, PathOf(f, m)) == Some(m)
  {
    PathNames(f, m);
    ResolveIff(f, PathOf(f, m), m);
  }

  /** Landing on another path that is read in its place is straying. */
  lemma StraysIff(f: Forest, u: Url)
    requires ForestInv(f)
    ensures Strays(f, u) <==> exists w :: UrlOk(w) && Aimed(f, w) && Names(w) != Names(u) && Lands(f, u, Names(w))
  {
    hide TableOf, Target, Dec, Names, GetLast, ForestInv, Resolve, PathOf;
    if m :| StraysTo(f, u, m) {
      LastOfPath(f, m);
      UrlOfNames(PathOf(f, m));
      assert Lands(f, u, Names(UrlOf(PathOf(f, m))));
    }
    if w :| UrlOk(w) && Aimed(f, w) && Names(w) != Names(u) && Lands(f, u, Names(w)) {
      var m := Resolve(f, 0, Names(w)).value;
      ResolveIff(f, Names(w), m);
      RootIsNoPath(f, Names(w), m);
      LastOfPath(f, m);
      UrlOfNames(PathOf(f, m));
      SameTarget(TableOf(f), w, UrlOf(PathOf(f, m)));
      assert StraysTo(f, u, m);
    }
  }

  lemma RootIsNoPath(f: Forest, names: seq<string>, m: nat)
    requires ForestInv(f) && m <= |f| && PathOf(f, m) == names && names != []
    ensures m > 0
  {}

  /** What is read at `w` after a set or a remove at `u`. */
  lemma ReadAfter(f: Forest, metadata: seq<Row>, u: Url, key: string, value: string, w: Url, other: string)
    requires ForestInv(f) && Sorted(metadata) && UrlOk(w) && Aimed(f, w)
    ensures var t := TableOf(f);
            var hit := Lands(f, u, Names(w)) && other == key;
            && AttributeAt(t, MetadataSet(t, metadata, u, key, value), w, other) ==
               (if hit then Some(value) else AttributeAt(t, metadata, w, other))
            && AttributeAt(t, MetadataRemoved(t, metadata, u, key), w, other) ==
               (if hit then None else AttributeAt(t, metadata, w, other))
  {
    hide TableOf, Names, KeyOf, CellAt, MetadataSet, MetadataRemoved, AttributeAt, ForestInv, Aimed, Lands;
    AimedExists(f, w);
    ReadsItsRow(f, metadata, w, other);
    ReadsItsRow(f, MetadataSet(TableOf(f), metadata, u, key, value), w, other);
    ReadsItsRow(f, MetadataRemoved(TableOf(f), metadata, u, key), w, other);
    SetCellOf(f, metadata, u, key, value, Names(w), other);
    RemovedCellOf(f, metadata, u, key, Names(w), other);
  }

  /** A row with one attribute, so that there is something to remove. */
  lemma SomethingThere(f: Forest, w: Url) returns (metadata: seq<Row>)
    requires ForestInv(f) && UrlOk(w) && Aimed(f, w)
    ensures Sorted(metadata) && AttributeAt(TableOf(f), metadata, w, "") == Some("")
  {
    hide TableOf, Names, KeyOf, ForestInv, Aimed, WithAttribute, MetadataSet, CellAt;
    AimedExists(f, w);
    metadata := MetadataSet(TableOf(f), [], w, "", "");
    SetCellOf(f, [], w, "", "", Names(w), "");
    OwnLanding(f, w, Names(w));
    ReadsItsRow(f, metadata, w, "");
  }

  /** Whatever the URL, a set or a remove there leaves all other URLs alone exactly if the id looked up
      is not that of another node of the same name. */
  lemma IsolatedIff(f: Forest, u: Url)
    requires ForestInv(f)
    ensures Isolated(f, u) <==> !Strays(f, u)
    ensures RemovalIsolated(f, u) <==> !Strays(f, u)
  {
    hide TableOf, Names, MetadataSet, MetadataRemoved, AttributeAt, ForestInv, Aimed, Lands, Strays;
    StraysIff(f, u);
    forall metadata, key, value, w, other | Sorted(metadata) && UrlOk(w) && Aimed(f, w) && Names(w) != Names(u)
      ensures var t := TableOf(f);
              var hit := Lands(f, u, Names(w)) && other == key;
              && AttributeAt(t, MetadataSet(t, metadata, u, key, value), w, other) ==
                 (if hit then Some(value) else AttributeAt(t, metadata, w, other))
              && AttributeAt(t, MetadataRemoved(t, metadata, u, key), w, other) ==
                 (if hit then None else AttributeAt(t, metadata, w, other))
    {
      ReadAfter(f, metadata, u, key, value, w, other);
    }
    if w :| UrlOk(w) && Aimed(f, w) && Names(w) != Names(u) && Lands(f, u, Names(w)) {
      var metadata := SomethingThere(f, w);
      assert AttributeAt(TableOf(f), MetadataSet(TableOf(f), metadata, u, "", "x"), w, "") == Some("x");
      assert AttributeAt(TableOf(f), MetadataRemoved(TableOf(f), metadata, u, ""), w, "") == None;
    }
  }

  // ------------------------------------------------------------------ a set that strays

  const ONE: Forest := [Node("a", 0, true), Node("x", 1, false)]
  const TWO: Forest := [Node("a", 0, true), Node("x", 1, false), Node("a+", 0, true), Node("x", 3, false)]

  function Under(head: string, dir: string): Url {
    Url(head, "/" + (dir + "/" + "x"))
  }

  lemma NamesUnder(head: string, dir: string)
    requires ValidName(dir)
    ensures UrlOk(Under(head, dir)) && Names(Under(head, dir)) == [dir, "x"] && !AtRoot(Under(head, dir))
  {
    ArrayRoundTrip([dir, "x"]);
    assert [dir, "x"][1..] == ["x"] && Join(["x"]) == "x";
    assert Join([dir, "x"]) == dir + "/" + "x";
    assert ("/" + (dir + "/" + "x"))[1] == dir[0];
  }

  lemma FirstPath()
    ensures Created([], ["a", "x"], false) == ONE && !Exists([], ["a", "x"]) && Visible([], 0, ["a", "x"])
    ensures ForestInv([]) && TableOf([]) == []
  {
    var none: Forest := [];
    var names := ["a", "x"];
    assert names[1..] == ["x"] && ["x"][1..] == [];
    assert none + [Node("a", 0, true)] + [Node("x", 1, true)] == [Node("a", 0, true), Node("x", 1, true)];
    assert Grown([], 0, names) == Grown([Node("a", 0, true)], 1, ["x"]);
  }

  lemma SecondPath()
    ensures Created(ONE, ["a+", "x"], false) == TWO && !Exists(ONE, ["a+", "x"]) && Visible(ONE, 0, ["a+", "x"])
    ensures ForestInv(ONE) && Child(ONE, 0, "a+").None?
  {
    var names := ["a+", "x"];
    assert names[1..] == ["x"] && ["x"][1..] == [];
    assert ONE[..1] == [Node("a", 0, true)] && ONE[..1][..0] == [];
    var g := ONE + [Node("a+", 0, true)];
    assert g[..2] == ONE;
    assert Grown(ONE, 0, names) == Grown(g, 3, ["x"]);
    assert Child(g, 3, "x").None?;
    assert Grown(g, 3, ["x"]) == g + [Node("x", 3, true)];
  }

  /** The four nodes, and the lookups that go from "/a/x" to "/a+/x". */
  lemma TwoNodes()
    ensures ForestInv(TWO)
    ensures Child(TWO, 0, "a") == Some(1) && Child(TWO, 1, "x") == Some(2)
    ensures Child(TWO, 0, "a+") == Some(3) && Child(TWO, 3, "x") == Some(4)
  {
    ChildFinds(TWO, 0);
    ChildFinds(TWO, 1);
    ChildFinds(TWO, 2);
    ChildFinds(TWO, 3);
  }

  lemma TwoPaths()
    ensures ForestInv(TWO) && Resolve(TWO, 0, ["a", "x"]) == Some(2) && Resolve(TWO, 0, ["a+", "x"]) == Some(4)
    ensures Visible(TWO, 0, ["a+", "x"])
  {
    hide Shadowed, Child, ForestInv;
    TwoNodes();
    assert ["a", "x"][1..] == ["x"] && ["a+", "x"][1..] == ["x"] && ["x"][1..] == [];
    NothingBefore("a+", 0, 2);
    NothingBefore("x", 3, 3);
  }

  lemma NothingBefore(name: string, parent: nat, i: nat)
    requires i < |TWO| && TWO[i] == Node(name, parent, TWO[i].dir) && i >= 2
    ensures !Shadowed(TWO, name, parent, i + 1)
  {
    hide Less;
    LessIsStrict(NodeKey(name, i + 1), NodeKey(name, i + 1));
    KeyPrefix("a", 1, "a+");
  }

  lemma KeyPrefix(name: string, id: nat, other: string)
    requires |other| == |name| + 1 && other[|name|] != '-'
    ensures !(other <= NodeKey(name, id))
  {
    assert NodeKey(name, id)[|name|] == '-';
  }

  lemma Lookups()
    ensures NodeId(TableOf(TWO), "a", Dec(0)) == Dec(3) && NodeId(TableOf(TWO), "x", Dec(3)) == Dec(4)
  {
    hide TableOf, Dec, NodeId, Less;
    ExtensionOrder("a", "a+", 1, 3);
    assert "a" <= NodeKey("a+", 3) && "x" <= NodeKey("x", 4);
    LookupIs(TWO, "a", 0, 2);
    LookupIs(TWO, "x", 3, 3);
  }

  lemma TargetStrays(head: string)
    ensures Target(TableOf(TWO), Under(head, "a")) == Some(Dec(4))
  {
    hide TableOf, Dec, NodeId, Names, GetLast, ParseInt;
    var u, rows := Under(head, "a"), TableOf(TWO);
    NamesUnder(head, "a");
    NamesOfUrl(u);
    Lookups();
    IntRoundTrip(0);
    IntRoundTrip(3);
    IntRoundTrip(4);
    assert ["a", "x"][1..] == ["x"] && ["x"][1..] == [];
    assert ParentFrom(rows, 0, "", ["a", "x"]) == ParentFrom(rows, 3, Dec(0), ["x"]);
    assert ParentFrom(rows, 3, Dec(0), ["x"]) == ParentFrom(rows, 4, Dec(3), []);
  }

  /** Both constructions go well. */
  lemma TwoCreated(head: string)
    ensures var u, w := Under(head, "a"), Under(head, "a+");
            var t1 := Constructed([], u, true, false, false);
            && Possible(NO_TABLES, Construct(u, true, false, false)) && t1 == (TableOf(ONE), Done)
            && Possible(Tables(t1.0, []), Construct(w, true, false, false))
            && Constructed(t1.0, w, true, false, false) == (TableOf(TWO), Done)
  {
    hide TableOf, Constructed, Names, ForestInv, Visible, Created, Clear, Resolve, AtRoot;
    var u, w := Under(head, "a"), Under(head, "a+");
    NamesUnder(head, "a");
    NamesUnder(head, "a+");
    FirstPath();
    SecondPath();
    TwoPaths();
    OneSeen();
    ClearIff([], Names(u));
    ClearIff(ONE, Names(u));
    ClearIff(ONE, Names(w));
    ClearIff(TWO, Names(w));
    ConstructExact([], u, true, false, false);
    CreateSucceedsIff([], u, false);
    ConstructExact(ONE, w, true, false, false);
    CreateSucceedsIff(ONE, w, false);
  }

  lemma OneSeen()
    ensures Visible(ONE, 0, ["a", "x"])
  {
    assert ["a", "x"][1..] == ["x"] && ["x"][1..] == [];
    LessIsStrict(NodeKey("a", 1), NodeKey("a", 1));
    LessIsStrict(NodeKey("x", 2), NodeKey("x", 2));
    assert forall i | 0 <= i < 2 :: ONE[i].parent == i;
  }

  /** Starting at empty tables: create "/a/x" and then "/a+/x", both of which succeed.  What an advert
      at "/a/x" sets after that is read at "/a+/x", where nobody has set it, and not in its own row. */
  lemma SetStrays(head: string)
    ensures var u, w := Under(head, "a"), Under(head, "a+");
            var t1 := Constructed([], u, true, false, false);
            var t2 := Constructed(t1.0, w, true, false, false);
            var after := Perform(Tables(t2.0, []), SetAttribute(u, "k", "v"));
            && t1.1 == Done && t2 == (TableOf(TWO), Done)
            && Exists(TWO, Names(u)) && UrlExists(t2.0, w) == Some(true) && Names(u) != Names(w)
            && AttributeAt(t2.0, [], w, "k") == None && AttributeAt(after.nodes, after.metadata, w, "k") == Some("v")
            && CellAt(after.metadata, KeyOf(TWO, Names(u)), "metakey:" + "k") == None
            && ForestInv(TWO) && Strays(TWO, u)
  {
    hide TableOf, Constructed, Names, ForestInv, Visible, Resolve, UrlExists, AttributeAt, MetadataSet, CellAt, Target, KeyOf;
    hide GetLast, Dec;
    var u, w := Under(head, "a"), Under(head, "a+");
    NamesUnder(head, "a");
    NamesUnder(head, "a+");
    NamesOfUrl(u);
    TwoCreated(head);
    TwoPaths();
    TargetStrays(head);
    UrlExistsExact(TWO, w);
    VisibleAimed(TWO, w);
    assert ["a", "x"][0] == "a" && ["a+", "x"][0] == "a+";
    if Dec(2) == Dec(4) {
      DecInjective(2, 4);
    }
    assert Lands(TWO, u, Names(w)) && !Lands(TWO, u, Names(u));
    ReadAfter(TWO, [], u, "k", "v", w, "k");
    ReadsItsRow(TWO, [], w, "k");
    NoCells(KeyOf(TWO, Names(w)), "metakey:" + "k");
    NoCells(KeyOf(TWO, Names(u)), "metakey:" + "k");
    SetCellOf(TWO, [], u, "k", "v", Names(u), "k");
    StraysIff(TWO, u);
  }
}
