/** What creating URLs does to what exists, and a run in which it goes wrong. */
module HbaseTheorems {
  import opened Options
  import opened Paths
  import opened HbaseTable
  import opened HbaseForest
  import opened HbaseNamespace
  import opened HbaseRefinement
  import opened HbaseShadows

  /** `create_url` can do its work: the path has a name, does not exist, nothing hides what it shares
      with other paths, and the ids stay below the limit of an int. */
  ghost predicate Creatable(f: Forest, url: Url) {
    && ForestInv(f) && UrlOk(url) && |f| + |Names(url)| <= INT_MAX
    && Names(url) != [] && !Exists(f, Names(url)) && Visible(f, 0, Names(url))
  }

  /** After `create_url` a URL is said to exist exactly if it did exist or lies on the path created,
      and is visible in the namespace as it is then. */
  lemma CreateUrlExists(f: Forest, url: Url, dir: bool, w: Url)
    requires Creatable(f, url) && UrlOk(w)
    ensures UrlExists(CreateUrl(TableOf(f), url, dir).0, w) ==
            Some((Exists(f, Names(w)) || (Names(w) != [] && Names(w) <= Names(url))) &&
                 Visible(Created(f, Names(url), dir), 0, Names(w)))
  {
    hide TableOf, CreateUrl, UrlExists, Names, ForestInv, Visible, Created;
    NamesOfUrl(url);
    CreateUrlExact(f, url, dir);
    CreatedShape(f, Names(url), dir);
    CreatedPaths(f, Names(url), dir, Names(w));
    UrlExistsExact(Created(f, Names(url), dir), w);
  }

  lemma {:induction false} GrownPlain(f: Forest, from: nat, names: seq<string>)
    requires PlainForest(f) && AllPlain(names)
    ensures PlainForest(Grown(f, from, names))
    decreases |names|
  {
    hide Child;
    if names != [] {
      var child := Child(f, from, names[0]);
      if child.Some? {
        GrownPlain(f, child.value, names[1..]);
      } else {
        GrownPlain(f + [Node(names[0], from, true)], |f| + 1, names[1..]);
      }
    }
  }

  /** Creating a plain path keeps all names plain. */
  lemma CreatedPlain(f: Forest, names: seq<string>, dir: bool)
    requires PlainForest(f) && AllPlain(names)
    ensures PlainForest(Created(f, names, dir))
  {
    GrownPlain(f, 0, names);
  }

  // ------------------------------------------------------------------ a run that goes wrong

  lemma NamesOfOne(head: string, name: string)
    requires ValidName(name)
    ensures Names(Url(head, "/" + name)) == [name] && UrlOk(Url(head, "/" + name))
  {
    ArrayRoundTrip([name]);
    assert Join([name]) == name;
  }

  lemma OneCreated(f: Forest, name: string)
    requires Child(f, 0, name).None?
    ensures Created(f, [name], false) == f + [Node(name, 0, false)]
    ensures Resolve(f, 0, [name]).None? && Visible(f, 0, [name])
  {
    assert [name][1..] == [];
    assert Grown(f, 0, [name]) == Grown(f + [Node(name, 0, true)], |f| + 1, []);
  }

  lemma CreateOne(f: Forest, head: string, name: string)
    requires ForestInv(f) && |f| < INT_MAX && ValidName(name) && Child(f, 0, name).None?
    ensures var url, g := Url(head, "/" + name), f + [Node(name, 0, false)];
            && UrlExists(TableOf(f), url) == Some(false)
            && CreateUrl(TableOf(f), url, false) == (TableOf(g), true) && ForestInv(g)
  {
    hide TableOf, CreateUrl, UrlExists, Names, ForestInv, Visible, Created, Child;
    var url := Url(head, "/" + name);
    NamesOfOne(head, name);
    OneCreated(f, name);
    UrlExistsExact(f, url);
    CreateUrlExact(f, url, false);
    CreatedShape(f, [name], false);
  }

  lemma ShadowPair(f: Forest)
    requires ForestInv(f) && f == [Node("a", 0, false), Node("a+", 0, false)]
    ensures Resolve(f, 0, ["a"]) == Some(1) && !Visible(f, 0, ["a"])
  {
    ChildFinds(f, 0);
    assert ["a"][1..] == [];
    assert Shadowed(f, "a", 0, 1) by {
      ShadowsIff(f, 1, "a", 0);
    }
  }

  /** Create "/a", then "/a+": the second hides the first.  The table says that "/a" does not exist,
      and creating it again, as the constructor then does, leaves a table that is no namespace. */
  lemma ShadowedEntryIsDuplicated(head: string)
    ensures var a, plus := Url(head, "/" + "a"), Url(head, "/" + "a+");
            var t1 := CreateUrl([], a, false).0;
            var t2 := CreateUrl(t1, plus, false).0;
            && UrlExists([], a) == Some(false) && UrlExists(t1, plus) == Some(false)
            && IsNamespace(t2) && Names(a) == ["a"]
            && t2 == TableOf([Node("a", 0, false), Node("a+", 0, false)])
            && UrlExists(t2, a) == Some(false) && !IsNamespace(CreateUrl(t2, a, false).0)
  {
    hide *;
    var f := [Node("a", 0, false), Node("a+", 0, false)];
    PairCreated(head);
    ShadowPair(f);
    NamesOfOne(head, "a");
    SecondTime(f, Url(head, "/" + "a"));
  }

  /** The first two constructions, which go well. */
  lemma PairCreated(head: string)
    ensures var a, plus := Url(head, "/" + "a"), Url(head, "/" + "a+");
            var t1 := CreateUrl([], a, false).0;
            && UrlExists([], a) == Some(false) && UrlExists(t1, plus) == Some(false)
            && CreateUrl(t1, plus, false).0 == TableOf([Node("a", 0, false), Node("a+", 0, false)])
            && ForestInv([Node("a", 0, false), Node("a+", 0, false)])
  {
    hide *;
    var none: Forest := [];
    var f := [Node("a", 0, false)];
    EmptyForest();
    CreateOne(none, head, "a");
    assert none + [Node("a", 0, false)] == f;
    NotThere();
    CreateOne(f, head, "a+");
    assert f + [Node("a+", 0, false)] == [Node("a", 0, false), Node("a+", 0, false)];
  }

  lemma EmptyForest()
    ensures TableOf([]) == [] && ForestInv([]) && Child([], 0, "a").None? && ValidName("a") && ValidName("a+")
    ensures 2 < INT_MAX
  {}

  lemma NotThere()
    ensures Child([Node("a", 0, false)], 0, "a+").None?
  {
    assert [Node("a", 0, false)][..0] == [];
  }

  lemma SecondTime(f: Forest, url: Url)
    requires ForestInv(f) && |f| == 2 && UrlOk(url) && Names(url) == ["a"] && !Visible(f, 0, ["a"])
    ensures UrlExists(TableOf(f), url) == Some(false) && IsNamespace(TableOf(f))
    ensures !IsNamespace(CreateUrl(TableOf(f), url, false).0)
  {
    hide TableOf, CreateUrl, UrlExists, ForestInv, Visible;
    UrlExistsExact(f, url);
    CreateUrlExact(f, url, false);
  }
}
