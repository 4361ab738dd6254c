/** To how many mounts a request can belong, given the way the routing library reads prefixes. */
module PathOwners {
  import opened Wrappers
  import opened PathTemplates
  import opened PluginRoutes

  /**
    What a path has to match to reach the plugin behind a prefix. The route inside the subrouter asks
    for a slash after the prefix, unless the prefix ends in one.
   */
  function Routed(prefix: Path): (route: Path)
    ensures prefix <= route && route != "" && route[|route| - 1] == '/'
    ensures route == prefix || (route == prefix + "/" && (prefix == "" || prefix[|prefix| - 1] != '/'))
  {
    if prefix != "" && prefix[|prefix| - 1] == '/' then prefix else prefix + "/"
  }

  /** A request for the path is handed to the plugin that has mounted the prefix. */
  predicate Reaches(path: Path, prefix: Path) {
    FallsUnder(path, Routed(prefix))
  }

  /** The path reaches one mount at most, and then falls under no built-in prefix. */
  ghost predicate OneOwner(mounts: seq<Mount>, builtIn: seq<Path>, path: Path) {
    && (forall i, j | 0 <= i < j < |mounts| ::
          !(Reaches(path, mounts[i].prefix) && Reaches(path, mounts[j].prefix)))
    && forall i, b | 0 <= i < |mounts| && b in builtIn ::
         !(Reaches(path, mounts[i].prefix) && FallsUnder(path, b))
  }

  /** The plugins ask for no other prefixes than these. */
  ghost predicate AskFor(plugins: seq<Routes>, prefixes: iset<Path>) {
    forall k, p | 0 <= k < |plugins| && plugins[k].resolved && p in PrefixesOf(plugins[k]) :: p in prefixes
  }

  /** Whichever plugins ask for whichever of the prefixes, no path ever has two owners. */
  ghost predicate AlwaysOneOwner(prefixes: iset<Path>, builtIn: seq<Path>) {
    forall plugins, path | AskFor(plugins, prefixes) :: OneOwner(MountPlugins(builtIn, plugins), builtIn, path)
  }

  /** For the prefixes that get past the built-in ones, the comparison of texts sees all shared paths. */
  ghost predicate OverlapsAreSeen(prefixes: iset<Path>, builtIn: seq<Path>) {
    forall p | p in prefixes && !Conflicts(p, builtIn) ::
      && (forall b | b in builtIn :: !SharePaths(Routed(p), b))
      && (forall q | q in prefixes && !Conflicts(q, builtIn) && SharePaths(Routed(p), Routed(q)) :: Comparable(p, q))
  }

  lemma MountedFrom(prefixes: iset<Path>, builtIn: seq<Path>, plugins: seq<Routes>, i: nat)
    requires AskFor(plugins, prefixes) && i < |MountPlugins(builtIn, plugins)|
    ensures
      var p := MountPlugins(builtIn, plugins)[i].prefix;
      p in prefixes && !Conflicts(p, builtIn)
  {
    MountsRequested(builtIn, plugins);
    MountsSeparate(builtIn, plugins);
  }

  lemma SeenOverlapsMeanOneOwner(prefixes: iset<Path>, builtIn: seq<Path>, plugins: seq<Routes>, path: Path)
    requires OverlapsAreSeen(prefixes, builtIn) && AskFor(plugins, prefixes)
    ensures OneOwner(MountPlugins(builtIn, plugins), builtIn, path)
  {
    var mounts := MountPlugins(builtIn, plugins);
    MountsSeparate(builtIn, plugins);
    forall i, j | 0 <= i < j < |mounts|
      ensures !(Reaches(path, mounts[i].prefix) && Reaches(path, mounts[j].prefix))
    {
      MountedFrom(prefixes, builtIn, plugins, i);
      MountedFrom(prefixes, builtIn, plugins, j);
      SharePathsIff(Routed(mounts[i].prefix), Routed(mounts[j].prefix));
    }
    forall i, b | 0 <= i < |mounts| && b in builtIn
      ensures !(Reaches(path, mounts[i].prefix) && FallsUnder(path, b))
    {
      MountedFrom(prefixes, builtIn, plugins, i);
      SharePathsIff(Routed(mounts[i].prefix), b);
    }
  }

  /** Two plugins with one prefix each, neither of which overlaps anything by its text. */
  lemma TwoPlugins(builtIn: seq<Path>, p: Path, q: Path)
    requires !Conflicts(p, builtIn) && !Conflicts(q, builtIn) && !Comparable(p, q)
    ensures MountPlugins(builtIn, [Routes(true, p, [])]) == [Mount(p, 0)]
    ensures MountPlugins(builtIn, [Routes(true, p, []), Routes(true, q, [])]) == [Mount(p, 0), Mount(q, 1)]
  {
    var first, second := Routes(true, p, []), Routes(true, q, []);
    assert [first][..0] == [] && [first, second][..1] == [first];
    MountSingle(builtIn, p, 0);
    assert MountPlugins(builtIn, [first]) == [Mount(p, 0)];
    assert Prefixes([Mount(p, 0)]) == [p];
    assert forall b | b in builtIn + [p] :: b in builtIn || b == p;
    assert PrefixesOf(second) == [q] && [q][1..] == [];
    assert MountPrefixes([Mount(p, 0)], builtIn, [q], 1) == [Mount(p, 0), Mount(q, 1)];
  }

  lemma UnseenOverlapWithBuiltIn(prefixes: iset<Path>, builtIn: seq<Path>, p: Path, b: Path)
    requires p in prefixes && !Conflicts(p, builtIn) && b in builtIn && SharePaths(Routed(p), b)
    ensures !AlwaysOneOwner(prefixes, builtIn)
  {
    var plugins := [Routes(true, p, [])];
    assert [plugins[0]][..0] == [];
    MountSingle(builtIn, p, 0);
    assert MountPlugins(builtIn, plugins) == [Mount(p, 0)];
    SharePathsIff(Routed(p), b);
    var path :| FallsUnder(path, Routed(p)) && FallsUnder(path, b);
    assert Reaches(path, MountPlugins(builtIn, plugins)[0].prefix);
    assert AskFor(plugins, prefixes) && !OneOwner(MountPlugins(builtIn, plugins), builtIn, path);
  }

  lemma UnseenOverlapOfTwo(prefixes: iset<Path>, builtIn: seq<Path>, p: Path, q: Path)
    requires p in prefixes && q in prefixes && SharePaths(Routed(p), Routed(q))
    requires !Conflicts(p, builtIn) && !Conflicts(q, builtIn) && !Comparable(p, q)
    ensures !AlwaysOneOwner(prefixes, builtIn)
  {
    var plugins := [Routes(true, p, []), Routes(true, q, [])];
    TwoPlugins(builtIn, p, q);
    SharePathsIff(Routed(p), Routed(q));
    var path :| FallsUnder(path, Routed(p)) && FallsUnder(path, Routed(q));
    var mounts := MountPlugins(builtIn, plugins);
    assert Reaches(path, mounts[0].prefix) && Reaches(path, mounts[1].prefix);
    assert AskFor(plugins, prefixes) && !OneOwner(mounts, builtIn, path);
  }

  /**
    Prefixes are compared as text, but requests are matched against them as templates. Over all
    configurations of plugins with prefixes from a set, no path has two owners exactly if for these
    prefixes the comparison sees every overlap.
   */
  lemma AlwaysOneOwnerIff(prefixes: iset<Path>, builtIn: seq<Path>)
    ensures AlwaysOneOwner(prefixes, builtIn) <==> OverlapsAreSeen(prefixes, builtIn)
  {
    if OverlapsAreSeen(prefixes, builtIn) {
      forall plugins, path | AskFor(plugins, prefixes)
        ensures OneOwner(MountPlugins(builtIn, plugins), builtIn, path)
      {
        SeenOverlapsMeanOneOwner(prefixes, builtIn, plugins, path);
      }
    } else {
      var p :| p in prefixes && !Conflicts(p, builtIn)
               && !(&& (forall b | b in builtIn :: !SharePaths(Routed(p), b))
                    && (forall q | q in prefixes && !Conflicts(q, builtIn) && SharePaths(Routed(p), Routed(q)) ::
                          Comparable(p, q)));
      if b :| b in builtIn && SharePaths(Routed(p), b) {
        UnseenOverlapWithBuiltIn(prefixes, builtIn, p, b);
      } else {
        var q :| q in prefixes && !Conflicts(q, builtIn) && SharePaths(Routed(p), Routed(q)) && !Comparable(p, q);
        UnseenOverlapOfTwo(prefixes, builtIn, p, q);
      }
    }
  }

  // ----- prefixes without variables ----------------------------------------------------------------------

  /** For a plain prefix and one that starts with the plain text `a`. */
  lemma PlainShare(p: Path, a: Path, s: Path)
    requires Plain(p) && Plain(a) && SharePaths(Routed(p), a + s)
    ensures Comparable(p, a)
  {
    SharePathsIff(Routed(p), a + s);
    var path :| FallsUnder(path, Routed(p)) && FallsUnder(path, a + s);
    assert Routed(p) == p + Routed(p)[|p|..];
    FallsUnderPlainStart(path, p, Routed(p)[|p|..]);
    FallsUnderPlainStart(path, a, s);
    PrefixesOfOnePath(path, p, a);
  }

  lemma PlainBuiltIns()
    ensures Plain(BUILT_IN[1]) && Plain(BUILT_IN[2]) && Plain(BUILT_IN[3]) && Plain(BUILT_IN[4])
  {
  }

  lemma PlainAuthBuiltIns()
    ensures Plain(BUILT_IN[5]) && Plain(BUILT_IN[6]) && Plain(BUILT_IN[7]) && Plain(BUILT_IN[8])
    ensures Plain(BUILT_IN[9])
  {
  }

  lemma MorePlainBuiltIns()
    ensures Plain(BUILT_IN[10]) && Plain(BUILT_IN[11]) && Plain(BUILT_IN[12]) && Plain(BUILT_IN[13])
  {
  }

  lemma OtherPlainBuiltIns()
    ensures Plain(BUILT_IN[14]) && Plain(BUILT_IN[15]) && Plain(BUILT_IN[16])
    ensures Plain(BUILT_IN[17]) && Plain(BUILT_IN[18]) && Plain(BUILT_IN[19])
  {
  }

  lemma NestedBuiltIn()
    ensures BUILT_IN[0] == BUILT_IN[1] + "{locationId}/space/"
  {
  }

  /** All built-in prefixes are plain except the first one, which starts with the second. */
  lemma BuiltInStart(k: nat) returns (a: Path, s: Path)
    requires k < |BUILT_IN|
    ensures Plain(a) && BUILT_IN[k] == a + s && a in BUILT_IN
  {
    PlainBuiltIns();
    PlainAuthBuiltIns();
    MorePlainBuiltIns();
    OtherPlainBuiltIns();
    if k == 0 {
      NestedBuiltIn();
      a, s := BUILT_IN[1], "{locationId}/space/";
    } else {
      a, s := BUILT_IN[k], "";
      assert a + s == a;
    }
  }

  /** As long as no plugin uses variables, every path has at most one owner. */
  lemma PlainPrefixesHaveOneOwner(prefixes: iset<Path>)
    requires forall p | p in prefixes :: Plain(p)
    ensures AlwaysOneOwner(prefixes, BUILT_IN)
  {
    forall p, b | p in prefixes && !Conflicts(p, BUILT_IN) && b in BUILT_IN
      ensures !SharePaths(Routed(p), b)
    {
      var k :| 0 <= k < |BUILT_IN| && BUILT_IN[k] == b;
      var a, s := BuiltInStart(k);
      if SharePaths(Routed(p), b) {
        PlainShare(p, a, s);
      }
    }
    forall p, q | p in prefixes && q in prefixes && SharePaths(Routed(p), Routed(q))
      ensures Comparable(p, q)
    {
      assert Routed(q) == q + Routed(q)[|q|..];
      PlainShare(p, q, Routed(q)[|q|..]);
    }
    AlwaysOneOwnerIff(prefixes, BUILT_IN);
  }

  lemma SecondCharacter(k: nat)
    requires k < |BUILT_IN|
    ensures |BUILT_IN[k]| > 1 && BUILT_IN[k][1] != '{' && BUILT_IN[k][1] != 'f'
  {
  }

  lemma DifferentSecond(p: Path, q: Path)
    requires |p| > 1 && |q| > 1 && p[1] != q[1]
    ensures !Comparable(p, q)
  {
  }

  lemma FooIsUnderBoth()
    ensures FallsUnder("/foo/a", "/{x}/") && FallsUnder("/foo/a", "/foo/")
  {
    var slash := Literal('/');
    assert Parse("/") == Some([slash]) by {
      assert "/"[1..] == "" && [slash] + [] == [slash];
    }
    assert Parse("{x}/") == Some([Variable, slash]) by {
      assert "{x}/"[1..] == "x}/" && "x}/"[1..] == "}/" && "x}/"[2..] == "/";
      assert VariableEnd("}/", 1) == Some(1) && VariableEnd("x}/", 1) == Some(2);
      assert [Variable] + [slash] == [Variable, slash];
    }
    assert Parse("/{x}/") == Some([slash, Variable, slash]) by {
      assert "/{x}/"[1..] == "{x}/" && [slash] + [Variable, slash] == [slash, Variable, slash];
    }
    assert Under("/a", [Literal('/')]);
    assert Under("o/a", [Variable, Literal('/')]);
  }

  /** With a variable in one of them, two plugins get prefixes that share the path `/foo/a`. */
  lemma VariableIsNotSeen()
    ensures
      var mounts := MountPlugins(BUILT_IN, [Routes(true, "/{x}/", []), Routes(true, "/foo/", [])]);
      && mounts == [Mount("/{x}/", 0), Mount("/foo/", 1)]
      && Reaches("/foo/a", "/{x}/") && Reaches("/foo/a", "/foo/")
  {
    forall k | 0 <= k < |BUILT_IN|
      ensures !Comparable("/{x}/", BUILT_IN[k]) && !Comparable("/foo/", BUILT_IN[k])
    {
      SecondCharacter(k);
      DifferentSecond("/{x}/", BUILT_IN[k]);
      DifferentSecond("/foo/", BUILT_IN[k]);
    }
    DifferentSecond("/{x}/", "/foo/");
    TwoPlugins(BUILT_IN, "/{x}/", "/foo/");
    FooIsUnderBoth();
  }
}
