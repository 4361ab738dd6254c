/** The URL prefixes of plugins in the host's router, and the way a plugin becomes ready. */
module PluginRoutes {
  import opened Wrappers

  type Path = string

  /** `strings.HasPrefix`. */
  predicate HasPrefix(s: Path, prefix: Path) {
    prefix <= s
  }

  predicate Comparable(p: Path, q: Path) {
    HasPrefix(p, q) || HasPrefix(q, p)
  }

  const BUILT_IN: seq<Path> := [
    "/location/{locationId}/space/", "/location/", "/booking/", "/buddy/", "/organization/",
    "/auth-provider/", "/auth-attempt/", "/auth/", "/group/", "/user/", "/preference/",
    "/recurring-booking/", "/stats/", "/search/", "/setting/", "/space-attribute/",
    "/confluence/", "/uc/", "/healthcheck", "/kiosk/"]

  predicate Conflicts(prefix: Path, registered: seq<Path>) {
    exists b :: b in registered && Comparable(prefix, b)
  }

  method PluginPrefixConflicts(prefix: Path, registered: seq<Path>) returns (conflict: bool)
    ensures conflict == Conflicts(prefix, registered)
  {
    for i := 0 to |registered|
      invariant forall k | 0 <= k < i :: !Comparable(prefix, registered[k])
    {
      if HasPrefix(prefix, registered[i]) || HasPrefix(registered[i], prefix) {
        assert registered[i] in registered;
        return true;
      }
    }
    conflict := false;
  }

  /** A plugin as the router build sees it. */
  datatype Routes = Routes(resolved: bool, basePath: Path, legacyPrefixes: seq<Path>)

  /** A prefix handed to the router, with the number of the plugin that serves it. */
  datatype Mount = Mount(prefix: Path, plugin: nat)

  function Prefixes(mounts: seq<Mount>): seq<Path> {
    seq(|mounts|, i requires 0 <= i < |mounts| => mounts[i].prefix)
  }

  /** No two mounts overlap, and none overlaps a built-in prefix. */
  ghost predicate Separate(mounts: seq<Mount>, builtIn: seq<Path>) {
    && (forall i, j | 0 <= i < j < |mounts| :: !Comparable(mounts[i].prefix, mounts[j].prefix))
    && forall i, b | 0 <= i < |mounts| && b in builtIn :: !Comparable(mounts[i].prefix, b)
  }

  /** Every mount is a prefix that its plugin asked for. */
  predicate Requested(mounts: seq<Mount>, plugins: seq<Routes>) {
    forall i | 0 <= i < |mounts| ::
      && mounts[i].plugin < |plugins|
      && plugins[mounts[i].plugin].resolved
      && var p := plugins[mounts[i].plugin];
         mounts[i].prefix == p.basePath || mounts[i].prefix in p.legacyPrefixes
  }

  function PrefixesOf(p: Routes): seq<Path> {
    [p.basePath] + p.legacyPrefixes
  }

  /** A prefix is served: it is mounted itself, or it overlaps a built-in prefix or another mount. */
  predicate Settled(prefix: Path, mounts: seq<Mount>, builtIn: seq<Path>) {
    Conflicts(prefix, builtIn) || Conflicts(prefix, Prefixes(mounts))
  }

  lemma MountKeepsSeparate(mounts: seq<Mount>, builtIn: seq<Path>, m: Mount)
    requires Separate(mounts, builtIn) && !Conflicts(m.prefix, builtIn + Prefixes(mounts))
    ensures Separate(mounts + [m], builtIn)
  {
    forall i | 0 <= i < |mounts|
      ensures !Comparable(mounts[i].prefix, m.prefix)
    {
      assert Prefixes(mounts)[i] in builtIn + Prefixes(mounts);
    }
  }

  /** More mounts settle no fewer prefixes. */
  lemma SettledStays(p: Path, mounts: seq<Mount>, after: seq<Mount>, builtIn: seq<Path>)
    requires mounts <= after && Settled(p, mounts, builtIn)
    ensures Settled(p, after, builtIn)
  {
    if !Conflicts(p, builtIn) {
      var b :| b in Prefixes(mounts) && Comparable(p, b);
      var i :| 0 <= i < |mounts| && Prefixes(mounts)[i] == b;
      assert Prefixes(after)[i] == b;
      assert b in Prefixes(after);
    }
  }

  /** The mounts after a plugin's prefixes have been tried one after the other. */
  function MountPrefixes(mounts: seq<Mount>, builtIn: seq<Path>, prefixes: seq<Path>, k: nat): seq<Mount>
    decreases |prefixes|
  {
    if prefixes == [] then mounts
    else
      var conflict := Conflicts(prefixes[0], builtIn + Prefixes(mounts));
      var next := if conflict then mounts else mounts + [Mount(prefixes[0], k)];
      MountPrefixes(next, builtIn, prefixes[1..], k)
  }

  /** The mounts of all plugins whose routes are known, in their order. */
  function MountPlugins(builtIn: seq<Path>, plugins: seq<Routes>): seq<Mount> {
    if plugins == [] then []
    else
      var k := |plugins| - 1;
      var mounts := MountPlugins(builtIn, plugins[..k]);
      if plugins[k].resolved then MountPrefixes(mounts, builtIn, PrefixesOf(plugins[k]), k) else mounts
  }

  method InitializeRouter(builtIn: seq<Path>, plugins: seq<Routes>) returns (mounts: seq<Mount>)
    ensures mounts == MountPlugins(builtIn, plugins)
  {
    mounts := [];
    for k := 0 to |plugins|
      invariant mounts == MountPlugins(builtIn, plugins[..k])
    {
      assert plugins[..k + 1][..k] == plugins[..k];
      if plugins[k].resolved {
        var prefixes := PrefixesOf(plugins[k]);
        ghost var before := mounts;
        for j := 0 to |prefixes|
          invariant MountPrefixes(mounts, builtIn, prefixes[j..], k) == MountPrefixes(before, builtIn, prefixes, k)
        {
          var conflict := PluginPrefixConflicts(prefixes[j], builtIn + Prefixes(mounts));
          assert prefixes[j..][1..] == prefixes[j + 1..];
          if !conflict {
            mounts := mounts + [Mount(prefixes[j], k)];
          }
        }
      }
    }
    assert plugins[..|plugins|] == plugins;
  }

  /** The state of the mounting loop after its first prefix. */
  function MountOne(mounts: seq<Mount>, builtIn: seq<Path>, prefix: Path, k: nat): seq<Mount> {
    if Conflicts(prefix, builtIn + Prefixes(mounts)) then mounts else mounts + [Mount(prefix, k)]
  }

  lemma {:induction false} MountPrefixesKeep(mounts: seq<Mount>, builtIn: seq<Path>, prefixes: seq<Path>, k: nat)
    requires Separate(mounts, builtIn)
    ensures
      var after := MountPrefixes(mounts, builtIn, prefixes, k);
      && mounts <= after
      && Separate(after, builtIn)
      && (forall i | |mounts| <= i < |after| :: after[i].plugin == k && after[i].prefix in prefixes)
    decreases |prefixes|
  {
    if prefixes != [] {
      if !Conflicts(prefixes[0], builtIn + Prefixes(mounts)) {
        MountKeepsSeparate(mounts, builtIn, Mount(prefixes[0], k));
      }
      MountPrefixesKeep(MountOne(mounts, builtIn, prefixes[0], k), builtIn, prefixes[1..], k);
    }
  }

  lemma FirstIsSettled(mounts: seq<Mount>, builtIn: seq<Path>, p: Path, k: nat)
    ensures Settled(p, MountOne(mounts, builtIn, p, k), builtIn)
  {
    var after := MountOne(mounts, builtIn, p, k);
    if Conflicts(p, builtIn + Prefixes(mounts)) {
      var b :| b in builtIn + Prefixes(mounts) && Comparable(p, b);
      assert b in builtIn || b in Prefixes(mounts);
    } else {
      assert Prefixes(after)[|mounts|] == p;
      assert p in Prefixes(after);
    }
  }

  lemma {:induction false} MountPrefixesSettle(
      mounts: seq<Mount>, builtIn: seq<Path>, prefixes: seq<Path>, k: nat, p: Path)
    requires Separate(mounts, builtIn) && p in prefixes
    ensures Settled(p, MountPrefixes(mounts, builtIn, prefixes, k), builtIn)
    decreases |prefixes|
  {
    var next := MountOne(mounts, builtIn, prefixes[0], k);
    if !Conflicts(prefixes[0], builtIn + Prefixes(mounts)) {
      MountKeepsSeparate(mounts, builtIn, Mount(prefixes[0], k));
    }
    if p == prefixes[0] {
      FirstIsSettled(mounts, builtIn, p, k);
      MountPrefixesKeep(next, builtIn, prefixes[1..], k);
      SettledStays(p, next, MountPrefixes(next, builtIn, prefixes[1..], k), builtIn);
    } else {
      MountPrefixesSettle(next, builtIn, prefixes[1..], k, p);
    }
  }

  lemma {:induction false} MountsSeparate(builtIn: seq<Path>, plugins: seq<Routes>)
    ensures Separate(MountPlugins(builtIn, plugins), builtIn)
    decreases |plugins|
  {
    if plugins != [] {
      var k := |plugins| - 1;
      MountsSeparate(builtIn, plugins[..k]);
      MountPrefixesKeep(MountPlugins(builtIn, plugins[..k]), builtIn, PrefixesOf(plugins[k]), k);
    }
  }

  lemma {:induction false} MountsRequested(builtIn: seq<Path>, plugins: seq<Routes>)
    ensures Requested(MountPlugins(builtIn, plugins), plugins)
    decreases |plugins|
  {
    if plugins != [] {
      var k := |plugins| - 1;
      MountsRequested(builtIn, plugins[..k]);
      MountsSeparate(builtIn, plugins[..k]);
      MountPrefixesKeep(MountPlugins(builtIn, plugins[..k]), builtIn, PrefixesOf(plugins[k]), k);
    }
  }

  lemma {:induction false} PrefixSettled(builtIn: seq<Path>, plugins: seq<Routes>, k: nat, p: Path)
    requires k < |plugins| && plugins[k].resolved && p in PrefixesOf(plugins[k])
    ensures Settled(p, MountPlugins(builtIn, plugins), builtIn)
    decreases |plugins|
  {
    var n := |plugins| - 1;
    var before := MountPlugins(builtIn, plugins[..n]);
    MountsSeparate(builtIn, plugins[..n]);
    if k < n {
      PrefixSettled(builtIn, plugins[..n], k, p);
      MountPrefixesKeep(before, builtIn, PrefixesOf(plugins[n]), n);
      SettledStays(p, before, MountPlugins(builtIn, plugins), builtIn);
    } else {
      MountPrefixesSettle(before, builtIn, PrefixesOf(plugins[n]), n, p);
    }
  }

  /**
    Whatever prefixes plugins ask for, the mounts keep apart from each other and from the built-in
    prefixes; each was asked for by its plugin; and a prefix is passed over only if it overlaps one
    that is in place.
   */
  lemma MountsSeparateAndComplete(builtIn: seq<Path>, plugins: seq<Routes>)
    ensures
      var mounts := MountPlugins(builtIn, plugins);
      && Separate(mounts, builtIn)
      && Requested(mounts, plugins)
      && forall k, p | 0 <= k < |plugins| && plugins[k].resolved
                       && (p == plugins[k].basePath || p in plugins[k].legacyPrefixes) ::
           Settled(p, mounts, builtIn)
  {
    MountsSeparate(builtIn, plugins);
    MountsRequested(builtIn, plugins);
    forall k, p | 0 <= k < |plugins| && plugins[k].resolved
                  && (p == plugins[k].basePath || p in plugins[k].legacyPrefixes)
      ensures Settled(p, MountPlugins(builtIn, plugins), builtIn)
    {
      PrefixSettled(builtIn, plugins, k, p);
    }
  }

  /** What a plugin gets depends on the plugins before it only; later ones cannot take it away. */
  lemma {:induction false} LaterPluginsTakeNothing(builtIn: seq<Path>, plugins: seq<Routes>, k: nat)
    requires k <= |plugins|
    ensures MountPlugins(builtIn, plugins[..k]) <= MountPlugins(builtIn, plugins)
    decreases |plugins|
  {
    if k == |plugins| {
      assert plugins[..k] == plugins;
    } else {
      var n := |plugins| - 1;
      LaterPluginsTakeNothing(builtIn, plugins[..n], k);
      assert plugins[..n][..k] == plugins[..k];
      MountsSeparate(builtIn, plugins[..n]);
      MountPrefixesKeep(MountPlugins(builtIn, plugins[..n]), builtIn, PrefixesOf(plugins[n]), n);
    }
  }

  // ----- a plugin that is reached late ------------------------------------------------------------------

  /** The prefixes that plugin `k` gets, now that its routes are known, before later plugins are considered. */
  function Gained(builtIn: seq<Path>, plugins: seq<Routes>, k: nat, routes: Routes): seq<Mount>
    requires k < |plugins|
  {
    var base := MountPlugins(builtIn, plugins[..k]);
    var after := MountPrefixes(base, builtIn, PrefixesOf(routes), k);
    if |base| <= |after| then after[|base|..] else []
  }

  /** A mount of plugins after the `k`-th overlaps something that plugin `k` would now get. */
  ghost predicate Overruled(builtIn: seq<Path>, plugins: seq<Routes>, k: nat, routes: Routes, m: Mount)
    requires k < |plugins|
  {
    m.plugin > k && exists g :: g in Gained(builtIn, plugins, k, routes) && Comparable(m.prefix, g.prefix)
  }

  predicate NoneOverlaps(gained: seq<Mount>, mounts: seq<Mount>) {
    forall g, m | g in gained && m in mounts :: !Comparable(m.prefix, g.prefix)
  }

  lemma ConflictsWithMore(p: Path, builtIn: seq<Path>, base: seq<Mount>, gained: seq<Mount>, rest: seq<Mount>)
    requires forall g | g in gained :: !Comparable(p, g.prefix)
    ensures Conflicts(p, builtIn + Prefixes(base + gained + rest)) <==> Conflicts(p, builtIn + Prefixes(base + rest))
  {
    var more, less := base + gained + rest, base + rest;
    if Conflicts(p, builtIn + Prefixes(more)) {
      var q :| q in builtIn + Prefixes(more) && Comparable(p, q);
      if q !in builtIn {
        var i :| 0 <= i < |more| && more[i].prefix == q;
        assert more[i] in gained || more[i] in less;
        if more[i] in less {
          MountListed(less, more[i]);
        }
      }
    }
    if Conflicts(p, builtIn + Prefixes(less)) {
      var q :| q in builtIn + Prefixes(less) && Comparable(p, q);
      if q !in builtIn {
        var i :| 0 <= i < |less| && less[i].prefix == q;
        assert less[i] in more;
        MountListed(more, less[i]);
      }
    }
  }

  lemma MountListed(mounts: seq<Mount>, m: Mount)
    requires m in mounts
    ensures m.prefix in Prefixes(mounts)
  {
    var i :| 0 <= i < |mounts| && mounts[i] == m;
    assert Prefixes(mounts)[i] == m.prefix;
  }

  lemma StillConflicts(p: Path, builtIn: seq<Path>, base: seq<Mount>, gained: seq<Mount>, rest: seq<Mount>)
    requires Conflicts(p, builtIn + Prefixes(base + rest))
    ensures Conflicts(p, builtIn + Prefixes(base + gained + rest))
  {
    var more, less := base + gained + rest, base + rest;
    var q :| q in builtIn + Prefixes(less) && Comparable(p, q);
    if q !in builtIn {
      var i :| 0 <= i < |less| && less[i].prefix == q;
      assert less[i] in more;
      MountListed(more, less[i]);
    }
  }

  /** One prefix is mounted, or not, regardless of mounts in between that it does not overlap. */
  lemma MountOneBeside(
      builtIn: seq<Path>, base: seq<Mount>, gained: seq<Mount>, rest: seq<Mount>, p: Path, k: nat)
    returns (rest': seq<Mount>)
    requires MountOne(base + rest, builtIn, p, k) == base + rest || forall g | g in gained :: !Comparable(p, g.prefix)
    ensures MountOne(base + rest, builtIn, p, k) == base + rest'
    ensures MountOne(base + gained + rest, builtIn, p, k) == base + gained + rest'
  {
    if Conflicts(p, builtIn + Prefixes(base + rest)) {
      StillConflicts(p, builtIn, base, gained, rest);
      rest' := rest;
    } else {
      assert |MountOne(base + rest, builtIn, p, k)| == |base + rest| + 1;
      ConflictsWithMore(p, builtIn, base, gained, rest);
      rest' := rest + [Mount(p, k)];
      assert base + rest + [Mount(p, k)] == base + rest';
      assert base + gained + rest + [Mount(p, k)] == base + gained + rest';
    }
  }

  lemma MountOneGrows(mounts: seq<Mount>, builtIn: seq<Path>, prefixes: seq<Path>, k: nat)
    requires Separate(mounts, builtIn) && prefixes != []
    ensures
      var next := MountOne(mounts, builtIn, prefixes[0], k);
      && Separate(next, builtIn)
      && next <= MountPrefixes(mounts, builtIn, prefixes, k) == MountPrefixes(next, builtIn, prefixes[1..], k)
  {
    if !Conflicts(prefixes[0], builtIn + Prefixes(mounts)) {
      MountKeepsSeparate(mounts, builtIn, Mount(prefixes[0], k));
    }
    MountPrefixesKeep(MountOne(mounts, builtIn, prefixes[0], k), builtIn, prefixes[1..], k);
  }

  /** Mounts in between that overlap none of the new ones make no difference to these. */
  lemma {:induction false} PrefixesBesideGained(
      builtIn: seq<Path>, base: seq<Mount>, gained: seq<Mount>, rest: seq<Mount>, prefixes: seq<Path>, k: nat)
    requires Separate(base + rest, builtIn)
    requires
      var after := MountPrefixes(base + rest, builtIn, prefixes, k);
      |base| <= |after| && NoneOverlaps(gained, after[|base|..])
    ensures
      var after := MountPrefixes(base + rest, builtIn, prefixes, k);
      MountPrefixes(base + gained + rest, builtIn, prefixes, k) == base + gained + after[|base|..]
    decreases |prefixes|
  {
    if prefixes == [] {
      assert (base + rest)[|base|..] == rest;
    } else {
      var after := MountPrefixes(base + rest, builtIn, prefixes, k);
      var next := MountOne(base + rest, builtIn, prefixes[0], k);
      MountOneGrows(base + rest, builtIn, prefixes, k);
      if next != base + rest {
        assert next[|base + rest|] == Mount(prefixes[0], k);
        assert after[|base|..][|rest|] == Mount(prefixes[0], k);
      }
      var rest' := MountOneBeside(builtIn, base, gained, rest, prefixes[0], k);
      PrefixesBesideGained(builtIn, base, gained, rest', prefixes[1..], k);
    }
  }

  /** The last plugin adds its own mounts after those of the others. */
  lemma LastPlugin(builtIn: seq<Path>, plugins: seq<Routes>)
    requires plugins != []
    ensures
      var n := |plugins| - 1;
      var before, all := MountPlugins(builtIn, plugins[..n]), MountPlugins(builtIn, plugins);
      && Separate(before, builtIn)
      && before <= all
      && (!plugins[n].resolved ==> all == before)
      && forall i | |before| <= i < |all| :: all[i].plugin == n
  {
    var n := |plugins| - 1;
    MountsSeparate(builtIn, plugins[..n]);
    MountPrefixesKeep(MountPlugins(builtIn, plugins[..n]), builtIn, PrefixesOf(plugins[n]), n);
  }

  /** What comes after the mounts of the first `k` plugins belongs to later ones. */
  lemma {:induction false} LaterMounts(builtIn: seq<Path>, plugins: seq<Routes>, k: nat)
    requires k < |plugins| && !plugins[k].resolved
    ensures
      var base, all := MountPlugins(builtIn, plugins[..k]), MountPlugins(builtIn, plugins);
      base <= all && forall i | |base| <= i < |all| :: all[i].plugin > k
    decreases |plugins|
  {
    LastPlugin(builtIn, plugins);
    var n := |plugins| - 1;
    if k < n {
      assert plugins[..n][..k] == plugins[..k];
      LaterMounts(builtIn, plugins[..n], k);
    }
  }

  lemma NewBuildOfLast(builtIn: seq<Path>, plugins: seq<Routes>, k: nat, routes: Routes)
    requires k + 1 == |plugins| && !plugins[k].resolved && routes.resolved
    ensures
      var base := MountPlugins(builtIn, plugins[..k]);
      && base == MountPlugins(builtIn, plugins)
      && MountPlugins(builtIn, plugins[k := routes]) == base + Gained(builtIn, plugins, k, routes)
  {
    LastPlugin(builtIn, plugins);
    assert plugins[k := routes][..k] == plugins[..k];
    MountPrefixesKeep(MountPlugins(builtIn, plugins[..k]), builtIn, PrefixesOf(routes), k);
  }

  lemma NotOverruledBefore(builtIn: seq<Path>, plugins: seq<Routes>, k: nat, routes: Routes)
    requires k + 1 < |plugins| && !plugins[k].resolved
    requires forall m | m in MountPlugins(builtIn, plugins) :: !Overruled(builtIn, plugins, k, routes, m)
    ensures
      var front := plugins[..|plugins| - 1];
      && Gained(builtIn, front, k, routes) == Gained(builtIn, plugins, k, routes)
      && forall m | m in MountPlugins(builtIn, front) :: !Overruled(builtIn, front, k, routes, m)
  {
    var front := plugins[..|plugins| - 1];
    LastPlugin(builtIn, plugins);
    assert front[..k] == plugins[..k];
    forall m | m in MountPlugins(builtIn, front)
      ensures !Overruled(builtIn, front, k, routes, m)
    {
      assert !Overruled(builtIn, plugins, k, routes, m);
    }
  }

  /** The last plugin's part in the build with and without the routes of plugin `k`. */
  lemma LastPluginOfNewBuild(builtIn: seq<Path>, plugins: seq<Routes>, k: nat, routes: Routes)
    requires k + 1 < |plugins|
    ensures
      var n := |plugins| - 1;
      var before := MountPlugins(builtIn, plugins[..n][k := routes]);
      MountPlugins(builtIn, plugins[k := routes]) ==
        if plugins[n].resolved then MountPrefixes(before, builtIn, PrefixesOf(plugins[n]), n) else before
  {
    var n := |plugins| - 1;
    assert plugins[k := routes][..n] == plugins[..n][k := routes];
  }

  /** If nothing is overruled, the new build is the old one with the gained mounts put in. */
  lemma {:induction false} NewBuild(builtIn: seq<Path>, plugins: seq<Routes>, k: nat, routes: Routes)
    requires k < |plugins| && !plugins[k].resolved && routes.resolved
    requires forall m | m in MountPlugins(builtIn, plugins) :: !Overruled(builtIn, plugins, k, routes, m)
    ensures
      var base, all := MountPlugins(builtIn, plugins[..k]), MountPlugins(builtIn, plugins);
      && base <= all
      && MountPlugins(builtIn, plugins[k := routes]) == base + Gained(builtIn, plugins, k, routes) + all[|base|..]
    decreases |plugins|
  {
    var n := |plugins| - 1;
    if k == n {
      NewBuildOfLast(builtIn, plugins, k, routes);
    } else {
      var front := plugins[..n];
      assert front[..k] == plugins[..k];
      NotOverruledBefore(builtIn, plugins, k, routes);
      NewBuild(builtIn, front, k, routes);
      LastPluginOfNewBuild(builtIn, plugins, k, routes);
      if plugins[n].resolved {
        OnePluginMore(builtIn, plugins, k, routes);
      } else {
        assert MountPlugins(builtIn, plugins) == MountPlugins(builtIn, front);
      }
    }
  }

  lemma OnePluginMore(builtIn: seq<Path>, plugins: seq<Routes>, k: nat, routes: Routes)
    requires k < |plugins| - 1 && !plugins[k].resolved && plugins[|plugins| - 1].resolved
    requires forall m | m in MountPlugins(builtIn, plugins) :: !Overruled(builtIn, plugins, k, routes, m)
    ensures
      var n, base := |plugins| - 1, MountPlugins(builtIn, plugins[..k]);
      var front, all := MountPlugins(builtIn, plugins[..n]), MountPlugins(builtIn, plugins);
      && base <= front && base <= all
      && MountPrefixes(base + Gained(builtIn, plugins, k, routes) + front[|base|..], builtIn, PrefixesOf(plugins[n]), n)
         == base + Gained(builtIn, plugins, k, routes) + all[|base|..]
  {
    var n, base := |plugins| - 1, MountPlugins(builtIn, plugins[..k]);
    var front, all := MountPlugins(builtIn, plugins[..n]), MountPlugins(builtIn, plugins);
    var gained := Gained(builtIn, plugins, k, routes);
    LastPlugin(builtIn, plugins);
    LaterMounts(builtIn, plugins, k);
    assert plugins[..n][..k] == plugins[..k];
    LaterMounts(builtIn, plugins[..n], k);
    assert front == base + front[|base|..];
    forall g, m | g in gained && m in all[|base|..]
      ensures !Comparable(m.prefix, g.prefix)
    {
      assert m in all && !Overruled(builtIn, plugins, k, routes, m);
    }
    PrefixesBesideGained(builtIn, base, gained, front[|base|..], PrefixesOf(plugins[n]), n);
  }

  lemma SeparateMounts(mounts: seq<Mount>, builtIn: seq<Path>, m: Mount, g: Mount)
    requires Separate(mounts, builtIn) && m in mounts && g in mounts && m != g
    ensures !Comparable(m.prefix, g.prefix)
  {
    var i :| 0 <= i < |mounts| && mounts[i] == m;
    var j :| 0 <= j < |mounts| && mounts[j] == g;
    assert i < j || j < i;
  }

  /** What a plugin gains is in the new build. */
  lemma GainedIsMounted(builtIn: seq<Path>, plugins: seq<Routes>, k: nat, routes: Routes, g: Mount)
    requires k < |plugins| && routes.resolved && g in Gained(builtIn, plugins, k, routes)
    ensures g.plugin == k && g in MountPlugins(builtIn, plugins[k := routes])
  {
    var updated := plugins[k := routes];
    var base := MountPlugins(builtIn, plugins[..k]);
    assert updated[..k + 1][..k] == plugins[..k];
    MountsSeparate(builtIn, plugins[..k]);
    MountPrefixesKeep(base, builtIn, PrefixesOf(routes), k);
    LaterPluginsTakeNothing(builtIn, updated, k + 1);
    var after := MountPlugins(builtIn, updated[..k + 1]);
    assert g in after[|base|..];
  }

  /**
    When plugin `k` is reached at last and the router is built anew, all mounts that were in use stay
    exactly if none of a later plugin overlaps what plugin `k` now gets.
   */
  lemma MountsStayIff(builtIn: seq<Path>, plugins: seq<Routes>, k: nat, routes: Routes)
    requires k < |plugins| && !plugins[k].resolved && routes.resolved
    ensures
      (forall m | m in MountPlugins(builtIn, plugins) :: m in MountPlugins(builtIn, plugins[k := routes])) <==>
      (forall m | m in MountPlugins(builtIn, plugins) :: !Overruled(builtIn, plugins, k, routes, m))
  {
    var before, after := MountPlugins(builtIn, plugins), MountPlugins(builtIn, plugins[k := routes]);
    if forall m | m in before :: !Overruled(builtIn, plugins, k, routes, m) {
      NewBuild(builtIn, plugins, k, routes);
      var base := MountPlugins(builtIn, plugins[..k]);
      assert before == base + before[|base|..];
    } else {
      var m :| m in before && Overruled(builtIn, plugins, k, routes, m);
      var g :| g in Gained(builtIn, plugins, k, routes) && Comparable(m.prefix, g.prefix);
      GainedIsMounted(builtIn, plugins, k, routes, g);
      MountsSeparate(builtIn, plugins[k := routes]);
      if m in after {
        SeparateMounts(after, builtIn, m, g);
      }
    }
  }

  /** A prefix that a later plugin was using is taken over by one that comes earlier and is reached last. */
  lemma EarlierPluginTakesOver(builtIn: seq<Path>, prefix: Path)
    requires !Conflicts(prefix, builtIn)
    ensures MountPlugins(builtIn, [Routes(false, "", []), Routes(true, prefix, [])]) == [Mount(prefix, 1)]
    ensures MountPlugins(builtIn, [Routes(true, prefix, []), Routes(true, prefix, [])]) == [Mount(prefix, 0)]
  {
    var late, plugin := Routes(false, "", []), Routes(true, prefix, []);
    MountSingle(builtIn, prefix, 0);
    MountSingle(builtIn, prefix, 1);
    MountTwo(builtIn, late, plugin);
    MountTwo(builtIn, plugin, plugin);
  }

  lemma MountTwo(builtIn: seq<Path>, first: Routes, second: Routes)
    ensures
      var alone := if first.resolved then MountPrefixes([], builtIn, PrefixesOf(first), 0) else [];
      && MountPlugins(builtIn, [first]) == alone
      && MountPlugins(builtIn, [first, second]) ==
           if second.resolved then MountPrefixes(alone, builtIn, PrefixesOf(second), 1) else alone
  {
    assert [first][..0] == [] && [first, second][..1] == [first];
  }

  lemma MountSingle(builtIn: seq<Path>, prefix: Path, k: nat)
    requires !Conflicts(prefix, builtIn)
    ensures MountPrefixes([], builtIn, [prefix], k) == [Mount(prefix, k)]
    ensures MountPrefixes([Mount(prefix, 0)], builtIn, [prefix], k) == [Mount(prefix, 0)]
    ensures PrefixesOf(Routes(true, prefix, [])) == [prefix]
  {
    assert builtIn + Prefixes([]) == builtIn;
    assert [prefix][1..] == [];
    assert Prefixes([Mount(prefix, 0)])[0] == prefix;
    assert prefix in builtIn + Prefixes([Mount(prefix, 0)]);
  }

  /** Two prefixes of one path are comparable. */
  lemma PrefixesOfOnePath(path: Path, p: Path, q: Path)
    requires HasPrefix(path, p) && HasPrefix(path, q)
    ensures Comparable(p, q)
  {
    assert forall i | 0 <= i < |p| :: p[i] == path[i];
    assert forall i | 0 <= i < |q| :: q[i] == path[i];
  }

  /** An empty prefix would take over everything; it is never mounted beside the built-in routes. */
  lemma EmptyPrefixNeverMounted(mounts: seq<Mount>, i: nat)
    requires Separate(mounts, BUILT_IN) && i < |mounts|
    ensures mounts[i].prefix != ""
  {
    assert BUILT_IN[0] in BUILT_IN;
    assert Comparable("", BUILT_IN[0]);
  }

  // ----- how a plugin becomes ready ---------------------------------------------------------------------

  /** A configured plugin: its routes once known, whether it is registered, whether it is ready. */
  datatype Plugin = Plugin(routes: Routes, registered: bool, ready: bool)

  /** What a plugin answers when asked for its routes, if it does. */
  type Answer = Option<(Path, seq<Path>)>

  /** What the router build reads. */
  function RoutesOf(plugins: seq<Plugin>): seq<Routes> {
    seq(|plugins|, i requires 0 <= i < |plugins| => plugins[i].routes)
  }

  /** In a built router every prefix of a plugin with known routes is served, unless it overlaps another. */
  lemma KnownRoutesAreSettled(plugins: seq<Plugin>, k: nat, p: Path)
    requires k < |plugins| && plugins[k].routes.resolved && p in PrefixesOf(plugins[k].routes)
    ensures Settled(p, MountPlugins(BUILT_IN, RoutesOf(plugins)), BUILT_IN)
  {
    PrefixSettled(BUILT_IN, RoutesOf(plugins), k, p);
  }

  class App {
    var plugins: seq<Plugin>
    var mounts: seq<Mount>
    var built: bool
    var registry: seq<nat>

    /**
      A ready plugin has known routes and is registered; it is registered once; and once the router
      has been built it always reflects the routes known so far.
     */
    ghost predicate Valid()
      reads this
    {
      && (forall i | 0 <= i < |plugins| && plugins[i].ready :: plugins[i].routes.resolved && plugins[i].registered)
      && (forall i, j | 0 <= i < j < |registry| :: registry[i] != registry[j])
      && (forall i | 0 <= i < |plugins| :: i in registry <==> plugins[i].registered)
      && (forall k | k in registry :: k < |plugins|)
      && (built ==> mounts == MountPlugins(BUILT_IN, RoutesOf(plugins)))
    }

    constructor (count: nat)
      ensures Valid() && |plugins| == count && !built
      ensures forall i | 0 <= i < count :: plugins[i] == Plugin(Routes(false, "", []), false, false)
    {
      plugins := seq(count, _ => Plugin(Routes(false, "", []), false, false));
      mounts, registry, built := [], [], false;
    }

    /** Known routes never change, and a plugin that gave them is not asked again. */
    method ResolvePluginRoutes(k: nat, answer: Answer) returns (ok: bool)
      requires k < |plugins|
      modifies this`plugins
      ensures ok == (old(plugins[k].routes.resolved) || answer.Some?)
      ensures plugins ==
        if !old(plugins[k].routes.resolved) && answer.Some? then
          old(plugins)[k := old(plugins[k]).(routes := Routes(true, answer.value.0, answer.value.1))]
        else old(plugins)
    {
      if plugins[k].routes.resolved {
        return true;
      }
      if answer.None? {
        return false;
      }
      plugins := plugins[k := plugins[k].(routes := Routes(true, answer.value.0, answer.value.1))];
      ok := true;
    }

    /** The attempt made while the host starts, before the router is built. */
    method ResolveAtStartup(k: nat, answer: Answer)
      requires Valid() && k < |plugins| && !built
      modifies this`plugins
      ensures Valid() && |plugins| == |old(plugins)|
      ensures plugins[k].routes.resolved == (old(plugins[k].routes.resolved) || answer.Some?)
    {
      var ok := ResolvePluginRoutes(k, answer);
    }

    method BuildRouter()
      requires Valid()
      modifies this`mounts, this`built
      ensures Valid() && built
    {
      mounts := InitializeRouter(BUILT_IN, RoutesOf(plugins));
      built := true;
    }

    /** Routes still unknown are fetched now, and the router is built anew to mount them. */
    method EnsureRoutes(k: nat, answer: Answer) returns (ok: bool)
      requires Valid() && k < |plugins|
      modifies this
      ensures Valid() && registry == old(registry) && (old(built) ==> built)
      ensures |plugins| == |old(plugins)|
      ensures ok == (old(plugins[k].routes.resolved) || answer.Some?) && ok == plugins[k].routes.resolved
      ensures plugins == old(plugins)[k := old(plugins[k]).(routes := plugins[k].routes)]
      ensures old(plugins[k].routes.resolved) ==> plugins == old(plugins)
    {
      if !plugins[k].routes.resolved {
        ok := ResolvePluginRoutes(k, answer);
        if !ok {
          return;
        }
        mounts := InitializeRouter(BUILT_IN, RoutesOf(plugins));
        built := true;
      }
      ok := true;
    }

    /** Only a registered plugin with known routes becomes ready. */
    method SetReady(k: nat, ready: bool)
      requires Valid() && k < |plugins| && (ready ==> plugins[k].routes.resolved && plugins[k].registered)
      modifies this`plugins
      ensures Valid() && plugins == old(plugins)[k := old(plugins[k]).(ready := ready)]
    {
      ghost var routes := RoutesOf(plugins);
      plugins := plugins[k := plugins[k].(ready := ready)];
      assert RoutesOf(plugins) == routes;
    }

    /** The guarded entry into the list of registered plugins. */
    method RegisterOnce(k: nat)
      requires Valid() && k < |plugins|
      modifies this`plugins, this`registry
      ensures Valid() && plugins == old(plugins)[k := old(plugins[k]).(registered := true)]
      ensures registry == if old(plugins[k].registered) then old(registry) else old(registry) + [k]
    {
      if !plugins[k].registered {
        registry := registry + [k];
        ghost var routes := RoutesOf(plugins);
        plugins := plugins[k := plugins[k].(registered := true)];
        assert RoutesOf(plugins) == routes;
      }
    }

    /**
      The sequence run on every connection. The plugin ends up ready exactly if each part of it
      succeeded; it is registered at most once, however often it connects.
     */
    method RegisterPluginOnConnect(k: nat, schemaOk: bool, answer: Answer, initOk: bool)
      requires Valid() && k < |plugins|
      modifies this
      ensures Valid() && |plugins| == |old(plugins)|
      ensures
        var known := old(plugins[k].routes.resolved) || answer.Some?;
        && plugins[k].ready == (old(plugins[k].ready) || (schemaOk && known && initOk))
        && plugins[k].registered == (old(plugins[k].registered) || (schemaOk && known))
      ensures old(plugins[k].routes.resolved) ==> plugins[k].routes == old(plugins[k].routes)
      ensures forall i | 0 <= i < |plugins| && i != k :: plugins[i] == old(plugins[i])
      ensures old(built) ==> built
    {
      if !schemaOk {
        return;
      }
      var ok := EnsureRoutes(k, answer);
      if !ok {
        return;
      }
      RegisterOnce(k);
      if initOk {
        SetReady(k, true);
      }
    }

    /** A lost connection takes the plugin out of service; its routes and registration stay. */
    method ConnectionLost(k: nat)
      requires Valid() && k < |plugins|
      modifies this`plugins
      ensures Valid() && plugins == old(plugins)[k := old(plugins[k]).(ready := false)]
    {
      SetReady(k, false);
    }
  }
}
