/** The settings table with a cache in front of it. */
module SettingsCache {
  import opened Wrappers

  /** Canonical organisation ids have a fixed length, that of a UUID in text form. */
  const ID_LENGTH := 36

  type Org = id: string | |id| == ID_LENGTH witness seq(ID_LENGTH, _ => '0')
  type Name = string

  function CacheKey(org: string, name: Name): string {
    org + "_" + name
  }

  /** No two settings of organisations with ids in `ids` share a key. */
  ghost predicate KeysApart(ids: iset<string>) {
    forall a, b, m: Name, n: Name {:trigger CacheKey(a, m), CacheKey(b, n)} |
      a in ids && b in ids && CacheKey(a, m) == CacheKey(b, n) :: a == b && m == n
  }

  /** `b` is `a`, an underscore, and perhaps something more. */
  predicate SharedStart(a: string, b: string) {
    a + "_" <= b
  }

  lemma SharedKeyMeansSharedStart(a: string, b: string, m: Name, n: Name)
    requires CacheKey(a, m) == CacheKey(b, n) && |a| <= |b|
    ensures (a == b && m == n) || SharedStart(a, b)
  {
    var key := CacheKey(a, m);
    assert key[..|a|] == a && key[|a|] == '_' && key[|a| + 1..] == m;
    assert key[..|b|] == b && key[|b| + 1..] == n;
    if |a| < |b| {
      assert b[..|a|] == a && b[|a|] == '_';
    }
  }

  lemma SharedStartMeansSharedKey(a: string, b: string)
    requires SharedStart(a, b)
    ensures a != b && CacheKey(a, b[|a| + 1..] + "_") == CacheKey(b, "")
  {
    assert b == a + "_" + b[|a| + 1..];
  }

  /** The plain concatenation keeps all settings apart for exactly those sets of ids. */
  lemma KeysApartIff(ids: iset<string>)
    ensures KeysApart(ids) <==> forall a, b | a in ids && b in ids :: !SharedStart(a, b)
  {
    if KeysApart(ids) {
      forall a, b | a in ids && b in ids
        ensures !SharedStart(a, b)
      {
        if SharedStart(a, b) {
          SharedStartMeansSharedKey(a, b);
        }
      }
    }
    if forall a, b | a in ids && b in ids :: !SharedStart(a, b) {
      forall a, b, m: Name, n: Name | a in ids && b in ids && CacheKey(a, m) == CacheKey(b, n)
        ensures a == b && m == n
      {
        if |a| <= |b| {
          SharedKeyMeansSharedStart(a, b, m, n);
        } else {
          SharedKeyMeansSharedStart(b, a, n, m);
        }
      }
    }
  }

  /** The fixed length of the ids is enough. */
  lemma KeyInjective(org: Org, name: Name, org': Org, name': Name)
    requires CacheKey(org, name) == CacheKey(org', name')
    ensures org == org' && name == name'
  {
    SharedKeyMeansSharedStart(org, org', name, name');
  }

  type Rows = map<(Org, Name), string>
  type Entries = map<string, string>

  /** Every cached entry equals the row of the table. */
  ghost predicate Coherent(rows: Rows, cache: Entries) {
    forall org: Org, name: Name {:trigger CacheKey(org, name)} ::
      CacheKey(org, name) in cache ==> (org, name) in rows && rows[(org, name)] == cache[CacheKey(org, name)]
  }

  /** What a query without the cache would yield. */
  function Query(rows: Rows, org: Org, name: Name): Option<string> {
    if (org, name) in rows then Some(rows[(org, name)]) else None
  }

  lemma CachedCopyCoherent(rows: Rows, cache: Entries, org: Org, name: Name, value: string)
    requires Coherent(rows, cache)
    ensures Coherent(rows[(org, name) := value], cache[CacheKey(org, name) := value])
    ensures Coherent(rows[(org, name) := value], cache) <==>
            (CacheKey(org, name) in cache ==> cache[CacheKey(org, name)] == value)
  {
    forall o: Org, n: Name | CacheKey(o, n) == CacheKey(org, name)
      ensures o == org && n == name
    {
      KeyInjective(o, n, org, name);
    }
  }

  lemma DeletedRowCoherent(rows: Rows, cache: Entries, org: Org, name: Name)
    requires Coherent(rows, cache)
    ensures Coherent(rows - {(org, name)}, cache - {CacheKey(org, name)})
    ensures Coherent(rows - {(org, name)}, cache) <==> CacheKey(org, name) !in cache
  {
    forall o: Org, n: Name | CacheKey(o, n) == CacheKey(org, name)
      ensures o == org && n == name
    {
      KeyInjective(o, n, org, name);
    }
  }

  lemma MoreRowsCoherent(rows: Rows, more: Rows, cache: Entries)
    requires Coherent(rows, cache) && rows.Keys <= more.Keys && forall k | k in rows :: more[k] == rows[k]
    ensures Coherent(more, cache)
  {
  }

  lemma FewerEntriesCoherent(rows: Rows, cache: Entries, keys: set<string>)
    requires Coherent(rows, cache)
    ensures Coherent(rows, cache - keys)
  {
  }

  /** The rows of an organisation. */
  function RowsOf(rows: Rows, org: Org): map<Name, string> {
    map n | n in (set k | k in rows && k.0 == org :: k.1) :: rows[(org, n)]
  }

  // ----- operations as functions of the state --------------------------------------------------------------

  datatype State = State(rows: Rows, cache: Entries)

  /**
    The operations. A write to the cache or a removal from it may fail without the caller being
    told; the flags and the set of `GetValues` say what took effect. Entries can also be lost, by
    age or for lack of room.
   */
  datatype Event =
    | SetValue(org: Org, name: Name, value: string, cached: bool)
    | DeleteValue(org: Org, name: Name, uncached: bool)
    | GetValue(org: Org, name: Name, cached: bool)
    | GetValues(org: Org, names: set<Name>)
    | Initialise(org: Org, defaults: map<Name, string>)
    | Lose(keys: set<string>)

  /** The keys of those rows of an organisation that are named in `names`. */
  function KeysOf(rows: Rows, org: Org, names: set<Name>): set<string> {
    set n | n in names && (org, n) in rows :: CacheKey(org, n)
  }

  /** The rows named in `names` enter the cache, in whatever order. */
  function CacheAll(rows: Rows, cache: Entries, org: Org, names: set<Name>): Entries {
    var keys := KeysOf(rows, org, names);
    map key | key in cache.Keys + keys :: if key in keys then ValueAt(rows, org, key) else cache[key]
  }

  /** The value of the row with this key. */
  function ValueAt(rows: Rows, org: Org, key: string): string {
    if |key| > ID_LENGTH && (org, key[ID_LENGTH + 1..]) in rows then rows[(org, key[ID_LENGTH + 1..])] else ""
  }

  /** Existing rows win over defaults. */
  function WithDefaults(rows: Rows, org: Org, defaults: map<Name, string>): Rows {
    var added: Rows := map k | k in (set n | n in defaults :: (org, n)) :: defaults[k.1];
    added + rows
  }

  function Next(s: State, e: Event): State {
    match e
    case SetValue(org, name, value, cached) =>
      State(s.rows[(org, name) := value], if cached then s.cache[CacheKey(org, name) := value] else s.cache)
    case DeleteValue(org, name, uncached) =>
      State(s.rows - {(org, name)}, if uncached then s.cache - {CacheKey(org, name)} else s.cache)
    case GetValue(org, name, cached) =>
      if CacheKey(org, name) !in s.cache && (org, name) in s.rows && cached then
        s.(cache := s.cache[CacheKey(org, name) := s.rows[(org, name)]])
      else s
    case GetValues(org, names) => s.(cache := CacheAll(s.rows, s.cache, org, names))
    case Initialise(org, defaults) => s.(rows := WithDefaults(s.rows, org, defaults))
    case Lose(keys) => s.(cache := s.cache - keys)
  }

  // ----- the store -------------------------------------------------------------------------------------------

  class SettingsStore {
    var rows: Rows
    var cache: Entries

    function Snapshot(): State
      reads this
    {
      State(rows, cache)
    }

    constructor ()
      ensures Snapshot() == State(map[], map[])
    {
      rows, cache := map[], map[];
    }

    method Set(org: Org, name: Name, value: string, cached: bool)
      modifies this
      ensures Snapshot() == Next(old(Snapshot()), SetValue(org, name, value, cached))
    {
      rows := rows[(org, name) := value];
      if cached {
        cache := cache[CacheKey(org, name) := value];
      }
    }

    method Delete(org: Org, name: Name, uncached: bool)
      modifies this
      ensures Snapshot() == Next(old(Snapshot()), DeleteValue(org, name, uncached))
    {
      rows := rows - {(org, name)};
      if uncached {
        cache := cache - {CacheKey(org, name)};
      }
    }

    /** With a coherent cache the answer is what the table holds, wherever it comes from. */
    method Get(org: Org, name: Name, cached: bool) returns (res: Option<string>)
      modifies this`cache
      ensures Snapshot() == Next(old(Snapshot()), GetValue(org, name, cached))
      ensures Coherent(rows, old(cache)) ==> res == Query(rows, org, name)
    {
      var key := CacheKey(org, name);
      if key in cache {
        return Some(cache[key]);
      }
      if (org, name) !in rows {
        return None;
      }
      var value := rows[(org, name)];
      if cached {
        cache := cache[key := value];
      }
      res := Some(value);
    }

    /** Reads all rows of an organisation past the cache, and caches those of `names` on the way. */
    method GetAll(org: Org, names: set<Name>) returns (res: map<Name, string>)
      modifies this`cache
      ensures Snapshot() == Next(old(Snapshot()), GetValues(org, names))
      ensures res == RowsOf(rows, org)
    {
      res := RowsOf(rows, org);
      var rest := res.Keys;
      ghost var done: set<Name> := {};
      CacheNone(rows, cache, org);
      while rest != {}
        invariant done + rest == res.Keys && done !! rest
        invariant cache == CacheAll(rows, old(cache), org, done * names)
        decreases rest
      {
        var n :| n in rest;
        if n in names {
          CacheOneMore(rows, old(cache), org, done * names, n);
          cache := cache[CacheKey(org, n) := res[n]];
          assert (done + {n}) * names == done * names + {n};
        } else {
          assert (done + {n}) * names == done * names;
        }
        done, rest := done + {n}, rest - {n};
      }
      CacheOnlyRows(rows, old(cache), org, names, done);
    }

    /** Default values are inserted for settings that have no row; the cache is not touched. */
    method InitDefaultSettingsForOrg(org: Org, defaults: map<Name, string>)
      modifies this`rows
      ensures Snapshot() == Next(old(Snapshot()), Initialise(org, defaults))
      ensures forall n ::
        Query(rows, org, n) ==
          (if (org, n) in old(rows) || n !in defaults then Query(old(rows), org, n) else Some(defaults[n]))
      ensures forall o: Org, n | o != org :: Query(rows, o, n) == Query(old(rows), o, n)
    {
      rows := WithDefaults(rows, org, defaults);
    }
  }

  lemma CacheNone(rows: Rows, cache: Entries, org: Org)
    ensures CacheAll(rows, cache, org, {}) == cache
  {
    assert KeysOf(rows, org, {}) == {};
  }

  lemma KeyParts(org: Org, name: Name)
    ensures CacheKey(org, name)[ID_LENGTH + 1..] == name && CacheKey(org, name)[..ID_LENGTH] == org
  {
  }

  lemma CacheOneMore(rows: Rows, cache: Entries, org: Org, names: set<Name>, n: Name)
    requires (org, n) in rows
    ensures CacheAll(rows, cache, org, names + {n}) ==
            CacheAll(rows, cache, org, names)[CacheKey(org, n) := rows[(org, n)]]
  {
    KeyParts(org, n);
    assert ValueAt(rows, org, CacheKey(org, n)) == rows[(org, n)];
    assert KeysOf(rows, org, names + {n}) == KeysOf(rows, org, names) + {CacheKey(org, n)};
  }

  lemma CacheOnlyRows(rows: Rows, cache: Entries, org: Org, names: set<Name>, all: set<Name>)
    requires all == RowsOf(rows, org).Keys
    ensures CacheAll(rows, cache, org, all * names) == CacheAll(rows, cache, org, names)
  {
    forall n | (org, n) in rows
      ensures n in all
    {
      var k := (org, n);
      assert k in rows && k.0 == org && k.1 == n;
    }
    assert KeysOf(rows, org, all * names) == KeysOf(rows, org, names);
  }

  // ----- coherence --------------------------------------------------------------------------------------------

  /**
    An operation that leaves a stale entry behind is one whose write to the cache fails while a
    differing entry is in place, or whose removal fails while there is an entry.
   */
  predicate Harmless(s: State, e: Event) {
    match e
    case SetValue(org, name, value, cached) =>
      cached || CacheKey(org, name) !in s.cache || s.cache[CacheKey(org, name)] == value
    case DeleteValue(org, name, uncached) => uncached || CacheKey(org, name) !in s.cache
    case _ => true
  }

  lemma CacheAllCoherent(rows: Rows, cache: Entries, org: Org, names: set<Name>)
    requires Coherent(rows, cache)
    ensures Coherent(rows, CacheAll(rows, cache, org, names))
  {
    var more := CacheAll(rows, cache, org, names);
    forall o: Org, n: Name | CacheKey(o, n) in more
      ensures (o, n) in rows && rows[(o, n)] == more[CacheKey(o, n)]
    {
      KeyParts(o, n);
      if CacheKey(o, n) in KeysOf(rows, org, names) {
        var m :| m in names && (org, m) in rows && CacheKey(org, m) == CacheKey(o, n);
        KeyInjective(org, m, o, n);
      }
    }
  }

  /** An operation keeps a coherent cache coherent exactly if it is harmless. */
  lemma CoherentIffHarmless(s: State, e: Event)
    requires Coherent(s.rows, s.cache)
    ensures Coherent(Next(s, e).rows, Next(s, e).cache) <==> Harmless(s, e)
  {
    match e {
      case SetValue(org, name, value, _) => CachedCopyCoherent(s.rows, s.cache, org, name, value);
      case DeleteValue(org, name, _) => DeletedRowCoherent(s.rows, s.cache, org, name);
      case GetValue(org, name, _) =>
        if (org, name) in s.rows {
          CachedCopyCoherent(s.rows, s.cache, org, name, s.rows[(org, name)]);
          assert s.rows[(org, name) := s.rows[(org, name)]] == s.rows;
        }
      case GetValues(org, names) => CacheAllCoherent(s.rows, s.cache, org, names);
      case Initialise(_, _) => MoreRowsCoherent(s.rows, Next(s, e).rows, s.cache);
      case Lose(keys) => FewerEntriesCoherent(s.rows, s.cache, keys);
    }
  }

  function Run(s: State, events: seq<Event>): State
    decreases |events|
  {
    if events == [] then s else Run(Next(s, events[0]), events[1..])
  }

  predicate AllHarmless(s: State, events: seq<Event>)
    decreases |events|
  {
    events == [] || (Harmless(s, events[0]) && AllHarmless(Next(s, events[0]), events[1..]))
  }

  lemma {:induction false} RunCoherent(s: State, events: seq<Event>)
    requires Coherent(s.rows, s.cache) && AllHarmless(s, events)
    ensures Coherent(Run(s, events).rows, Run(s, events).cache)
    decreases |events|
  {
    if events != [] {
      CoherentIffHarmless(s, events[0]);
      RunCoherent(Next(s, events[0]), events[1..]);
    }
  }

  /** The accesses to the cache succeed. */
  predicate CacheWorks(events: seq<Event>) {
    forall i | 0 <= i < |events| ::
      (events[i].SetValue? ==> events[i].cached) && (events[i].DeleteValue? ==> events[i].uncached)
  }

  lemma {:induction false} WorkingCacheHarmless(s: State, events: seq<Event>)
    requires CacheWorks(events)
    ensures AllHarmless(s, events)
    decreases |events|
  {
    if events != [] {
      WorkingCacheHarmless(Next(s, events[0]), events[1..]);
    }
  }

  /** What a setting is after a run, given what it was before; the cache plays no part in it. */
  function Written(before: Option<string>, events: seq<Event>, org: Org, name: Name): Option<string>
    decreases |events|
  {
    if events == [] then before
    else
      var after :=
        match events[0]
        case SetValue(o, n, value, _) => if o == org && n == name then Some(value) else before
        case DeleteValue(o, n, _) => if o == org && n == name then None else before
        case Initialise(o, defaults) =>
          if o == org && name in defaults && before == None then Some(defaults[name]) else before
        case _ => before;
      Written(after, events[1..], org, name)
  }

  lemma {:induction false} RowIsWritten(s: State, events: seq<Event>, org: Org, name: Name)
    ensures Query(Run(s, events).rows, org, name) == Written(Query(s.rows, org, name), events, org, name)
    decreases |events|
  {
    if events != [] {
      RowIsWritten(Next(s, events[0]), events[1..], org, name);
      if events[0].Initialise? {
        assert (org, name) in WithDefaults(s.rows, events[0].org, events[0].defaults) <==>
               (org, name) in s.rows || (events[0].org == org && name in events[0].defaults);
      }
    }
  }

  /**
    With a working cache, the answer after any run is what was written last: by the table, and by the
    cache whenever it answers.
   */
  lemma AnswerIsWhatWasWritten(rows: Rows, events: seq<Event>, org: Org, name: Name)
    requires CacheWorks(events)
    ensures
      var s, value := Run(State(rows, map[]), events), Written(Query(rows, org, name), events, org, name);
      && Query(s.rows, org, name) == value
      && (CacheKey(org, name) in s.cache ==> Some(s.cache[CacheKey(org, name)]) == value)
  {
    RowIsWritten(State(rows, map[]), events, org, name);
    if CacheKey(org, name) in Run(State(rows, map[]), events).cache {
      CacheNeverStale(rows, events, org, name);
    }
  }

  /** A setting that was read, or read along with others, and not lost is answered by the cache. */
  lemma ReadIsCached(s: State, org: Org, name: Name, names: set<Name>)
    requires (org, name) in s.rows
    ensures CacheKey(org, name) in Next(s, GetValue(org, name, true)).cache
    ensures name in names ==> CacheKey(org, name) in Next(s, GetValues(org, names)).cache
    ensures CacheKey(org, name) in Next(s, SetValue(org, name, s.rows[(org, name)], true)).cache
  {
    if name in names {
      assert CacheKey(org, name) in KeysOf(s.rows, org, names);
    }
  }

  /** With a working cache, after any run a cached setting is what the table holds. */
  lemma CacheNeverStale(rows: Rows, events: seq<Event>, org: Org, name: Name)
    requires CacheWorks(events)
    requires CacheKey(org, name) in Run(State(rows, map[]), events).cache
    ensures
      var s := Run(State(rows, map[]), events);
      Query(s.rows, org, name) == Some(s.cache[CacheKey(org, name)])
  {
    WorkingCacheHarmless(State(rows, map[]), events);
    RunCoherent(State(rows, map[]), events);
  }
}
