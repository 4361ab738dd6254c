/**
  Path prefixes as the routing library reads them: text in braces is a variable, which stands for one
  or more characters other than a slash.
 */
module PathTemplates {
  import opened Wrappers

  datatype Token = Literal(c: char) | Variable

  /** The length of the text up to the brace that closes a variable, `level` braces being open. */
  function VariableEnd(s: string, level: nat): (end: Option<nat>)
    requires level > 0
    ensures end.Some? ==> 1 <= end.value <= |s|
  {
    if s == "" then None
    else
      var level' := if s[0] == '{' then level + 1 else if s[0] == '}' then level - 1 else level;
      if level' == 0 then Some(1)
      else
        match VariableEnd(s[1..], level')
        case None => None
        case Some(n) => Some(n + 1)
  }

  function Cons(t: Token, rest: Option<seq<Token>>): Option<seq<Token>> {
    match rest
    case None => None
    case Some(ts) => Some([t] + ts)
  }

  /** `None` for braces that do not match, and for a variable without a name. */
  function Parse(s: string): Option<seq<Token>>
    decreases |s|
  {
    if s == "" then Some([])
    else if s[0] == '{' then
      match VariableEnd(s[1..], 1)
      case None => None
      case Some(n) => if n == 1 then None else Cons(Variable, Parse(s[1..][n..]))
    else if s[0] == '}' then None
    else Cons(Literal(s[0]), Parse(s[1..]))
  }

  /** A prefix that does not begin with a slash is no better than one that cannot be parsed. */
  function Template(prefix: string): Option<seq<Token>> {
    if prefix != "" && prefix[0] != '/' then None else Parse(prefix)
  }

  /** A beginning of `path` is an instance of the template. */
  predicate Under(path: string, ts: seq<Token>)
    decreases |path|
  {
    ts == [] ||
    (path != "" &&
     match ts[0]
     case Literal(c) => path[0] == c && Under(path[1..], ts[1..])
     case Variable => path[0] != '/' && (Under(path[1..], ts[1..]) || Under(path[1..], ts)))
  }

  /** Whether a request for `path` is matched by the prefix; one that cannot be parsed matches nothing. */
  predicate FallsUnder(path: string, prefix: string) {
    Template(prefix).Some? && Under(path, Template(prefix).value)
  }

  /** Step by step, the two templates can be read off one text. */
  predicate Meet(p: seq<Token>, q: seq<Token>)
    decreases |p| + |q|
  {
    p == [] || q == [] ||
    match (p[0], q[0])
    case (Literal(c), Literal(d)) => c == d && Meet(p[1..], q[1..])
    case (Variable, Literal(d)) => d != '/' && (Meet(p[1..], q[1..]) || Meet(p, q[1..]))
    case (Literal(c), Variable) => c != '/' && (Meet(p[1..], q[1..]) || Meet(p[1..], q))
    case (Variable, Variable) => Meet(p[1..], q[1..]) || Meet(p, q[1..]) || Meet(p[1..], q)
  }

  predicate SharePaths(p: string, q: string) {
    Template(p).Some? && Template(q).Some? && Meet(Template(p).value, Template(q).value)
  }

  /** A text for a template. */
  function Instance(ts: seq<Token>): string {
    if ts == [] then ""
    else [if ts[0].Variable? then 'x' else ts[0].c] + Instance(ts[1..])
  }

  lemma {:induction false} InstanceIsUnder(ts: seq<Token>)
    ensures Under(Instance(ts), ts)
  {
    if ts != [] {
      InstanceIsUnder(ts[1..]);
      assert Instance(ts)[1..] == Instance(ts[1..]);
    }
  }

  lemma {:induction false} UnderBothMeet(path: string, p: seq<Token>, q: seq<Token>)
    requires Under(path, p) && Under(path, q)
    ensures Meet(p, q)
    decreases |path|
  {
    if p != [] && q != [] {
      var rest := path[1..];
      if Under(rest, p[1..]) && Under(rest, q[1..]) {
        UnderBothMeet(rest, p[1..], q[1..]);
      } else if Under(rest, p[1..]) {
        UnderBothMeet(rest, p[1..], q);
      } else if Under(rest, q[1..]) {
        UnderBothMeet(rest, p, q[1..]);
      } else {
        UnderBothMeet(rest, p, q);
      }
    }
  }

  lemma {:induction false} MeetUnderBoth(p: seq<Token>, q: seq<Token>) returns (path: string)
    requires Meet(p, q)
    ensures Under(path, p) && Under(path, q)
    decreases |p| + |q|
  {
    if p == [] {
      path := Instance(q);
      InstanceIsUnder(q);
    } else if q == [] {
      path := Instance(p);
      InstanceIsUnder(p);
    } else {
      var c := if p[0].Literal? then p[0].c else if q[0].Literal? then q[0].c else 'x';
      var rest;
      if Meet(p[1..], q[1..]) {
        rest := MeetUnderBoth(p[1..], q[1..]);
      } else if p[0].Variable? && Meet(p, q[1..]) {
        rest := MeetUnderBoth(p, q[1..]);
      } else {
        rest := MeetUnderBoth(p[1..], q);
      }
      path := [c] + rest;
      assert path[1..] == rest;
    }
  }

  /** The test that reads both templates decides whether any path falls under both prefixes. */
  lemma SharePathsIff(p: string, q: string)
    ensures SharePaths(p, q) <==> exists path :: FallsUnder(path, p) && FallsUnder(path, q)
  {
    if SharePaths(p, q) {
      var path := MeetUnderBoth(Template(p).value, Template(q).value);
      assert FallsUnder(path, p) && FallsUnder(path, q);
    }
    if exists path :: FallsUnder(path, p) && FallsUnder(path, q) {
      var path :| FallsUnder(path, p) && FallsUnder(path, q);
      UnderBothMeet(path, Template(p).value, Template(q).value);
    }
  }

  // ----- prefixes without variables -------------------------------------------------------------------

  /** There is no brace in it. */
  predicate Plain(s: string) {
    '{' !in s && '}' !in s
  }

  function Literals(s: string): (ts: seq<Token>)
    ensures |ts| == |s|
  {
    seq(|s|, i requires 0 <= i < |s| => Literal(s[i]))
  }

  lemma {:induction false} ParsePlainStart(a: string, s: string)
    requires Plain(a) && Parse(a + s).Some?
    ensures Parse(s).Some? && Parse(a + s).value == Literals(a) + Parse(s).value
  {
    if a == "" {
      assert a + s == s;
    } else {
      assert (a + s)[1..] == a[1..] + s;
      assert a[0] in a;
      ParsePlainStart(a[1..], s);
      assert Literals(a) == [Literal(a[0])] + Literals(a[1..]);
    }
  }

  /** A path that falls under a template begins with the plain text that the template begins with. */
  lemma {:induction false} UnderPlainStart(path: string, a: string, ts: seq<Token>)
    requires Under(path, Literals(a) + ts)
    ensures a <= path
  {
    if a != "" {
      var all := Literals(a) + ts;
      assert all[0] == Literal(a[0]) && all[1..] == Literals(a[1..]) + ts;
      UnderPlainStart(path[1..], a[1..], ts);
      assert a == [a[0]] + a[1..] && path == [path[0]] + path[1..];
    }
  }

  lemma FallsUnderPlainStart(path: string, a: string, s: string)
    requires Plain(a) && FallsUnder(path, a + s)
    ensures a <= path
  {
    ParsePlainStart(a, s);
    UnderPlainStart(path, a, Parse(s).value);
  }

  // ----- what a template matches ------------------------------------------------------------------------

  /** A variable stands for one or more characters, none of which is a slash. */
  lemma {:induction false} VariableStandsFor(path: string, ts: seq<Token>)
    ensures Under(path, [Variable] + ts) <==>
            exists n | 0 < n <= |path| :: '/' !in path[..n] && Under(path[n..], ts)
    decreases |path|
  {
    var all := [Variable] + ts;
    assert all[0] == Variable && all[1..] == ts;
    if path != "" {
      var rest := path[1..];
      VariableStandsFor(rest, ts);
      if Under(path, all) {
        if Under(rest, ts) {
          assert path[..1] == [path[0]] && '/' !in path[..1] && Under(path[1..], ts);
        } else {
          var n :| 0 < n <= |rest| && '/' !in rest[..n] && Under(rest[n..], ts);
          assert path[..n + 1] == [path[0]] + rest[..n] && path[n + 1..] == rest[n..];
          assert '/' !in path[..n + 1] && Under(path[n + 1..], ts);
        }
      }
      if n :| 0 < n <= |path| && '/' !in path[..n] && Under(path[n..], ts) {
        assert path[0] in path[..n];
        if n > 1 {
          assert rest[..n - 1] == path[1..n] && rest[n - 1..] == path[n..];
          assert forall c | c in rest[..n - 1] :: c in path[..n];
          assert '/' !in rest[..n - 1] && Under(rest[n - 1..], ts);
        }
      }
    }
  }

  /** A plain template matches exactly the paths that begin with its text. */
  lemma {:induction false} TextStandsForItself(path: string, a: string)
    ensures Under(path, Literals(a)) <==> a <= path
    decreases |a|
  {
    if a != "" {
      assert Literals(a)[0] == Literal(a[0]) && Literals(a)[1..] == Literals(a[1..]);
      assert a == [a[0]] + a[1..];
      if path != "" {
        assert path == [path[0]] + path[1..];
        TextStandsForItself(path[1..], a[1..]);
      }
    }
  }

  function Shifted(end: Option<nat>, offset: nat): Option<nat> {
    match end
    case None => None
    case Some(n) => Some(n + offset)
  }

  lemma {:induction false} EndAfterPlain(name: string, rest: string, level: nat)
    requires Plain(name) && level > 0
    ensures VariableEnd(name + rest, level) == Shifted(VariableEnd(rest, level), |name|)
    decreases |name|
  {
    var all := name + rest;
    if name == "" {
      assert all == rest;
    } else {
      assert all[0] == name[0] && all[0] in name;
      assert all[1..] == name[1..] + rest;
      EndAfterPlain(name[1..], rest, level);
    }
  }

  lemma EndOfName(name: string, rest: string)
    requires Plain(name)
    ensures VariableEnd(name + "}" + rest, 1) == Some(|name| + 1)
  {
    assert name + "}" + rest == name + ("}" + rest);
    EndAfterPlain(name, "}" + rest, 1);
  }

  /** Braces inside a name belong to it. */
  lemma EndAfterBraces(b: string, rest: string, level: nat)
    requires Plain(b) && level > 0
    ensures VariableEnd("{" + b + "}" + rest, level) == Shifted(VariableEnd(rest, level), |b| + 2)
  {
    var all := "{" + b + "}" + rest;
    assert all[0] == '{' && all[1..] == b + ("}" + rest);
    EndAfterPlain(b, "}" + rest, level + 1);
    assert ("}" + rest)[0] == '}' && ("}" + rest)[1..] == rest;
  }

  /** A prefix without a slash at the start, with a stray brace or a nameless variable matches nothing. */
  lemma {:induction false} MalformedMatchesNothing(path: string, a: string, rest: string)
    requires Plain(a)
    ensures Parse(a + "}" + rest) == None && Parse(a + "{}" + rest) == None
    ensures !FallsUnder(path, a + "}" + rest) && !FallsUnder(path, a + "{}" + rest)
    ensures a != "" && a[0] != '/' ==> !FallsUnder(path, a + rest)
    decreases |a|
  {
    var stray, nameless := a + "}" + rest, a + "{}" + rest;
    if a == "" {
      assert stray[0] == '}' && nameless[0] == '{' && nameless[1..] == "}" + rest;
      assert VariableEnd("}" + rest, 1) == Some(1);
    } else {
      assert stray[0] == a[0] && nameless[0] == a[0] && a[0] in a;
      assert stray[1..] == a[1..] + "}" + rest && nameless[1..] == a[1..] + "{}" + rest;
      MalformedMatchesNothing(path, a[1..], rest);
    }
  }

  /** Plain text stands for itself, and a name in braces is one variable. */
  lemma {:induction false} ParseNamed(a: string, name: string, rest: string)
    requires Plain(a) && Plain(name) && name != "" && Parse(rest).Some?
    ensures Parse(a + "{" + name + "}" + rest) == Some(Literals(a) + [Variable] + Parse(rest).value)
    decreases |a|
  {
    var all := a + "{" + name + "}" + rest;
    if a == "" {
      assert all[0] == '{' && all[1..] == name + "}" + rest;
      EndOfName(name, rest);
      assert all[1..][|name| + 1..] == rest;
      assert Literals(a) + [Variable] + Parse(rest).value == [Variable] + Parse(rest).value;
    } else {
      assert all[0] == a[0] && all[0] in a;
      assert all[1..] == a[1..] + "{" + name + "}" + rest;
      ParseNamed(a[1..], name, rest);
      assert Literals(a) == [Literal(a[0])] + Literals(a[1..]);
      assert Literals(a) + [Variable] + Parse(rest).value ==
             [Literal(a[0])] + (Literals(a[1..]) + [Variable] + Parse(rest).value);
    }
  }
}
