/** Expansion of $(VAR) references in the environment entries of an app. */
module EnvExpand {
  import opened Brackets
  import opened Wrappers

  datatype Failure = MissingBracket

  type Env = map<string, string>

  function Lookup(env: Env, name: string): string {
    if name in env then env[name] else ""
  }

  // ----- Brackets -----

  /** Every closing bracket has its opening one before it, and none is left open. */
  ghost predicate Balanced(s: string) {
    Depth(ROUND, s) == 0 && forall m :: 0 <= m <= |s| ==> Depth(ROUND, s[..m]) >= 0
  }

  /** Where the bracket that s starts with is closed, or the end. */
  function Match(s: string): (k: nat)
    ensures k <= |s|
    ensures s != "" && s[0] == '(' ==> 1 <= k && (k < |s| ==> s[k] == ')')
  {
    MatchFrom(s, 0)
  }

  /** The first place where `stack` open brackets have come down to none, looking at s[0] in any case. */
  function MatchFrom(s: string, stack: int): (k: nat)
    ensures k <= |s|
    ensures stack > 0 && k < |s| ==> s[k] == ')'
  {
    if s == [] || stack + Turn(ROUND, s[0]) == 0 then 0 else 1 + MatchFrom(s[1..], stack + Turn(ROUND, s[0]))
  }

  lemma {:induction false} MatchFromIs(s: string, stack: int)
    ensures var k := MatchFrom(s, stack);
      && (forall m :: 0 < m <= k ==> stack + Depth(ROUND, s[..m]) != 0)
      && (k < |s| ==> stack + Depth(ROUND, s[..k + 1]) == 0)
  {
    if s != [] {
      assert s[..1] == [s[0]];
      DepthOne(ROUND, s[0]);
      var stack' := stack + Turn(ROUND, s[0]);
      if stack' != 0 {
        MatchFromIs(s[1..], stack');
        var k := MatchFrom(s, stack);
        forall m | 0 < m <= k
          ensures stack + Depth(ROUND, s[..m]) != 0
        {
          DepthHead(ROUND, s, m);
        }
        if k < |s| {
          DepthHead(ROUND, s, k + 1);
        }
      }
    }
  }

  /** A balanced prefix with no bracket left of it open: depths never jump, so the first time they come down from one to none
      they come from above. */
  lemma {:induction false} StaysAbove(s: string, n: nat)
    requires n <= |s| && forall m :: 0 < m <= n ==> 1 + Depth(ROUND, s[..m]) != 0
    ensures forall m :: 0 <= m <= n ==> Depth(ROUND, s[..m]) >= 0
  {
    if n > 0 {
      StaysAbove(s, n - 1);
      assert s[..n][..n - 1] == s[..n - 1];
    }
  }

  /** The name of a reference is found exactly when its brackets are balanced. */
  lemma NameFoundExactly(name: string, rest: string)
    ensures Match("(" + name + ")" + rest) == |name| + 1 <==> Balanced(name)
  {
    var s := "(" + name + ")" + rest;
    var n := |name|;
    hide Depth, MatchFrom;
    MatchFromIs(s, 0);
    forall m | 1 <= m <= n + 1
      ensures Depth(ROUND, s[..m]) == 1 + Depth(ROUND, name[..m - 1])
    {
      DepthHead(ROUND, s, m);
      assert s[1..][..m - 1] == name[..m - 1];
    }
    DepthHead(ROUND, s, n + 2);
    assert s[1..][..n + 1] == name + [')'];
    DepthAppend(ROUND, name, [')']);
    DepthOne(ROUND, ')');
    assert name[..n] == name;
    assert Depth(ROUND, s[..n + 2]) == Depth(ROUND, name);
    var k := Match(s);
    var before := name[..if k <= n then k else 0];
    assert Balanced(name) ==> Depth(ROUND, before) >= 0;
    if k == n + 1 {
      forall m | 0 < m <= n
        ensures 1 + Depth(ROUND, name[..m]) != 0
      {
        var m' := m + 1;
        assert Depth(ROUND, s[..m']) != 0;
      }
      StaysAbove(name, n);
    }
  }

  // ----- Expansion -----

  function Prepend(t: string, r: Result<string, Failure>): Result<string, Failure> {
    match r
    case Ok(s) => Ok(t + s)
    case Err(e) => Err(e)
  }

  /** "$$" stands for a dollar, "$(NAME)" for a value, and any other dollar for itself. */
  function Expand(s: string, env: Env): Result<string, Failure> {
    if s == "" then Ok("")
    else if s[0] != '$' || |s| == 1 then Prepend(s[..1], Expand(s[1..], env))
    else if s[1] == '(' then
      var k := 1 + Match(s[1..]);
      if k == |s| then Err(MissingBracket) else Prepend(Lookup(env, s[2..k]), Expand(s[k + 1..], env))
    else if s[1] == '$' then Prepend("$", Expand(s[2..], env))
    else Prepend("$", Expand(s[1..], env))
  }

  lemma MatchStep(s: string, begin: nat, stack: int)
    requires begin < |s|
    ensures MatchFrom(s[begin..], stack)
            == if stack + Turn(ROUND, s[begin]) == 0 then 0 else 1 + MatchFrom(s[begin + 1..], stack + Turn(ROUND, s[begin]))
  {
    assert s[begin..][1..] == s[begin + 1..];
  }

  lemma MatchEnd(s: string, stack: int)
    ensures MatchFrom(s[|s|..], stack) == 0
  {
  }

  /** The same bracket search as a loop over positions. */
  method FindMatch(s: string, begin0: nat) returns (r: Result<nat, Failure>)
    requires begin0 < |s|
    ensures var k := begin0 + Match(s[begin0..]); r == if k == |s| then Err(MissingBracket) else Ok(k)
  {
    hide MatchFrom;
    var stack := 0;
    var begin := begin0;
    // the text read so far leaves `stack` open
    while true
      invariant begin0 <= begin <= |s|
      invariant begin0 + Match(s[begin0..]) == begin + MatchFrom(s[begin..], stack)
      decreases |s| - begin
    {
      MatchEnd(s, stack);
      if begin < |s| {
        MatchStep(s, begin, stack);
        if s[begin] == '(' {
          stack := stack + 1;
        } else if s[begin] == ')' {
          stack := stack - 1;
        }
      }
      if begin == |s| || stack == 0 {
        break;
      }
      begin := begin + 1;
    }
    r := if begin == |s| then Err(MissingBracket) else Ok(begin);
  }

  function Find(s: string, i: nat): (k: nat)
    requires i <= |s|
    ensures i <= k <= |s| && '$' !in s[i..k] && (k < |s| ==> s[k] == '$')
    decreases |s| - i
  {
    if i == |s| || s[i] == '$' then i
    else
      var k := Find(s, i + 1);
      assert s[i..k] == [s[i]] + s[i + 1..k];
      k
  }

  lemma {:induction false} PlainKept(t: string, s: string, env: Env)
    requires '$' !in t
    ensures Expand(t + s, env) == Prepend(t, Expand(s, env))
  {
    if t == [] {
      assert t + s == s;
      PrependNone(Expand(s, env));
    } else {
      PlainKept(t[1..], s, env);
      assert (t + s)[1..] == t[1..] + s && (t + s)[..1] == t[..1];
      PrependTwice(t[..1], t[1..], Expand(s, env));
      assert t[..1] + t[1..] == t;
    }
  }

  lemma PrependTwice(a: string, b: string, r: Result<string, Failure>)
    ensures Prepend(a, Prepend(b, r)) == Prepend(a + b, r)
  {
    if r.Ok? {
      assert a + (b + r.value) == a + b + r.value;
    }
  }

  lemma PrependNone(r: Result<string, Failure>)
    ensures Prepend("", r) == r
  {
    if r.Ok? {
      assert "" + r.value == r.value;
    }
  }

  lemma PlainFrom(s: string, i: nat, env: Env)
    requires i <= |s|
    ensures Expand(s[i..], env) == Prepend(s[i..Find(s, i)], Expand(s[Find(s, i)..], env))
  {
    hide Expand;
    var k := Find(s, i);
    PlainKept(s[i..k], s[k..], env);
    assert s[i..] == s[i..k] + s[k..];
  }

  /** What a round of the loop below does at a dollar that is not the last character: the text it writes, where it goes on, and
      where it looks for the next dollar. */
  lemma Round(s: string, dollar: nat, env: Env)
    requires dollar + 1 < |s| && s[dollar] == '$'
    ensures var next := dollar + 1;
      if s[next] == '(' then
        var k := next + Match(s[next..]);
        Expand(s[dollar..], env) == if k == |s| then Err(MissingBracket) else Prepend(Lookup(env, s[next + 1..k]), Expand(s[k + 1..], env))
      else if s[next] == '$' then Expand(s[dollar..], env) == Prepend("$", Expand(s[next + 1..], env))
      else Expand(s[dollar..], env) == Prepend("$", Expand(s[next..], env))
  {
    var u := s[dollar..];
    var next := dollar + 1;
    assert u[0] == '$' && u[1] == s[next] && u[1..] == s[next..] && u[2..] == s[next + 1..];
    var k := 1 + Match(u[1..]);
    assert u[1] == '(' && k < |u| ==> u[2..k] == s[next + 1..dollar + k] && u[k + 1..] == s[dollar + k + 1..];
  }

  /** Text up to the next dollar is copied. */
  lemma Copied(s: string, i: nat, env: Env, ss: string, r: Result<string, Failure>)
    requires i <= |s| && r == Prepend(ss, Expand(s[i..], env))
    ensures r == Prepend(ss + s[i..Find(s, i)], Expand(s[Find(s, i)..], env))
  {
    hide Expand, Find, Prepend;
    PlainFrom(s, i, env);
    PrependTwice(ss, s[i..Find(s, i)], Expand(s[Find(s, i)..], env));
  }

  lemma Expanded(s: string, dollar: nat, env: Env, ss: string, t: string, i: nat, r: Result<string, Failure>)
    requires dollar <= |s| && i <= |s|
    requires r == Prepend(ss, Expand(s[dollar..], env)) && Expand(s[dollar..], env) == Prepend(t, Expand(s[i..], env))
    ensures r == Prepend(ss + t + s[i..Find(s, i)], Expand(s[Find(s, i)..], env))
  {
    hide Expand, Find, Prepend;
    PrependTwice(ss, t, Expand(s[i..], env));
    Copied(s, i, env, ss + t, r);
  }

  /** Text read on past a dollar, up to `to`. */
  lemma ReadOn(ss: string, s: string, pos: nat, dollar: nat, to: nat)
    requires pos <= dollar < to <= |s| && s[dollar] == '$'
    ensures ss + s[pos..to] == ss + s[pos..dollar] + "$" + s[dollar + 1..to]
    ensures to == dollar + 1 ==> ss + s[pos..to] == ss + s[pos..dollar] + "$"
  {
  }

  /** `ss` and the text s[pos..dollar], which is still to be copied, are what the first `dollar` characters expand to. */
  ghost predicate ExpandedTo(s: string, env: Env, ss: string, pos: nat, dollar: nat) {
    && pos <= dollar <= |s| && (dollar < |s| ==> s[dollar] == '$')
    && Expand(s, env) == Prepend(ss + s[pos..dollar], Expand(s[dollar..], env))
  }

  lemma ExpandStart(s: string, env: Env)
    ensures ExpandedTo(s, env, "", 0, Find(s, 0))
  {
    hide Expand, Find, Prepend;
    assert s[0..] == s;
    PrependNone(Expand(s, env));
    Copied(s, 0, env, "", Expand(s, env));
  }

  /** A reference is replaced by its value, or has no end. */
  lemma ReferenceStep(s: string, env: Env, ss: string, pos: nat, dollar: nat, k: nat)
    requires ExpandedTo(s, env, ss, pos, dollar) && dollar + 1 < |s| && s[dollar + 1] == '('
    requires k == dollar + 1 + Match(s[dollar + 1..])
    ensures k == |s| ==> Expand(s, env) == Err(MissingBracket)
    ensures k < |s| ==> dollar + 2 <= k && ExpandedTo(s, env, ss + s[pos..dollar] + Lookup(env, s[dollar + 2..k]), k + 1, Find(s, k))
  {
    hide Expand, Match, Find, Prepend, Lookup;
    Round(s, dollar, env);
    if k == |s| {
      ErrStays(ss + s[pos..dollar]);
    } else {
      Expanded(s, dollar, env, ss + s[pos..dollar], Lookup(env, s[dollar + 2..k]), k + 1, Expand(s, env));
      FindSkips(s, k);
    }
  }

  /** Of two dollars one is kept. */
  lemma DoubleStep(s: string, env: Env, ss: string, pos: nat, dollar: nat)
    requires ExpandedTo(s, env, ss, pos, dollar) && dollar + 1 < |s| && s[dollar + 1] == '$'
    ensures ExpandedTo(s, env, ss + s[pos..dollar + 1], dollar + 2, Find(s, dollar + 2))
  {
    hide Expand, Match, Find, Prepend, Lookup;
    Round(s, dollar, env);
    ReadOn(ss, s, pos, dollar, dollar + 1);
    Expanded(s, dollar, env, ss + s[pos..dollar], "$", dollar + 2, Expand(s, env));
  }

  /** Any other dollar stays in the text to be copied. */
  lemma SingleStep(s: string, env: Env, ss: string, pos: nat, dollar: nat)
    requires ExpandedTo(s, env, ss, pos, dollar) && dollar < |s| && (dollar + 1 < |s| ==> s[dollar + 1] != '(' && s[dollar + 1] != '$')
    ensures ExpandedTo(s, env, ss, pos, Find(s, dollar + 1))
  {
    hide Expand, Match, Find, Prepend, Lookup;
    ReadOn(ss, s, pos, dollar, Find(s, dollar + 1));
    if dollar + 1 < |s| {
      Round(s, dollar, env);
    } else {
      LastDollar(s, env);
      NothingLeft(s, env);
    }
    Expanded(s, dollar, env, ss + s[pos..dollar], "$", dollar + 1, Expand(s, env));
  }

  method ParseEnvVal(env: Env, s: string) returns (r: Result<string, Failure>)
    ensures r == Expand(s, env)
  {
    hide Expand, Match, Find, Lookup, ExpandedTo;
    var pos := 0;
    var dollar := Find(s, 0);
    var ss := "";
    ExpandStart(s, env);
    while dollar != |s|
      invariant pos <= dollar <= |s| && (dollar < |s| ==> s[dollar] == '$')
      invariant ExpandedTo(s, env, ss, pos, dollar)
      decreases |s| - dollar
    {
      var next := dollar + 1;
      if next != |s| {
        if s[next] == '(' {
          var end := FindMatch(s, next);
          ReferenceStep(s, env, ss, pos, dollar, next + Match(s[next..]));
          ss := ss + s[pos..dollar];
          if end.Err? {
            return Err(MissingBracket);
          }
          var k := end.value;
          ss := ss + Lookup(env, s[next + 1..k]);
          pos := k + 1;
          next := k;
          FindSkips(s, k);
        } else if s[next] == '$' {
          DoubleStep(s, env, ss, pos, dollar);
          ss := ss + s[pos..next];
          pos := next + 1;
          next := next + 1;
        } else {
          SingleStep(s, env, ss, pos, dollar);
        }
        dollar := Find(s, next);
      } else {
        SingleStep(s, env, ss, pos, dollar);
        dollar := next;
      }
    }
    ExpandDone(s, env, ss, pos);
    ss := ss + s[pos..dollar];
    r := Ok(ss);
  }

  lemma ExpandDone(s: string, env: Env, ss: string, pos: nat)
    requires ExpandedTo(s, env, ss, pos, |s|)
    ensures Expand(s, env) == Ok(ss + s[pos..|s|])
  {
    NothingLeft(s, env);
    OkOf(ss + s[pos..|s|]);
  }

  lemma FindSkips(s: string, k: nat)
    requires k < |s| && s[k] != '$'
    ensures Find(s, k) == Find(s, k + 1)
  {
  }

  lemma LastDollar(s: string, env: Env)
    requires s != "" && s[|s| - 1] == '$'
    ensures Expand(s[|s| - 1..], env) == Prepend("$", Ok(""))
  {
    var last := s[|s| - 1..];
    assert last == "$" && last[1..] == "" && last[..1] == "$";
  }

  lemma NothingLeft(s: string, env: Env)
    ensures Expand(s[|s|..], env) == Ok("")
  {
  }

  lemma ErrStays(t: string)
    ensures Prepend(t, Err(MissingBracket)) == Err(MissingBracket)
  {
  }

  lemma OkOf(t: string)
    ensures Prepend(t, Ok("")) == Ok(t)
  {
    assert t + "" == t;
  }

  // ----- Writing references -----

  datatype Piece = Text(text: string) | Reference(name: string) | Dollar

  /** Every dollar twice. */
  function Doubled(s: string): string {
    if s == "" then "" else (if s[0] == '$' then "$$" else s[..1]) + Doubled(s[1..])
  }

  function Render(ps: seq<Piece>): string {
    if ps == [] then ""
    else (match ps[0] case Text(t) => Doubled(t) case Reference(n) => "$(" + n + ")" case Dollar => "$") + Render(ps[1..])
  }

  function Meaning(ps: seq<Piece>, env: Env): string {
    if ps == [] then ""
    else
      (match ps[0]
       case Text(t) => t
       case Reference(n) => if n in env then env[n] else ""
       case Dollar => "$") + Meaning(ps[1..], env)
  }

  /** With `tail` written behind them: names are balanced, and a single dollar stands before neither a dollar nor a bracket. */
  ghost predicate GoodPieces(ps: seq<Piece>, tail: string) {
    ps != [] ==>
      && GoodPieces(ps[1..], tail)
      && match ps[0]
         case Text(_) => true
         case Reference(n) => Balanced(n)
         case Dollar => var rest := Render(ps[1..]) + tail; rest == "" || rest[0] !in "$("
  }

  lemma DollarExpanded(s: string, env: Env)
    requires s == "" || s[0] !in "$("
    ensures Expand("$" + s, env) == Prepend("$", Expand(s, env))
  {
    assert ("$" + s)[1..] == s && ("$" + s)[..1] == "$";
    assert s != "" ==> ("$" + s)[1] == s[0];
  }

  lemma {:induction false} DoubledUndone(t: string, s: string, env: Env)
    ensures Expand(Doubled(t) + s, env) == Prepend(t, Expand(s, env))
  {
    if t == "" {
      assert Doubled(t) + s == s;
      PrependNone(Expand(s, env));
    } else {
      DoubledUndone(t[1..], s, env);
      var first := if t[0] == '$' then "$$" else t[..1];
      var rest := Doubled(t[1..]) + s;
      assert Doubled(t) + s == first + rest;
      assert (first + rest)[|first|..] == rest && (first + rest)[..|first|] == first;
      OneUndone(t[0], rest, env);
      PrependTwice(t[..1], t[1..], Expand(s, env));
      assert t[..1] + t[1..] == t && [t[0]] == t[..1];
    }
  }

  lemma OneUndone(c: char, rest: string, env: Env)
    ensures Expand((if c == '$' then "$$" else [c]) + rest, env) == Prepend([c], Expand(rest, env))
  {
    var first := if c == '$' then "$$" else [c];
    var s := first + rest;
    assert s[|first|..] == rest && s[0] == c && s[..1] == [c];
    if c == '$' {
      assert s[1] == '$' && s[2..] == rest;
    }
  }

  lemma ReferenceExpanded(name: string, s: string, env: Env)
    requires Balanced(name)
    ensures Expand("$(" + name + ")" + s, env) == Prepend(if name in env then env[name] else "", Expand(s, env))
  {
    var whole := "$(" + name + ")" + s;
    NameFoundExactly(name, s);
    hide Match, Balanced;
    assert whole[1..] == "(" + name + ")" + s;
    assert whole[2..2 + |name|] == name && whole[|name| + 3..] == s;
  }

  /** Expanding what was written gives the texts and the values, in order; every doubled dollar is undone. */
  lemma {:induction false} RenderExpanded(ps: seq<Piece>, env: Env)
    requires GoodPieces(ps, "")
    ensures Expand(Render(ps), env) == Ok(Meaning(ps, env))
  {
    hide Expand, Doubled, Balanced;
    if ps == [] {
      NothingLeft("", env);
    } else {
      RenderExpanded(ps[1..], env);
      match ps[0]
      case Text(t) => DoubledUndone(t, Render(ps[1..]), env);
      case Reference(n) => ReferenceExpanded(n, Render(ps[1..]), env);
      case Dollar =>
        assert Render(ps[1..]) + "" == Render(ps[1..]);
        DollarExpanded(Render(ps[1..]), env);
    }
  }

  /** A text with each dollar doubled means itself. */
  lemma DoublingUndone(t: string, env: Env)
    ensures Expand(Doubled(t), env) == Ok(t)
  {
    DoubledUndone(t, "", env);
    assert Doubled(t) + "" == Doubled(t) && t + "" == t;
  }

  /** A reference whose bracket is never closed is an error, whatever is written before it. */
  lemma {:induction false} UnclosedFails(ps: seq<Piece>, tail: string, env: Env)
    requires GoodPieces(ps, "$(" + tail) && forall m :: 0 < m <= |tail| ==> 1 + Depth(ROUND, tail[..m]) != 0
    ensures Expand(Render(ps) + "$(" + tail, env) == Err(MissingBracket)
  {
    hide Expand, Doubled, Balanced, Depth;
    if ps == [] {
      UnclosedAtOnce(tail, env);
      assert Render(ps) + "$(" + tail == "$(" + tail;
    } else {
      UnclosedFails(ps[1..], tail, env);
      var rest := Render(ps[1..]) + "$(" + tail;
      match ps[0]
      case Text(t) =>
        DoubledUndone(t, rest, env);
        Regroup(Doubled(t), Render(ps[1..]), tail);
      case Reference(n) =>
        ReferenceExpanded(n, rest, env);
        Regroup("$(" + n + ")", Render(ps[1..]), tail);
      case Dollar =>
        assert Render(ps[1..]) + ("$(" + tail) == rest;
        DollarExpanded(rest, env);
        Regroup("$", Render(ps[1..]), tail);
    }
  }

  lemma Regroup(a: string, b: string, tail: string)
    ensures a + b + "$(" + tail == a + (b + "$(" + tail)
  {
  }

  lemma UnclosedAtOnce(tail: string, env: Env)
    requires forall m :: 0 < m <= |tail| ==> 1 + Depth(ROUND, tail[..m]) != 0
    ensures Expand("$(" + tail, env) == Err(MissingBracket)
  {
    hide Match, Depth;
    var bad := "$(" + tail;
    NeverMatched(tail);
    assert bad[1..] == "(" + tail;
  }

  lemma NeverMatched(tail: string)
    requires forall m :: 0 < m <= |tail| ==> 1 + Depth(ROUND, tail[..m]) != 0
    ensures Match("(" + tail) == |tail| + 1
  {
    var s := "(" + tail;
    MatchFromIs(s, 0);
    var k := Match(s);
    assert s[1..] == tail;
    if k < |s| {
      DepthHead(ROUND, s, k + 1);
    }
  }

  // ----- Exactly which texts fail -----

  /** How many dollars are right in front of position i. */
  function DollarsBefore(s: string, i: nat): nat
    requires i <= |s|
  {
    if i == 0 || s[i - 1] != '$' then 0 else 1 + DollarsBefore(s, i - 1)
  }

  ghost predicate NeverCloses(t: string) {
    forall m :: 0 < m <= |t| ==> Depth(ROUND, t[..m]) != 0
  }

  /** A dollar that is not the second of a pair starts a reference at i, and its bracket is never closed. */
  ghost predicate UnclosedAt(s: string, i: nat) {
    i + 1 < |s| && s[i] == '$' && s[i + 1] == '(' && DollarsBefore(s, i) % 2 == 0 && NeverCloses(s[i + 1..])
  }

  ghost predicate Unclosed(s: string) {
    exists i: nat :: UnclosedAt(s, i)
  }

  /** Expansion fails exactly for a text in which some reference is never closed, wherever it is. */
  lemma {:induction false} FailsExactly(s: string, env: Env)
    ensures Expand(s, env).Err? <==> Unclosed(s)
    decreases |s|
  {
    hide Unclosed, Match, Lookup;
    if |s| <= 1 {
      TooShort(s, env);
    } else if s[0] == '$' && s[1] == '(' {
      var k := 1 + Match(s[1..]);
      if k == |s| {
        FirstUnclosed(s);
      } else {
        FailsExactly(s[k + 1..], env);
        PastReference(s, k);
      }
    } else if s[0] == '$' && s[1] == '$' {
      FailsExactly(s[2..], env);
      PastPair(s);
    } else {
      FailsExactly(s[1..], env);
      PastOne(s);
    }
  }

  lemma TooShort(s: string, env: Env)
    requires |s| <= 1
    ensures Expand(s, env).Ok? && !Unclosed(s)
  {
  }

  /** Nothing unclosed starts before j, and from there on it is the same in the text from j. */
  lemma PastTo(s: string, j: nat)
    requires j <= |s| && forall i :: 0 <= i < j ==> !UnclosedAt(s, i)
    requires forall i :: j <= i < |s| && s[i] == '$' ==> DollarsBefore(s, i) % 2 == DollarsBefore(s[j..], i - j) % 2
    ensures Unclosed(s) <==> Unclosed(s[j..])
  {
    hide UnclosedAt, DollarsBefore;
    if Unclosed(s) {
      var i: nat :| UnclosedAt(s, i);
      Shifted(s, j, i);
    }
    if Unclosed(s[j..]) {
      var i: nat :| UnclosedAt(s[j..], i);
      Shifted(s, j, i + j);
    }
  }

  lemma Shifted(s: string, j: nat, i: nat)
    requires j <= |s| && j <= i
    requires i < |s| && s[i] == '$' ==> DollarsBefore(s, i) % 2 == DollarsBefore(s[j..], i - j) % 2
    ensures UnclosedAt(s, i) <==> UnclosedAt(s[j..], i - j)
  {
    hide NeverCloses, DollarsBefore;
    if i + 1 < |s| {
      assert s[i + 1..] == s[j..][i - j + 1..];
    }
  }

  lemma {:induction false} DollarsFrom(s: string, j: nat, i: nat)
    requires 0 < j <= i <= |s| && s[j - 1] != '$'
    ensures DollarsBefore(s, i) == DollarsBefore(s[j..], i - j)
  {
    if j < i {
      DollarsFrom(s, j, i - 1);
    }
  }

  lemma {:induction false} DollarsBehindPair(s: string, i: nat)
    requires 2 <= i <= |s| && s[0] == '$' && s[1] == '$'
    ensures DollarsBefore(s, i) % 2 == DollarsBefore(s[2..], i - 2) % 2
  {
    if i == 2 {
      assert DollarsBefore(s, 1) == 1 && DollarsBefore(s, 2) == 2;
    } else {
      DollarsBehindPair(s, i - 1);
    }
  }

  lemma PastPair(s: string)
    requires |s| > 1 && s[0] == '$' && s[1] == '$'
    ensures Unclosed(s) <==> Unclosed(s[2..])
  {
    hide Unclosed;
    assert DollarsBefore(s, 1) == 1;
    forall i | 2 <= i < |s|
      ensures DollarsBefore(s, i) % 2 == DollarsBefore(s[2..], i - 2) % 2
    {
      DollarsBehindPair(s, i);
    }
    PastTo(s, 2);
  }

  lemma PastOne(s: string)
    requires |s| > 1 && (s[0] != '$' || (s[1] != '(' && s[1] != '$'))
    ensures Unclosed(s) <==> Unclosed(s[1..])
  {
    hide Unclosed;
    forall i | 1 <= i < |s| && s[i] == '$'
      ensures DollarsBefore(s, i) == DollarsBefore(s[1..], i - 1)
    {
      if s[0] != '$' {
        DollarsFrom(s, 1, i);
      } else {
        DollarsFrom(s, 2, i);
        DollarsFrom(s[1..], 1, i - 1);
        assert s[1..][1..] == s[2..];
      }
    }
    PastTo(s, 1);
  }

  lemma PastReference(s: string, k: nat)
    requires |s| > 1 && s[0] == '$' && s[1] == '(' && k == 1 + Match(s[1..]) < |s|
    ensures Unclosed(s) <==> Unclosed(s[k + 1..])
  {
    hide Unclosed, Match;
    assert s[k] == ')';
    forall i | k + 1 <= i < |s|
      ensures DollarsBefore(s, i) == DollarsBefore(s[k + 1..], i - (k + 1))
    {
      DollarsFrom(s, k + 1, i);
    }
    forall i | 0 <= i < k + 1
      ensures !UnclosedAt(s, i)
    {
      if i < k && s[i] == '$' && s[i + 1] == '(' {
        ClosedInside(s, k, i);
      }
    }
    PastTo(s, k + 1);
  }

  /** A bracket opened inside a reference that is closed is closed itself. */
  lemma ClosedInside(s: string, k: nat, i: nat)
    requires |s| > 1 && s[1] == '(' && k == 1 + Match(s[1..]) < |s| && i + 1 < k && s[i + 1] == '(' && i != 1
    ensures !UnclosedAt(s, i)
  {
    hide Depth;
    MatchFromIs(s[1..], 0);
    assert s[1..][..k] == s[1..k + 1] && Depth(ROUND, s[1..k + 1]) == 0;
    assert s[i + 1..][..k - i] == s[i + 1..k + 1];
    if i > 0 {
      assert s[1..][..i] == s[1..i + 1];
      DepthOpens(s[1..], i);
      assert s[1..k + 1] == s[1..i + 1] + s[i + 1..k + 1];
      DepthAppend(ROUND, s[1..i + 1], s[i + 1..k + 1]);
    }
    if UnclosedAt(s, i) {
      DepthOpens(s[i + 1..], k - i);
    }
  }

  /** Behind an opening bracket that is not closed in the first n characters, the depth stays above none. */
  lemma {:induction false} DepthOpens(s: string, n: nat)
    requires 0 < n <= |s| && s[0] == '(' && forall m :: 0 < m <= n ==> Depth(ROUND, s[..m]) != 0
    ensures Depth(ROUND, s[..n]) > 0
  {
    if n == 1 {
      assert s[..1] == [s[0]];
      DepthOne(ROUND, s[0]);
    } else {
      DepthOpens(s, n - 1);
      assert s[..n][..n - 1] == s[..n - 1];
    }
  }

  lemma FirstUnclosed(s: string)
    requires |s| > 1 && s[0] == '$' && s[1] == '(' && 1 + Match(s[1..]) == |s|
    ensures Unclosed(s)
  {
    hide Depth;
    MatchFromIs(s[1..], 0);
    assert UnclosedAt(s, 0);
  }
}
