/** The configuration file: the parser that reads it, and the printer that writes it. */
module ConfigText {
  import Bytes
  import opened Brackets
  import opened Wrappers

  predicate Endline(c: char) { c == '\r' || c == '\n' }
  predicate SpaceTab(c: char) { c == ' ' || c == '\t' }
  predicate Whitespace(c: char) { SpaceTab(c) || Endline(c) }
  predicate Solid(c: char) { !Whitespace(c) }
  predicate NotSpaceTab(c: char) { !SpaceTab(c) }
  predicate Hash(c: char) { c == '#' }
  predicate Equals(c: char) { c == '=' }

  // ----- Searching -----

  /** std::find_if over s[i..j]. */
  function FindIf(s: string, i: nat, j: nat, p: char -> bool): (k: nat)
    requires i <= j <= |s|
    ensures i <= k <= j
    ensures forall m :: i <= m < k ==> !p(s[m])
    ensures k < j ==> p(s[k])
    decreases j - i
  {
    if i == j || p(s[i]) then i else FindIf(s, i + 1, j, p)
  }

  /** The same from the back: just behind the last one, or i. */
  function FindLast(s: string, i: nat, j: nat, p: char -> bool): (k: nat)
    requires i <= j <= |s|
    ensures i <= k <= j
    ensures forall m :: k <= m < j ==> !p(s[m])
    ensures i < k ==> p(s[k - 1])
  {
    if i == j || p(s[j - 1]) then j else FindLast(s, i, j - 1, p)
  }

  // ----- Comments -----

  /** A text without its comments, which run from a hash to the end of the line. */
  function Uncommented(s: string, inComment: bool): (r: string)
    ensures |r| <= |s| && '#' !in r
  {
    if s == [] then []
    else if Endline(s[0]) then [s[0]] + Uncommented(s[1..], false)
    else if inComment || s[0] == '#' then Uncommented(s[1..], true)
    else [s[0]] + Uncommented(s[1..], false)
  }

  lemma {:induction false} UncommentedPlain(s: string, t: string)
    requires '#' !in s
    ensures Uncommented(s + t, false) == s + Uncommented(t, false)
  {
    if s == [] {
      assert s + t == t;
    } else {
      UncommentedPlain(s[1..], t);
      Bytes.CutJoined(s, t, 1);
      Bytes.Assoc([s[0]], s[1..], Uncommented(t, false));
    }
  }

  lemma UncommentedSame(s: string)
    requires '#' !in s
    ensures Uncommented(s, false) == s
  {
    UncommentedPlain(s, []);
    assert s + [] == s;
  }

  lemma {:induction false} UncommentedSkips(s: string, t: string)
    requires forall i :: 0 <= i < |s| ==> !Endline(s[i])
    requires t == [] || Endline(t[0])
    ensures Uncommented(s + t, true) == Uncommented(t, false)
  {
    if s == [] {
      assert s + t == t;
    } else {
      UncommentedSkips(s[1..], t);
      assert (s + t)[1..] == s[1..] + t;
    }
  }

  /** A comment, up to the end of its line. */
  ghost predicate IsComment(c: string) {
    c != "" ==> c[0] == '#' && forall i :: 0 <= i < |c| ==> !Endline(c[i])
  }

  lemma CommentDropped(c: string, t: string)
    requires c != "" && IsComment(c) && (t == "" || Endline(t[0]))
    ensures Uncommented(c + t, false) == Uncommented(t, false)
  {
    assert (c + t)[1..] == c[1..] + t;
    UncommentedSkips(c[1..], t);
  }

  /** One round of the loop below. */
  lemma UncommentedRound(s: string, plain: string, comment: string, rest: string)
    requires '#' !in plain && IsComment(comment) && (rest == "" || Endline(rest[0])) && (comment == "" ==> rest == "")
    requires s == plain + (comment + rest)
    ensures Uncommented(s, false) == plain + Uncommented(rest, false)
  {
    UncommentedPlain(plain, comment + rest);
    if comment != "" {
      CommentDropped(comment, rest);
    }
  }

  lemma Pieces(s: string, i: nat, j: nat, k: nat)
    requires i <= j <= k <= |s|
    ensures s[i..] == s[i..j] + (s[j..k] + s[k..])
  {
  }

  /** Copies a text up to each comment. */
  method ToString(s: string) returns (result: string)
    ensures result == Uncommented(s, false)
  {
    hide Uncommented, FindIf;
    result := "";
    var pos := 0;
    assert s[0..] == s;
    while pos != |s|
      invariant pos <= |s|
      invariant Uncommented(s, false) == result + Uncommented(s[pos..], false)
      decreases |s| - pos
    {
      var comment := FindIf(s, pos, |s|, Hash);
      var endl := FindIf(s, comment, |s|, Endline);
      Pieces(s, pos, comment, endl);
      UncommentedRound(s[pos..], s[pos..comment], s[comment..endl], s[endl..]);
      result := result + s[pos..comment];
      pos := endl;
    }
  }

  // ----- Lists -----

  /** Where the bracket opened before s is closed: the end of the shortest prefix that closes one more than it opens. */
  ghost predicate ClosedAt(s: string, k: nat) {
    && k <= |s|
    && (forall m :: 0 <= m < k ==> Depth(SQUARE, s[..m]) != -1)
    && (k < |s| ==> Depth(SQUARE, s[..k]) == -1)
  }

  method SkipList(s: string, skipper0: nat) returns (skipper: nat)
    requires skipper0 <= |s|
    ensures skipper0 <= skipper <= |s| && skipper - skipper0 == Closing(s[skipper0..])
  {
    skipper := skipper0;
    var stack := 1;
    while skipper != |s| && stack != 0
      invariant skipper0 <= skipper <= |s| && 0 <= stack
      invariant skipper - skipper0 + ClosingFrom(s[skipper..], stack) == Closing(s[skipper0..])
      decreases |s| - skipper
    {
      assert s[skipper..][1..] == s[skipper + 1..];
      if s[skipper] == '[' {
        stack := stack + 1;
      }
      if s[skipper] == ']' {
        stack := stack - 1;
      }
      skipper := skipper + 1;
    }
  }

  function ClosingFrom(s: string, stack: nat): (k: nat)
    ensures k <= |s|
  {
    if s == [] || stack == 0 then 0 else 1 + ClosingFrom(s[1..], stack + Turn(SQUARE, s[0]))
  }

  function Closing(s: string): (k: nat)
    ensures k <= |s|
  {
    ClosingFrom(s, 1)
  }

  /** The loop stops just behind the bracket that closes the list, or at the end when there is none. */
  lemma {:induction false} ClosingFromIs(s: string, stack: nat)
    ensures var k := ClosingFrom(s, stack);
      && (forall m :: 0 <= m < k ==> Depth(SQUARE, s[..m]) + stack != 0)
      && (k < |s| ==> Depth(SQUARE, s[..k]) + stack == 0)
  {
    if s != [] && stack != 0 {
      var stack' := stack + Turn(SQUARE, s[0]);
      var k := ClosingFrom(s[1..], stack');
      ClosingFromIs(s[1..], stack');
      forall m | 0 <= m < k + 1
        ensures Depth(SQUARE, s[..m]) + stack != 0
      {
        if m > 0 {
          DepthHead(SQUARE, s, m);
        }
      }
      DepthHead(SQUARE, s, k + 1);
    }
  }

  lemma ClosingIs(s: string)
    ensures ClosedAt(s, Closing(s))
  {
    ClosingFromIs(s, 1);
  }

  // ----- One option -----

  /** Where parsing goes on, and the option found if any. */
  function ParseOption(s: string): (r: (nat, Option<(string, string)>))
    ensures r.0 <= |s|
  {
    var begin := FindIf(s, 0, |s|, Solid);
    var endl := FindIf(s, begin, |s|, Endline);
    var hash := FindIf(s, begin, endl, Hash);
    var endc := FindLast(s, begin, hash, Solid);
    var eq := FindIf(s, begin, endc, Equals);
    if eq == endc || eq == begin then (endl, None)
    else
      var endName := FindLast(s, begin, eq, NotSpaceTab);
      var beginVal := FindIf(s, eq + 1, endc, NotSpaceTab);
      if beginVal == endl then (endl, None) else OptionAt(s, begin, endName, beginVal, endl)
  }

  /** An option whose value starts at beginVal: it ends with the line, unless it is a list. */
  function OptionAt(s: string, begin: nat, endName: nat, beginVal: nat, endl: nat): (r: (nat, Option<(string, string)>))
    requires begin <= endName <= beginVal < endl <= |s|
    ensures r.0 <= |s|
  {
    if s[beginVal] != '[' then (endl, Some((Uncommented(s[begin..endName], false), Uncommented(s[beginVal..endl], false))))
    else
      var endl := beginVal + 1 + Closing(s[beginVal + 1..]);
      if endl == |s| && |s| == beginVal + 1 then (endl, None)
      else (endl, Some((Uncommented(s[begin..endName], false), Uncommented(s[beginVal..endl], false))))
  }

  /** What is left to parse behind an option that ends at endl. */
  function Rest(s: string, endl: nat): string
    requires endl <= |s|
  {
    if endl == |s| then [] else s[(if s[endl] == '\r' && endl + 1 < |s| then endl + 2 else endl + 1)..]
  }

  /** All options of a file; the first one with a name counts. */
  function Parsed(s: string): map<string, string>
    decreases |s|
  {
    if s == [] then map[]
    else
      var (endl, option) := ParseOption(s);
      var rest := Parsed(Rest(s, endl));
      if option.Some? then rest[option.value.0 := option.value.1] else rest
  }

  /** Options already found stay. */
  function Emplaced(vars: map<string, string>, option: Option<(string, string)>): map<string, string> {
    if option.Some? && option.value.0 !in vars then vars[option.value.0 := option.value.1] else vars
  }

  lemma ParsedStep(s: string, vars: map<string, string>)
    requires s != []
    ensures var (endl, option) := ParseOption(s);
            Parsed(s) + vars == Parsed(Rest(s, endl)) + Emplaced(vars, option)
  {
    hide ParseOption, Rest;
  }

  function From(s: string, pos: nat): string {
    if pos < |s| then s[pos..] else []
  }

  method ParseConfig(content: string) returns (vars: map<string, string>)
    ensures vars == Parsed(content)
  {
    hide ParseOption, Parsed, Rest;
    vars := map[];
    var pos := 0;
    assert From(content, 0) == content;
    while pos < |content|
      invariant Parsed(content) == Parsed(From(content, pos)) + vars
      decreases |content| - pos
    {
      var (endl, option) := ParseOption(From(content, pos));
      ParsedStep(From(content, pos), vars);
      RestFrom(content, pos, endl);
      pos := pos + endl;
      if pos != |content| {
        pos := pos + (if content[pos] == '\r' then 2 else 1);
      }
      if option.Some? && option.value.0 !in vars {
        vars := vars[option.value.0 := option.value.1];
      }
    }
    NothingParsed();
  }

  lemma NothingParsed()
    ensures Parsed([]) == map[]
  {
  }

  lemma RestFrom(content: string, pos: nat, endl: nat)
    requires pos < |content| && endl <= |content| - pos
    ensures var pos' := pos + endl + (if pos + endl == |content| then 0 else if content[pos + endl] == '\r' then 2 else 1);
            Rest(From(content, pos), endl) == From(content, pos')
  {
  }

  // ----- What is written -----

  predicate KeyOk(k: string) {
    && k != "" && k[0] !in " \t\r\n" && k[|k| - 1] !in " \t"
    && forall c :: c in k ==> c !in "=#\r\n"
  }

  /** A text in brackets that match: none before the last character closes the first one. */
  ghost predicate IsList(v: string) {
    && v != "" && v[0] == '[' && Depth(SQUARE, v) == 0
    && forall m :: 0 < m < |v| ==> Depth(SQUARE, v[..m]) != 0
  }

  ghost predicate ValOk(v: string) {
    && v != "" && v[0] !in " \t" && '#' !in v
    && (if v[0] == '[' then IsList(v) else '\r' !in v && '\n' !in v)
  }

  /** An entry of the posted JSON object: null, a string, or anything else as the JSON text it is dumped to. */
  datatype Json = Null | Text(s: string) | Dumped(s: string)

  function Line(k: string, v: string): string {
    k + " = " + v + "\n"
  }

  function Lines(items: seq<(string, Json)>): string {
    if items == [] then []
    else Written(items[0].0, items[0].1) + Lines(items[1..])
  }

  function Written(k: string, v: Json): string {
    if v.Null? || v == Text("") then [] else Line(k, v.s)
  }

  lemma NoLines()
    ensures Lines([]) == []
  {
  }

  lemma LinesStep(items: seq<(string, Json)>, i: nat)
    requires i < |items|
    ensures Lines(items[i..]) == Written(items[i].0, items[i].1) + Lines(items[i + 1..])
  {
    hide Written;
    assert items[i..][1..] == items[i + 1..];
  }

  method SaveConfig(items: seq<(string, Json)>) returns (stream: string)
    ensures stream == Lines(items)
  {
    hide Lines, Line;
    stream := "";
    assert items[0..] == items;
    NoLines();
    for i := 0 to |items|
      invariant Lines(items) == stream + Lines(items[i..])
    {
      var (k, v) := items[i];
      LinesStep(items, i);
      if !(v.Null? || v == Text("")) {
        stream := stream + Line(k, v.s);
      }
    }
    assert items[|items|..] == [];
  }

  /** What reading the file back should give: the entries that were written. */
  function Kept(items: seq<(string, Json)>): map<string, string> {
    if items == [] then map[]
    else if items[0].1.Null? || items[0].1 == Text("") then Kept(items[1..])
    else Kept(items[1..])[items[0].0 := items[0].1.s]
  }

  // ----- Round trip -----

  lemma FindIs(s: string, i: nat, j: nat, p: char -> bool, k: nat)
    requires i <= k <= j <= |s|
    requires forall m :: i <= m < k ==> !p(s[m])
    requires k < j ==> p(s[k])
    ensures FindIf(s, i, j, p) == k
  {
  }

  lemma FindLastIs(s: string, i: nat, j: nat, p: char -> bool, k: nat)
    requires i <= k <= j <= |s|
    requires forall m :: k <= m < j ==> !p(s[m])
    requires i < k ==> p(s[k - 1])
    ensures FindLast(s, i, j, p) == k
  {
  }

  /** Nothing but blanks. */
  predicate Blanks(s: string) {
    forall c :: c in s ==> c in " \t"
  }

  /** s starts with an option: its name is s[begin..name], its equals sign at eq, with nothing but blanks before and between. */
  ghost predicate NameAt(s: string, begin: nat, name: nat, eq: nat) {
    && begin < name <= eq < |s| && s[eq] == '=' && Solid(s[begin]) && NotSpaceTab(s[name - 1])
    && (forall m :: 0 <= m < begin ==> !Solid(s[m]))
    && (forall m :: begin <= m < name ==> s[m] != '=' && s[m] != '#' && !Endline(s[m]))
    && (forall m :: name <= m < eq ==> SpaceTab(s[m]))
  }

  /** Its value starts at val. */
  ghost predicate ValueAt(s: string, eq: nat, val: nat) {
    && eq < val < |s| && Solid(s[val]) && s[val] != '#' && (forall m :: eq < m < val ==> SpaceTab(s[m]))
  }

  lemma NameFound(s: string, pre: string, k: string, a: string, u: string)
    requires s == pre + k + a + "=" + u && KeyOk(k) && Blanks(a) && forall c :: c in pre ==> c in " \t\r\n"
    ensures var begin, name := |pre|, |pre| + |k|; var eq := name + |a|;
      NameAt(s, begin, name, eq) && s[begin..name] == k && s[eq + 1..] == u
  {
    assert forall m :: 0 <= m < |pre| ==> s[m] == pre[m] && pre[m] in pre;
    assert forall m :: 0 <= m < |k| ==> s[|pre| + m] == k[m] && k[m] in k;
    assert forall m :: 0 <= m < |a| ==> s[|pre| + |k| + m] == a[m] && a[m] in a;
  }

  /** Where the parts of a line are found, whatever stands behind the equals sign. */
  lemma PartsFound(s: string, begin: nat, name: nat, eq: nat)
    requires NameAt(s, begin, name, eq)
    ensures FindIf(s, 0, |s|, Solid) == begin
    ensures var endl := FindIf(s, begin, |s|, Endline);
      && endl > eq
      && var hash := FindIf(s, begin, endl, Hash);
      && hash > eq
      && var endc := FindLast(s, begin, hash, Solid);
      && endc > eq
      && var val := FindIf(s, eq + 1, endc, NotSpaceTab);
         ParseOption(s) == if val == endl then (endl, None) else OptionAt(s, begin, name, val, endl)
  {
    hide FindIf, FindLast, OptionAt;
    LineBounds(s, begin, name, eq);
    var endl := FindIf(s, begin, |s|, Endline);
    var endc := FindLast(s, begin, FindIf(s, begin, endl, Hash), Solid);
    NameBounds(s, begin, name, eq, endc);
    hide NameAt;
  }

  lemma NameBounds(s: string, begin: nat, name: nat, eq: nat, endc: nat)
    requires NameAt(s, begin, name, eq) && eq < endc <= |s|
    ensures FindIf(s, 0, |s|, Solid) == begin && FindIf(s, begin, endc, Equals) == eq && FindLast(s, begin, eq, NotSpaceTab) == name
    ensures begin < name <= eq
  {
    hide FindIf, FindLast;
    FindIs(s, 0, |s|, Solid, begin);
    FindIs(s, begin, endc, Equals, eq);
    FindLastIs(s, begin, eq, NotSpaceTab, name);
  }

  lemma LineBounds(s: string, begin: nat, name: nat, eq: nat)
    requires NameAt(s, begin, name, eq)
    ensures begin <= eq < FindIf(s, begin, |s|, Endline)
    ensures var endl := FindIf(s, begin, |s|, Endline); var hash := FindIf(s, begin, endl, Hash);
            eq < hash && eq < FindLast(s, begin, hash, Solid)
  {
    hide FindIf, FindLast;
  }

  lemma ClosedOnce(s: string, k: nat, k': nat)
    requires ClosedAt(s, k) && ClosedAt(s, k')
    ensures k == k'
  {
  }

  /** Behind the opening bracket of v, in a longer text, the list closes at the end of v exactly when v is a list. */
  lemma ClosesExactly(v: string, post: string)
    requires v != "" && v[0] == '[' && post != ""
    ensures Closing(v[1..] + post) == |v| - 1 <==> IsList(v)
  {
    hide Depth, Closing;
    var s := v[1..] + post;
    ClosingIs(s);
    forall m | 0 <= m < |v|
      ensures Depth(SQUARE, v[..m + 1]) == 1 + Depth(SQUARE, s[..m])
    {
      DepthHead(SQUARE, v, m + 1);
      assert s[..m] == v[1..][..m];
    }
    assert v[..|v|] == v;
    if IsList(v) {
      forall m | 0 <= m < |v| - 1
        ensures Depth(SQUARE, s[..m]) != -1
      {
        var n := m + 1;
        assert Depth(SQUARE, v[..n]) != 0;
      }
      ClosedOnce(s, Closing(s), |v| - 1);
    } else if Closing(s) == |v| - 1 {
      forall m | 0 < m < |v|
        ensures Depth(SQUARE, v[..m]) != 0
      {
        var n := m - 1;
        assert Depth(SQUARE, s[..n]) != -1;
      }
    }
  }

  /** A value that does not start blank is found where it was put. */
  lemma ValueFound(s: string, begin: nat, name: nat, eq: nat, val: nat)
    requires NameAt(s, begin, name, eq) && ValueAt(s, eq, val)
    ensures var endl := FindIf(s, begin, |s|, Endline);
            val < endl && ParseOption(s) == OptionAt(s, begin, name, val, endl)
  {
    hide FindIf, FindLast, OptionAt, ParseOption;
    PartsFound(s, begin, name, eq);
    var endl := FindIf(s, begin, |s|, Endline);
    assert endl > val;
    var hash := FindIf(s, begin, endl, Hash);
    assert hash > val;
    var endc := FindLast(s, begin, hash, Solid);
    assert endc > val;
    FindIs(s, eq + 1, endc, NotSpaceTab, val);
  }

  lemma ValueStartsAt(s: string, eq: nat, b: string, t: string)
    requires eq < |s| && s[eq + 1..] == b + t && t != "" && t[0] !in " \t\r\n#" && Blanks(b)
    ensures ValueAt(s, eq, eq + 1 + |b|) && s[eq + 1 + |b|..] == t
  {
    assert forall m :: 0 <= m < |b| ==> s[eq + 1..][m] == b[m] && b[m] in b && s[eq + 1 + m] == b[m];
    assert s[eq + 1..][|b|..] == t;
    assert s[eq + 1..][|b|] == t[0];
  }

  /** What the first option of such a text is; endl is where its first line ends. */
  lemma OptionRead(s: string, begin: nat, name: nat, eq: nat, val: nat, endl: nat)
    requires NameAt(s, begin, name, eq) && ValueAt(s, eq, val) && endl == FindIf(s, begin, |s|, Endline)
    ensures var k, t := s[begin..name], s[val..]; var end := if t[0] == '[' then 1 + Closing(t[1..]) else endl - val;
            0 <= end <= |t| && ParseOption(s) == (val + end, if t == "[" then None else Some((k, Uncommented(t[..end], false))))
  {
    hide FindIf, FindLast, Closing, Uncommented, OptionAt, ParseOption;
    ValueFound(s, begin, name, eq, val);
    PlainName(s, begin, name, eq);
    OptionAtIs(s, begin, name, val, endl, s[begin..name], s[val..]);
  }

  lemma PlainName(s: string, begin: nat, name: nat, eq: nat)
    requires NameAt(s, begin, name, eq)
    ensures Uncommented(s[begin..name], false) == s[begin..name]
  {
    UncommentedSame(s[begin..name]);
  }

  lemma OptionAtIs(s: string, begin: nat, n: nat, p: nat, endl: nat, k: string, t: string)
    requires begin <= n <= p < endl <= |s| && s[begin..n] == k && s[p..] == t && Uncommented(k, false) == k
    ensures var end := if t[0] == '[' then 1 + Closing(t[1..]) else endl - p;
            end <= |t| && OptionAt(s, begin, n, p, endl) == (p + end, if t == "[" then None else Some((k, Uncommented(t[..end], false))))
  {
    hide FindIf, FindLast, Closing, Uncommented;
    var e := 1 + Closing(t[1..]);
    assert s[p + 1..] == t[1..];
    assert s[p..endl] == t[..endl - p];
    assert s[p..p + e] == t[..e];
    assert |t| == 1 <==> |s| == p + 1;
    assert t[0] == '[' ==> (t == "[" <==> |t| == 1);
  }

  /** What may end a line: nothing at the end of the file, a line feed, or a carriage return and the character behind it; behind a
      list any other character will do. */
  ghost predicate EndsLine(end: string, list: bool, post: string) {
    || end == "\n"
    || (|end| == 2 && end[0] == '\r')
    || (end == "" && post == "")
    || (list && |end| == 1 && end[0] != '\r')
    || (end == "\r" && post == "")
  }

  lemma RestBehind(s: string, val: nat, x: string, end: string, list: bool, post: string)
    requires val <= |s| && s[val..] == x + (end + post) && EndsLine(end, list, post)
    ensures val + |x| <= |s| && Rest(s, val + |x|) == post
  {
    var e := val + |x|;
    assert s[e..] == s[val..][|x|..] == end + post;
    assert end != "" ==> s[e..][0] == end[0];
    assert |end| == 1 ==> s[e + 1..] == s[e..][1..] == post;
    assert |end| == 2 ==> s[e + 2..] == s[e..][2..] == post;
  }

  /** A good line is read as it was meant, however it is laid out, and parsing goes on behind its end: blanks around the name are
      dropped, so are those before the value and a comment, but not those between the two. */
  lemma LineRead(s: string, pre: string, k: string, a: string, b: string, v: string, comment: string, end: string, post: string)
    requires s == pre + k + a + "=" + (b + (v + (comment + (end + post))))
    requires KeyOk(k) && ValOk(v) && Blanks(a) && Blanks(b) && forall c :: c in pre ==> c in " \t\r\n"
    requires IsComment(comment) && (v[0] == '[' ==> comment == "") && EndsLine(end, v[0] == '[', post)
    ensures s != ""
    ensures var endl := |pre| + |k| + |a| + 1 + |b| + |v| + |comment|;
      endl <= |s| && ParseOption(s) == (endl, Some((k, v))) && Rest(s, endl) == post
  {
    hide *;
    var u := b + (v + (comment + (end + post)));
    var eq := |pre| + |k| + |a|;
    NameFound(s, pre, k, a, u);
    ValueStart(v, comment + (end + post));
    ValueStartsAt(s, eq, b, v + (comment + (end + post)));
    Positions(s, |pre|, |pre| + |k|, eq, eq + 1 + |b|);
    LineEnds(s, |pre|, |pre| + |k|, eq, eq + 1 + |b|, v, comment, end, post);
  }

  lemma ValueStart(v: string, more: string)
    requires ValOk(v)
    ensures v + more != "" && (v + more)[0] !in " \t\r\n#"
  {
    assert v[0] in v;
  }

  lemma LineEnds(s: string, begin: nat, name: nat, eq: nat, val: nat, v: string, comment: string, end: string, post: string)
    requires NameAt(s, begin, name, eq) && ValueAt(s, eq, val) && ValOk(v) && s[val..] == v + (comment + (end + post))
    requires IsComment(comment) && (v[0] == '[' ==> comment == "") && EndsLine(end, v[0] == '[', post)
    ensures val + |v| + |comment| <= |s| && Rest(s, val + |v| + |comment|) == post
    ensures ParseOption(s) == (val + |v| + |comment|, Some((s[begin..name], v)))
  {
    hide ParseOption, Closing, Uncommented, FindIf, FindLast, EndsLine, Rest, IsList, NameAt, ValueAt, Depth, Endline, IsComment;
    Positions(s, begin, name, eq, val);
    Bytes.Assoc(v, comment, end + post);
    RestBehind(s, val, v + comment, end, v[0] == '[', post);
    if v[0] == '[' {
      ListRead(s, begin, name, eq, val, v, end + post);
    } else {
      PlainRead(s, begin, name, eq, val, v, comment, end, post);
    }
  }

  lemma ListRead(s: string, begin: nat, name: nat, eq: nat, val: nat, v: string, rest: string)
    requires NameAt(s, begin, name, eq) && ValueAt(s, eq, val) && v != "" && v[0] == '[' && '#' !in v && IsList(v)
    requires s[val..] == v + rest
    ensures val + |v| <= |s| && ParseOption(s) == (val + |v|, Some((s[begin..name], v)))
  {
    hide ParseOption, Closing, Uncommented, FindIf, FindLast, IsList, NameAt, ValueAt, Depth;
    Positions(s, begin, name, eq, val);
    OptionRead(s, begin, name, eq, val, FindIf(s, begin, |s|, Endline));
    ListEnds(v, rest);
    assert s[val..][..|v|] == v;
    UncommentedSame(v);
    ListNotOpen(v);
  }

  lemma ListNotOpen(v: string)
    requires IsList(v)
    ensures v != "["
  {
    DepthOne(SQUARE, '[');
  }

  lemma Positions(s: string, begin: nat, name: nat, eq: nat, val: nat)
    requires NameAt(s, begin, name, eq) && ValueAt(s, eq, val)
    ensures begin < name <= eq < val < |s|
  {
  }

  lemma PlainRead(s: string, begin: nat, name: nat, eq: nat, val: nat, v: string, comment: string, end: string, post: string)
    requires NameAt(s, begin, name, eq) && ValueAt(s, eq, val) && v != "" && v[0] != '[' && '#' !in v && '\r' !in v && '\n' !in v
    requires s[val..] == v + (comment + (end + post)) && IsComment(comment) && EndsLine(end, false, post)
    ensures val + |v| + |comment| <= |s| && ParseOption(s) == (val + |v| + |comment|, Some((s[begin..name], v)))
  {
    hide ParseOption, Closing, Uncommented, FindIf, FindLast, NameAt, ValueAt, EndsLine, IsComment;
    Positions(s, begin, name, eq, val);
    var endl := FindIf(s, begin, |s|, Endline);
    OptionRead(s, begin, name, eq, val, endl);
    ValueFound(s, begin, name, eq, val);
    PlainEnds(s, begin, val, v, comment, end, post, endl);
    CommentedValue(v, comment);
    Bytes.Assoc(v, comment, end + post);
    assert s[val..][..|v| + |comment|] == v + comment;
  }

  lemma CommentedValue(v: string, comment: string)
    requires '#' !in v && IsComment(comment)
    ensures Uncommented(v + comment, false) == v
  {
    hide Uncommented;
    assert comment + "" == comment && v + "" == v;
    UncommentedRound(v + comment, v, comment, "");
    NothingLeft();
  }

  lemma ListEnds(v: string, post: string)
    requires v != "" && v[0] == '[' && IsList(v)
    ensures Closing((v + post)[1..]) == |v| - 1
  {
    hide Closing, IsList;
    assert (v + post)[1..] == v[1..] + post;
    if post == "" {
      ClosesExactly(v, "\n");
      ClosedEarlier(v[1..], "\n");
      assert v[1..] + post == v[1..];
    } else {
      ClosesExactly(v, post);
    }
  }

  /** At the end of the file there may be nothing behind a list. */
  lemma ClosedEarlier(s: string, post: string)
    requires Closing(s + post) == |s|
    ensures Closing(s) == |s|
  {
    hide Closing;
    ClosingIs(s);
    ClosingIs(s + post);
    forall m | 0 <= m < |s|
      ensures Depth(SQUARE, s[..m]) != -1
    {
      assert (s + post)[..m] == s[..m];
    }
  }

  lemma PlainEnds(s: string, begin: nat, val: nat, v: string, comment: string, end: string, post: string, endl: nat)
    requires begin <= val <= |s| && s[val..] == v + (comment + (end + post)) && endl == FindIf(s, begin, |s|, Endline) && endl >= val
    requires '\r' !in v && '\n' !in v && IsComment(comment) && EndsLine(end, false, post)
    ensures endl == val + |v| + |comment|
  {
    hide FindIf;
    var t := s[val..];
    var stop := |v| + |comment|;
    assert forall m :: 0 <= m < |t| ==> s[val + m] == t[m];
    assert forall m :: 0 <= m < |v| ==> t[m] == v[m] && v[m] in v;
    assert forall m :: |v| <= m < stop ==> t[m] == comment[m - |v|];
    assert end != "" ==> t[stop] == end[0];
    forall m | val <= m < val + stop
      ensures !Endline(s[m])
    {
      assert s[m] == t[m - val];
    }
    assert begin <= endl;
    assert val + stop < |s| ==> Endline(s[val + stop]);
  }

  lemma LineIs(k: string, v: string, post: string)
    ensures Line(k, v) + post == "" + k + " " + "=" + (" " + (v + ("" + ("\n" + post))))
  {
    assert "" + k + " " + "=" == k + " =" && v + ("" + ("\n" + post)) == v + "\n" + post;
    assert Line(k, v) + post == k + " =" + (" " + (v + "\n" + post));
  }

  /** A line as it is written, with a good name. */
  lemma NameWritten(s: string, k: string, t: string)
    requires s == k + " = " + t && KeyOk(k)
    ensures |s| == |k| + 3 + |t| && NameAt(s, 0, |k|, |k| + 1) && s[0..|k|] == k && s[|k| + 3..] == t && s[|k| + 2] == ' '
    ensures t != "" && t[0] !in " \t\r\n#" ==> ValueAt(s, |k| + 1, |k| + 3)
  {
    assert s == "" + k + " " + "=" + (" " + t);
    NameFound(s, "", k, " ", " " + t);
  }

  /** Every entry that is written can be read back. */
  ghost predicate Readable(items: seq<(string, Json)>) {
    forall i :: 0 <= i < |items| ==> items[i].1.Null? || items[i].1 == Text("") || (KeyOk(items[i].0) && ValOk(items[i].1.s))
  }

  /** Reading a written file back gives exactly the entries written. */
  lemma {:induction false} RoundTrip(items: seq<(string, Json)>)
    requires Readable(items)
    ensures Parsed(Lines(items)) == Kept(items)
  {
    hide KeyOk, ValOk, Line, Parsed;
    if items == [] {
      NothingParsed();
    } else {
      var (k, v) := items[0];
      assert forall i :: 0 <= i < |items[1..]| ==> items[1..][i] == items[i + 1];
      RoundTrip(items[1..]);
      if !(v.Null? || v == Text("")) {
        LineParsed(k, v.s, Lines(items[1..]));
      } else {
        assert Lines(items) == Lines(items[1..]);
      }
    }
  }

  lemma LineParsed(k: string, v: string, post: string)
    requires KeyOk(k) && ValOk(v)
    ensures Parsed(Line(k, v) + post) == Parsed(post)[k := v]
  {
    hide ParseOption, Rest, KeyOk, ValOk, Line;
    WrittenRead(k, v, post);
  }

  /** A line as it is written is one way to lay it out. */
  lemma WrittenRead(k: string, v: string, post: string)
    requires KeyOk(k) && ValOk(v)
    ensures var endl := |k| + 3 + |v|;
      Line(k, v) + post != "" && endl <= |Line(k, v) + post|
      && ParseOption(Line(k, v) + post) == (endl, Some((k, v))) && Rest(Line(k, v) + post, endl) == post
  {
    hide *;
    LineIs(k, v, post);
    Plainest(post);
    NotEmpty(v);
    LineRead(Line(k, v) + post, "", k, " ", " ", v, "", "\n", post);
  }

  lemma Plainest(post: string)
    ensures Blanks(" ") && IsComment("") && forall list :: EndsLine("\n", list, post)
  {
  }

  lemma NotEmpty(v: string)
    requires ValOk(v)
    ensures v != ""
  {
  }

  /** As the members of a JSON object are. */
  ghost predicate DistinctNames(items: seq<(string, Json)>) {
    forall i, j :: 0 <= i < j < |items| ==> items[i].0 != items[j].0
  }

  /** Of entries with distinct names, as a JSON object has them, each one written is kept with its own value, and no other. */
  lemma {:induction false} KeptExactly(items: seq<(string, Json)>, k: string)
    requires DistinctNames(items)
    ensures k in Kept(items) <==> exists i :: 0 <= i < |items| && items[i].0 == k && !items[i].1.Null? && items[i].1 != Text("")
    ensures forall i :: 0 <= i < |items| && items[i].0 == k && k in Kept(items) ==> !items[i].1.Null? && Kept(items)[k] == items[i].1.s
  {
    if items != [] {
      var tail := items[1..];
      KeptExactly(tail, k);
      assert forall i :: 0 < i < |items| ==> items[i] == tail[i - 1];
      assert forall i :: 0 <= i < |tail| ==> tail[i] == items[i + 1];
    }
  }

  // ----- Files written by hand -----

  /** A stretch of a file, with the blanks and line ends before it: an option, one whose value is blank, one without a value, or
      something that is no option. */
  datatype Row =
    | Option(lead: string, name: string, before: string, after: string, value: string, comment: string, end: string)
    | Blank(lead: string, name: string, before: string, value: string, comment: string, end: string)
    | Bare(lead: string, name: string, before: string, end: string)
    | Junk(lead: string, text: string, comment: string, end: string)

  /** The row, with the rest of the file behind it. */
  function RowText(r: Row, post: string): string {
    match r
    case Option(lead, name, before, after, value, comment, end) =>
      lead + name + before + "=" + (after + (value + (comment + (end + post))))
    case Blank(lead, name, before, value, comment, end) => lead + name + before + "=" + (value + (comment + (end + post)))
    case Bare(lead, name, before, end) => lead + name + before + "=" + (end + post)
    case Junk(lead, text, comment, end) => lead + (text + (comment + (end + post)))
  }

  ghost predicate RowOk(r: Row, post: string) {
    && (forall c :: c in r.lead ==> c in " \t\r\n")
    && match r
       case Option(_, name, before, after, value, comment, end) =>
         && KeyOk(name) && ValOk(value) && Blanks(before) && Blanks(after)
         && IsComment(comment) && (value[0] == '[' ==> comment == "") && EndsLine(end, value[0] == '[', post)
       case Blank(_, name, before, value, comment, end) =>
         && KeyOk(name) && Blanks(before) && Blanks(value) && IsComment(comment) && value + comment != "" && EndsLine(end, false, post)
       case Bare(_, name, before, end) => KeyOk(name) && Blanks(before) && EndsLine(end, false, post)
       case Junk(_, text, comment, end) =>
         && text + comment != "" && IsComment(comment) && EndsLine(end, false, post)
         && (text != "" ==> text[0] !in " \t\r\n" && (text[0] == '=' || '=' !in text) && forall c :: c in text ==> c !in "#\r\n")
  }

  predicate Sets(r: Row, k: string) {
    (r.Option? || r.Blank?) && r.name == k
  }

  function FileText(rows: seq<Row>, tail: string): string {
    if rows == [] then tail else RowText(rows[0], FileText(rows[1..], tail))
  }

  ghost predicate FileOk(rows: seq<Row>, tail: string) {
    if rows == [] then forall c :: c in tail ==> c in " \t\r\n"
    else RowOk(rows[0], FileText(rows[1..], tail)) && FileOk(rows[1..], tail)
  }

  /** A file sets exactly the names its rows set, each to the value in the first row that does. */
  ghost predicate FirstOf(rows: seq<Row>, vars: map<string, string>) {
    && (forall k :: k in vars <==> exists i :: 0 <= i < |rows| && Sets(rows[i], k))
    && forall i :: 0 <= i < |rows| && (rows[i].Option? || rows[i].Blank?) && (forall j :: 0 <= j < i ==> !Sets(rows[j], rows[i].name)) ==>
         rows[i].name in vars && vars[rows[i].name] == rows[i].value
  }

  /** However a file is laid out: comments, blank lines, blanks around names and values and lines that are no options make no
      difference, a carriage return ends a line together with the character behind it, and the first option of a name counts. */
  lemma {:induction false} HandwrittenFile(rows: seq<Row>, tail: string)
    requires FileOk(rows, tail)
    ensures FirstOf(rows, Parsed(FileText(rows, tail)))
  {
    hide RowOk, RowText, Parsed, FirstOf;
    if rows == [] {
      NothingButBlanks(tail);
      NothingSet();
    } else {
      var post := FileText(rows[1..], tail);
      HandwrittenFile(rows[1..], tail);
      RowParsed(rows[0], post);
      SetsFirst(rows, Parsed(post));
    }
  }

  lemma NothingSet()
    ensures FirstOf([], map[])
  {
  }

  lemma SetsFirst(rows: seq<Row>, vars: map<string, string>)
    requires rows != [] && FirstOf(rows[1..], vars)
    ensures FirstOf(rows, if rows[0].Option? || rows[0].Blank? then vars[rows[0].name := rows[0].value] else vars)
  {
    var tail := rows[1..];
    assert forall i :: 0 <= i < |tail| ==> tail[i] == rows[i + 1];
    assert forall i :: 0 < i < |rows| ==> rows[i] == tail[i - 1];
    var all := if rows[0].Option? || rows[0].Blank? then vars[rows[0].name := rows[0].value] else vars;
    forall k
      ensures k in all <==> exists i :: 0 <= i < |rows| && Sets(rows[i], k)
    {
      if k in vars {
        var i :| 0 <= i < |tail| && Sets(tail[i], k);
        assert Sets(rows[i + 1], k);
      }
      assert Sets(rows[0], k) ==> k in all;
    }
    forall i | 0 <= i < |rows| && (rows[i].Option? || rows[i].Blank?) && (forall j :: 0 <= j < i ==> !Sets(rows[j], rows[i].name))
      ensures rows[i].name in all && all[rows[i].name] == rows[i].value
    {
      if i > 0 {
        assert tail[i - 1] == rows[i] && !Sets(rows[0], rows[i].name);
        assert forall j :: 0 <= j < i - 1 ==> !Sets(tail[j], rows[i].name);
      }
    }
  }

  lemma NothingButBlanks(s: string)
    requires forall c :: c in s ==> c in " \t\r\n"
    ensures Parsed(s) == map[]
  {
    assert forall i :: 0 <= i < |s| ==> s[i] in s;
    FindIs(s, 0, |s|, Solid, |s|);
    if s != "" {
      assert ParseOption(s) == (|s|, None);
      NothingParsed();
    }
  }

  /** One row, whatever stands behind it. */
  lemma RowParsed(r: Row, post: string)
    requires RowOk(r, post)
    ensures Parsed(RowText(r, post)) == if r.Option? || r.Blank? then Parsed(post)[r.name := r.value] else Parsed(post)
  {
    hide ParseOption, Rest, RowOk, RowText;
    var endl := RowRead(r, post);
  }

  lemma RowRead(r: Row, post: string) returns (endl: nat)
    requires RowOk(r, post)
    ensures var s := RowText(r, post);
      && s != "" && endl <= |s| && Rest(s, endl) == post
      && ParseOption(s) == (endl, if r.Option? || r.Blank? then Some((r.name, r.value)) else None)
  {
    hide ParseOption, Rest, KeyOk, ValOk, Blanks, EndsLine, NameAt, IsComment, Depth;
    var s := RowText(r, post);
    match r
    case Option(lead, name, before, after, value, comment, end) =>
      LineRead(s, lead, name, before, after, value, comment, end, post);
      endl := |lead| + |name| + |before| + 1 + |after| + |value| + |comment|;
    case Blank(lead, name, before, value, comment, end) =>
      NameFound(s, lead, name, before, value + (comment + (end + post)));
      BlankRead(s, |lead|, |lead| + |name|, |lead| + |name| + |before|, value, comment, end, post);
      endl := |lead| + |name| + |before| + 1 + |value| + |comment|;
    case Bare(lead, name, before, end) =>
      NameFound(s, lead, name, before, end + post);
      BareRead(s, |lead|, |lead| + |name|, |lead| + |name| + |before|, end, post);
      endl := |lead| + |name| + |before| + 1;
    case Junk(lead, text, comment, end) =>
      JunkRead(s, lead, text, comment, end, post);
      endl := |lead| + |text| + |comment|;
  }

  lemma BlankRead(s: string, begin: nat, name: nat, eq: nat, w: string, comment: string, end: string, post: string)
    requires NameAt(s, begin, name, eq) && Blanks(w) && IsComment(comment) && w + comment != "" && EndsLine(end, false, post)
    requires s[eq + 1..] == w + (comment + (end + post))
    ensures var endl := eq + 1 + |w| + |comment|;
            endl <= |s| && ParseOption(s) == (endl, Some((s[begin..name], w))) && Rest(s, endl) == post
  {
    hide ParseOption, Uncommented, FindIf, FindLast, Rest, NameAt, EndsLine, IsComment, Endline, Solid, OptionAt, Blanks;
    NamePositions(s, begin, name, eq);
    PartsFound(s, begin, name, eq);
    var val := eq + 1;
    var endl := FindIf(s, begin, |s|, Endline);
    BlanksPlain(w);
    PlainEnds(s, begin, val, w, comment, end, post, endl);
    Bytes.Assoc(w, comment, end + post);
    RestBehind(s, val, w + comment, end, false, post);
    PlainName(s, begin, name, eq);
    NoHashBefore(s, begin, name, eq);
    NothingSolid(s, begin, eq, w, comment, end + post, endl);
    BlankAt(s, begin, name, val, w, comment, end + post);
  }

  lemma NoHashBefore(s: string, begin: nat, name: nat, eq: nat)
    requires NameAt(s, begin, name, eq)
    ensures forall m :: begin <= m <= eq ==> s[m] != '#'
  {
  }

  lemma BlankAt(s: string, begin: nat, name: nat, val: nat, w: string, comment: string, rest: string)
    requires begin <= name <= val < |s| && Uncommented(s[begin..name], false) == s[begin..name]
    requires '#' !in w && IsComment(comment) && w + comment != "" && s[val..] == w + (comment + rest) && s[val] != '['
    ensures var endl := val + |w| + |comment|; endl <= |s| && OptionAt(s, begin, name, val, endl) == (endl, Some((s[begin..name], w)))
  {
    hide Uncommented, IsComment, Closing;
    CommentedValue(w, comment);
    Bytes.Assoc(w, comment, rest);
    assert s[val..val + |w| + |comment|] == s[val..][..|w| + |comment|] == w + comment;
  }

  lemma NamePositions(s: string, begin: nat, name: nat, eq: nat)
    requires NameAt(s, begin, name, eq)
    ensures begin < name <= eq < |s| && Solid(s[eq]) && s[eq] != '#'
  {
  }

  lemma BlanksPlain(w: string)
    requires Blanks(w)
    ensures '#' !in w && '\r' !in w && '\n' !in w
  {
  }

  /** Behind an equals sign followed by blanks alone the value starts right away. */
  lemma NothingSolid(s: string, begin: nat, eq: nat, w: string, comment: string, rest: string, endl: nat)
    requires begin <= eq < |s| && Solid(s[eq]) && Blanks(w) && IsComment(comment) && s[eq + 1..] == w + (comment + rest)
    requires endl == eq + 1 + |w| + |comment|
    requires forall m :: begin <= m <= eq ==> s[m] != '#'
    ensures var endc := FindLast(s, begin, FindIf(s, begin, endl, Hash), Solid);
            endc == eq + 1 && FindIf(s, eq + 1, endc, NotSpaceTab) == eq + 1
    ensures w + comment != "" ==> s[eq + 1] != '['
  {
    hide FindIf, FindLast;
    var t := s[eq + 1..];
    assert forall m :: 0 <= m < |w| ==> t[m] == w[m] && w[m] in w;
    assert comment != "" ==> t[|w|] == comment[0];
    assert forall m :: 0 <= m < |t| ==> s[eq + 1 + m] == t[m];
    forall m | eq + 1 <= m < eq + 1 + |w|
      ensures SpaceTab(s[m])
    {
      assert s[m] == t[m - (eq + 1)];
    }
    FindIs(s, begin, endl, Hash, eq + 1 + |w|);
    FindLastIs(s, begin, eq + 1 + |w|, Solid, eq + 1);
    FindIs(s, eq + 1, eq + 1, NotSpaceTab, eq + 1);
  }

  lemma BareRead(s: string, begin: nat, name: nat, eq: nat, end: string, post: string)
    requires NameAt(s, begin, name, eq) && EndsLine(end, false, post) && s[eq + 1..] == end + post
    ensures ParseOption(s) == (eq + 1, None) && Rest(s, eq + 1) == post
  {
    hide ParseOption, FindIf, FindLast, Rest, EndsLine, NameAt, IsComment, Blanks, Endline, Solid, OptionAt;
    NamePositions(s, begin, name, eq);
    PartsFound(s, begin, name, eq);
    var endl := FindIf(s, begin, |s|, Endline);
    NoValue();
    PlainEnds(s, begin, eq + 1, "", "", end, post, endl);
    RestBehind(s, eq + 1, "", end, false, post);
  }

  lemma NoValue()
    ensures IsComment("") && Blanks("") && forall s: string :: "" + s == s
  {
  }

  lemma JunkRead(s: string, lead: string, text: string, comment: string, end: string, post: string)
    requires s == lead + (text + (comment + (end + post))) && RowOk(Junk(lead, text, comment, end), post)
    ensures var endl := |lead| + |text| + |comment|;
            s != "" && endl <= |s| && ParseOption(s) == (endl, None) && Rest(s, endl) == post
  {
    hide ParseOption, FindIf, FindLast, Rest, EndsLine, OptionAt;
    var begin, t := |lead|, text + (comment + (end + post));
    JunkStarts(s, lead, text, comment, end + post);
    assert text == "" || text[0] in text;
    FindIs(s, 0, |s|, Solid, begin);
    var endl := FindIf(s, begin, |s|, Endline);
    PlainEnds(s, begin, begin, text, comment, end, post, endl);
    Bytes.Assoc(text, comment, end + post);
    RestBehind(s, begin, text + comment, end, false, post);
    NoOption(s, begin, text, comment, end + post, endl);
  }

  lemma JunkStarts(s: string, lead: string, text: string, comment: string, rest: string)
    requires s == lead + (text + (comment + rest)) && text + comment != "" && IsComment(comment)
    requires (forall c :: c in lead ==> c in " \t\r\n") && (text != "" ==> text[0] !in " \t\r\n")
    ensures |lead| < |s| && s[|lead|..] == text + (comment + rest) && Solid(s[|lead|]) && forall m :: 0 <= m < |lead| ==> !Solid(s[m])
  {
    assert forall m :: 0 <= m < |lead| ==> s[m] == lead[m] && lead[m] in lead;
    assert s[|lead|..] == text + (comment + rest);
    assert s[|lead|..][0] == if text != "" then text[0] else comment[0];
  }

  lemma NoOption(s: string, begin: nat, text: string, comment: string, rest: string, endl: nat)
    requires begin < |s| && s[begin..] == text + (comment + rest) && text + comment != "" && IsComment(comment) && Solid(s[begin])
    requires (text != "" ==> text[0] == '=' || '=' !in text) && '#' !in text
    requires FindIf(s, 0, |s|, Solid) == begin && FindIf(s, begin, |s|, Endline) == endl == begin + |text| + |comment|
    ensures ParseOption(s).1.None? && ParseOption(s).0 == endl
  {
    hide FindIf, FindLast, OptionAt;
    var t := s[begin..];
    assert forall m :: 0 <= m < |t| ==> s[begin + m] == t[m];
    assert forall m :: 0 <= m < |text| ==> t[m] == text[m] && text[m] in text;
    assert comment != "" ==> t[|text|] == comment[0];
    forall m | begin <= m < begin + |text|
      ensures s[m] != '#' && (s[begin] != '=' ==> s[m] != '=')
    {
      assert s[m] == t[m - begin] == text[m - begin];
    }
    FindIs(s, begin, endl, Hash, begin + |text|);
    var endc := FindLast(s, begin, begin + |text|, Solid);
    if text != "" && text[0] == '=' {
      FindIs(s, begin, endc, Equals, begin);
    } else {
      FindIs(s, begin, endc, Equals, endc);
    }
  }

  // ----- Exactly which entries survive -----

  /** No name the parser returns is outside the domain. */
  lemma OptionKeyOk(s: string)
    requires ParseOption(s).1.Some?
    ensures KeyOk(ParseOption(s).1.value.0)
  {
    hide FindIf, FindLast, Uncommented, Closing;
    var begin := FindIf(s, 0, |s|, Solid);
    var endl := FindIf(s, begin, |s|, Endline);
    var hash := FindIf(s, begin, endl, Hash);
    var endc := FindLast(s, begin, hash, Solid);
    var eq := FindIf(s, begin, endc, Equals);
    var endName := FindLast(s, begin, eq, NotSpaceTab);
    NameOk(s, begin, endName, eq);
    UncommentedSame(s[begin..endName]);
  }

  lemma NameOk(s: string, begin: nat, endName: nat, eq: nat)
    requires begin < eq <= |s| && begin <= endName <= eq && Solid(s[begin])
    requires forall m :: begin <= m < eq ==> s[m] != '=' && s[m] != '#' && !Endline(s[m])
    requires begin < endName ==> NotSpaceTab(s[endName - 1])
    requires forall m :: endName <= m < eq ==> !NotSpaceTab(s[m])
    ensures endName > begin && KeyOk(s[begin..endName]) && '#' !in s[begin..endName]
  {
    var k := s[begin..endName];
    assert forall i :: 0 <= i < |k| ==> k[i] == s[begin + i];
  }

  lemma {:induction false} KeysOk(s: string)
    ensures forall k :: k in Parsed(s) ==> KeyOk(k)
    decreases |s|
  {
    hide ParseOption, KeyOk;
    if s != [] {
      var (endl, option) := ParseOption(s);
      KeysOk(Rest(s, endl));
      if option.Some? {
        OptionKeyOk(s);
      }
    }
  }

  /** A file comes back exactly when all its entries are in the domain: each one written is then read with its own value and no
      other is, and otherwise at least one is lost or changed. */
  lemma FileSurvivesExactly(items: seq<(string, Json)>)
    requires DistinctNames(items)
    ensures Parsed(Lines(items)) == Kept(items) <==> Readable(items)
  {
    if Readable(items) {
      RoundTrip(items);
    } else {
      var k := SomeEntryLost(items);
    }
  }

  /** The entry that a file loses, or changes. */
  lemma {:induction false} SomeEntryLost(items: seq<(string, Json)>) returns (k: string)
    requires DistinctNames(items) && !Readable(items)
    ensures k in Kept(items) && (k !in Parsed(Lines(items)) || Parsed(Lines(items))[k] != Kept(items)[k])
  {
    hide KeyOk, ValOk, Line, Parsed;
    var (k0, v0) := items[0];
    var tail := items[1..];
    assert forall i :: 0 <= i < |tail| ==> tail[i] == items[i + 1];
    if v0.Null? || v0 == Text("") {
      k := SomeEntryLost(tail);
      assert Lines(items) == Lines(tail);
    } else if KeyOk(k0) && ValOk(v0.s) {
      k := SomeEntryLost(tail);
      KeptExactly(tail, k);
      LineParsed(k0, v0.s, Lines(tail));
    } else {
      k := k0;
      BadEntryLost(k0, v0.s, Lines(tail));
    }
  }

  /** An entry outside the domain is lost or changed, whatever comes behind it. */
  lemma BadEntryLost(k: string, v: string, post: string)
    requires !KeyOk(k) || !ValOk(v)
    ensures var vars := Parsed(Line(k, v) + post); k !in vars || vars[k] != v
  {
    hide ParseOption, Rest, KeyOk, ValOk, Line, Parsed;
    if KeyOk(k) {
      BadValueLost(k, v, post);
      FirstCounts(Line(k, v) + post);
    } else {
      KeysOk(Line(k, v) + post);
    }
  }

  /** A file of one entry comes back exactly when its name and its value are in the domain. */
  lemma SurvivesExactly(k: string, v: string)
    ensures Parsed(Line(k, v)) == map[k := v] <==> KeyOk(k) && ValOk(v)
  {
    hide KeyOk, ValOk, Line, Parsed;
    assert Line(k, v) + [] == Line(k, v);
    if KeyOk(k) && ValOk(v) {
      LineParsed(k, v, []);
      NothingParsed();
    } else {
      BadEntryLost(k, v, []);
      assert k in map[k := v];
    }
  }

  /** A list that nothing closes takes in the rest of the file. */
  lemma OpenListSwallows(k: string, v: string, post: string)
    requires KeyOk(k) && v != "" && v[0] == '[' && '#' !in v + "\n" + post
    requires forall m :: 0 < m <= |v + "\n" + post| ==> Depth(SQUARE, (v + "\n" + post)[..m]) != 0
    ensures Parsed(Line(k, v) + post) == map[k := v + "\n" + post]
  {
    hide ParseOption, Rest, KeyOk, Closing, Uncommented, FindIf, Depth;
    var t := v + "\n" + post;
    var s := k + " = " + t;
    assert Line(k, v) + post == s;
    var endl := FindIf(s, 0, |s|, Endline);
    NameWritten(s, k, t);
    OptionRead(s, 0, |k|, |k| + 1, |k| + 3, endl);
    NeverClosed(t);
    assert t[..|t|] == t;
    UncommentedSame(t);
    NothingParsed();
    WholeFile(s, k, t);
  }

  lemma NeverClosed(t: string)
    requires t != "" && t[0] == '[' && forall m :: 0 < m <= |t| ==> Depth(SQUARE, t[..m]) != 0
    ensures Closing(t[1..]) == |t| - 1
  {
    hide Closing, Depth;
    var k := Closing(t[1..]);
    ClosingIs(t[1..]);
    if k < |t| - 1 {
      DepthHead(SQUARE, t, k + 1);
    }
  }

  lemma WholeFile(s: string, k: string, t: string)
    requires s != [] && ParseOption(s) == (|s|, Some((k, t)))
    ensures Parsed(s) == map[k := t]
  {
    hide ParseOption;
    NothingParsed();
  }

  /** An entry that would come back by itself does not behind a list that is left open: it becomes part of the list. */
  lemma GoodEntrySwallowed()
    ensures var items := [("a", Text("[x")), ("b", Text("1"))];
            && DistinctNames(items) && KeyOk("b") && ValOk("1") && "b" in Kept(items)
            && Parsed(Lines(items)) == map["a" := "[x\nb = 1\n"]
  {
    var t := "[x\nb = 1\n";
    assert "[x" + "\n" + "b = 1\n" == t;
    forall m | 0 < m <= |t|
      ensures Depth(SQUARE, t[..m]) != 0
    {
      StaysOpen(t[..m]);
    }
    TwoLines();
    OpenListSwallows("a", "[x", "b = 1\n");
  }

  lemma {:induction false} StaysOpen(x: string)
    requires x != "" && x[0] == '[' && ']' !in x
    ensures Depth(SQUARE, x) > 0
  {
    if |x| > 1 {
      StaysOpen(x[..|x| - 1]);
    }
  }

  lemma TwoLines()
    ensures Line("a", "[x") + "b = 1\n" == Lines([("a", Text("[x")), ("b", Text("1"))])
    ensures KeyOk("a") && KeyOk("b") && ValOk("1")
  {
  }

  lemma FirstCounts(s: string)
    requires s != [] && ParseOption(s).1.Some?
    ensures var (k, v) := ParseOption(s).1.value; k in Parsed(s) && Parsed(s)[k] == v
  {
    hide ParseOption, Rest;
  }

  /** With a good name but a bad value, the first option read has that name and another value. */
  lemma BadValueLost(k: string, v: string, post: string)
    requires KeyOk(k) && !ValOk(v)
    ensures Line(k, v) + post != [] && ParseOption(Line(k, v) + post).1.Some?
    ensures var (k', v') := ParseOption(Line(k, v) + post).1.value; k' == k && v' != v
  {
    hide ParseOption, KeyOk, ValOk, FindIf;
    var t := v + "\n" + post;
    var s := k + " = " + t;
    assert Line(k, v) + post == s;
    if v != "" && Solid(v[0]) && v[0] != '#' {
      BadTail(s, k, v, post);
    } else {
      BadStart(s, k, v, post);
    }
  }

  lemma BadTail(s: string, k: string, v: string, post: string)
    requires KeyOk(k) && v != "" && !ValOk(v) && Solid(v[0]) && v[0] != '#' && s == k + " = " + (v + "\n" + post)
    ensures ParseOption(s).1.Some?
    ensures var (k', v') := ParseOption(s).1.value; k' == k && v' != v
  {
    hide ParseOption, KeyOk, Closing, Uncommented, FindIf, FindLast, ValOk;
    var t := v + "\n" + post;
    var endl := FindIf(s, 0, |s|, Endline);
    NameWritten(s, k, t);
    OptionRead(s, 0, |k|, |k| + 1, |k| + 3, endl);
    var end := if t[0] == '[' then 1 + Closing(t[1..]) else endl - |k| - 3;
    assert ParseOption(s).1.value.1 == Uncommented(t[..end], false);
    if '#' !in v {
      EndsElsewhere(s, k, v, post, endl, end);
      assert t[..|v|] == v;
      OtherEnd(t, v, end);
    }
  }

  /** Without comments, a bad value does not end where it was written to end. */
  lemma EndsElsewhere(s: string, k: string, v: string, post: string, endl: nat, end: nat)
    requires KeyOk(k) && v != "" && !ValOk(v) && Solid(v[0]) && '#' !in v && s == k + " = " + (v + "\n" + post)
    requires endl == FindIf(s, 0, |s|, Endline) && end == if v[0] == '[' then 1 + Closing((v + "\n" + post)[1..]) else endl - |k| - 3
    ensures end != |v|
  {
    hide KeyOk, Closing, FindIf;
    var t := v + "\n" + post;
    if v[0] == '[' {
      ClosesExactly(v, "\n" + post);
      assert t[1..] == v[1..] + ("\n" + post);
    } else {
      NameWritten(s, k, t);
      assert s[|k| + 3..] == t;
      assert forall i :: 0 <= i < |v| ==> v[i] == s[|k| + 3 + i];
    }
  }

  lemma OtherEnd(t: string, v: string, end: nat)
    requires '#' !in v && |v| < |t| && t[..|v|] == v && t[|v|] == '\n' && end <= |t| && end != |v|
    ensures Uncommented(t[..end], false) != v
  {
    hide Uncommented;
    if end > |v| {
      var more := t[|v|..end];
      assert t[..end] == v + more && more[0] == '\n';
      UncommentedPlain(v, more);
      FirstKept(more);
    }
  }

  lemma BadStart(s: string, k: string, v: string, post: string)
    requires KeyOk(k) && (v == "" || !Solid(v[0]) || v[0] == '#') && s == k + " = " + (v + "\n" + post)
    ensures ParseOption(s).1.Some?
    ensures var (k', v') := ParseOption(s).1.value; k' == k && v' != v
  {
    hide ParseOption, KeyOk, Closing, Uncommented, FindIf, FindLast, OptionAt;
    var b, endl, hash, endc := StartLocated(s, k, v, post);
    UncommentedSame(k);
    LastChars(s, k, v, post);
    if v == "" {
      EmptyValue(s, |k|, b, endl, hash, endc);
    } else if v[0] == '#' {
      HasNoHash(s, |k|, b, endl);
      assert '#' in v;
    } else {
      BlankValue(s, |k|, v, b, endl, hash, endc);
    }
  }

  /** Where the parser looks for the value of a line with a good key. */
  lemma StartLocated(s: string, k: string, v: string, post: string) returns (b: nat, endl: nat, hash: nat, endc: nat)
    requires KeyOk(k) && s == k + " = " + (v + "\n" + post)
    ensures |k| + 3 <= hash <= endl < |s| && Endline(s[endl]) && (forall m :: 0 <= m < endl ==> !Endline(s[m]))
    ensures (forall m :: 0 <= m < hash ==> s[m] != '#') && (hash < endl ==> s[hash] == '#')
    ensures |k| + 2 <= b <= endc <= hash && forall m :: |k| + 2 <= m < b ==> SpaceTab(s[m])
    ensures (b < endc ==> !SpaceTab(s[b])) && Solid(s[endc - 1]) && forall m :: endc <= m < hash ==> !Solid(s[m])
    ensures ParseOption(s) == OptionAt(s, 0, |k|, b, endl) && s[0..|k|] == k
  {
    hide KeyOk, Closing, Uncommented, FindIf, FindLast, OptionAt, ParseOption, NameAt, ValueAt;
    NameWritten(s, k, v + "\n" + post);
    assert s[|k| + 3 + |v|] == '\n';
    PartsFound(s, 0, |k|, |k| + 1);
    Bounds(s, |k|, |k| + 3 + |v|);
    endl := FindIf(s, 0, |s|, Endline);
    hash := FindIf(s, 0, endl, Hash);
    endc := FindLast(s, 0, hash, Solid);
    b := FindIf(s, |k| + 2, endc, NotSpaceTab);
  }

  lemma Bounds(s: string, n: nat, nl: nat)
    requires n + 3 <= nl < |s| && NameAt(s, 0, n, n + 1) && s[n + 2] == ' ' && s[nl] == '\n'
    ensures var endl := FindIf(s, 0, |s|, Endline);
      && n + 3 <= endl < |s| && Endline(s[endl]) && (forall m :: 0 <= m < endl ==> !Endline(s[m]))
      && var hash := FindIf(s, 0, endl, Hash);
      && n + 3 <= hash && (forall m :: 0 <= m < hash ==> s[m] != '#') && (hash < endl ==> s[hash] == '#')
      && var endc := FindLast(s, 0, hash, Solid);
      && n + 2 <= endc && Solid(s[endc - 1]) && forall m :: endc <= m < hash ==> !Solid(s[m])
  {
    hide FindIf, FindLast;
    LineBounds(s, 0, n, n + 1);
    var endl := FindIf(s, 0, |s|, Endline);
    assert endl != n + 2;
    var hash := FindIf(s, 0, endl, Hash);
    assert hash != n + 2;
  }

  lemma HasNoHash(s: string, n: nat, b: nat, endl: nat)
    requires n <= b < endl < |s|
    ensures var o := OptionAt(s, 0, n, b, endl).1; o.Some? && o.value.0 == Uncommented(s[0..n], false) && '#' !in o.value.1
  {
    hide Closing, Uncommented;
  }

  lemma BlankValue(s: string, n: nat, v: string, b: nat, endl: nat, hash: nat, endc: nat)
    requires n + 3 <= hash <= endl < |s| && Endline(s[endl]) && (forall m :: 0 <= m < endl ==> !Endline(s[m]))
    requires (forall m :: 0 <= m < hash ==> s[m] != '#') && (hash < endl ==> s[hash] == '#')
    requires n + 2 <= b <= endc <= hash && forall m :: n + 2 <= m < b ==> SpaceTab(s[m])
    requires (b < endc ==> !SpaceTab(s[b])) && Solid(s[endc - 1]) && forall m :: endc <= m < hash ==> !Solid(s[m])
    requires v != "" && !Solid(v[0]) && |s| >= n + |v| + 4 && s[n + 2] == ' ' && s[n + 3..n + 3 + |v|] == v
    ensures var o := OptionAt(s, 0, n, b, endl).1; o.Some? && o.value.0 == Uncommented(s[0..n], false) && o.value.1 != v
  {
    hide Closing, Uncommented, OptionAt;
    if b < endc {
      ValueStarts(s, n, b, endl);
    } else {
      OnlyBlanks(s, n, b, hash, endl);
      ShiftedDiffers(s[b..hash], v, s, b, hash);
    }
  }

  /** An empty value is read as the blank in front of it. */
  lemma EmptyValue(s: string, n: nat, b: nat, endl: nat, hash: nat, endc: nat)
    requires n + 3 <= hash <= endl < |s| && (forall m :: 0 <= m < endl ==> !Endline(s[m]))
    requires forall m :: 0 <= m < hash ==> s[m] != '#'
    requires n + 2 <= b <= endc <= hash && b < endl && Solid(s[endc - 1]) && s[n + 2] == ' ' && s[n + 3] == '\n'
    ensures var o := OptionAt(s, 0, n, b, endl).1; o.Some? && o.value.0 == Uncommented(s[0..n], false) && o.value.1 != ""
  {
    hide Closing, Uncommented, OptionAt;
    OnlyBlanks(s, n, b, hash, endl);
  }

  lemma LastChars(s: string, k: string, v: string, post: string)
    requires s == k + " = " + (v + "\n" + post)
    ensures |s| >= |k| + |v| + 4 && s[|k| + 2] == ' ' && (v != "" ==> s[|k| + 3] == v[0]) && s[|k| + 3..|k| + 3 + |v|] == v
    ensures s[|k| + 3 + |v|] == '\n'
  {
  }

  /** A value that starts with something solid keeps that start. */
  lemma ValueStarts(s: string, n: nat, b: nat, endl: nat)
    requires n <= b < endl < |s| && s[b] != '#'
    ensures var option := OptionAt(s, 0, n, b, endl).1;
            option.Some? && option.value.0 == Uncommented(s[0..n], false) && option.value.1 != "" && option.value.1[0] == s[b]
  {
    hide Closing, Uncommented;
    FirstKept(s[b..endl]);
    FirstKept(s[b..b + 1 + Closing(s[b + 1..])]);
  }

  /** Of a blank value followed by a comment or by nothing, the blanks are kept. */
  lemma OnlyBlanks(s: string, n: nat, b: nat, hash: nat, endl: nat)
    requires n <= b < hash <= endl < |s| && s[b] != '[' && (hash < endl ==> s[hash] == '#')
    requires forall m :: b <= m < endl ==> !Endline(s[m]) && (m < hash ==> s[m] != '#')
    ensures OptionAt(s, 0, n, b, endl) == (endl, Some((Uncommented(s[0..n], false), s[b..hash])))
  {
    hide Closing, Uncommented;
    var x := s[b..endl];
    assert x == s[b..hash] + (s[hash..endl] + []);
    UncommentedRound(x, s[b..hash], s[hash..endl], []);
    NothingLeft();
    assert s[b..hash] + [] == s[b..hash];
  }

  lemma NothingLeft()
    ensures Uncommented([], false) == []
  {
  }

  lemma FirstKept(x: string)
    requires x != "" && x[0] != '#'
    ensures Uncommented(x, false) != "" && Uncommented(x, false)[0] == x[0]
  {
  }

  lemma ShiftedDiffers(w: string, v: string, s: string, b: nat, hash: nat)
    requires b < hash < |s| && w == s[b..hash] && |v| > 0 && b + 1 + |v| <= |s| && s[b + 1..b + 1 + |v|] == v
    requires forall m :: b <= m < hash ==> Whitespace(s[m]) && !Endline(s[m])
    requires s[hash] == '#' || Endline(s[hash])
    ensures w != v
  {
    var whole := s[b + 1..b + 1 + |v|];
    assert whole[|v| - 1] == s[b + |v|];
    assert w[|w| - 1] == s[hash - 1];
  }
}
