/** escape_path, escape and expand of tools/ninja_syntax.py, and lists of paths on wrapped lines. */
module NinjaPaths {
  import opened NinjaWriter

  /** Python's s.replace(what, with). */
  function Replace(s: string, what: string, with: string): string
    requires what != ""
  {
    if |s| < |what| then s
    else if s[..|what|] == what then with + Replace(s[|what|..], what, with)
    else [s[0]] + Replace(s[1..], what, with)
  }

  function EscapePath(word: string): string {
    Replace(Replace(Replace(word, "$ ", "$$ "), " ", "$ "), ":", "$:")
  }

  function Escape(s: string): string {
    Replace(s, "$", "$$")
  }

  // ---------------------------------------------------------------- variables

  /** \w, on ASCII characters. */
  predicate IsWord(c: char) {
    'a' <= c <= 'z' || 'A' <= c <= 'Z' || '0' <= c <= '9' || c == '_'
  }

  /** How many word characters s starts with. */
  function WordLength(s: string): (n: nat)
    ensures n <= |s| && (forall i :: 0 <= i < n ==> IsWord(s[i])) && (n < |s| ==> !IsWord(s[n]))
  {
    if s == "" || !IsWord(s[0]) then 0 else 1 + WordLength(s[1..])
  }

  function Lookup(name: string, vars: map<string, string>, localVars: map<string, string>): string {
    if name in localVars then localVars[name] else if name in vars then vars[name] else ""
  }

  /** `$$` is a dollar, `$` and word characters are a variable. */
  function Expand(s: string, vars: map<string, string>, localVars: map<string, string>): string {
    if s == "" then ""
    else if s[0] != '$' then [s[0]] + Expand(s[1..], vars, localVars)
    else if |s| >= 2 && s[1] == '$' then "$" + Expand(s[2..], vars, localVars)
    else
      var n := WordLength(s[1..]);
      Lookup(s[1..n + 1], vars, localVars) + Expand(s[n + 1..], vars, localVars)
  }

  /** Expanding undoes escaping, whatever the variables are, in the middle of any text. */
  lemma {:induction false} ExpandEscape(s: string, rest: string, vars: map<string, string>, localVars: map<string, string>)
    ensures Expand(Escape(s) + rest, vars, localVars) == s + Expand(rest, vars, localVars)
    decreases |s|
  {
    if s == "" {
      assert Escape(s) + rest == rest;
    } else {
      var tail := Escape(s[1..]) + rest;
      EscapeFirst(s, rest);
      ExpandFirst(s[0], tail, vars, localVars);
      ExpandEscape(s[1..], rest, vars, localVars);
      Associates([s[0]], s[1..], Expand(rest, vars, localVars));
      assert s == [s[0]] + s[1..];
    }
  }

  lemma EscapeFirst(s: string, rest: string)
    requires s != ""
    ensures Escape(s) + rest == (if s[0] == '$' then "$$" else [s[0]]) + (Escape(s[1..]) + rest)
  {
  }

  lemma ExpandFirst(c: char, tail: string, vars: map<string, string>, localVars: map<string, string>)
    ensures Expand((if c == '$' then "$$" else [c]) + tail, vars, localVars) == [c] + Expand(tail, vars, localVars)
  {
    assert ("$$" + tail)[2..] == tail && ([c] + tail)[1..] == tail;
  }

  /** A variable is as long a name as there is, and stands for its local value, else its global one, else
      nothing. */
  lemma ExpandVariable(name: string, rest: string, vars: map<string, string>, localVars: map<string, string>)
    requires (forall i :: 0 <= i < |name| ==> IsWord(name[i])) && (rest != "" ==> !IsWord(rest[0]))
    requires name == "" ==> rest == "" || rest[0] != '$'
    ensures Expand("$" + (name + rest), vars, localVars)
         == (if name in localVars then localVars[name] else if name in vars then vars[name] else "")
            + Expand(rest, vars, localVars)
  {
    var s := "$" + (name + rest);
    assert s[1..] == name + rest && (name != "" ==> s[1] == name[0]);
    NameEnds(name, rest);
    assert s[1..|name| + 1] == name && s[|name| + 1..] == rest;
  }

  lemma {:induction false} NameEnds(name: string, rest: string)
    requires (forall i :: 0 <= i < |name| ==> IsWord(name[i])) && (rest != "" ==> !IsWord(rest[0]))
    ensures WordLength(name + rest) == |name|
  {
    if name == "" {
      assert name + rest == rest;
    } else {
      assert (name + rest)[1..] == name[1..] + rest;
      NameEnds(name[1..], rest);
    }
  }

  // ---------------------------------------------------------------- paths

  /** A path as escape_path writes it, character by character: a dollar is only doubled in front of
      a space. */
  function Escaping(p: string): string {
    if p == "" then "" else FirstEscaped(p) + Escaping(p[1..])
  }

  function FirstEscaped(p: string): string
    requires p != ""
  {
    if p[0] == ' ' || p[0] == ':' || (p[0] == '$' && |p| >= 2 && p[1] == ' ') then ['$', p[0]] else [p[0]]
  }

  lemma EscapingFirst(p: string, rest: string)
    requires p != ""
    ensures Escaping(p) + rest == FirstEscaped(p) + (Escaping(p[1..]) + rest)
  {
    Associates(FirstEscaped(p), Escaping(p[1..]), rest);
  }

  predicate Without(p: string, c: char) {
    forall i :: 0 <= i < |p| ==> p[i] != c
  }

  /** The replacement of one character. */
  lemma ReplaceOne(c: char, s: string, what: char, with: string)
    ensures Replace([c] + s, [what], with) == (if c == what then with else [c]) + Replace(s, [what], with)
  {
    assert ([c] + s)[1..] == s && ([c] + s)[..1] == [c];
  }

  /** The second and the third replacement. */
  function Escaped2(s: string): string {
    Replace(Replace(s, " ", "$ "), ":", "$:")
  }

  lemma Escaped2First(c: char, s: string)
    ensures Escaped2([c] + s) == (if c == ' ' || c == ':' then ['$', c] else [c]) + Escaped2(s)
  {
    var t := Replace(s, " ", "$ ");
    ReplaceOne(c, s, ' ', "$ ");
    if c == ' ' {
      assert "$ " + t == ['$'] + ([' '] + t);
      ReplaceOne('$', [' '] + t, ':', "$:");
      ReplaceOne(' ', t, ':', "$:");
      assert ['$'] + ([' '] + Escaped2(s)) == ['$', ' '] + Escaped2(s);
    } else {
      ReplaceOne(c, t, ':', "$:");
    }
  }

  /** The three replacements together, on every word. */
  lemma {:induction false} EscapingIsEscapePath(p: string)
    ensures EscapePath(p) == Escaping(p)
    decreases |p|
  {
    if p == "" {
    } else if |p| >= 2 && p[0] == '$' && p[1] == ' ' {
      DollarSpace(p);
      EscapingIsEscapePath(p[2..]);
    } else {
      NoDollarSpace(p);
      EscapingIsEscapePath(p[1..]);
    }
  }

  lemma Escaped2Dollars(s: string)
    ensures Escaped2("$$ " + s) == "$$$ " + Escaped2(s)
  {
    Escaped2First(' ', s);
    Escaped2First('$', [' '] + s);
    Escaped2First('$', ['$'] + ([' '] + s));
    assert "$$ " + s == ['$'] + (['$'] + ([' '] + s));
    assert "$$$ " + Escaped2(s) == ['$'] + (['$'] + (['$', ' '] + Escaped2(s)));
  }

  lemma DollarSpace(p: string)
    requires |p| >= 2 && p[0] == '$' && p[1] == ' '
    ensures EscapePath(p) == "$$$ " + EscapePath(p[2..])
    ensures Escaping(p) == "$$$ " + Escaping(p[2..])
  {
    assert p[..2] == "$ " && Replace(p, "$ ", "$$ ") == "$$ " + Replace(p[2..], "$ ", "$$ ");
    Escaped2Dollars(Replace(p[2..], "$ ", "$$ "));
    EscapingDollar(p);
  }

  lemma EscapingDollar(p: string)
    requires |p| >= 2 && p[0] == '$' && p[1] == ' '
    ensures Escaping(p) == "$$$ " + Escaping(p[2..])
  {
    var q, rest := p[1..], Escaping(p[2..]);
    assert q[0] == ' ' && q[1..] == p[2..];
    assert Escaping(q) == "$ " + rest;
    assert Escaping(p) == "$$" + ("$ " + rest);
    assert "$$" + ("$ " + rest) == "$$$ " + rest;
  }

  lemma NoDollarSpace(p: string)
    requires p != "" && !(|p| >= 2 && p[0] == '$' && p[1] == ' ')
    ensures EscapePath(p) == FirstEscaped(p) + EscapePath(p[1..])
  {
    var a := Replace(p[1..], "$ ", "$$ ");
    assert Replace(p, "$ ", "$$ ") == [p[0]] + a by {
      if |p| == 1 {
        assert p[1..] == "" && p == [p[0]] + "";
      } else {
        assert p[..2][0] == p[0] && p[..2][1] == p[1];
      }
    }
    Escaped2First(p[0], a);
  }

  /** " ".join(items) */
  function Join(items: seq<string>): string {
    if items == [] then "" else if |items| == 1 then items[0] else items[0] + " " + Join(items[1..])
  }

  function EscapeAll(paths: seq<string>): (items: seq<string>)
    ensures |items| == |paths|
  {
    if paths == [] then [] else [EscapePath(paths[0])] + EscapeAll(paths[1..])
  }

  /** Nothing but spaces, and dollars in front of them. */
  predicate Hollow(p: string) {
    p == "" || ((p[0] == ' ' || p[0] == '$') && Hollow(p[1..]))
  }

  /** Every dollar stands in front of a space, where escape_path doubles it. Other dollars are left
      to Ninja, for which they begin a variable. */
  predicate DollarsSpaced(p: string) {
    p == "" || ((p[0] == '$' ==> |p| >= 2 && p[1] == ' ') && DollarsSpaced(p[1..]))
  }

  /** A path that exists and has no character that escape_path leaves to Ninja. */
  predicate PathClean(p: string) {
    p != "" && DollarsSpaced(p) && Without(p, '|') && Without(p, '\n')
  }

  predicate PathsClean(paths: seq<string>) {
    paths == [] || (PathClean(paths[0]) && PathsClean(paths[1..]))
  }

  /** The bars that stand between the lists of a build statement. */
  predicate IsBar(p: string) {
    p == "|" || p == "||"
  }

  /** Such paths, and bars between them. */
  predicate ItemsClean(items: seq<string>) {
    items == [] || ((PathClean(items[0]) || IsBar(items[0])) && ItemsClean(items[1..]))
  }

  lemma {:induction false} PathsAreItems(paths: seq<string>)
    requires PathsClean(paths)
    ensures ItemsClean(paths)
  {
    if paths != [] {
      PathsAreItems(paths[1..]);
    }
  }

  lemma JoinFirst(p: string, more: seq<string>, rest: string)
    requires more != []
    ensures Join([EscapePath(p)] + more) + rest == Escaping(p) + (" " + (Join(more) + rest))
  {
    EscapingIsEscapePath(p);
    assert ([EscapePath(p)] + more)[1..] == more;
  }

  // ---------------------------------------------------------------- reading lists back

  /** The tokens of a path. */
  function Characters(p: string): seq<Token> {
    if p == "" then []
    else [Character(p[0])] + Characters(p[1..])
  }

  function Character(c: char): Token {
    if Escapable(c) then Token.Escaped(c) else Plain(c)
  }

  lemma {:induction false} ReadPath(p: string, rest: string)
    requires DollarsSpaced(p)
    ensures Read(Escaping(p) + rest, false) == Characters(p) + Read(rest, false)
    decreases |p|
  {
    if p == "" {
      assert Escaping(p) + rest == rest;
    } else {
      EscapingFirst(p, rest);
      ReadFirst(p, Escaping(p[1..]) + rest);
      ReadPath(p[1..], rest);
      Grouped([Character(p[0])], Characters(p[1..]), Read(rest, false));
    }
  }

  lemma ReadFirst(p: string, tail: string)
    requires p != "" && DollarsSpaced(p)
    ensures Read(FirstEscaped(p) + tail, false) == [Character(p[0])] + Read(tail, false)
  {
    var s := FirstEscaped(p) + tail;
    assert s[|FirstEscaped(p)|..] == tail;
    assert Next(s, false) == Bite(|FirstEscaped(p)|, [Character(p[0])], false);
  }

  /** A list of paths as Ninja reads it: separated by spaces, up to a colon or the end, with each
      bare bar or pair of bars as an item of its own. */
  function Words(current: string, tokens: seq<Token>): seq<string>
    decreases |tokens|
  {
    var word := if current == "" then [] else [current];
    if tokens == [] || tokens[0] == Plain(':') || tokens[0] == Plain('\n') then word
    else if tokens[0] == Plain(' ') then word + Words("", tokens[1..])
    else if tokens[0] == Plain('|') then
      if |tokens| >= 2 && tokens[1] == Plain('|') then word + (["||"] + Words("", tokens[2..]))
      else word + (["|"] + Words("", tokens[1..]))
    else Words(current + [tokens[0].c], tokens[1..])
  }

  lemma {:induction false} WordsOfPath(current: string, p: string, rest: seq<Token>)
    requires Without(p, '|') && Without(p, '\n')
    ensures Words(current, Characters(p) + rest) == Words(current + p, rest)
    decreases |p|
  {
    if p == "" {
      assert Characters(p) + rest == rest && current + p == current;
    } else {
      assert (Characters(p) + rest)[1..] == Characters(p[1..]) + rest;
      assert (current + [p[0]]) + p[1..] == current + p;
      WordsOfPath(current + [p[0]], p[1..], rest);
    }
  }

  /** A bare character that is not '$' is read as it stands. */
  lemma ReadPlain(c: char, tail: string)
    requires c != '$'
    ensures Read([c] + tail, false) == [Plain(c)] + Read(tail, false)
  {
    assert ([c] + tail)[1..] == tail;
    assert Next([c] + tail, false) == Bite(1, [Plain(c)], false);
  }

  /** One item and what ends it. */
  lemma {:induction false} WordsOfItem(p: string, end: char, rest: seq<Token>)
    requires PathClean(p) || IsBar(p)
    requires end == ' ' || end == ':' || end == '\n'
    ensures Words("", Characters(p) + ([Plain(end)] + rest))
         == [p] + if end == ' ' then Words("", rest) else []
  {
    var tail := [Plain(end)] + rest;
    assert tail[1..] == rest;
    if PathClean(p) {
      WordsOfPath("", p, tail);
      assert "" + p == p;
    } else if p == "|" {
      assert Characters(p) == [Plain('|')];
      assert (Characters(p) + tail)[1..] == tail;
    } else {
      assert p[1..] == "|" && Characters("|") == [Plain('|')] && Characters(p) == [Plain('|'), Plain('|')];
      assert (Characters(p) + tail)[2..] == tail;
    }
  }

  /** A list before a bare colon or the end of the line. */
  lemma {:induction false} WordsOfList(items: seq<string>, end: char, rest: string)
    requires ItemsClean(items) && (end == ':' || end == '\n')
    ensures Words("", Read(Join(EscapeAll(items)) + ([end] + rest), false)) == items
    decreases |items|
  {
    var tail := [end] + rest;
    ReadPlain(end, rest);
    if items == [] {
      assert Join(EscapeAll(items)) + tail == tail;
    } else {
      var p, more := items[0], items[1..];
      if more == [] {
        EscapingIsEscapePath(p);
        assert EscapeAll(items) == [Escaping(p)];
        ReadPath(p, tail);
        WordsOfItem(p, end, Read(rest, false));
      } else {
        var behind := Join(EscapeAll(more)) + tail;
        JoinFirst(p, EscapeAll(more), tail);
        ReadPath(p, " " + behind);
        ReadPlain(' ', behind);
        WordsOfItem(p, ' ', Read(behind, false));
        WordsOfList(more, end, rest);
      }
    }
  }

  lemma {:induction false} WordsOfSpaces(n: nat, rest: string)
    ensures Words("", Read(Spaces(n) + rest, false)) == Words("", Read(rest, false))
  {
    if n == 0 {
      assert Spaces(n) + rest == rest;
    } else {
      Associates(" ", Spaces(n - 1), rest);
      ReadPlain(' ', Spaces(n - 1) + rest);
      WordsOfSpaces(n - 1, rest);
    }
  }

  // ---------------------------------------------------------------- behind a colon

  function AfterColon(tokens: seq<Token>): seq<Token> {
    if tokens == [] then [] else if tokens[0] == Plain(':') then tokens[1..] else AfterColon(tokens[1..])
  }

  lemma {:induction false} AfterPath(p: string, rest: seq<Token>)
    ensures AfterColon(Characters(p) + rest) == AfterColon(rest)
  {
    if p == "" {
      assert Characters(p) + rest == rest;
    } else {
      assert (Characters(p) + rest)[1..] == Characters(p[1..]) + rest;
      AfterPath(p[1..], rest);
    }
  }

  lemma {:induction false} AfterList(paths: seq<string>, rest: string)
    requires ItemsClean(paths)
    ensures AfterColon(Read(Join(EscapeAll(paths)) + rest, false)) == AfterColon(Read(rest, false))
    decreases |paths|
  {
    if paths == [] {
      assert Join(EscapeAll(paths)) + rest == rest;
    } else {
      var p, more := paths[0], paths[1..];
      if more == [] {
        EscapingIsEscapePath(p);
        assert EscapeAll(paths) == [Escaping(p)];
        ReadPath(p, rest);
        AfterPath(p, Read(rest, false));
      } else {
        var behind := Join(EscapeAll(more)) + rest;
        JoinFirst(p, EscapeAll(more), rest);
        ReadPath(p, " " + behind);
        ReadPlain(' ', behind);
        AfterPath(p, [Plain(' ')] + Read(behind, false));
        assert ([Plain(' ')] + Read(behind, false))[1..] == Read(behind, false);
        AfterList(more, rest);
      }
    }
  }
}
