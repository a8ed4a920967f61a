/** Build statements of tools/ninja_syntax.py, their lists and bars, and when they survive wrapping. */
module NinjaBuilds {
  import opened NinjaWriter
  import opened NinjaPaths
  import opened NinjaWraps
  import opened NinjaNarrow
  import opened NinjaLists

  // ---------------------------------------------------------------- build statements

  /** The lists of a build statement. */
  datatype Build = Build(outputs: seq<string>, implicitOutputs: seq<string>, rule: string,
                         inputs: seq<string>, implicit: seq<string>, orderOnly: seq<string>)

  /** A bar and a list behind it, unless the list is empty. */
  function Section(bar: string, paths: seq<string>): seq<string> {
    if paths == [] then [] else [bar] + paths
  }

  /** The same as it is written: the bar is not escaped. */
  function WrittenSection(bar: string, paths: seq<string>): seq<string> {
    if paths == [] then [] else [bar] + EscapeAll(paths)
  }

  /** The text of a build statement. */
  function BuildText(b: Build): string {
    var outOutputs := EscapeAll(b.outputs) + WrittenSection("|", b.implicitOutputs);
    var allInputs := EscapeAll(b.inputs) + (WrittenSection("|", b.implicit) + WrittenSection("||", b.orderOnly));
    "build " + Join(outOutputs) + ": " + Join([b.rule] + allInputs)
  }

  /** What stands in front of the colon. */
  function InFront(b: Build): (items: seq<string>)
    ensures items != []
  {
    ["build"] + (b.outputs + Section("|", b.implicitOutputs))
  }

  /** What stands behind it. */
  function Behind(b: Build): (items: seq<string>)
    ensures items != []
  {
    [b.rule] + (b.inputs + (Section("|", b.implicit) + Section("||", b.orderOnly)))
  }

  /** A rule name needs no escaping. */
  predicate PlainName(rule: string) {
    PathClean(rule) && Without(rule, ' ') && Without(rule, ':') && Without(rule, '$')
  }

  predicate BuildClean(b: Build) {
    && PathsClean(b.outputs) && PathsClean(b.implicitOutputs) && (b.outputs != [] || b.implicitOutputs != [])
    && PlainName(b.rule) && PathsClean(b.inputs) && PathsClean(b.implicit) && PathsClean(b.orderOnly)
  }

  /** The items in front of the first bar, and those behind a bar up to the next one. */
  function Before(items: seq<string>): seq<string> {
    if items == [] || IsBar(items[0]) then [] else [items[0]] + Before(items[1..])
  }

  function Under(bar: string, items: seq<string>): seq<string> {
    if items == [] then [] else if items[0] == bar then Before(items[1..]) else Under(bar, items[1..])
  }

  /** What Ninja makes of a build statement (the Ninja manual, section "Build statements"): outputs, implicit
      outputs behind a bar, a colon, the rule, inputs, implicit inputs behind a bar, and those that only
      have to come first behind two bars. */
  predicate ReadAs(tokens: seq<Token>, b: Build) {
    var left, right := Words("", tokens), Words("", AfterColon(tokens));
    && left != [] && left[0] == "build" && right != [] && right[0] == b.rule
    && Before(left[1..]) == b.outputs && Under("|", left[1..]) == b.implicitOutputs
    && Before(right[1..]) == b.inputs && Under("|", right[1..]) == b.implicit && Under("||", right[1..]) == b.orderOnly
  }

  /** Ninja reads the wrapped statement as the same statement. */
  predicate BuildReadsBack(b: Build, width: int) {
    ReadAs(Read(Body(BuildText(b), 0, 4, width), false), b)
  }

  lemma {:induction false} PathsInFront(paths: seq<string>, rest: seq<string>, bar: string)
    requires PathsClean(paths) && (rest == [] || IsBar(rest[0])) && IsBar(bar)
    ensures Before(paths + rest) == paths && Under(bar, paths + rest) == Under(bar, rest)
  {
    if paths == [] {
      assert paths + rest == rest;
    } else {
      assert (paths + rest)[1..] == paths[1..] + rest;
      PathsInFront(paths[1..], rest, bar);
    }
  }

  /** A section with another one behind it. */
  lemma SectionRead(bar: string, paths: seq<string>, rest: seq<string>, other: string)
    requires PathsClean(paths) && IsBar(bar) && IsBar(other) && (rest == [] || IsBar(rest[0]))
    requires bar != other
    ensures Under(other, Section(bar, paths) + rest) == Under(other, rest)
    ensures Under(bar, rest) == [] ==> Under(bar, Section(bar, paths) + rest) == paths
  {
    if paths == [] {
      assert [] + rest == rest;
    } else {
      assert ([bar] + paths + rest)[1..] == paths + rest;
      PathsInFront(paths, rest, other);
    }
  }

  /** The lists of a statement are read as the statement. */
  lemma ListsReadAs(tokens: seq<Token>, b: Build)
    requires BuildClean(b) && Words("", tokens) == InFront(b) && Words("", AfterColon(tokens)) == Behind(b)
    ensures ReadAs(tokens, b)
  {
    var first, second, third := Section("|", b.implicitOutputs), Section("|", b.implicit), Section("||", b.orderOnly);
    assert InFront(b)[1..] == b.outputs + first && Behind(b)[1..] == b.inputs + (second + third);
    assert first + [] == first && third + [] == third;
    PathsInFront(b.outputs, first, "|");
    SectionRead("|", b.implicitOutputs, [], "||");
    PathsInFront(b.inputs, second + third, "|");
    PathsInFront(b.inputs, second + third, "||");
    SectionRead("||", b.orderOnly, [], "|");
    SectionRead("|", b.implicit, third, "||");
  }

  /** A hollow path in front of another one in a list is so on the whole side. */
  lemma {:induction false} FrontOfPart(bar: string, items: seq<string>)
    requires IsBar(bar)
    ensures SpacesInFront(Before(items)) || SpacesInFront(Under(bar, items)) ==> SpacesInFront(items)
  {
    if items != [] {
      FrontOfPart(bar, items[1..]);
      if !IsBar(items[0]) {
        assert Before(items)[1..] == Before(items[1..]);
      }
    }
  }

  lemma {:induction false} FrontOfLists(paths: seq<string>, rest: seq<string>)
    requires rest == [] || IsBar(rest[0])
    ensures SpacesInFront(paths + rest) ==> SpacesInFront(paths) || SpacesInFront(rest)
  {
    if paths == [] {
      assert paths + rest == rest;
    } else {
      assert (paths + rest)[1..] == paths[1..] + rest;
      FrontOfLists(paths[1..], rest);
    }
  }

  lemma FrontOfName(name: string, items: seq<string>)
    requires !Hollow(name)
    ensures SpacesInFront([name] + items) <==> SpacesInFront(items)
  {
    assert ([name] + items)[1..] == items;
  }

  lemma FrontOfSection(bar: string, paths: seq<string>)
    requires IsBar(bar)
    ensures SpacesInFront(Section(bar, paths)) ==> SpacesInFront(paths)
  {
    if paths != [] {
      FrontOfName(bar, paths);
    }
  }

  /** Read as the statement, each side has such a path in front of another one if the statement has. */
  lemma SidesReadAs(tokens: seq<Token>, b: Build)
    requires BuildClean(b) && ReadAs(tokens, b)
    ensures SpacesInFront(InFront(b)) ==> SpacesInFront(Words("", tokens))
    ensures SpacesInFront(Behind(b)) ==> SpacesInFront(Words("", AfterColon(tokens)))
  {
    var left, right := Words("", tokens), Words("", AfterColon(tokens));
    assert left == [left[0]] + left[1..] && right == [right[0]] + right[1..];
    RuleNotHollow(b);
    FrontOfName("build", left[1..]);
    FrontOfName(b.rule, right[1..]);
    FrontOfPart("|", left[1..]);
    FrontOfPart("|", right[1..]);
    FrontOfPart("||", right[1..]);
    FrontOfName("build", b.outputs + Section("|", b.implicitOutputs));
    FrontOfLists(b.outputs, Section("|", b.implicitOutputs));
    FrontOfSection("|", b.implicitOutputs);
    FrontOfName(b.rule, b.inputs + (Section("|", b.implicit) + Section("||", b.orderOnly)));
    FrontOfLists(b.inputs, Section("|", b.implicit) + Section("||", b.orderOnly));
    FrontOfLists(Section("|", b.implicit), Section("||", b.orderOnly));
    FrontOfSection("|", b.implicit);
    FrontOfSection("||", b.orderOnly);
  }

  lemma RuleNotHollow(b: Build)
    requires BuildClean(b)
    ensures !Hollow("build") && !Hollow(b.rule)
  {
    assert b.rule[0] != ' ' && b.rule[0] != '$' && "build"[0] == 'b';
  }

  lemma NothingToEscape(p: string)
    requires Without(p, ' ') && Without(p, ':') && Without(p, '$')
    ensures EscapePath(p) == p
  {
    EscapingIsEscapePath(p);
    NothingEscaped(p);
  }

  lemma {:induction false} NothingEscaped(p: string)
    requires Without(p, ' ') && Without(p, ':')
    ensures Escaping(p) == p
  {
    if p != "" {
      NothingEscaped(p[1..]);
    }
  }

  lemma {:induction false} EscapeJoin(a: seq<string>, b: seq<string>)
    ensures EscapeAll(a + b) == EscapeAll(a) + EscapeAll(b)
  {
    if a == [] {
      assert a + b == b;
    } else {
      assert (a + b)[1..] == a[1..] + b;
      EscapeJoin(a[1..], b);
    }
  }

  lemma EscapeName(name: string, paths: seq<string>)
    requires Without(name, ' ') && Without(name, ':') && Without(name, '$')
    ensures EscapeAll([name] + paths) == [name] + EscapeAll(paths)
  {
    NothingToEscape(name);
    assert ([name] + paths)[1..] == paths;
  }

  lemma EscapeSection(bar: string, paths: seq<string>)
    requires IsBar(bar)
    ensures EscapeAll(Section(bar, paths)) == WrittenSection(bar, paths)
  {
    EscapeName(bar, paths);
  }

  lemma EscapeInFront(b: Build)
    ensures EscapeAll(InFront(b)) == ["build"] + (EscapeAll(b.outputs) + WrittenSection("|", b.implicitOutputs))
  {
    var section := Section("|", b.implicitOutputs);
    EscapeSection("|", b.implicitOutputs);
    EscapeJoin(b.outputs, section);
    EscapeName("build", b.outputs + section);
  }

  lemma EscapeBehind(b: Build)
    requires PlainName(b.rule)
    ensures EscapeAll(Behind(b))
         == [b.rule] + (EscapeAll(b.inputs) + (WrittenSection("|", b.implicit) + WrittenSection("||", b.orderOnly)))
  {
    var implicit, orderOnly := Section("|", b.implicit), Section("||", b.orderOnly);
    EscapeSection("|", b.implicit);
    EscapeSection("||", b.orderOnly);
    EscapeJoin(implicit, orderOnly);
    EscapeJoin(b.inputs, implicit + orderOnly);
    EscapeName(b.rule, b.inputs + (implicit + orderOnly));
  }

  /** The text as one list in front of the colon and one behind. */
  lemma BuildIsTwoLists(b: Build, rest: string)
    requires BuildClean(b)
    ensures BuildText(b) + rest
         == Join(EscapeAll(InFront(b))) + (":" + (" " + (Join(EscapeAll(Behind(b))) + rest)))
  {
    var first := EscapeAll(b.outputs) + WrittenSection("|", b.implicitOutputs);
    var second := Join(EscapeAll(Behind(b)));
    EscapeInFront(b);
    EscapeBehind(b);
    assert first != [] && (["build"] + first)[1..] == first;
    assert Join(["build"] + first) == "build" + " " + Join(first);
    assert "build" + " " == "build " && ": " == ":" + " ";
    Associates("build " + Join(first), ": ", second);
    Associates("build " + Join(first), ": " + second, rest);
    Associates(": ", second, rest);
    Associates(":", " ", second + rest);
  }

  lemma {:induction false} ItemsJoin(a: seq<string>, b: seq<string>)
    requires ItemsClean(a) && ItemsClean(b)
    ensures ItemsClean(a + b)
  {
    if a == [] {
      assert a + b == b;
    } else {
      assert (a + b)[1..] == a[1..] + b;
      ItemsJoin(a[1..], b);
    }
  }

  lemma ItemsFirst(p: string, items: seq<string>)
    requires (PathClean(p) || IsBar(p)) && ItemsClean(items)
    ensures ItemsClean([p] + items)
  {
    assert ([p] + items)[1..] == items;
  }

  lemma ItemsSection(bar: string, paths: seq<string>)
    requires IsBar(bar) && PathsClean(paths)
    ensures ItemsClean(Section(bar, paths))
  {
    PathsAreItems(paths);
    ItemsFirst(bar, paths);
  }

  lemma SidesClean(b: Build)
    requires BuildClean(b)
    ensures ItemsClean(InFront(b)) && ItemsClean(Behind(b))
  {
    ItemsSection("|", b.implicitOutputs);
    CleanList("build", b.outputs, Section("|", b.implicitOutputs));
    ItemsSection("|", b.implicit);
    ItemsSection("||", b.orderOnly);
    ItemsJoin(Section("|", b.implicit), Section("||", b.orderOnly));
    CleanList(b.rule, b.inputs, Section("|", b.implicit) + Section("||", b.orderOnly));
  }

  lemma CleanList(name: string, paths: seq<string>, sections: seq<string>)
    requires PathClean(name) && PathsClean(paths) && ItemsClean(sections)
    ensures ItemsClean([name] + (paths + sections))
  {
    PathsAreItems(paths);
    ItemsJoin(paths, sections);
    ItemsFirst(name, paths + sections);
  }

  /** No path of spaces stands directly in front of another path on its side of the colon. */
  predicate SpacesLast(b: Build) {
    !SpacesInFront(InFront(b)) && !SpacesInFront(Behind(b))
  }

  lemma ColonShape(list: string)
    requires Single(list) && Starts(list)
    ensures Single(":" + (" " + list)) && (Shape(":" + (" " + list)) <==> Runs(list) && Shape(list))
  {
    ShapeOfSpace(list);
    assert (":" + (" " + list))[1..] == " " + list;
  }

  lemma BuildShape(b: Build)
    requires BuildClean(b)
    ensures var text := BuildText(b);
            && Single(text) && !Spaced(text)
            && (Runs(text) && Shape(text) <==> SpacesLast(b))
  {
    var list := Join(EscapeAll(Behind(b)));
    SidesClean(b);
    BuildIsTwoLists(b, "");
    assert BuildText(b) + "" == BuildText(b) && list + "" == list;
    ListText(Behind(b));
    ColonShape(list);
    ShapeExact(InFront(b), ":" + (" " + list));
  }

  /** The statement as it is read without wrapping. */
  lemma BuildRead(b: Build)
    requires BuildClean(b)
    ensures var tokens := Read(BuildText(b) + "\n", false);
            Words("", tokens) == InFront(b) && Words("", AfterColon(tokens)) == Behind(b)
  {
    var list := Join(EscapeAll(Behind(b))) + "\n";
    SidesClean(b);
    BuildIsTwoLists(b, "\n");
    WordsOfList(InFront(b), ':', " " + list);
    AfterList(InFront(b), ":" + (" " + list));
    ReadPlain(':', " " + list);
    assert ([Plain(':')] + Read(" " + list, false))[1..] == Read(" " + list, false);
    ReadPlain(' ', list);
    assert ([Plain(' ')] + Read(list, false))[1..] == Read(list, false);
    WordsOfList(Behind(b), '\n', "");
    assert ['\n'] + "" == "\n";
  }

  // ---------------------------------------------------------------- when statements survive

  lemma BuildSurvives(b: Build, width: int)
    requires BuildClean(b) && SpacesLast(b)
    ensures BuildReadsBack(b, width)
  {
    var text := BuildText(b);
    var thin, full := Read(Body(text, 0, 4, width), false), Read(text + "\n", false);
    BuildShape(b);
    BuildRead(b);
    ShapeKept(text, false, 0, 4, width);
    KeptIsThin(text, false, 0, 4, width);
    ThinWords("", thin, full);
    ThinAfter(thin, full);
    ThinWords("", AfterColon(thin), AfterColon(full));
    ListsReadAs(thin, b);
  }

  lemma BuildIsLong(b: Build)
    requires BuildClean(b)
    ensures |BuildText(b)| > 6 && BuildText(b)[0] == 'b'
  {
  }

  /** At a width of 6 the statement is not read back. */
  lemma BuildLost(b: Build)
    requires BuildClean(b) && !SpacesLast(b)
    ensures !BuildReadsBack(b, 6)
  {
    BuildShape(b);
    BuildIsLong(b);
    LosingExact(BuildText(b), 0);
    var tokens := Read(Body(BuildText(b), 0, 4, 6), false);
    NeitherSide(tokens);
    if ReadAs(tokens, b) {
      SidesReadAs(tokens, b);
    }
  }

  lemma NeitherSide(tokens: seq<Token>)
    requires LoneFree("", tokens)
    ensures !SpacesInFront(Words("", tokens)) && !SpacesInFront(Words("", AfterColon(tokens)))
  {
    LoneFreeWords("", tokens);
    LoneFreeAfter("", tokens);
    LoneFreeWords("", AfterColon(tokens));
  }

  /** A statement, with all its lists, survives every width exactly when no hollow path stands
      directly in front of another path on its side of the colon; a width of 6 tells. */
  lemma BuildRoundTrip(b: Build)
    requires BuildClean(b)
    ensures (forall width: nat :: BuildReadsBack(b, width)) <==> SpacesLast(b)
    ensures (forall width: int :: BuildReadsBack(b, width)) <==> SpacesLast(b)
    ensures BuildReadsBack(b, 6) <==> SpacesLast(b)
  {
    if SpacesLast(b) {
      forall width: int
        ensures BuildReadsBack(b, width)
      {
        BuildSurvives(b, width);
      }
    } else {
      BuildLost(b);
    }
  }

  /** No path of the statement has a dollar. */
  predicate BuildNoDollars(b: Build) {
    NoDollars(InFront(b)) && NoDollars(Behind(b))
  }

  lemma UndoubledBuild(b: Build)
    requires BuildClean(b) && BuildNoDollars(b)
    ensures Undoubled(BuildText(b))
  {
    var list := Join(EscapeAll(Behind(b)));
    BuildIsTwoLists(b, "");
    assert BuildText(b) + "" == BuildText(b) && list + "" == list;
    UndoubledList(Behind(b), "");
    UndoubledChar(" ", list);
    UndoubledChar(":", " " + list);
    UndoubledList(InFront(b), ":" + (" " + list));
  }

  /** Every statement survives every width above 8, or above 10 if a path has a dollar. */
  lemma WideBuildRoundTrip(b: Build, width: int)
    requires BuildClean(b) && width > if BuildNoDollars(b) then 8 else 10
    ensures BuildReadsBack(b, width)
  {
    BuildShape(b);
    if BuildNoDollars(b) {
      UndoubledBuild(b);
    }
    WideKept(BuildText(b), false, 0, 4, width);
    WrapExact(BuildText(b), false, 0, 4, width);
    BuildRead(b);
    ListsReadAs(Read(BuildText(b) + "\n", false), b);
  }
}
