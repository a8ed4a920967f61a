/** Lists of paths of tools/ninja_syntax.py, and when they survive wrapping. */
module NinjaLists {
  import opened NinjaWriter
  import opened NinjaPaths
  import opened NinjaWraps
  import opened NinjaNarrow

  // ---------------------------------------------------------------- the shape of lists

  /** A path escaped, as units and characters. */
  lemma {:induction false} PathShape(p: string, rest: string)
    requires DollarsSpaced(p) && Without(p, '|') && Without(p, '\n') && Single(rest)
    ensures Shape(Escaping(p) + rest) <==> Shape(rest)
    ensures Single(Escaping(p) + rest)
    ensures p != "" ==> Starts(Escaping(p) + rest) && Escaping(p) + rest != "" && (Escaping(p) + rest)[0] != '|'
    decreases |p|
  {
    if p == "" {
      assert Escaping(p) + rest == rest;
    } else if p[0] == '$' {
      assert p[1..][1..] == p[2..] && DollarsSpaced(p[1..]);
      EscapingDollar(p);
      PathShape(p[2..], rest);
      DoubleShape(Escaping(p[2..]) + rest);
      Associates("$$$ ", Escaping(p[2..]), rest);
    } else {
      EscapingFirst(p, rest);
      PathShape(p[1..], rest);
      CharShape(p[0], Escaping(p[1..]) + rest);
    }
  }

  lemma DoubleShape(tail: string)
    requires Single(tail)
    ensures var text := "$$$ " + tail;
            Single(text) && SpaceUnit(text) && UnitLength(text) == 4 && text[4..] == tail && (Shape(text) <==> Shape(tail))
  {
    assert ("$$$ " + tail)[4..] == tail;
  }

  lemma CharShape(c: char, tail: string)
    requires c != '$' && c != '|' && c != '\n' && Single(tail)
    ensures var text := (if c == ' ' || c == ':' then ['$', c] else [c]) + tail;
            Single(text) && Starts(text) && text != "" && text[0] != '|' && (Shape(text) <==> Shape(tail))
  {
    if c == ' ' || c == ':' {
      assert (['$', c] + tail)[2..] == tail;
    } else {
      assert ([c] + tail)[1..] == tail;
    }
  }

  lemma {:induction false} PathRuns(p: string, rest: string)
    requires DollarsSpaced(p)
    ensures Runs(Escaping(p) + rest) <==> (Hollow(p) ==> Runs(rest))
    decreases |p|
  {
    if p == "" {
      assert Escaping(p) + rest == rest;
    } else if p[0] == '$' {
      assert p[1..][1..] == p[2..] && DollarsSpaced(p[1..]) && Hollow(p) == Hollow(p[1..]) == Hollow(p[2..]);
      EscapingDollar(p);
      PathRuns(p[2..], rest);
      Associates("$$$ ", Escaping(p[2..]), rest);
      assert ("$$$ " + (Escaping(p[2..]) + rest))[4..] == Escaping(p[2..]) + rest;
    } else {
      var tail := Escaping(p[1..]) + rest;
      EscapingFirst(p, rest);
      PathRuns(p[1..], rest);
      assert (FirstEscaped(p) + tail)[|FirstEscaped(p)|..] == tail;
    }
  }

  lemma BarShape(p: string, rest: string)
    requires IsBar(p) && Single(rest) && Quiet(rest)
    ensures Escaping(p) == p && Single(p + rest)
    ensures Shape(p + rest) <==> Shape(rest)
  {
    if p == "|" {
      assert ("|" + rest)[1..] == rest && p[1..] == "";
    } else {
      assert p[1..] == "|" && p[1..][1..] == "";
      assert ("||" + rest)[1..] == "|" + rest && ("|" + rest)[1..] == rest;
    }
  }

  /** An item and what follows it. */
  lemma ItemShape(p: string, rest: string)
    requires (PathClean(p) || IsBar(p)) && Single(rest) && Quiet(rest)
    ensures var text := Escaping(p) + rest;
            && Single(text) && Starts(text) && text != "" && (text[0] == '|' <==> IsBar(p))
            && (Shape(text) <==> Shape(rest))
            && (Runs(text) <==> (Hollow(p) ==> Runs(rest)))
  {
    if IsBar(p) {
      BarShape(p, rest);
    } else {
      PathRuns(p, rest);
      PathShape(p, rest);
    }
  }

  lemma ShapeOfSpace(s: string)
    ensures Shape(" " + s) <==> Runs(s) && Shape(s)
    ensures Single(" " + s) <==> Starts(s) && Single(s)
    ensures Runs(" " + s) <==> s != "" && s[0] == '|'
  {
    assert (" " + s)[1..] == s;
  }

  /** A list, and the end of the text or a bare colon behind it. */
  lemma {:induction false} ShapeExact(items: seq<string>, rest: string)
    requires ItemsClean(items) && items != [] && Single(rest) && (rest == "" || rest[0] == ':')
    ensures var text := Join(EscapeAll(items)) + rest;
            && Single(text) && Starts(text) && text != "" && (text[0] == '|' <==> IsBar(items[0]))
            && (Runs(text) && Shape(text) <==> !SpacesInFront(items) && Shape(rest))
    decreases |items|
  {
    var p, more := items[0], items[1..];
    EscapingIsEscapePath(p);
    if more == [] {
      assert EscapeAll(items) == [Escaping(p)];
      ItemShape(p, rest);
    } else {
      var behind := Join(EscapeAll(more)) + rest;
      JoinFirst(p, EscapeAll(more), rest);
      ShapeExact(more, rest);
      ShapeOfSpace(behind);
      ItemShape(p, " " + behind);
    }
  }

  lemma ListText(items: seq<string>)
    requires ItemsClean(items) && items != []
    ensures var text := Join(EscapeAll(items));
            && Single(text) && Starts(text)
            && (Runs(text) && Shape(text) <==> !SpacesInFront(items))
  {
    ShapeExact(items, "");
    assert Join(EscapeAll(items)) + "" == Join(EscapeAll(items));
  }

  // ---------------------------------------------------------------- when lists survive

  /** Ninja reads the written, indented and wrapped list as the same list. */
  predicate ListReadsBack(items: seq<string>, indent: nat, width: int) {
    Words("", Read(Spaces(2 * indent) + Body(Join(EscapeAll(items)), 2 * indent, 2 * (indent + 2), width), false))
    == items
  }

  lemma ListRead(items: seq<string>)
    requires ItemsClean(items)
    ensures Words("", Read(Join(EscapeAll(items)) + "\n", false)) == items
  {
    WordsOfList(items, '\n', "");
    assert ['\n'] + "" == "\n";
  }

  lemma ListSurvives(items: seq<string>, indent: nat, width: int)
    requires ItemsClean(items) && !SpacesInFront(items)
    ensures ListReadsBack(items, indent, width)
  {
    var text := Join(EscapeAll(items));
    var body := Body(text, 2 * indent, 2 * (indent + 2), width);
    WordsOfSpaces(2 * indent, body);
    ListRead(items);
    if items == [] {
      assert text == "" && body == "\n";
    } else {
      ListText(items);
      ShapeKept(text, false, 2 * indent, 2 * (indent + 2), width);
      KeptIsThin(text, false, 2 * indent, 2 * (indent + 2), width);
      ThinWords("", Read(body, false), Read(text + "\n", false));
    }
  }

  /** At this natural width the list is not read back. */
  lemma ListLost(items: seq<string>, indent: nat)
    requires ItemsClean(items) && SpacesInFront(items)
    ensures !ListReadsBack(items, indent, LosingWidth(Join(EscapeAll(items)), 2 * indent))
  {
    var text, lead := Join(EscapeAll(items)), 2 * indent;
    var body := Body(text, lead, lead + 4, LosingWidth(text, lead));
    WordsOfSpaces(lead, body);
    ListText(items);
    if |text| > 6 && LoneStart(text) {
      ListRead(items);
      LoneStartLost(text, lead, lead + 4);
    } else {
      LosingExact(text, lead);
      LoneFreeWords("", Read(body, false));
    }
  }

  /** A list of paths, with or without bars between them, survives every width exactly when no
      hollow path stands directly in front of another path; negative widths make no difference. */
  lemma ListRoundTrip(items: seq<string>, indent: nat)
    requires ItemsClean(items)
    ensures (forall width: nat :: ListReadsBack(items, indent, width)) <==> !SpacesInFront(items)
    ensures (forall width: int :: ListReadsBack(items, indent, width)) <==> !SpacesInFront(items)
  {
    if SpacesInFront(items) {
      ListLost(items, indent);
    } else {
      forall width: int
        ensures ListReadsBack(items, indent, width)
      {
        ListSurvives(items, indent, width);
      }
    }
  }

  /** No path has a dollar. */
  predicate NoDollars(items: seq<string>) {
    items == [] || (Without(items[0], '$') && NoDollars(items[1..]))
  }

  lemma {:induction false} UndoubledPath(p: string, rest: string)
    requires Without(p, '$') && Undoubled(rest)
    ensures Undoubled(Escaping(p) + rest)
  {
    if p == "" {
      assert Escaping(p) + rest == rest;
    } else {
      EscapingFirst(p, rest);
      UndoubledPath(p[1..], rest);
      UndoubledChar(FirstEscaped(p), Escaping(p[1..]) + rest);
    }
  }

  lemma UndoubledChar(c: string, tail: string)
    requires (|c| == 1 && c[0] != '$') || (|c| == 2 && c[1] != '$')
    requires Undoubled(tail)
    ensures Undoubled(c + tail)
  {
    var text := c + tail;
    forall i | 0 <= i < |text| - 1 && text[i] == '$'
      ensures text[i + 1] != '$'
    {
      if i >= |c| {
        assert tail[i - |c|] == '$' && text[i + 1] == tail[i - |c| + 1];
      }
    }
  }

  lemma {:induction false} UndoubledList(items: seq<string>, rest: string)
    requires NoDollars(items) && Undoubled(rest)
    ensures Undoubled(Join(EscapeAll(items)) + rest)
    decreases |items|
  {
    if items == [] {
      assert Join(EscapeAll(items)) + rest == rest;
    } else {
      var p, more := items[0], items[1..];
      EscapingIsEscapePath(p);
      if more == [] {
        assert EscapeAll(items) == [Escaping(p)];
        UndoubledPath(p, rest);
      } else {
        var behind := Join(EscapeAll(more)) + rest;
        JoinFirst(p, EscapeAll(more), rest);
        UndoubledList(more, rest);
        UndoubledChar(" ", behind);
        UndoubledPath(p, " " + behind);
      }
    }
  }

  /** Every list survives a width that leaves room for five characters behind the indentation, or
      for seven if a path has a dollar. */
  lemma WideListRoundTrip(items: seq<string>, indent: nat, width: int)
    requires ItemsClean(items) && width > 2 * (indent + 2) + if NoDollars(items) then 4 else 6
    ensures ListReadsBack(items, indent, width)
  {
    var text := Join(EscapeAll(items));
    WordsOfSpaces(2 * indent, Body(text, 2 * indent, 2 * (indent + 2), width));
    ListRead(items);
    if items == [] {
      assert text == "";
    } else {
      if NoDollars(items) {
        UndoubledList(items, "");
        assert text + "" == text;
      }
      ListText(items);
      WideKept(text, false, 2 * indent, 2 * (indent + 2), width);
      WrapExact(text, false, 2 * indent, 2 * (indent + 2), width);
    }
  }

  /** Without bars that is: only the last path may be hollow. */
  lemma {:induction false} OnlyTheLast(paths: seq<string>)
    requires PathsClean(paths)
    ensures SpacesInFront(paths) <==> exists i :: 0 <= i < |paths| - 1 && Hollow(paths[i])
  {
    if |paths| >= 2 {
      OnlyTheLast(paths[1..]);
      if Hollow(paths[0]) {
      } else if SpacesInFront(paths[1..]) {
        var i :| 0 <= i < |paths[1..]| - 1 && Hollow(paths[1..][i]);
        assert Hollow(paths[i + 1]);
      } else {
        forall i | 0 <= i < |paths| - 1
          ensures !Hollow(paths[i])
        {
          if i > 0 {
            assert paths[i] == paths[1..][i - 1];
          }
        }
      }
    }
  }
}
