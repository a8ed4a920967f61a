/** What Ninja reads where the lines of tools/ninja_syntax.py are broken as early as possible, and that
    for every text a natural width does that. */
module NinjaNarrow {
  import opened NinjaWriter
  import opened NinjaPaths
  import opened NinjaWraps

  // ---------------------------------------------------------------- hollow items

  /** No hollow item is followed by a separator, unless in front of a bar. */
  predicate LoneFree(current: string, tokens: seq<Token>)
    decreases |tokens|
  {
    tokens == []
    || (if tokens[0] == Plain(' ') then
          (current == "" || !Hollow(current) || (|tokens| >= 2 && tokens[1] == Plain('|'))) && LoneFree("", tokens[1..])
        else if tokens[0] == Plain('|') || tokens[0] == Plain(':') || tokens[0] == Plain('\n') then LoneFree("", tokens[1..])
        else LoneFree(current + [tokens[0].c], tokens[1..]))
  }

  /** A hollow item directly in front of an item that is not a bar. */
  predicate SpacesInFront(items: seq<string>) {
    |items| >= 2 && ((Hollow(items[0]) && !IsBar(items[1])) || SpacesInFront(items[1..]))
  }

  lemma FrontJoin(word: string, items: seq<string>)
    requires !SpacesInFront(items) && (!Hollow(word) || items == [] || IsBar(items[0]))
    ensures !SpacesInFront([word] + items)
  {
    assert ([word] + items)[1..] == items;
  }

  lemma WordFront(current: string, items: seq<string>)
    requires !SpacesInFront(items) && (current == "" || !Hollow(current) || items == [] || IsBar(items[0]))
    ensures !SpacesInFront((if current == "" then [] else [current]) + items)
  {
    if current == "" {
      assert [] + items == items;
    } else {
      FrontJoin(current, items);
    }
  }

  lemma {:induction false} LoneFreeWords(current: string, tokens: seq<Token>)
    requires LoneFree(current, tokens)
    ensures !SpacesInFront(Words(current, tokens))
    decreases |tokens|
  {
    if tokens != [] {
      if tokens[0] == Plain(' ') {
        LoneFreeWords("", tokens[1..]);
        WordFront(current, Words("", tokens[1..]));
      } else if tokens[0] == Plain('|') {
        LoneFreeBar(current, tokens);
      } else if tokens[0] != Plain(':') && tokens[0] != Plain('\n') {
        LoneFreeWords(current + [tokens[0].c], tokens[1..]);
      }
    }
  }

  lemma {:induction false} LoneFreeBar(current: string, tokens: seq<Token>)
    requires tokens != [] && tokens[0] == Plain('|') && LoneFree(current, tokens)
    ensures !SpacesInFront(Words(current, tokens))
    decreases |tokens|, 0
  {
    var double := |tokens| >= 2 && tokens[1] == Plain('|');
    var n, bar := if double then 2 else 1, if double then "||" else "|";
    if double {
      assert tokens[1..][0] == Plain('|') && tokens[1..][1..] == tokens[2..];
    }
    assert LoneFree("", tokens[n..]);
    LoneFreeWords("", tokens[n..]);
    FrontJoin(bar, Words("", tokens[n..]));
    WordFront(current, [bar] + Words("", tokens[n..]));
  }

  lemma {:induction false} LoneFreeAfter(current: string, tokens: seq<Token>)
    requires LoneFree(current, tokens)
    ensures LoneFree("", AfterColon(tokens))
    decreases |tokens|
  {
    if tokens != [] && tokens[0] != Plain(':') {
      LoneFreeAfter(if tokens[0] == Plain(' ') || tokens[0] == Plain('|') || tokens[0] == Plain('\n') then ""
                    else current + [tokens[0].c], tokens[1..]);
    }
  }

  lemma {:induction false} HollowSnoc(s: string, c: char)
    ensures Hollow(s + [c]) <==> Hollow(s) && (c == ' ' || c == '$')
  {
    if s != "" {
      assert (s + [c])[1..] == s[1..] + [c];
      HollowSnoc(s[1..], c);
    }
  }

  // ---------------------------------------------------------------- lines

  /** A line up to its first bare space. */
  predicate Segment(s: string) {
    s != ""
    && (if s[0] == '$' then Unit(s) && Segment(s[UnitLength(s)..])
        else if s[0] == ' ' then |s| == 1
        else s[0] != '\n' && (s[0] == '|' || s[0] == ':' ==> Quiet(s[1..])) && Segment(s[1..]))
  }

  /** The tokens of a unit. */
  function UnitTokens(s: string): (tokens: seq<Token>)
    requires Unit(s)
  {
    if s[1] == '$' then [Token.Escaped('$'), Token.Escaped(' ')] else [Token.Escaped(s[1])]
  }

  lemma UnitRead(s: string, skip: bool)
    requires Unit(s)
    ensures Read(s, skip) == UnitTokens(s) + Read(s[UnitLength(s)..], false)
  {
    EscapedRead(s, skip);
    if s[1] == '$' {
      EscapedRead(s[2..], false);
      assert s[2..][2..] == s[4..] && s[2..][1] == ' ';
      Grouped([Token.Escaped('$')], [Token.Escaped(' ')], Read(s[4..], false));
      assert [Token.Escaped('$')] + [Token.Escaped(' ')] == UnitTokens(s);
    }
  }

  lemma EscapedRead(s: string, skip: bool)
    requires |s| >= 2 && s[0] == '$' && Escapable(s[1])
    ensures Read(s, skip) == [Token.Escaped(s[1])] + Read(s[2..], false)
  {
    assert Next(s, skip) == Bite(2, [Token.Escaped(s[1])], false);
  }

  /** The first token of a segment, or its first unit's. */
  lemma SegmentRead(s: string, skip: bool, behind: seq<Token>)
    requires Segment(s) && (skip ==> s[0] != ' ')
    ensures s[0] == '$' ==> Read(s, skip) + behind == UnitTokens(s) + (Read(s[UnitLength(s)..], false) + behind)
    ensures s[0] != '$' ==> Read(s, skip) + behind == [Plain(s[0])] + (Read(s[1..], false) + behind)
  {
    if s[0] == '$' {
      UnitRead(s, skip);
      Grouped(UnitTokens(s), Read(s[UnitLength(s)..], false), behind);
    } else {
      assert Next(s, skip) == Bite(1, [Plain(s[0])], false);
      Grouped([Plain(s[0])], Read(s[1..], false), behind);
    }
  }

  lemma LoneFreeUnit(current: string, s: string, tokens: seq<Token>)
    requires Unit(s) && LoneFree(if s[1] == '$' then current + "$" + " " else current + [s[1]], tokens)
    ensures LoneFree(current, UnitTokens(s) + tokens)
  {
    if s[1] == '$' {
      var rest := [Token.Escaped(' ')] + tokens;
      assert rest[1..] == tokens && LoneFree(current + "$", rest);
      assert UnitTokens(s) + tokens == [Token.Escaped('$')] + rest && ([Token.Escaped('$')] + rest)[1..] == rest;
    } else {
      assert (UnitTokens(s) + tokens)[1..] == tokens;
    }
  }

  lemma LoneFreePlain(current: string, c: char, tokens: seq<Token>)
    requires if c == ' ' then (current == "" || !Hollow(current)) && LoneFree("", tokens)
             else if c == '|' || c == ':' || c == '\n' then LoneFree("", tokens)
             else LoneFree(current + [c], tokens)
    ensures LoneFree(current, [Plain(c)] + tokens)
  {
    assert ([Plain(c)] + tokens)[1..] == tokens;
  }

  lemma UnitNotHollow(current: string, s: string)
    requires Unit(s) && (!Hollow(current) || s[1] == ':')
    ensures !Hollow(if s[1] == '$' then current + "$" + " " else current + [s[1]])
  {
    HollowSnoc(current, s[1]);
    HollowSnoc(current, '$');
    HollowSnoc(current + "$", ' ');
  }

  /** Inside an item that is not hollow, or between items, a segment is read without harm. */
  lemma {:induction false} SegmentFree(current: string, s: string, behind: seq<Token>)
    requires Segment(s) && LoneFree("", behind)
    requires if current == "" then Quiet(s) else !Hollow(current)
    ensures LoneFree(current, Read(s, false) + behind)
    decreases |s|
  {
    SegmentRead(s, false, behind);
    if s[0] == '$' {
      UnitNotHollow(current, s);
      SegmentFree(if s[1] == '$' then current + "$" + " " else current + [s[1]], s[UnitLength(s)..], behind);
      LoneFreeUnit(current, s, Read(s[UnitLength(s)..], false) + behind);
    } else {
      if s[0] == ' ' {
        assert s[1..] == "" && Read(s[1..], false) + behind == behind;
      } else if s[0] == '|' || s[0] == ':' {
        SegmentFree("", s[1..], behind);
      } else {
        HollowSnoc(current, s[0]);
        SegmentFree(current + [s[0]], s[1..], behind);
      }
      LoneFreePlain(current, s[0], Read(s[1..], false) + behind);
    }
  }

  /** The same behind a hollow beginning, if it does not go on with an escaped space. */
  lemma FirstSegment(current: string, s: string, skip: bool, behind: seq<Token>)
    requires Segment(s) && LoneFree("", behind) && Hollow(current) && s[0] != ' ' && !SpaceUnit(s)
    ensures LoneFree(current, Read(s, skip) + behind)
  {
    SegmentRead(s, skip, behind);
    if s[0] == '$' {
      UnitNotHollow(current, s);
      SegmentFree(current + [s[1]], s[UnitLength(s)..], behind);
      LoneFreeUnit(current, s, Read(s[UnitLength(s)..], false) + behind);
    } else {
      if s[0] == '|' || s[0] == ':' {
        SegmentFree("", s[1..], behind);
      } else {
        HollowSnoc(current, s[0]);
        SegmentFree(current + [s[0]], s[1..], behind);
      }
      LoneFreePlain(current, s[0], Read(s[1..], false) + behind);
    }
  }

  /** The rest of a line without bare spaces. */
  predicate Unbroken(s: string) {
    s == "" || (if s[0] == '$' then |s| >= 2 && Escapable(s[1]) && Unbroken(s[2..]) else s[0] != ' ' && Unbroken(s[1..]))
  }

  lemma {:induction false} UnbrokenFree(current: string, s: string, skip: bool)
    requires Unbroken(s)
    ensures LoneFree(current, Read(s + "\n", skip))
    decreases |s|
  {
    var line := s + "\n";
    if s == "" {
      assert line[1..] == "" && Next(line, skip) == Bite(1, [Plain('\n')], false);
      assert Read(line, skip) == [Plain('\n')];
    } else {
      var t, n := if s[0] == '$' then Token.Escaped(s[1]) else Plain(s[0]), if s[0] == '$' then 2 else 1;
      assert line[n..] == s[n..] + "\n" && Next(line, skip) == Bite(n, [t], false);
      assert Read(line, skip)[1..] == Read(s[n..] + "\n", false);
      UnbrokenFree(current + [t.c], s[n..], false);
      UnbrokenFree("", s[n..], false);
    }
  }

  // ---------------------------------------------------------------- the first break

  lemma {:induction false} BreakFromSteps(text: string, i: nat, j: nat)
    requires i <= j <= |text| && forall k: nat :: i <= k < j ==> !IsBreak(text, k)
    ensures BreakFrom(text, i) == BreakFrom(text, j)
    decreases j - i
  {
    if i < j {
      assert !IsBreak(text, i);
      BreakFromSteps(text, i + 1, j);
    }
  }

  lemma FirstBreak(text: string)
    requires SpaceUnit(text)
    ensures BreakFrom(text, 0) == UnitLength(text) - 1
  {
    UnitBreak(text);
    BreakFromSteps(text, 0, UnitLength(text) - 1);
  }

  /** From one token to the next, no break is passed over but on a bare space. */
  lemma BreakBehind(text: string, i: nat)
    requires i < |text| && Single(text[i..]) && (i > 0 ==> text[i - 1] != '$') && text[i] != ' '
    requires i == 0 ==> !SpaceUnit(text)
    ensures BreakFrom(text, i) == BreakFrom(text, i + Taken(text, i))
  {
    var n := Taken(text, i);
    if text[i] == '$' {
      forall k: nat | i <= k < i + n
        ensures !IsBreak(text, k)
      {
        UnitInside(text, i, k);
        if i > 0 {
          UnitNoBreak(text, i, k);
        } else {
          assert text[0..] == text;
        }
      }
      BreakFromSteps(text, i, i + n);
    } else {
      assert !IsBreak(text, i);
    }
  }

  lemma BreakHere(text: string, i: nat)
    requires i < |text| && text[i] == ' ' && (i > 0 ==> text[i - 1] != '$')
    ensures BreakFrom(text, i) == i && Segment(text[i..i + 1])
  {
    assert IsBreak(text, i) && text[i..i + 1] == " ";
  }

  /** A segment goes on in front of one. */
  lemma SegmentStep(text: string, i: nat, b: nat)
    requires i < |text| && Single(text[i..]) && text[i] != ' '
    requires i + Taken(text, i) <= b < |text| && Segment(text[i + Taken(text, i)..b + 1])
    ensures Segment(text[i..b + 1])
  {
    var s, n := text[i..b + 1], Taken(text, i);
    SingleNext(text, i);
    assert s[n..] == text[i + n..b + 1] && s[0] == text[i];
    if text[i] == '$' {
      assert forall k :: 0 <= k < n ==> s[k] == text[i..][k];
    } else {
      assert s[1..][0] == text[i + 1..][0];
    }
  }

  lemma UnbrokenStep(text: string, i: nat)
    requires i < |text| && Single(text[i..]) && text[i] != ' ' && Unbroken(text[i + Taken(text, i)..])
    ensures Unbroken(text[i..])
  {
    var s, n := text[i..], Taken(text, i);
    assert s[n..] == text[i + n..] && s[0] == text[i];
    if n == 4 {
      assert s[2..][2..] == s[4..] && s[2..][0] == '$' && s[2..][1] == ' ';
      assert Unbroken(s[2..]);
    }
  }

  /** The leftmost break from a token's start i on is the first bare space. */
  lemma {:induction false} FirstSpace(text: string, i: nat, b: int)
    requires i <= |text| && Single(text[i..]) && (i > 0 ==> text[i - 1] != '$') && b == BreakFrom(text, i)
    requires i == 0 ==> !SpaceUnit(text)
    ensures b < 0 ==> Unbroken(text[i..])
    ensures b >= 0 ==> Segment(text[i..b + 1])
    decreases |text| - i
  {
    if i < |text| {
      if text[i] == ' ' {
        BreakHere(text, i);
      } else {
        SingleNext(text, i);
        BreakBehind(text, i);
        FirstSpace(text, i + Taken(text, i), b);
        if b >= 0 {
          SegmentStep(text, i, b);
        } else {
          UnbrokenStep(text, i);
        }
      }
    }
  }

  // ---------------------------------------------------------------- narrow lines

  /** A line of one bare space. */
  lemma SpaceLine(current: string, skip: bool, cont: nat, body: string)
    requires LoneFree(current, Read(body, true)) && (skip || current == "")
    ensures LoneFree(current, Read(Broken(" ", cont, body), skip))
  {
    var behind := Read(body, true);
    BrokenLine(" ", cont, body, skip);
    assert " "[1..] == "";
    if skip {
      assert Read(" ", skip) + behind == behind;
    } else {
      assert Read(" ", skip) == [Plain(' ')] && ([Plain(' ')] + behind)[1..] == behind;
    }
  }

  /** What an item has grown to behind a unit that ends in a space. */
  function Grown(current: string, text: string): string
    requires SpaceUnit(text)
  {
    if UnitLength(text) == 4 then current + "$" + " " else current + [' ']
  }

  lemma GrownHollow(current: string, text: string)
    requires SpaceUnit(text) && Hollow(current)
    ensures Hollow(Grown(current, text))
  {
    HollowSnoc(current, ' ');
    HollowSnoc(current, '$');
    HollowSnoc(current + "$", ' ');
  }

  /** A line of one unit. */
  lemma UnitLine(current: string, text: string, skip: bool, cont: nat, body: string)
    requires SpaceUnit(text) && LoneFree(Grown(current, text), Read(body, true))
    ensures LoneFree(current, Read(Broken(text[..UnitLength(text)], cont, body), skip))
  {
    var a := text[..UnitLength(text)];
    BrokenLine(a, cont, body, skip);
    ReadUnit(a, skip);
    LoneFreeUnit(current, a, Read(body, true));
    assert Read(a, skip) == UnitTokens(a);
  }

  /** A line that starts otherwise. */
  lemma SegmentLine(current: string, a: string, skip: bool, cont: nat, body: string)
    requires Segment(a) && a[|a| - 1] == ' ' && Hollow(current) && a[0] != ' ' && !SpaceUnit(a)
    requires LoneFree("", Read(body, true))
    ensures LoneFree(current, Read(Broken(a, cont, body), skip))
  {
    BrokenLine(a, cont, body, skip);
    FirstSegment(current, a, skip, Read(body, true));
  }

  /** What is left open of an item at the end of a narrow line. */
  function Carried(current: string, text: string): string {
    if Spaced(text) then current else if SpaceUnit(text) then Grown(current, text) else ""
  }

  /** One narrow line. */
  lemma NarrowLine(current: string, text: string, b: nat, skip: bool, cont: nat, body: string)
    requires Single(text) && Hollow(current) && (skip || current == "") && b < |text| && b == BreakFrom(text, 0)
    requires LoneFree(Carried(current, text), Read(body, true))
    ensures LoneFree(current, Read(Broken(text[..b + 1], cont, body), skip))
  {
    assert text[0..] == text && text[0..b + 1] == text[..b + 1];
    if text[0] == ' ' {
      BreakHere(text, 0);
      assert text[..1] == " ";
      SpaceLine(current, skip, cont, body);
    } else if SpaceUnit(text) {
      FirstBreak(text);
      UnitLine(current, text, skip, cont, body);
    } else {
      FirstSpace(text, 0, b);
      NotSpaceUnit(text, b);
      SegmentLine(current, text[..b + 1], skip, cont, body);
    }
  }

  lemma NotSpaceUnit(text: string, b: nat)
    requires b < |text| && !SpaceUnit(text) && Single(text)
    ensures !SpaceUnit(text[..b + 1])
  {
  }

  lemma NarrowRest(current: string, text: string, b: nat)
    requires Single(text) && Hollow(current) && b < |text| && b == BreakFrom(text, 0)
    ensures Single(text[b + 1..]) && Hollow(Carried(current, text))
  {
    assert text[0..] == text;
    BreakInSingle(text, 0, b);
    if SpaceUnit(text) {
      GrownHollow(current, text);
    }
  }

  /** The last line. */
  lemma NarrowEnd(current: string, text: string, skip: bool)
    requires Single(text) && BreakFrom(text, 0) < 0
    ensures LoneFree(current, Read(text + "\n", skip))
  {
    assert text[0..] == text;
    if SpaceUnit(text) {
      FirstBreak(text);
    }
    FirstSpace(text, 0, -1);
    UnbrokenFree(current, text, skip);
  }

  /** A line of one or two characters. */
  lemma ShortFree(current: string, text: string, skip: bool)
    requires Single(text) && Hollow(current) && (skip || current == "") && |text| <= 2
    ensures LoneFree(current, Read(text + "\n", skip))
  {
    var b := BreakFrom(text, 0);
    assert text[0..] == text;
    if b < 0 {
      NarrowEnd(current, text, skip);
    } else {
      NarrowRest(current, text, b);
      UnbrokenLine(text, b, skip);
      ShortRest(current, text, b, skip);
    }
  }

  lemma ShortRest(current: string, text: string, b: nat, skip: bool)
    requires Single(text) && Hollow(current) && (skip || current == "") && b < |text| <= 2 && b == BreakFrom(text, 0)
    ensures LoneFree(current, Read(text[..b + 1], skip) + Read(text[b + 1..] + "\n", Skipping(text[..b + 1], skip)))
  {
    var rest, after := text[b + 1..], Skipping(text[..b + 1], skip);
    var behind := Read(rest + "\n", after);
    assert text[0..] == text && text[0..b + 1] == text[..b + 1];
    if text[0] == ' ' {
      BreakHere(text, 0);
      SingleNext(text, 0);
      assert text[..1] == " " && " "[1..] == "";
      UnbrokenFree(current, rest, after);
      if skip {
        assert Read(" ", skip) + behind == behind;
      } else {
        assert Read(" ", skip) == [Plain(' ')];
        LoneFreePlain(current, ' ', behind);
      }
    } else if SpaceUnit(text) {
      FirstBreak(text);
      assert text[..b + 1] == text && rest == "";
      ReadUnit(text, skip);
      UnbrokenFree(Grown(current, text), rest, after);
      LoneFreeUnit(current, text, behind);
      assert Read(text, skip) == UnitTokens(text);
    } else {
      FirstSpace(text, 0, b);
      NotSpaceUnit(text, b);
      assert rest == "";
      UnbrokenFree("", rest, after);
      FirstSegment(current, text[..b + 1], skip, behind);
    }
  }

  /** Every line is broken at its first break, and only lines of one or two characters are not. */
  predicate Narrow(text: string, lead: nat, cont: nat, width: int)
    decreases |text|
  {
    var b := BreakFrom(text, 0);
    if lead + |text| <= width then |text| <= 2
    else BreakOf(text, lead, width) == b && (b >= 0 ==> Narrow(text[b + 1..], cont, cont, width))
  }

  /** Then a hollow item always loses the separator behind it. */
  lemma {:induction false} NarrowFree(current: string, text: string, skip: bool, lead: nat, cont: nat, width: int)
    requires Single(text) && Hollow(current) && (skip || current == "") && Narrow(text, lead, cont, width)
    ensures LoneFree(current, Read(Body(text, lead, cont, width), skip))
    decreases |text|
  {
    var b := BreakFrom(text, 0);
    if lead + |text| <= width {
      ShortFree(current, text, skip);
    } else if b < 0 {
      NarrowEnd(current, text, skip);
    } else {
      NarrowRest(current, text, b);
      NarrowFree(Carried(current, text), text[b + 1..], true, cont, cont, width);
      NarrowLine(current, text, b, skip, cont, Body(text[b + 1..], cont, cont, width));
    }
  }

  // ---------------------------------------------------------------- natural widths

  /** Breaking before the second character at the latest is breaking as early as possible. */
  lemma EarlyBreak(text: string, cut: nat)
    requires Single(text) && cut <= 2 && cut <= |text|
    ensures (if BreakBefore(text, cut) >= 0 then BreakBefore(text, cut) else BreakFrom(text, cut)) == BreakFrom(text, 0)
  {
    if cut == 2 {
      assert text[0] == ' ' ==> text[1..][0] == text[1] != ' ';
      assert BreakBefore(text, 1) == if IsBreak(text, 0) then 0 else -1;
      assert !IsBreak(text, 0) ==> BreakFrom(text, 0) == BreakFrom(text, 1);
    }
  }

  /** A width two above the indentation. */
  lemma {:induction false} NarrowCont(text: string, cont: nat)
    requires Single(text)
    ensures Narrow(text, cont, cont, cont + 2)
    decreases |text|
  {
    var b := BreakFrom(text, 0);
    if cont + |text| > cont + 2 && b >= 0 {
      assert text[0..] == text;
      BreakInSingle(text, 0, b);
      NarrowCont(text[b + 1..], cont);
    }
  }

  /** A width of the indentation or less, for a few characters. */
  lemma {:induction false} NarrowFew(text: string, lead: nat, cont: nat, width: nat)
    requires Single(text) && |text| <= 4 && width <= lead && width <= cont
    ensures Narrow(text, lead, cont, width)
    decreases |text|
  {
    var b := BreakFrom(text, 0);
    EarlyBreak(text, Clamp(width - lead - 2, |text|));
    if lead + |text| > width && b >= 0 {
      assert text[0..] == text;
      BreakInSingle(text, 0, b);
      NarrowFew(text[b + 1..], cont, cont, width);
    }
  }

  lemma NarrowSome(text: string, lead: nat)
    requires Single(text) && !Spaced(text) && 5 <= |text| <= 6
    ensures Narrow(text, lead, lead + 4, lead + 4)
  {
    var b := BreakFrom(text, 0);
    EarlyBreak(text, 2);
    if b >= 0 {
      assert text[0..] == text;
      BreakInSingle(text, 0, b);
      NarrowFew(text[b + 1..], lead + 4, lead + 4, lead + 4);
    }
  }

  /** One escaped space, a separator and an item. */
  predicate LoneStart(text: string) {
    |text| >= 4 && text[0] == '$' && text[1] == ' ' && text[2] == ' ' && text[3] != '|'
  }

  // A first line of at most four characters, if there is a break in them, and then narrow lines.

  lemma FourBreaks(text: string, b: nat)
    requires Single(text) && !Spaced(text) && b <= 3 && b < |text| && IsBreak(text, b)
    requires 0 <= BreakFrom(text, 0) < b
    ensures BreakFrom(text, 0) == 1 && text[1] == ' ' && Single(text[2..])
    ensures b == 2 ==> SpaceUnit(text) && UnitLength(text) == 2 && text[2] == ' '
    ensures b != 2 ==> b == 3 && text[2] != ' ' && text[2] != '$' && text[3] == ' '
  {
    var first := BreakFrom(text, 0);
    assert text[0..] == text;
    BreakInSingle(text, 0, first);
    assert first + 1 < |text| ==> text[first + 1..][0] == text[first + 1];
    if SpaceUnit(text) {
      FirstBreak(text);
    }
    if b == 3 && first == 1 {
      SecondBreak(text);
    }
  }

  /** Two breaks two apart have one bare character between them. */
  lemma SecondBreak(text: string)
    requires |text| > 3 && text[1] == ' ' && Single(text[2..]) && IsBreak(text, 3)
    ensures text[2] != ' ' && text[2] != '$'
  {
    assert text[2..][0] == text[2] && text[2..][1..][0] == text[3];
    assert Dollars(text, 2) == 0 && Dollars(text, 3) == if text[2] == '$' then 1 else 0;
  }

  predicate SameHead(a: seq<Token>, b: seq<Token>) {
    a != [] && b != [] && a[0] == b[0]
  }

  /** The first token of a text is the first token of its lines. */
  lemma {:induction false} HeadKept(text: string, skip: bool, lead: nat, cont: nat, width: int)
    requires Single(text) && (skip || !Spaced(text))
    ensures SameHead(Read(Body(text, lead, cont, width), skip), Read(text + "\n", skip))
    decreases |text|
  {
    var b := BreakOf(text, lead, width);
    if lead + |text| > width && b >= 0 {
      assert text[0..] == text;
      BreakInSingle(text, 0, b);
      HeadKept(text[b + 1..], true, cont, cont, width);
      HeadBroken(text, b, skip, cont, Body(text[b + 1..], cont, cont, width));
    } else {
      EndRead(text, skip);
    }
  }

  lemma HeadBroken(text: string, b: nat, skip: bool, cont: nat, body: string)
    requires b < |text| && text[b] == ' '
    requires SameHead(Read(body, true), Read(text[b + 1..] + "\n", true))
    ensures SameHead(Read(Broken(text[..b + 1], cont, body), skip), Read(text + "\n", skip))
  {
    var a := text[..b + 1];
    BrokenLine(a, cont, body, skip);
    UnbrokenLine(text, b, skip);
    if Read(a, skip) == [] {
      NothingRead(a, skip);
    }
  }

  /** Ninja is skipping spaces when it has read something that comes to nothing. */
  lemma {:induction false} NothingRead(a: string, skip: bool)
    requires a != "" && Read(a, skip) == []
    ensures Skipping(a, skip)
    decreases |a|
  {
    var n := Next(a, skip);
    if a[n.length..] != "" {
      NothingRead(a[n.length..], n.skip);
    }
  }

  lemma {:induction false} EndRead(text: string, skip: bool)
    requires Single(text)
    ensures Read(text + "\n", skip) != []
    decreases |text|
  {
    var line := text + "\n";
    if text == "" {
      assert Next(line, skip) == Bite(1, [Plain('\n')], false);
    } else if skip && text[0] == ' ' {
      assert line[1..] == text[1..] + "\n";
      EndRead(text[1..], true);
    } else {
      assert |Next(line, skip).tokens| == 1;
    }
  }

  /** A unit, a separator and a bar. */
  lemma UnitBarLine(a: string, cont: nat, body: string)
    requires a == "$  " && LoneFree("", Read(body, true))
    requires Read(body, true) != [] && Read(body, true)[0] == Plain('|')
    ensures LoneFree("", Read(Broken(a, cont, body), false))
  {
    var behind := Read(body, true);
    BrokenLine(a, cont, body, false);
    UnitRead(a, false);
    assert a[2..] == " " && " "[1..] == "" && Read(" ", false) == [Plain(' ')];
    Grouped([Token.Escaped(' ')], [Plain(' ')], behind);
    assert ([Plain(' ')] + behind)[1..] == behind && ([Plain(' ')] + behind)[1] == Plain('|');
    LoneFreeUnit("", a, [Plain(' ')] + behind);
  }

  /** Two segments, or a unit and a segment. */
  lemma TwoSegmentsLine(a: string, b: string, cont: nat, body: string)
    requires |a| == 2 && a[1] == ' ' && (SpaceUnit(a) || (Segment(a) && a[0] != ' '))
    requires |b| == 2 && b[1] == ' ' && b[0] != ' ' && Segment(b) && !SpaceUnit(b)
    requires LoneFree("", Read(body, true))
    ensures LoneFree("", Read(Broken(a + b, cont, body), false))
  {
    var behind, after := Read(body, true), Skipping(a, false);
    BrokenLine(a + b, cont, body, false);
    ReadJoin(a, b, false);
    Grouped(Read(a, false), Read(b, after), behind);
    if SpaceUnit(a) {
      ReadUnit(a, false);
      FirstSegment("" + [' '], b, after, behind);
      LoneFreeUnit("", a, Read(b, after) + behind);
      assert Read(a, false) == UnitTokens(a);
    } else {
      FirstSegment("", b, after, behind);
      FirstSegment("", a, false, Read(b, after) + behind);
    }
  }

  /** The first line of a longer text at a width six above its indentation. */
  lemma FourLine(text: string, b: nat, cont: nat, body: string)
    requires Single(text) && !Spaced(text) && |text| > 6 && !LoneStart(text)
    requires b <= 3 && IsBreak(text, b) && 0 <= BreakFrom(text, 0) < b
    requires LoneFree("", Read(body, true))
    requires b == 2 && text[3] == '|' ==> Read(body, true) != [] && Read(body, true)[0] == Plain('|')
    ensures LoneFree("", Read(Broken(text[..b + 1], cont, body), false))
  {
    FourBreaks(text, b);
    if b == 2 {
      assert text[..3] == "$  ";
      UnitBarLine(text[..3], cont, body);
    } else {
      var second := text[2..4];
      FourSegments(text);
      assert text[..4] == text[..2] + second;
      TwoSegmentsLine(text[..2], second, cont, body);
    }
  }

  lemma FourSegments(text: string)
    requires Single(text) && |text| > 6 && text[0] != ' ' && BreakFrom(text, 0) == 1 && text[1] == ' ' && Single(text[2..])
    requires text[2] != ' ' && text[2] != '$' && text[3] == ' '
    ensures Segment(text[2..4]) && !SpaceUnit(text[2..4])
    ensures SpaceUnit(text[..2]) || Segment(text[..2])
  {
    assert text[0..] == text && text[0..2] == text[..2];
    var second := text[2..4];
    assert second[0] == text[2..][0] && second[1..] == " ";
    if text[0] == '$' {
      assert text[..2] == "$ ";
    } else {
      FirstSpace(text, 0, 1);
    }
  }

  /** The width of a longer text. */
  lemma LongFree(text: string, lead: nat)
    requires Single(text) && !Spaced(text) && |text| > 6 && !LoneStart(text)
    ensures LoneFree("", Read(Body(text, lead, lead + 4, lead + 6), false))
  {
    var cont, width := lead + 4, lead + 6;
    var b := BreakOf(text, lead, width);
    BreakIsBest(text, lead, width);
    if b < 0 {
      assert BreakFrom(text, 0) < 0;
      NarrowEnd("", text, false);
    } else {
      var rest := text[b + 1..];
      var body := Body(rest, cont, cont, width);
      assert text[0..] == text;
      BreakInSingle(text, 0, b);
      NarrowCont(rest, cont);
      if b == BreakFrom(text, 0) {
        NarrowRest("", text, b);
        NarrowFree(Carried("", text), rest, true, cont, cont, width);
        NarrowLine("", text, b, false, cont, body);
      } else {
        NarrowFree("", rest, true, cont, cont, width);
        LongBreak(text, b);
        if b == 2 && text[3] == '|' {
          BarHead(rest, cont, width);
        }
        FourLine(text, b, cont, body);
      }
    }
  }

  lemma LongBreak(text: string, b: nat)
    requires |text| > 6 && b < |text| && IsBreak(text, b) && b != BreakFrom(text, 0)
    requires b == if BreakBefore(text, 4) >= 0 then BreakBefore(text, 4) else BreakFrom(text, 4)
    ensures b <= 3 && 0 <= BreakFrom(text, 0) < b
  {
    if BreakBefore(text, 4) < 0 {
      assert false;
    }
  }

  lemma BarHead(rest: string, cont: nat, width: int)
    requires Single(rest) && rest != "" && rest[0] == '|'
    ensures var tokens := Read(Body(rest, cont, cont, width), true); tokens != [] && tokens[0] == Plain('|')
  {
    HeadKept(rest, true, cont, cont, width);
    assert Next(rest + "\n", true) == Bite(1, [Plain('|')], false);
  }

  // ---------------------------------------------------------------- one escaped space at the start

  /** The first word only grows. */
  lemma {:induction false} WordGrows(current: string, tokens: seq<Token>)
    requires current != ""
    ensures Words(current, tokens) != [] && current <= Words(current, tokens)[0]
    decreases |tokens|
  {
    if tokens != [] && tokens[0] != Plain(':') && tokens[0] != Plain('\n') && tokens[0] != Plain(' ') && tokens[0] != Plain('|') {
      WordGrows(current + [tokens[0].c], tokens[1..]);
    }
  }

  lemma LoneStartLine(text: string, cont: nat, body: string)
    requires Single(text) && LoneStart(text)
    requires SameHead(Read(body, true), Read(text[2..] + "\n", true))
    ensures Words("", Read(Broken(text[..2], cont, body), false)) != Words("", Read(text + "\n", false))
  {
    LoneStartRead(text);
    ReadUnit(text[..2], false);
    BrokenLine(text[..2], cont, body, false);
    assert Read(text[..2], false) == [Token.Escaped(' ')];
    SpaceGrows(Read(body, true));
  }

  lemma LoneStartRest(text: string)
    requires Single(text) && LoneStart(text)
    ensures Single(text[2..])
  {
    assert text[0..] == text;
    SingleNext(text, 0);
  }

  /** At a width two above the indentation such a text loses its first separator. */
  lemma LoneStartLost(text: string, lead: nat, cont: nat)
    requires Single(text) && LoneStart(text)
    ensures Words("", Read(Body(text, lead, cont, lead + 2), false)) != Words("", Read(text + "\n", false))
  {
    LoneStartBroken(text, lead, cont);
    LoneStartRest(text);
    HeadKept(text[2..], true, cont, cont, lead + 2);
    LoneStartLine(text, cont, Body(text[2..], cont, cont, lead + 2));
  }

  lemma SpaceGrows(tokens: seq<Token>)
    requires tokens != [] && tokens[0] != Plain(' ') && tokens[0] != Plain('|') && tokens[0] != Plain(':')
    requires tokens[0] != Plain('\n')
    ensures var words := Words("", [Token.Escaped(' ')] + tokens); words != [] && words[0] != " "
  {
    var c := tokens[0].c;
    assert ([Token.Escaped(' ')] + tokens)[1..] == tokens && "" + [' '] == " ";
    assert Words(" ", tokens) == Words(" " + [c], tokens[1..]);
    WordGrows(" " + [c], tokens[1..]);
  }

  lemma LoneStartBroken(text: string, lead: nat, cont: nat)
    requires LoneStart(text)
    ensures Body(text, lead, cont, lead + 2) == Broken(text[..2], cont, Body(text[2..], cont, cont, lead + 2))
  {
    FirstBreak(text);
    assert BreakBefore(text, 0) == -1 && BreakOf(text, lead, lead + 2) == 1;
  }

  /** Without wrapping its first word is the space, and another word begins behind the separator. */
  lemma LoneStartRead(text: string)
    requires Single(text) && LoneStart(text)
    ensures var words := Words("", Read(text + "\n", false)); words != [] && words[0] == " "
    ensures var tokens := Read(text[2..] + "\n", true);
            && tokens != [] && tokens[0] != Plain(' ') && tokens[0] != Plain('|') && tokens[0] != Plain(':')
            && tokens[0] != Plain('\n')
  {
    var line, rest := text + "\n", text[2..] + "\n";
    assert line[2..] == rest && rest[1..] == text[3..] + "\n";
    EscapedRead(line, false);
    assert Read(rest, false) == [Plain(' ')] + Read(rest[1..], false);
    SpaceWord(Read(rest[1..], false));
    LoneStartNext(text);
    assert Read(rest, true) == Read(rest[1..], true);
  }

  lemma SpaceWord(tokens: seq<Token>)
    ensures Words("", [Token.Escaped(' ')] + ([Plain(' ')] + tokens)) == [" "] + Words("", tokens)
  {
    var rest := [Plain(' ')] + tokens;
    assert rest[1..] == tokens && ([Token.Escaped(' ')] + rest)[1..] == rest && "" + [' '] == " ";
    assert Words(" ", rest) == [" "] + Words("", tokens);
  }

  lemma LoneStartNext(text: string)
    requires Single(text) && LoneStart(text)
    ensures var tokens := Read(text[3..] + "\n", true);
            && tokens != [] && tokens[0] != Plain(' ') && tokens[0] != Plain('|') && tokens[0] != Plain(':')
            && tokens[0] != Plain('\n')
  {
    var s := text[3..];
    assert text[0..] == text;
    SingleNext(text, 0);
    SingleNext(text, 2);
    SingleNext(text, 3);
    assert s[0] == text[3];
    var line := s + "\n";
    assert line[0] == s[0] && (|s| >= 2 ==> line[1] == s[1]);
    assert |Next(line, true).tokens| == 1;
  }

  // ---------------------------------------------------------------- every text has such a width

  /** A width at which hollow items lose their separators. */
  function LosingWidth(text: string, lead: nat): nat {
    if |text| <= 4 then lead
    else if |text| <= 6 then lead + 4
    else if LoneStart(text) then lead + 2
    else lead + 6
  }

  lemma LosingExact(text: string, lead: nat)
    requires Single(text) && !Spaced(text) && !(|text| > 6 && LoneStart(text))
    ensures LoneFree("", Read(Body(text, lead, lead + 4, LosingWidth(text, lead)), false))
  {
    if |text| <= 4 {
      NarrowFew(text, lead, lead + 4, lead);
      NarrowFree("", text, false, lead, lead + 4, lead);
    } else if |text| <= 6 {
      NarrowSome(text, lead);
      NarrowFree("", text, false, lead, lead + 4, lead + 4);
    } else {
      LongFree(text, lead);
    }
  }
}
