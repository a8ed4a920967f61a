/** Lists of paths on wrapped lines of tools/ninja_syntax.py: which texts read the same at every width,
    and what is read where every line is broken as early as possible. */
module NinjaWraps {
  import opened NinjaWriter
  import opened NinjaPaths

  // ---------------------------------------------------------------- the shape of such texts

  predicate Spaced(s: string) {
    s != "" && s[0] == ' '
  }

  /** A bare space in front of a bar, where it separates nothing. */
  predicate BeforeBar(s: string) {
    |s| >= 2 && s[0] == ' ' && s[1] == '|'
  }

  /** What escape_path makes of a space, of a colon, or of a dollar and a space. */
  predicate Unit(s: string) {
    |s| >= 2 && s[0] == '$'
    && (s[1] == ' ' || s[1] == ':' || (|s| >= 4 && s[1] == '$' && s[2] == '$' && s[3] == ' '))
  }

  function UnitLength(s: string): (n: nat)
    requires Unit(s)
    ensures 2 <= n <= |s| && s[n - 1] != '$'
  {
    if s[1] == '$' then 4 else 2
  }

  predicate SpaceUnit(s: string) {
    Unit(s) && s[UnitLength(s) - 1] == ' '
  }

  /** Spaces escaped at the start are not followed by a bare space, unless in front of a bar. */
  predicate Runs(s: string) {
    s == "" || if SpaceUnit(s) then Runs(s[UnitLength(s)..]) else s[0] != ' ' || BeforeBar(s)
  }

  /** Dollars only stand in such units, and `Runs` holds behind every bare space. */
  predicate Shape(s: string) {
    s == ""
    || (if s[0] == '$' then Unit(s) && Shape(s[UnitLength(s)..])
        else (s[0] == ' ' ==> Runs(s[1..])) && Shape(s[1..]))
  }

  /** What may follow a bare bar or colon. */
  predicate Quiet(s: string) {
    s == "" || s[0] == ' ' || s[0] == '|' || s[0] == ':'
  }

  /** What may follow a bare space. */
  predicate Starts(s: string) {
    s == "" || (s[0] != ' ' && s[0] != ':')
  }

  /** Dollars only stand in units, a bare space is followed by an item, and a bare bar or colon is not. */
  predicate Single(s: string) {
    s == ""
    || (if s[0] == '$' then Unit(s) && Single(s[UnitLength(s)..])
        else s[0] != '\n' && (s[0] == ' ' ==> Starts(s[1..])) && (s[0] == '|' || s[0] == ':' ==> Quiet(s[1..]))
             && Single(s[1..]))
  }

  /** How many characters the token at i takes, or the unit. */
  function Taken(text: string, i: nat): (n: nat)
    requires i < |text| && Single(text[i..])
    ensures 1 <= n && i + n <= |text| && text[i + n - 1] != '$'
  {
    if text[i] == '$' then
      assert text[i..][0] == '$';
      var n := UnitLength(text[i..]);
      assert text[i + n - 1] == text[i..][n - 1];
      n
    else 1
  }

  /** One token or unit of such a text. */
  lemma SingleNext(text: string, i: nat)
    requires i < |text| && Single(text[i..])
    ensures Single(text[i + Taken(text, i)..]) && text[i] != '\n'
    ensures text[i] == '|' || text[i] == ':' ==> Quiet(text[i + 1..])
    ensures text[i] == ' ' ==> Starts(text[i + 1..])
  {
    var n := Taken(text, i);
    assert text[i..][n..] == text[i + n..] && text[i..][1..] == text[i + 1..] && text[i..][0] == text[i];
  }

  lemma ShapeNext(text: string, i: nat)
    requires i < |text| && Single(text[i..]) && Shape(text[i..])
    ensures Shape(text[i + Taken(text, i)..]) && (text[i] == ' ' ==> Runs(text[i + 1..]))
  {
    var n := Taken(text, i);
    assert text[i..][n..] == text[i + n..] && text[i..][1..] == text[i + 1..] && text[i..][0] == text[i];
  }

  /** Inside a unit there is no space but its last character. */
  lemma UnitInside(text: string, i: nat, b: nat)
    requires i < |text| && Single(text[i..]) && text[i] == '$' && i <= b < i + Taken(text, i)
    ensures text[b] == ' ' ==> b == i + Taken(text, i) - 1
    ensures i < b ==> text[b - 1] == '$'
    ensures text[b] == ' ' ==> SpaceUnit(text[i..])
  {
    assert forall k :: 0 <= k < Taken(text, i) ==> text[i + k] == text[i..][k];
    assert b == i + (b - i) && (i < b ==> b - 1 == i + (b - 1 - i));
  }

  /** The space that ends a unit behind the start of a line is no break. */
  lemma UnitNoBreak(text: string, i: nat, b: nat)
    requires 0 < i < |text| && text[i - 1] != '$' && Single(text[i..]) && text[i] == '$' && i <= b < i + Taken(text, i)
    ensures !IsBreak(text, b)
  {
    UnitInside(text, i, b);
    if text[b] == ' ' {
      var n := Taken(text, i);
      assert text[i] == '$' && (n == 4 ==> text[i + 1] == text[i..][1] == '$' && text[i + 2] == text[i..][2] == '$');
      assert Dollars(text, i) == 0 && Dollars(text, i + 1) == 1;
      if n == 4 {
        assert Dollars(text, i + 2) == 2 && Dollars(text, i + 3) == 3;
      }
    }
  }

  /** At the start of a line it is. */
  lemma UnitBreak(text: string)
    requires SpaceUnit(text)
    ensures IsBreak(text, UnitLength(text) - 1) && forall i: nat :: i < UnitLength(text) - 1 ==> !IsBreak(text, i)
  {
    assert Dollars(text, 1) == 0;
    if UnitLength(text) == 4 {
      assert Dollars(text, 2) == 1 && Dollars(text, 3) == 2;
    }
  }

  /** A break of such a text is a bare space, or ends a unit the text starts with. */
  lemma {:induction false} BreakInSingle(text: string, i: nat, b: nat)
    requires i <= b < |text| && IsBreak(text, b) && Single(text[i..]) && (i > 0 ==> text[i - 1] != '$')
    ensures Single(text[b + 1..])
    ensures Starts(text[b + 1..]) || (i == 0 && SpaceUnit(text) && b == UnitLength(text) - 1)
    decreases |text| - i
  {
    SingleNext(text, i);
    if b >= i + Taken(text, i) {
      BreakInSingle(text, i + Taken(text, i), b);
    } else if text[i] == '$' {
      UnitInside(text, i, b);
      if i > 0 {
        UnitNoBreak(text, i, b);
      } else {
        assert text[0..] == text;
      }
    }
  }

  /** And if the text has the shape, what is behind it has. */
  lemma {:induction false} BreakInShape(text: string, i: nat, b: nat)
    requires i <= b < |text| && IsBreak(text, b) && Single(text[i..]) && Shape(text[i..]) && (i > 0 ==> text[i - 1] != '$')
    ensures Shape(text[b + 1..])
    ensures Runs(text[b + 1..]) || (i == 0 && SpaceUnit(text) && b == UnitLength(text) - 1)
    decreases |text| - i
  {
    SingleNext(text, i);
    ShapeNext(text, i);
    if b >= i + Taken(text, i) {
      BreakInShape(text, i + Taken(text, i), b);
    } else if text[i] == '$' {
      UnitInside(text, i, b);
      if i > 0 {
        UnitNoBreak(text, i, b);
      } else {
        assert text[0..] == text;
      }
    }
  }

  // ---------------------------------------------------------------- every width

  /** No break is followed by a space that Ninja would otherwise read, but for a space in front of
      a bar behind one escaped at the line's start. */
  predicate ItemsKept(text: string, skip: bool, lead: nat, cont: nat, width: int)
    decreases |text|
  {
    var b := BreakOf(text, lead, width);
    lead + |text| <= width || b < 0
    || ((!Spaced(text[b + 1..]) || (SpaceUnit(text) && b == UnitLength(text) - 1 && BeforeBar(text[b + 1..])))
        && ItemsKept(text[b + 1..], true, cont, cont, width))
  }

  /** A text of this shape is kept in this sense at every width. */
  lemma {:induction false} ShapeKept(text: string, skip: bool, lead: nat, cont: nat, width: int)
    requires Shape(text) && Runs(text) && Single(text)
    ensures ItemsKept(text, skip, lead, cont, width)
    decreases |text|
  {
    var b := BreakOf(text, lead, width);
    if lead + |text| > width && b >= 0 {
      assert text[0..] == text;
      BreakInShape(text, 0, b);
      BreakInSingle(text, 0, b);
      ShapeKept(text[b + 1..], true, cont, cont, width);
    }
  }

  /** No dollar is doubled. */
  predicate Undoubled(text: string) {
    forall i :: 0 <= i < |text| - 1 && text[i] == '$' ==> text[i + 1] != '$'
  }

  /** Where a line has room for a unit, a space and " $", a break in front of a bare space is never
      the rightmost one, so nothing is lost. */
  lemma {:induction false} WideKept(text: string, skip: bool, lead: nat, cont: nat, width: int)
    requires Single(text) && !Spaced(text)
    requires (width >= lead + 7 && width >= cont + 7) || (Undoubled(text) && width >= lead + 5 && width >= cont + 5)
    ensures Kept(text, skip, lead, cont, width)
    decreases |text|
  {
    var b := BreakOf(text, lead, width);
    if lead + |text| > width && b >= 0 {
      assert text[0..] == text;
      BreakInSingle(text, 0, b);
      if Spaced(text[b + 1..]) {
        assert IsBreak(text, b + 1);
      }
      WideKept(text[b + 1..], true, cont, cont, width);
    }
  }

  /** The first sequence is the second without separators between an escaped space and a bar. */
  predicate Thin(thin: seq<Token>, full: seq<Token>)
    decreases |full|
  {
    if thin == [] || full == [] then thin == full
    else
      thin[0] == full[0]
      && (Thin(thin[1..], full[1..])
          || (full[0] == Token.Escaped(' ') && |full| >= 3 && full[1] == Plain(' ') && full[2] == Plain('|')
              && Thin(thin[1..], full[2..])))
  }

  /** It is read as the same items, */
  lemma {:induction false} ThinWords(current: string, thin: seq<Token>, full: seq<Token>)
    requires Thin(thin, full)
    ensures Words(current, thin) == Words(current, full)
    decreases |full|
  {
    if full != [] {
      var c := full[0].c;
      if full[0] == Plain(':') || full[0] == Plain('\n') {
      } else if full[0] == Plain(' ') {
        ThinWords("", thin[1..], full[1..]);
      } else if full[0] == Plain('|') {
        if |full| >= 2 && full[1] == Plain('|') {
          assert thin[1..][0] == full[1..][0] && thin[1..][1..] == thin[2..] && full[1..][1..] == full[2..];
          ThinWords("", thin[2..], full[2..]);
        } else {
          assert |thin| >= 2 ==> thin[1..][0] == full[1..][0];
          ThinWords("", thin[1..], full[1..]);
        }
      } else if Thin(thin[1..], full[1..]) {
        ThinWords(current + [c], thin[1..], full[1..]);
      } else {
        assert full[1..][0] == Plain(' ') && full[1..][1..] == full[2..] && full[2..][0] == Plain('|');
        assert Words(current + [c], full[1..]) == [current + [c]] + Words("", full[2..]);
        ThinWords(current + [c], thin[1..], full[2..]);
        WordsOfBar(current + [c], full[2..]);
      }
    }
  }

  lemma WordsOfBar(current: string, tokens: seq<Token>)
    requires current != "" && tokens != [] && tokens[0] == Plain('|')
    ensures Words(current, tokens) == [current] + Words("", tokens)
  {
  }

  /** behind the colon too. */
  lemma {:induction false} ThinAfter(thin: seq<Token>, full: seq<Token>)
    requires Thin(thin, full)
    ensures Thin(AfterColon(thin), AfterColon(full))
    decreases |full|
  {
    if full != [] && full[0] != Plain(':') {
      if Thin(thin[1..], full[1..]) {
        ThinAfter(thin[1..], full[1..]);
      } else {
        ThinAfter(thin[1..], full[2..]);
        assert full[1..][1..] == full[2..];
      }
    }
  }

  lemma {:induction false} ThinJoin(a: seq<Token>, thin: seq<Token>, full: seq<Token>)
    requires Thin(thin, full)
    ensures Thin(a + thin, a + full)
  {
    if a == [] {
      assert a + thin == thin && a + full == full;
    } else {
      assert (a + thin)[1..] == a[1..] + thin && (a + full)[1..] == a[1..] + full;
      ThinJoin(a[1..], thin, full);
    }
  }

  lemma {:induction false} ThinSelf(a: seq<Token>)
    ensures Thin(a, a)
  {
    if a != [] {
      ThinSelf(a[1..]);
    }
  }

  /** One break. */
  lemma ThinBroken(text: string, b: nat, skip: bool, cont: nat, body: string)
    requires b < |text| && text[b] == ' ' && (b + 1 == |text| || text[b + 1] != ' ')
    requires Thin(Read(body, true), Read(text[b + 1..] + "\n", true))
    ensures Thin(Read(Broken(text[..b + 1], cont, body), skip), Read(text + "\n", skip))
  {
    var a, rest := text[..b + 1], text[b + 1..] + "\n";
    BrokenLine(a, cont, body, skip);
    UnbrokenLine(text, b, skip);
    SkippingExact(rest);
    ThinJoin(Read(a, skip), Read(body, true), Read(rest, true));
  }

  lemma ReadUnit(a: string, skip: bool)
    requires SpaceUnit(a) && |a| == UnitLength(a)
    ensures !Skipping(a, skip)
    ensures Read(a, skip) == (if |a| == 4 then [Token.Escaped('$')] else []) + [Token.Escaped(' ')]
  {
    if |a| == 4 {
      assert a[2..][2..] == "" && Next(a, skip) == Bite(2, [Token.Escaped('$')], false);
      assert Next(a[2..], false) == Bite(2, [Token.Escaped(' ')], false);
    } else {
      assert a[2..] == "" && Next(a, skip) == Bite(2, [Token.Escaped(' ')], false);
    }
  }

  /** One break behind an escaped space, in front of a separator and a bar. */
  lemma ThinAtBar(text: string, skip: bool, cont: nat, body: string)
    requires SpaceUnit(text) && BeforeBar(text[UnitLength(text)..])
    requires Thin(Read(body, true), Read(text[UnitLength(text)..] + "\n", true))
    ensures Thin(Read(Broken(text[..UnitLength(text)], cont, body), skip), Read(text + "\n", skip))
  {
    var n := UnitLength(text);
    var a, rest := text[..n], text[n..] + "\n";
    var dollar, bar := if n == 4 then [Token.Escaped('$')] else [], rest[1..];
    BrokenLine(a, cont, body, skip);
    UnbrokenLine(text, n - 1, skip);
    ReadUnit(a, skip);
    ReadBar(rest);
    ThinOverSpace(Read(body, true), Read(bar, false));
    Grouped(dollar, [Token.Escaped(' ')], Read(body, true));
    Grouped(dollar, [Token.Escaped(' ')], [Plain(' ')] + Read(bar, false));
    ThinJoin(dollar, [Token.Escaped(' ')] + Read(body, true), [Token.Escaped(' ')] + ([Plain(' ')] + Read(bar, false)));
  }

  lemma ReadBar(rest: string)
    requires BeforeBar(rest)
    ensures Read(rest, true) == Read(rest[1..], false) && Read(rest, false) == [Plain(' ')] + Read(rest[1..], false)
    ensures Read(rest[1..], false) != [] && Read(rest[1..], false)[0] == Plain('|')
  {
    var bar := rest[1..];
    assert Next(bar, true) == Next(bar, false) == Bite(1, [Plain('|')], false);
    assert Read(rest, true) == Read(bar, true) == Read(bar, false);
  }

  lemma ThinOverSpace(thin: seq<Token>, full: seq<Token>)
    requires Thin(thin, full) && full != [] && full[0] == Plain('|')
    ensures Thin([Token.Escaped(' ')] + thin, [Token.Escaped(' ')] + ([Plain(' ')] + full))
  {
    var long := [Token.Escaped(' ')] + ([Plain(' ')] + full);
    assert long[2..] == full && ([Token.Escaped(' ')] + thin)[1..] == thin;
  }

  /** Either kind of break. */
  lemma ThinBreak(text: string, b: nat, skip: bool, cont: nat, body: string)
    requires b < |text| && text[b] == ' '
    requires !Spaced(text[b + 1..]) || (SpaceUnit(text) && b == UnitLength(text) - 1 && BeforeBar(text[b + 1..]))
    requires Thin(Read(body, true), Read(text[b + 1..] + "\n", true))
    ensures Thin(Read(Broken(text[..b + 1], cont, body), skip), Read(text + "\n", skip))
  {
    if !Spaced(text[b + 1..]) {
      ThinBroken(text, b, skip, cont, body);
    } else {
      ThinAtBar(text, skip, cont, body);
    }
  }

  /** Wrapping a text that is kept only loses such separators. */
  lemma {:induction false} KeptIsThin(text: string, skip: bool, lead: nat, cont: nat, width: int)
    requires ItemsKept(text, skip, lead, cont, width)
    ensures Thin(Read(Body(text, lead, cont, width), skip), Read(text + "\n", skip))
    decreases |text|
  {
    var b := BreakOf(text, lead, width);
    if lead + |text| > width && b >= 0 {
      KeptIsThin(text[b + 1..], true, cont, cont, width);
      ThinBreak(text, b, skip, cont, Body(text[b + 1..], cont, cont, width));
    } else {
      ThinSelf(Read(text + "\n", skip));
    }
  }
}
