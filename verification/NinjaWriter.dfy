/** Writer._line, escape_path, escape and expand of tools/ninja_syntax.py, and how Ninja reads
    lines (the Ninja manual, section "Lexical syntax"): `$$`, `$ ` and `$:` stand for the second
    character, `$` and a newline stand for nothing and swallow the spaces that follow. */
module NinjaWriter {

  // ---------------------------------------------------------------- reading

  /** A character as it stands, or one that was escaped. */
  datatype Token = Plain(c: char) | Escaped(c: char)

  predicate Escapable(c: char) {
    c == '$' || c == ' ' || c == ':'
  }

  /** One step of Ninja's reading: how many characters it takes, what it makes of them, and
      whether it is skipping spaces afterwards, as it does after a continued line. */
  datatype Bite = Bite(length: nat, tokens: seq<Token>, skip: bool)

  function Next(s: string, skip: bool): (b: Bite)
    requires s != ""
    ensures 1 <= b.length <= |s|
  {
    if skip && s[0] == ' ' then Bite(1, [], true)
    else if s[0] == '$' && |s| >= 2 && s[1] == '\n' then Bite(2, [], true)
    else if s[0] == '$' && |s| >= 2 && Escapable(s[1]) then Bite(2, [Escaped(s[1])], false)
    else Bite(1, [Plain(s[0])], false)
  }

  function Read(s: string, skip: bool): seq<Token> {
    if s == "" then [] else Next(s, skip).tokens + Read(s[Next(s, skip).length..], Next(s, skip).skip)
  }

  /** Whether Ninja is skipping spaces when it has read all of this. */
  predicate Skipping(s: string, skip: bool) {
    if s == "" then skip else Skipping(s[Next(s, skip).length..], Next(s, skip).skip)
  }

  /** A space, escaped or not, ends a token. */
  predicate EndsInSpace(s: string) {
    s == "" || s[|s| - 1] == ' '
  }

  lemma {:induction false} ReadJoin(a: string, b: string, skip: bool)
    requires EndsInSpace(a)
    ensures Read(a + b, skip) == Read(a, skip) + Read(b, Skipping(a, skip))
    decreases |a|
  {
    if a == "" {
      assert a + b == b;
    } else {
      var n := Next(a, skip);
      var rest := a[n.length..];
      NextJoin(a, b, skip);
      ReadJoin(rest, b, n.skip);
      Grouped(n.tokens, Read(rest, n.skip), Read(b, Skipping(rest, n.skip)));
    }
  }

  lemma NextJoin(a: string, b: string, skip: bool)
    requires a != "" && EndsInSpace(a)
    ensures Next(a + b, skip) == Next(a, skip)
    ensures (a + b)[Next(a, skip).length..] == a[Next(a, skip).length..] + b
    ensures EndsInSpace(a[Next(a, skip).length..])
  {
  }

  lemma Grouped(x: seq<Token>, y: seq<Token>, z: seq<Token>)
    ensures (x + y) + z == x + (y + z)
  {
  }

  function Spaces(n: nat): (s: string)
    ensures |s| == n && EndsInSpace(s) && forall i :: 0 <= i < n ==> s[i] == ' '
  {
    if n == 0 then "" else " " + Spaces(n - 1)
  }

  lemma {:induction false} SkipSpaces(n: nat, s: string)
    ensures Read(Spaces(n) + s, true) == Read(s, true)
  {
    if n == 0 {
      assert Spaces(n) + s == s;
    } else {
      assert (Spaces(n) + s)[1..] == Spaces(n - 1) + s;
      SkipSpaces(n - 1, s);
    }
  }

  /** Skipping can only lose tokens, and loses one if there is a space to skip. */
  lemma {:induction false} SkippingLoses(s: string)
    ensures |Read(s, true)| <= |Read(s, false)|
    ensures s != "" && s[0] == ' ' ==> |Read(s, true)| < |Read(s, false)|
  {
    if s != "" && s[0] == ' ' {
      SkippingLoses(s[1..]);
    }
  }

  // ---------------------------------------------------------------- where lines break

  /** The '$' in front of s[i], but for one at the very start of s, which the source's loop never
      looks at. */
  function Dollars(s: string, i: nat): nat
    requires i <= |s|
  {
    if i >= 2 && s[i - 1] == '$' then 1 + Dollars(s, i - 1) else 0
  }

  /** All of them. */
  function AllDollars(s: string, i: nat): (n: nat)
    requires i <= |s|
    ensures n <= i && (forall j :: i - n <= j < i ==> s[j] == '$') && (n < i ==> s[i - n - 1] != '$')
  {
    if i >= 1 && s[i - 1] == '$' then 1 + AllDollars(s, i - 1) else 0
  }

  /** The count is one short exactly when nothing but '$' stands in front of s[i]. */
  lemma {:induction false} DollarsExact(s: string, i: nat)
    requires i <= |s|
    ensures AllDollars(s, i) == Dollars(s, i) + if i >= 1 && AllDollars(s, i) == i then 1 else 0
    ensures AllDollars(s, i) <= i
  {
    if i >= 2 && s[i - 1] == '$' {
      DollarsExact(s, i - 1);
    }
  }

  predicate IsBreak(s: string, i: nat) {
    i < |s| && s[i] == ' ' && Dollars(s, i) % 2 == 0
  }

  /** Ninja's reading of s takes s[i] by itself, not behind a '$' that escapes it. */
  predicate Unescaped(s: string, i: nat)
    requires i < |s|
    decreases i
  {
    i == 0 || (Next(s, false).length <= i && Unescaped(s[Next(s, false).length..], i - Next(s, false).length))
  }

  /** A space is escaped exactly by an odd number of '$'. */
  lemma {:induction false} UnescapedIsEven(s: string, i: nat)
    requires i < |s| && s[i] == ' '
    ensures Unescaped(s, i) <==> AllDollars(s, i) % 2 == 0
    decreases i
  {
    var n := Next(s, false).length;
    if 0 < n <= i {
      UnescapedIsEven(s[n..], i - n);
      if AllDollars(s, i) > i - n {
        assert s[i - AllDollars(s, i)] == '$' && s[n - 1] == '$';
      }
      DollarsBehind(s, n, i);
    }
  }

  /** What is in front of n makes no difference if the '$' do not reach that far. */
  lemma {:induction false} DollarsBehind(s: string, n: nat, i: nat)
    requires n <= i <= |s|
    ensures AllDollars(s[n..], i - n) == if AllDollars(s, i) <= i - n then AllDollars(s, i) else i - n
    decreases i
  {
    if i > n {
      DollarsBehind(s, n, i - 1);
    }
  }

  /** So the lines break at the spaces that Ninja would take for separators, and at some behind nothing
      but '$'. */
  lemma BreakExactly(s: string, i: nat)
    requires i < |s|
    ensures IsBreak(s, i) <==> s[i] == ' ' && (Unescaped(s, i) <==> !(i >= 1 && AllDollars(s, i) == i))
  {
    DollarsExact(s, i);
    if s[i] == ' ' {
      UnescapedIsEven(s, i);
      OneMore(Dollars(s, i));
    }
  }

  lemma OneMore(n: nat)
    ensures (n + 1) % 2 == 0 <==> n % 2 != 0
  {
  }

  /** The rightmost break before `end`, or -1. */
  function BreakBefore(s: string, end: nat): (b: int)
    requires end <= |s|
    ensures -1 <= b < end && (b >= 0 ==> IsBreak(s, b))
    ensures forall i :: b < i < end ==> !IsBreak(s, i)
  {
    if end == 0 then -1 else if IsBreak(s, end - 1) then end - 1 else BreakBefore(s, end - 1)
  }

  /** The leftmost break from `start` on, or -1. */
  function BreakFrom(s: string, start: nat): (b: int)
    requires start <= |s|
    ensures b == -1 || (start <= b < |s| && IsBreak(s, b))
    ensures forall i :: start <= i < (if b < 0 then |s| else b) ==> !IsBreak(s, i)
    decreases |s| - start
  {
    if start == |s| then -1 else if IsBreak(s, start) then start else BreakFrom(s, start + 1)
  }

  /** Python's reading of an end or start index of a slice. */
  function Clamp(i: int, n: nat): (r: nat)
    ensures r <= n
  {
    if i > n then n else if i >= 0 then i else if i + n >= 0 then i + n else 0
  }

  /** The break for a line that is too wide: the rightmost one that leaves room for " $" within
      the width, else the leftmost one after that, else none. */
  function BreakOf(s: string, lead: nat, width: int): (b: int)
    ensures -1 <= b < |s| && (b >= 0 ==> IsBreak(s, b))
  {
    var cut := Clamp(width - lead - 2, |s|);
    if BreakBefore(s, cut) >= 0 then BreakBefore(s, cut) else BreakFrom(s, cut)
  }

  /** b is the last break in front of `limit`, or the first of the text if there is none, or -1 if it
      has none. */
  ghost predicate Chosen(s: string, limit: int, b: int) {
    if exists i: nat :: i < limit && IsBreak(s, i) then
      0 <= b < limit && IsBreak(s, b) && forall i: nat :: b < i < limit ==> !IsBreak(s, i)
    else if exists i: nat :: IsBreak(s, i) then
      0 <= b && IsBreak(s, b) && forall i: nat :: i < b ==> !IsBreak(s, i)
    else b == -1
  }

  /** What the source looks for: the last break with room for " $" in front of the width. Where the
      indentation leaves no such room the bound is negative, and Python counts from the text's end. */
  function Limit(s: string, lead: nat, width: int): int {
    if lead + 2 <= width then width - lead - 2 else |s| + width - lead - 2
  }

  lemma LimitIsCut(s: string, lead: nat, width: int)
    ensures var cut, limit := Clamp(width - lead - 2, |s|), Limit(s, lead, width);
            cut == if limit < 0 then 0 else if limit > |s| then |s| else limit
  {
  }

  /** The best break: if some break leaves the line with " $" below the width, the last one that does,
      otherwise the first break of the text. Giving up means that there is none. */
  lemma BreakIsBest(s: string, lead: nat, width: int)
    ensures Chosen(s, Limit(s, lead, width), BreakOf(s, lead, width))
    ensures lead + 2 <= width ==>
              var b := BreakOf(s, lead, width);
              if exists i: nat :: IsBreak(s, i) && lead + i + 2 < width then
                0 <= b && IsBreak(s, b) && lead + b + 2 < width && forall j: nat :: j > b && lead + j + 2 < width ==> !IsBreak(s, j)
              else if exists i: nat :: IsBreak(s, i) then
                0 <= b && IsBreak(s, b) && forall j: nat :: j < b ==> !IsBreak(s, j)
              else b == -1
  {
    var b, cut := BreakOf(s, lead, width), Clamp(width - lead - 2, |s|);
    LimitIsCut(s, lead, width);
    assert forall i: nat :: IsBreak(s, i) ==> i < |s|;
    if BreakBefore(s, cut) >= 0 {
      assert IsBreak(s, BreakBefore(s, cut));
    } else if BreakFrom(s, cut) >= 0 {
      assert IsBreak(s, BreakFrom(s, cut));
    }
  }

  /** Only one break is chosen. */
  lemma ChosenOnce(s: string, limit: int, b: int, c: int)
    requires Chosen(s, limit, b) && Chosen(s, limit, c)
    ensures b == c
  {
  }

  /** Where no break leaves the line below the width, the comment in the source promises the first one.
      It is chosen exactly when the width is not too narrow for the indentation and " $", or at most one
      break is that much in front of the text's end. */
  lemma FirstPromisedExact(s: string, lead: nat, width: int)
    requires forall i: nat :: IsBreak(s, i) ==> lead + i + 2 >= width
    ensures Chosen(s, 0, BreakOf(s, lead, width))
       <==> lead + 2 <= width
            || !exists i: nat, j: nat :: i < j < |s| + width - lead - 2 && IsBreak(s, i) && IsBreak(s, j)
  {
    BreakIsBest(s, lead, width);
    var b := BreakOf(s, lead, width);
    if lead + 2 > width {
      if i: nat, j: nat :| i < j < |s| + width - lead - 2 && IsBreak(s, i) && IsBreak(s, j) {
        assert b >= j > i;
      } else if i: nat :| i < Limit(s, lead, width) && IsBreak(s, i) {
        assert IsBreak(s, b) && b < Limit(s, lead, width);
      }
    }
  }

  // ---------------------------------------------------------------- wrapped lines

  /** What _line writes after the first line's indentation of `lead` spaces. */
  function Body(text: string, lead: nat, cont: nat, width: int): string
    decreases |text|
  {
    var b := BreakOf(text, lead, width);
    if lead + |text| <= width || b < 0 then text + "\n"
    else Broken(text[..b + 1], cont, Body(text[b + 1..], cont, cont, width))
  }

  /** A line broken behind its first part. */
  function Broken(first: string, cont: nat, rest: string): string {
    first + ("$\n" + (Spaces(cont) + rest))
  }

  /** A text taken apart at the breaks chosen for each line: the first line has `lead` spaces in front,
      the others `cont`. A line that fits the width, or has no break, is the last. */
  ghost predicate TakenApart(text: string, lead: nat, cont: nat, width: int, parts: seq<string>)
    decreases |text|
  {
    if lead + |text| <= width || forall i: nat :: !IsBreak(text, i) then parts == [text]
    else
      parts != [] && |parts[0]| < |text| && parts[0] == text[..|parts[0]|]
      && Chosen(text, Limit(text, lead, width), |parts[0]|)
      && TakenApart(text[|parts[0]| + 1..], cont, cont, width, parts[1..])
  }

  /** The lines written for the parts: all but the last end in " $". */
  function Lines(parts: seq<string>, lead: nat, cont: nat): string {
    if parts == [] then ""
    else if |parts| == 1 then Spaces(lead) + (parts[0] + "\n")
    else Spaces(lead) + (parts[0] + " $\n" + Lines(parts[1..], cont, cont))
  }

  /** What is written is the lines of the parts. */
  lemma {:induction false} BodyIsLines(text: string, lead: nat, cont: nat, width: int) returns (parts: seq<string>)
    ensures TakenApart(text, lead, cont, width, parts) && parts != []
    ensures Spaces(lead) + Body(text, lead, cont, width) == Lines(parts, lead, cont)
    decreases |text|
  {
    var b := BreakOf(text, lead, width);
    BreakIsBest(text, lead, width);
    if lead + |text| <= width || b < 0 {
      parts := [text];
    } else {
      var rest := BodyIsLines(text[b + 1..], cont, cont, width);
      parts := [text[..b]] + rest;
      OnePartMore(text, b, lead, cont, width, rest);
      OneLineMore(text, b, lead, cont, Body(text[b + 1..], cont, cont, width));
      assert parts[1..] == rest;
    }
  }

  lemma OnePartMore(text: string, b: nat, lead: nat, cont: nat, width: int, rest: seq<string>)
    requires lead + |text| > width && b == BreakOf(text, lead, width) && Chosen(text, Limit(text, lead, width), b)
    requires TakenApart(text[b + 1..], cont, cont, width, rest)
    ensures TakenApart(text, lead, cont, width, [text[..b]] + rest)
  {
    var parts := [text[..b]] + rest;
    assert IsBreak(text, b) && parts[1..] == rest && parts[0] == text[..b];
  }

  lemma OneLineMore(text: string, b: nat, lead: nat, cont: nat, rest: string)
    requires b < |text| && text[b] == ' '
    ensures Spaces(lead) + Broken(text[..b + 1], cont, rest) == Spaces(lead) + (text[..b] + " $\n" + (Spaces(cont) + rest))
  {
    assert text[..b + 1] == text[..b] + " ";
    assert text[..b] + " " + ("$\n" + (Spaces(cont) + rest)) == text[..b] + " $\n" + (Spaces(cont) + rest);
  }

  /** There is only one way to take a text apart. */
  lemma {:induction false} ApartOnce(text: string, lead: nat, cont: nat, width: int, p: seq<string>, q: seq<string>)
    requires TakenApart(text, lead, cont, width, p) && TakenApart(text, lead, cont, width, q)
    ensures p == q
    decreases |text|
  {
    if lead + |text| > width && exists i: nat :: IsBreak(text, i) {
      ChosenOnce(text, Limit(text, lead, width), |p[0]|, |q[0]|);
      ApartOnce(text[|p[0]| + 1..], cont, cont, width, p[1..], q[1..]);
      assert p == [p[0]] + p[1..] && q == [q[0]] + q[1..];
    }
  }

  function Together(parts: seq<string>): string {
    if parts == [] then "" else if |parts| == 1 then parts[0] else parts[0] + " " + Together(parts[1..])
  }

  /** Nothing but the spaces at the breaks is taken out of the text. */
  lemma {:induction false} ApartTogether(text: string, lead: nat, cont: nat, width: int, parts: seq<string>)
    requires TakenApart(text, lead, cont, width, parts)
    ensures parts != [] && Together(parts) == text
    decreases |text|
  {
    if lead + |text| > width && exists i: nat :: IsBreak(text, i) {
      var b := |parts[0]|;
      ApartTogether(text[b + 1..], cont, cont, width, parts[1..]);
      assert IsBreak(text, b) && text == text[..b] + " " + text[b + 1..];
    }
  }

  /** Word wrapping: at a width with room for the indentation and " $", only lines without a break
      are wider. */
  lemma {:induction false} LinesFit(text: string, lead: nat, cont: nat, width: int, parts: seq<string>, k: nat)
    requires TakenApart(text, lead, cont, width, parts) && k < |parts| && lead + 2 <= width && cont + 2 <= width
    ensures (if k == 0 then lead else cont) + |parts[k]| + (if k < |parts| - 1 then 2 else 0) <= width
            || forall i: nat :: !IsBreak(parts[k], i)
    decreases k
  {
    if lead + |text| > width && exists i: nat :: IsBreak(text, i) {
      if k > 0 {
        LinesFit(text[|parts[0]| + 1..], cont, cont, width, parts[1..], k - 1);
      } else {
        forall i: nat | i < |parts[0]|
          ensures IsBreak(parts[0], i) == IsBreak(text, i)
        {
          DollarsInFront(text, |parts[0]|, i);
        }
      }
    }
  }

  /** Only what is in front of a place decides whether it is a break. */
  lemma {:induction false} DollarsInFront(s: string, n: nat, i: nat)
    requires i <= n <= |s|
    ensures Dollars(s[..n], i) == Dollars(s, i)
    decreases i
  {
    if i > 0 {
      DollarsInFront(s, n, i - 1);
    }
  }

  /** No break is followed by a space that Ninja would otherwise read. */
  predicate Kept(text: string, skip: bool, lead: nat, cont: nat, width: int)
    decreases |text|
  {
    var b := BreakOf(text, lead, width);
    lead + |text| <= width || b < 0
    || ((Skipping(text[..b + 1], skip) || b + 1 == |text| || text[b + 1] != ' ')
        && Kept(text[b + 1..], true, cont, cont, width))
  }

  lemma BrokenLine(a: string, cont: nat, rest: string, skip: bool)
    requires EndsInSpace(a)
    ensures Read(Broken(a, cont, rest), skip) == Read(a, skip) + Read(rest, true)
  {
    ReadJoin(a, "$\n" + (Spaces(cont) + rest), skip);
    ReadContinued(Spaces(cont) + rest, Skipping(a, skip));
    SkipSpaces(cont, rest);
  }

  lemma ReadContinued(s: string, skip: bool)
    ensures Read("$\n" + s, skip) == Read(s, true)
  {
    assert ("$\n" + s)[2..] == s;
  }

  lemma UnbrokenLine(text: string, b: nat, skip: bool)
    requires b < |text| && text[b] == ' '
    ensures Read(text + "\n", skip)
         == Read(text[..b + 1], skip) + Read(text[b + 1..] + "\n", Skipping(text[..b + 1], skip))
  {
    ReadJoin(text[..b + 1], text[b + 1..] + "\n", skip);
    assert text[..b + 1] + (text[b + 1..] + "\n") == text + "\n";
  }

  /** Wrapping never adds a token, and loses one where a break is followed by a space. */
  lemma {:induction false} WrapLoses(text: string, skip: bool, lead: nat, cont: nat, width: int)
    ensures |Read(Body(text, lead, cont, width), skip)| <= |Read(text + "\n", skip)|
    ensures !Kept(text, skip, lead, cont, width) ==>
              |Read(Body(text, lead, cont, width), skip)| < |Read(text + "\n", skip)|
    decreases |text|
  {
    var b := BreakOf(text, lead, width);
    if lead + |text| > width && b >= 0 {
      var a, rest := text[..b + 1], text[b + 1..];
      BrokenLine(a, cont, Body(rest, cont, cont, width), skip);
      UnbrokenLine(text, b, skip);
      WrapLoses(rest, true, cont, cont, width);
      SkippingExact(rest + "\n");
    }
  }

  /** Wrapping preserves what Ninja reads exactly when no break is followed by a space. */
  lemma {:induction false} WrapExact(text: string, skip: bool, lead: nat, cont: nat, width: int)
    ensures Read(Body(text, lead, cont, width), skip) == Read(text + "\n", skip)
       <==> Kept(text, skip, lead, cont, width)
    decreases |text|
  {
    var b := BreakOf(text, lead, width);
    if lead + |text| > width && b >= 0 {
      WrapLoses(text[b + 1..], true, cont, cont, width);
      WrapExact(text[b + 1..], true, cont, cont, width);
      BreakExact(text, b, skip, cont, Body(text[b + 1..], cont, cont, width));
    }
  }

  /** One break, before a rest that Ninja reads no more of than there is. */
  lemma BreakExact(text: string, b: nat, skip: bool, cont: nat, body: string)
    requires b < |text| && text[b] == ' ' && |Read(body, true)| <= |Read(text[b + 1..] + "\n", true)|
    ensures Read(Broken(text[..b + 1], cont, body), skip) == Read(text + "\n", skip)
       <==> (Skipping(text[..b + 1], skip) || b + 1 == |text| || text[b + 1] != ' ')
            && Read(body, true) == Read(text[b + 1..] + "\n", true)
  {
    var a, rest := text[..b + 1], text[b + 1..] + "\n";
    BrokenLine(a, cont, body, skip);
    UnbrokenLine(text, b, skip);
    Prefixed(Read(a, skip), Read(body, true), Read(rest, Skipping(a, skip)));
    SkippingExact(rest);
  }

  /** Skipping makes no difference exactly where there is no space to skip. */
  lemma SkippingExact(s: string)
    requires s != ""
    ensures |Read(s, true)| <= |Read(s, false)|
    ensures |Read(s, true)| == |Read(s, false)| <==> s[0] != ' '
    ensures Read(s, true) == Read(s, false) <==> s[0] != ' '
  {
    SkippingLoses(s);
  }

  lemma Prefixed(p: seq<Token>, x: seq<Token>, y: seq<Token>)
    ensures p + x == p + y <==> x == y
  {
    assert (p + x)[|p|..] == x && (p + y)[|p|..] == y;
  }

  /** The whole written line, with its indentation, against the line written without a width. */
  lemma LineExact(text: string, indent: nat, width: int)
    ensures Read(Spaces(2 * indent) + Body(text, 2 * indent, 2 * (indent + 2), width), false)
         == Read(Spaces(2 * indent) + (text + "\n"), false)
       <==> Kept(text, false, 2 * indent, 2 * (indent + 2), width)
  {
    var lead := Spaces(2 * indent);
    var body := Body(text, 2 * indent, 2 * (indent + 2), width);
    ReadJoin(lead, body, false);
    ReadJoin(lead, text + "\n", false);
    SpacesDoNotSkip(2 * indent);
    WrapExact(text, false, 2 * indent, 2 * (indent + 2), width);
    Prefixed(Read(lead, false), Read(body, false), Read(text + "\n", false));
  }

  lemma {:induction false} SpacesDoNotSkip(n: nat)
    ensures !Skipping(Spaces(n), false)
  {
    if n > 0 {
      assert Spaces(n)[1..] == Spaces(n - 1);
      SpacesDoNotSkip(n - 1);
    }
  }

  predicate NoDoubleSpace(text: string) {
    forall i :: 0 <= i < |text| - 1 && text[i] == ' ' ==> text[i + 1] != ' '
  }

  /** So every text without two spaces in a row survives any width. */
  lemma {:induction false} SingleSpacesKept(text: string, skip: bool, lead: nat, cont: nat, width: int)
    requires NoDoubleSpace(text)
    ensures Kept(text, skip, lead, cont, width)
    decreases |text|
  {
    var b := BreakOf(text, lead, width);
    if lead + |text| > width && b >= 0 {
      SingleSpacesKept(text[b + 1..], true, cont, cont, width);
    }
  }

  // ---------------------------------------------------------------- the writer

  class Writer {
    var output: string
    const width: int

    constructor (width: int)
      ensures output == "" && this.width == width
    {
      output, this.width := "", width;
    }

    method CountDollarsBeforeIndex(s: string, i: nat) returns (dollarCount: nat)
      requires i <= |s|
      ensures dollarCount == Dollars(s, i)
    {
      dollarCount := 0;
      var dollarIndex := i - 1;
      while dollarIndex > 0 && s[dollarIndex] == '$'
        invariant -1 <= dollarIndex < i && (i > 0 ==> dollarIndex >= 0)
        invariant i > 0 ==> dollarCount + Dollars(s, dollarIndex + 1) == Dollars(s, i)
        invariant i == 0 ==> dollarCount == 0
      {
        dollarCount := dollarCount + 1;
        dollarIndex := dollarIndex - 1;
      }
    }

    /** text.rfind(" ", 0, end) */
    method RFindSpace(text: string, end: int) returns (space: int)
      ensures -1 <= space < Clamp(end, |text|) && (space >= 0 ==> text[space] == ' ')
      ensures forall i :: space < i < Clamp(end, |text|) ==> text[i] != ' '
    {
      space := Clamp(end, |text|) - 1;
      while space >= 0 && text[space] != ' '
        invariant -1 <= space < Clamp(end, |text|)
        invariant forall i :: space < i < Clamp(end, |text|) ==> text[i] != ' '
      {
        space := space - 1;
      }
    }

    /** text.find(" ", start) */
    method FindSpace(text: string, start: int) returns (space: int)
      ensures space == -1 || (Clamp(start, |text|) <= space < |text| && text[space] == ' ')
      ensures forall i :: Clamp(start, |text|) <= i < (if space < 0 then |text| else space) ==> text[i] != ' '
    {
      space := Clamp(start, |text|);
      while space < |text| && text[space] != ' '
        invariant Clamp(start, |text|) <= space <= |text|
        invariant forall i :: Clamp(start, |text|) <= i < space ==> text[i] != ' '
      {
        space := space + 1;
      }
      if space == |text| {
        space := -1;
      }
    }

    /** The rightmost unescaped space that obeys the width. */
    method RightmostBreak(text: string, availableSpace: int) returns (space: int)
      ensures space == BreakBefore(text, Clamp(availableSpace, |text|))
    {
      space := availableSpace;
      while true
        invariant BreakBefore(text, Clamp(space, |text|)) == BreakBefore(text, Clamp(availableSpace, |text|))
        decreases Clamp(space, |text|)
      {
        ghost var end := Clamp(space, |text|);
        space := RFindSpace(text, space);
        BreakBeforeSkips(text, space, end);
        if space < 0 {
          break;
        }
        var dollarCount := CountDollarsBeforeIndex(text, space);
        if dollarCount % 2 == 0 {
          break;
        }
      }
    }

    /** The first unescaped space behind that. */
    method LeftmostBreak(text: string, availableSpace: int) returns (space: int)
      ensures space == BreakFrom(text, Clamp(availableSpace, |text|))
    {
      space := availableSpace - 1;
      while true
        invariant BreakFrom(text, Clamp(space + 1, |text|)) == BreakFrom(text, Clamp(availableSpace, |text|))
        decreases |text| - Clamp(space + 1, |text|)
      {
        ghost var start := Clamp(space + 1, |text|);
        space := FindSpace(text, space + 1);
        BreakFromSkips(text, start, space);
        if space < 0 {
          break;
        }
        var dollarCount := CountDollarsBeforeIndex(text, space);
        if dollarCount % 2 == 0 {
          break;
        }
      }
    }

    method ChooseBreak(text: string, lead: nat) returns (space: int)
      ensures space == BreakOf(text, lead, width)
    {
      var availableSpace := width - lead - 2;
      space := RightmostBreak(text, availableSpace);
      if space < 0 {
        space := LeftmostBreak(text, availableSpace);
      }
    }

    /** Terminates for every text, width and indentation. */
    method Line(text0: string, indent: nat) returns (ghost parts: seq<string>)
      modifies this`output
      ensures output == Written(old(output), text0, 2 * indent, 2 * (indent + 2), width)
      ensures TakenApart(text0, 2 * indent, 2 * (indent + 2), width, parts)
      ensures output == old(output) + Lines(parts, 2 * indent, 2 * (indent + 2))
    {
      var text, leadingSpace := text0, Spaces(2 * indent);
      ghost var lead: nat, cont: nat, whole := 2 * indent, 2 * (indent + 2), Written(output, text0, 2 * indent, 2 * (indent + 2), width);
      while |leadingSpace| + |text| > width
        invariant leadingSpace == Spaces(lead)
        invariant Written(output, text, lead, cont, width) == whole
        decreases |text|
      {
        var space := ChooseBreak(text, |leadingSpace|);
        if space < 0 {
          break;
        }
        BreakWritten(output, text, space, lead, cont, width);
        output := output + (leadingSpace + text[..space] + " $\n");
        text := text[space + 1..];
        leadingSpace := Spaces(2 * (indent + 2));
        lead := cont;
      }
      EndWritten(output, text, lead, cont, width);
      output := output + (leadingSpace + text + "\n");
      parts := BodyIsLines(text0, 2 * indent, 2 * (indent + 2), width);
    }
  }

  /** The output after a whole line has been added. */
  function Written(output: string, text: string, lead: nat, cont: nat, width: int): string {
    output + (Spaces(lead) + Body(text, lead, cont, width))
  }

  lemma {:induction false} BreakBeforeSkips(text: string, space: int, end: nat)
    requires -1 <= space < end <= |text| && forall i :: space < i < end ==> text[i] != ' '
    ensures BreakBefore(text, end) == if space < 0 then -1 else if IsBreak(text, space) then space else BreakBefore(text, space)
    decreases end
  {
    if end > 0 && end - 1 > space {
      BreakBeforeSkips(text, space, end - 1);
    }
  }

  lemma {:induction false} BreakFromSkips(text: string, start: nat, space: int)
    requires start <= |text| && (space == -1 || start <= space < |text|)
    requires forall i :: start <= i < (if space < 0 then |text| else space) ==> text[i] != ' '
    ensures BreakFrom(text, start)
         == if space < 0 then -1 else if IsBreak(text, space) then space else BreakFrom(text, space + 1)
    decreases |text| - start
  {
    if start < |text| && start != space {
      BreakFromSkips(text, start + 1, space);
    }
  }

  lemma {:induction false} BreakWritten(output: string, text: string, b: nat, lead: nat, cont: nat, width: int)
    requires b == BreakOf(text, lead, width) && lead + |text| > width
    ensures Written(output + (Spaces(lead) + text[..b] + " $\n"), text[b + 1..], cont, cont, width)
         == Written(output, text, lead, cont, width)
  {
    var rest := Spaces(cont) + Body(text[b + 1..], cont, cont, width);
    assert text[..b + 1] == text[..b] + " ";
    Regroup(output, Spaces(lead), text[..b], rest);
  }

  lemma EndWritten(output: string, text: string, lead: nat, cont: nat, width: int)
    requires lead + |text| <= width || BreakOf(text, lead, width) < 0
    ensures output + (Spaces(lead) + text + "\n") == Written(output, text, lead, cont, width)
  {
    Associates(Spaces(lead), text, "\n");
  }

  lemma Associates(a: string, b: string, c: string)
    ensures (a + b) + c == a + (b + c)
  {
  }

  lemma Regroup(o: string, l: string, t: string, rest: string)
    ensures (o + (l + t + " $\n")) + rest == o + (l + ((t + " ") + ("$\n" + rest)))
  {
    Associates(o, l + t + " $\n", rest);
    Associates(l + t, " $\n", rest);
    Associates(l, t, " $\n" + rest);
    Associates(t, " ", "$\n" + rest);
    Associates(" ", "$\n", rest);
    assert " $\n" == " " + "$\n";
  }
}
