/** What is in the output of the include script: which files are left out, told from their guards, and
    that every other file's lines are there, in order. */
module IncludeGuards {
  import opened IncludeFlattener

  /** The piece is the first line of a file that sets this name: the macro of its guard, or its own
      path if it says `#pragma once`. */
  predicate Sets(p: Project, x: Piece, name: string) {
    x.Copy? && x.line == 0 && x.file in p.files &&
    match p.files[x.file].guard
    case Unguarded => false
    case IfNotDefined(macro) => macro == name
    case Once => x.file == name
  }

  /** The name was defined before, or has been set in this output. */
  ghost predicate DefinedBy(p: Project, before: set<string>, out: seq<Piece>, name: string) {
    name in before || exists t :: 0 <= t < |out| && Sets(p, out[t], name)
  }

  /** The file that a comment in the output announces. */
  function Announced(p: Project, x: Piece): (g: Option<string>)
    ensures g.Some? ==> g.value in p.files
  {
    if x.Begin? && x.file in p.files && x.line < |p.files[x.file].Lines()| then p.Brings(x.file, x.line) else None
  }

  /** The file announced at t is there if its name was not defined, and left out if it was. */
  ghost predicate ObeyedAt(p: Project, before: set<string>, out: seq<Piece>, t: nat)
    requires t < |out|
  {
    var g := Announced(p, out[t]);
    g.Some? && p.Key(g.value).Some? ==>
      t + 1 < |out|
      && (if DefinedBy(p, before, out[..t], p.Key(g.value).value) then out[t + 1].End? else out[t + 1] == Copy(g.value, 0))
  }

  /** The definitions are those that the output set, and every guard in it was obeyed. */
  ghost predicate Good(p: Project, before: set<string>, r: Result) {
    && (forall name :: name in r.defines <==> DefinedBy(p, before, r.out, name))
    && (forall t :: 0 <= t < |r.out| ==> ObeyedAt(p, before, r.out, t))
  }

  lemma DefinedOn(p: Project, before: set<string>, a: seq<Piece>, mid: set<string>, b: seq<Piece>, name: string)
    requires name in mid <==> DefinedBy(p, before, a, name)
    ensures DefinedBy(p, before, a + b, name) <==> DefinedBy(p, mid, b, name)
  {
    if t :| 0 <= t < |a + b| && Sets(p, (a + b)[t], name) {
      if t < |a| {
        assert Sets(p, a[t], name);
      } else {
        assert Sets(p, b[t - |a|], name);
      }
    }
    if t :| 0 <= t < |b| && Sets(p, b[t], name) {
      assert Sets(p, (a + b)[|a| + t], name);
    }
    if t :| 0 <= t < |a| && Sets(p, a[t], name) {
      assert Sets(p, (a + b)[t], name);
    }
  }

  /** One result after another. */
  lemma GoodThen(p: Project, before: set<string>, r: Result, rest: Result)
    requires Good(p, before, r) && Good(p, r.defines, rest)
    ensures Good(p, before, Then(r, rest))
  {
    var out := r.out + rest.out;
    forall name
      ensures name in rest.defines <==> DefinedBy(p, before, out, name)
    {
      DefinedOn(p, before, r.out, r.defines, rest.out, name);
    }
    forall t | 0 <= t < |out|
      ensures ObeyedAt(p, before, out, t)
    {
      if t < |r.out| {
        assert ObeyedAt(p, before, r.out, t) && out[..t] == r.out[..t];
      } else {
        assert ObeyedAt(p, r.defines, rest.out, t - |r.out|);
        ObeyedLater(p, before, r, rest.out, t - |r.out|);
      }
    }
  }

  lemma ObeyedLater(p: Project, before: set<string>, r: Result, out: seq<Piece>, t: nat)
    requires Good(p, before, r) && t < |out| && ObeyedAt(p, r.defines, out, t)
    ensures ObeyedAt(p, before, r.out + out, |r.out| + t)
  {
    var g := Announced(p, out[t]);
    assert (r.out + out)[..|r.out| + t] == r.out + out[..t];
    if g.Some? && p.Key(g.value).Some? {
      DefinedOn(p, before, r.out, r.defines, out[..t], p.Key(g.value).value);
    }
  }

  lemma GoodNothing(p: Project, before: set<string>)
    ensures Good(p, before, Result([], before, []))
  {
  }

  /** A piece that sets nothing and announces nothing that has a guard. */
  lemma GoodPiece(p: Project, before: set<string>, x: Piece)
    requires forall name :: !Sets(p, x, name)
    requires Announced(p, x).Some? ==> p.Key(Announced(p, x).value).None?
    ensures Good(p, before, Result([x], before, []))
  {
  }

  lemma GoodRegardless(p: Project, before: set<string>, r: Result, deps: seq<string>)
    requires Good(p, before, r)
    ensures Good(p, before, r.(deps := deps))
  {
  }

  /** What an include brings in between its two comments. */
  lemma GoodAround(p: Project, before: set<string>, x: Piece, inner: Result, target: string)
    requires x.Begin? && Good(p, before, inner)
    requires Announced(p, x).Some? && p.Key(Announced(p, x).value).Some? ==>
               (if p.Key(Announced(p, x).value).value in before then inner.out == []
                else inner.out != [] && inner.out[0] == Copy(Announced(p, x).value, 0))
    ensures Good(p, before, inner.(out := [x] + inner.out + [End(target)]))
  {
    var out := [x] + inner.out + [End(target)];
    forall name
      ensures name in inner.defines <==> DefinedBy(p, before, out, name)
    {
      DefinedOn(p, before, [x], before, inner.out, name);
      DefinedOn(p, before, [x] + inner.out, inner.defines, [End(target)], name);
    }
    forall t | 0 <= t < |out|
      ensures ObeyedAt(p, before, out, t)
    {
      if t == 0 {
        assert out[..t] == [];
      } else if t <= |inner.out| {
        assert ObeyedAt(p, before, inner.out, t - 1);
        ObeyedBehind(p, before, x, inner.out, target, t - 1);
      }
    }
  }

  lemma ObeyedBehind(p: Project, before: set<string>, x: Piece, out: seq<Piece>, target: string, t: nat)
    requires x.Begin? && t < |out| && ObeyedAt(p, before, out, t)
    ensures ObeyedAt(p, before, [x] + out + [End(target)], t + 1)
  {
    var g := Announced(p, out[t]);
    assert ([x] + out + [End(target)])[..t + 1] == [x] + out[..t];
    if g.Some? && p.Key(g.value).Some? {
      DefinedOn(p, before, [x], before, out[..t], p.Key(g.value).value);
    }
  }

  /** The expansion of a file. */
  lemma GoodProcess(p: Project, rank: map<string, nat>, f: string, defines: set<string>)
    requires p.Ranked(rank) && p.Valid() && f in p.files
    ensures Good(p, defines, Process(p, rank, f, defines))
    ensures var name, out := p.Key(f), Process(p, rank, f, defines).out;
            name.Some? ==> if name.value in defines then out == [] else out != [] && out[0] == Copy(f, 0)
    decreases p.Keys() - defines, 0, p.Level(rank, f), |p.files[f].Lines()| + 1
  {
    match p.Key(f) {
      case None =>
        GoodFrom(p, rank, f, 0, defines);
      case Some(own) =>
        if own in defines {
          GoodNothing(p, defines);
        } else {
          assert own in p.Keys() - defines;
          OpensWithGuard(p, rank, f, defines, own);
          GoodFrom(p, rank, f, 1, defines + {own});
          GoodOpening(p, f, defines, own);
          GoodThen(p, defines, Result([Copy(f, 0)], defines + {own}, []), FromLine(p, rank, f, 1, defines + {own}));
        }
    }
  }

  lemma OpensWithGuard(p: Project, rank: map<string, nat>, f: string, defines: set<string>, own: string)
    requires p.Ranked(rank) && p.Valid() && f in p.files && p.Key(f) == Some(own) && own !in defines
    ensures |p.files[f].Lines()| >= 1
    ensures Process(p, rank, f, defines)
         == Then(Result([Copy(f, 0)], defines + {own}, []), FromLine(p, rank, f, 1, defines + {own}))
  {
    assert p.files[f].Lines()[0] == Text;
    assert AtLine(p, rank, f, 0, defines + {own}) == Result([Copy(f, 0)], defines + {own}, []);
  }

  /** The first line of a guarded file. */
  lemma GoodOpening(p: Project, f: string, defines: set<string>, own: string)
    requires p.Valid() && f in p.files && p.Key(f) == Some(own)
    ensures Good(p, defines, Result([Copy(f, 0)], defines + {own}, []))
  {
    var out := [Copy(f, 0)];
    assert Sets(p, out[0], own);
    forall name
      ensures name in defines + {own} <==> DefinedBy(p, defines, out, name)
    {
    }
  }

  lemma {:induction false} GoodFrom(p: Project, rank: map<string, nat>, f: string, i: nat, defines: set<string>)
    requires p.Ranked(rank) && p.Valid() && f in p.files && i <= |p.files[f].Lines()|
    requires p.Key(f).Some? ==> i > 0
    ensures Good(p, defines, FromLine(p, rank, f, i, defines))
    decreases p.Keys() - defines, if p.Key(f).Some? then 1 else 0, p.Level(rank, f), |p.files[f].Lines()| - i
  {
    if i < |p.files[f].Lines()| {
      var r := AtLine(p, rank, f, i, defines);
      GoodAt(p, rank, f, i, defines);
      GoodFrom(p, rank, f, i + 1, r.defines);
      GoodThen(p, defines, r, FromLine(p, rank, f, i + 1, r.defines));
    } else {
      GoodNothing(p, defines);
    }
  }

  lemma GoodAt(p: Project, rank: map<string, nat>, f: string, i: nat, defines: set<string>)
    requires p.Ranked(rank) && p.Valid() && f in p.files && i < |p.files[f].Lines()|
    requires p.Key(f).Some? ==> i > 0
    ensures Good(p, defines, AtLine(p, rank, f, i, defines))
    decreases p.Keys() - defines, if p.Key(f).Some? then 1 else 0, p.Level(rank, f), |p.files[f].Lines()| - i, 0
  {
    match p.files[f].Lines()[i] {
      case Text =>
        GoodPiece(p, defines, Copy(f, i));
      case Include(target) =>
        var x := Begin(f, i, target);
        if target in p.excluded {
          GoodPiece(p, defines, Skipped);
          GoodAround(p, defines, x, Result([Skipped], defines, []), target);
        } else if p.Brings(f, i).None? {
          GoodNothing(p, defines);
          GoodAround(p, defines, x, Result([], defines, []), target);
        } else {
          var g := p.Brings(f, i).value;
          var r := Process(p, rank, g, defines);
          GoodProcess(p, rank, g, defines);
          GoodRegardless(p, defines, r, [g] + r.deps);
          GoodAround(p, defines, x, Import(p, rank, g, defines), target);
        }
    }
  }

  /** The definitions at the end are those at the beginning and what the files in the output set. */
  lemma {:induction false} DefinesExact(p: Project, rank: map<string, nat>, f: string, before: set<string>, name: string)
    requires p.Ranked(rank) && p.Valid() && f in p.files
    ensures name in Process(p, rank, f, before).defines
       <==> name in before
            || exists t :: 0 <= t < |Process(p, rank, f, before).out| && Sets(p, Process(p, rank, f, before).out[t], name)
  {
    GoodProcess(p, rank, f, before);
    assert name in Process(p, rank, f, before).defines <==> DefinedBy(p, before, Process(p, rank, f, before).out, name);
  }

  /** Exactly which included files are left out. One with a guard of `#ifndef macro` is, if the macro
      was defined before the expansion, or a file with such a guard was opened before it in the output
      (or a file of that path which is to be included once). One that is to be included once is, if it
      was opened before (or something of its path was defined). All others are there: their first
      line follows the comment that announces them. */
  lemma LeftOutExact(p: Project, rank: map<string, nat>, f: string, before: set<string>, t: nat, g: string)
    requires p.Ranked(rank) && p.Valid() && f in p.files && t < |Process(p, rank, f, before).out|
    requires Announced(p, Process(p, rank, f, before).out[t]) == Some(g)
    ensures var out := Process(p, rank, f, before).out;
            match p.files[g].guard
            case Unguarded => true
            case IfNotDefined(macro) =>
              t + 1 < |out|
              && (out[t + 1].End? <==> macro in before || exists u :: 0 <= u < t && Sets(p, out[u], macro))
              && (out[t + 1].End? || out[t + 1] == Copy(g, 0))
            case Once =>
              t + 1 < |out|
              && (out[t + 1].End? <==> g in before || exists u :: 0 <= u < t && Sets(p, out[u], g))
              && (out[t + 1].End? || out[t + 1] == Copy(g, 0))
  {
    var out := Process(p, rank, f, before).out;
    GoodProcess(p, rank, f, before);
    assert ObeyedAt(p, before, out, t);
    if p.Key(g).Some? {
      var name := p.Key(g).value;
      assert DefinedBy(p, before, out[..t], name) <==> name in before || exists u :: 0 <= u < t && Sets(p, out[u], name) by {
        if u :| 0 <= u < t && Sets(p, out[u], name) {
          assert Sets(p, out[..t][u], name);
        }
      }
    }
  }

  // ---------------------------------------------------------------- every line, in order

  /** The pieces up to the end of an include that is not begun among them, without what the includes
      among them bring in. */
  function Outline(out: seq<Piece>, depth: nat): seq<Piece> {
    if out == [] then []
    else
      match out[0]
      case Begin(_, _, _) => (if depth == 0 then [out[0]] else []) + Outline(out[1..], depth + 1)
      case End(_) => if depth == 0 then [] else Outline(out[1..], depth - 1)
      case _ => (if depth == 0 then [out[0]] else []) + Outline(out[1..], depth)
  }

  /** The lines of a file from line i on, as the output shows them. */
  function LinesOf(p: Project, f: string, i: nat): seq<Piece>
    requires f in p.files && i <= |p.files[f].Lines()|
    decreases |p.files[f].Lines()| - i
  {
    if i == |p.files[f].Lines()| then []
    else
      [match p.files[f].Lines()[i] case Text => Copy(f, i) case Include(target) => Begin(f, i, target)] + LinesOf(p, f, i + 1)
  }

  /** Pieces whose includes all end among them leave only these at the outermost level. */
  ghost predicate Levels(out: seq<Piece>, top: seq<Piece>) {
    forall rest: seq<Piece>, depth: nat :: Outline(out + rest, depth) == (if depth == 0 then top else []) + Outline(rest, depth)
  }

  lemma LevelsThen(a: seq<Piece>, b: seq<Piece>, top: seq<Piece>, top': seq<Piece>)
    requires Levels(a, top) && Levels(b, top')
    ensures Levels(a + b, top + top')
  {
    forall rest: seq<Piece>, depth: nat
      ensures Outline(a + b + rest, depth) == (if depth == 0 then top + top' else []) + Outline(rest, depth)
    {
      assert a + b + rest == a + (b + rest);
      assert Outline(a + (b + rest), depth) == (if depth == 0 then top else []) + Outline(b + rest, depth);
    }
  }

  lemma LevelsNothing()
    ensures Levels([], [])
  {
    assert forall rest: seq<Piece> :: [] + rest == rest;
  }

  lemma LevelsOfOne(x: Piece)
    requires !x.Begin? && !x.End?
    ensures Levels([x], [x])
  {
    assert forall rest: seq<Piece> :: ([x] + rest)[1..] == rest;
  }

  lemma LevelsAround(x: Piece, inner: seq<Piece>, top: seq<Piece>, target: string)
    requires x.Begin? && Levels(inner, top)
    ensures Levels([x] + inner + [End(target)], [x])
  {
    forall rest: seq<Piece>, depth: nat
      ensures Outline([x] + inner + [End(target)] + rest, depth) == (if depth == 0 then [x] else []) + Outline(rest, depth)
    {
      assert ([x] + inner + [End(target)] + rest)[1..] == inner + ([End(target)] + rest);
      assert ([End(target)] + rest)[1..] == rest;
    }
  }

  /** The lines of a file that is not left out. */
  lemma LevelsProcess(p: Project, rank: map<string, nat>, f: string, defines: set<string>)
    requires p.Ranked(rank) && f in p.files
    ensures Levels(Process(p, rank, f, defines).out,
                   if p.Key(f).Some? && p.Key(f).value in defines then [] else LinesOf(p, f, 0))
    decreases p.Keys() - defines, 0, p.Level(rank, f), |p.files[f].Lines()| + 1
  {
    match p.Key(f) {
      case None =>
        LevelsFrom(p, rank, f, 0, defines);
      case Some(own) =>
        if own in defines {
          LevelsNothing();
        } else {
          assert own in p.Keys() - defines;
          LevelsFrom(p, rank, f, 0, defines + {own});
        }
    }
  }

  lemma {:induction false} LevelsFrom(p: Project, rank: map<string, nat>, f: string, i: nat, defines: set<string>)
    requires p.Ranked(rank) && f in p.files && i <= |p.files[f].Lines()|
    ensures Levels(FromLine(p, rank, f, i, defines).out, LinesOf(p, f, i))
    decreases p.Keys() - defines, if p.Key(f).Some? then 1 else 0, p.Level(rank, f), |p.files[f].Lines()| - i
  {
    if i < |p.files[f].Lines()| {
      var r := AtLine(p, rank, f, i, defines);
      var rest := FromLine(p, rank, f, i + 1, r.defines);
      LevelsAt(p, rank, f, i, defines);
      LevelsFrom(p, rank, f, i + 1, r.defines);
      LevelsThen(r.out, rest.out, [LinesOf(p, f, i)[0]], LinesOf(p, f, i + 1));
    } else {
      LevelsNothing();
    }
  }

  lemma LevelsAt(p: Project, rank: map<string, nat>, f: string, i: nat, defines: set<string>)
    requires p.Ranked(rank) && f in p.files && i < |p.files[f].Lines()|
    ensures Levels(AtLine(p, rank, f, i, defines).out, [LinesOf(p, f, i)[0]])
    decreases p.Keys() - defines, if p.Key(f).Some? then 1 else 0, p.Level(rank, f), |p.files[f].Lines()| - i, 0
  {
    match p.files[f].Lines()[i] {
      case Text =>
        LevelsOfOne(Copy(f, i));
      case Include(target) =>
        var x := Begin(f, i, target);
        if target in p.excluded {
          LevelsOfOne(Skipped);
          LevelsAround(x, [Skipped], [Skipped], target);
        } else if p.Brings(f, i).None? {
          LevelsNothing();
          LevelsAround(x, [], [], target);
        } else {
          var g := p.Brings(f, i).value;
          LevelsProcess(p, rank, g, defines);
          LevelsAround(x, Process(p, rank, g, defines).out,
                       if p.Key(g).Some? && p.Key(g).value in defines then [] else LinesOf(p, g, 0), target);
        }
    }
  }

  /** The output of a file shows each of its lines once and in order, an include as the comment that
      announces it; or nothing if the file is left out. */
  lemma LinesInOrder(p: Project, rank: map<string, nat>, f: string, before: set<string>)
    requires p.Ranked(rank) && f in p.files
    ensures Outline(Process(p, rank, f, before).out, 0)
         == match p.files[f].guard
            case Unguarded => LinesOf(p, f, 0)
            case IfNotDefined(macro) => if macro in before then [] else LinesOf(p, f, 0)
            case Once => if f in before then [] else LinesOf(p, f, 0)
  {
    var out := Process(p, rank, f, before).out;
    LevelsProcess(p, rank, f, before);
    assert out + [] == out;
    assert Outline(out + [], 0) == Outline(out, 0);
  }

  /** These pieces end an include that is not begun among them, and show this before. */
  ghost predicate Closes(out: seq<Piece>, top: seq<Piece>) {
    forall rest: seq<Piece> :: Outline(out + rest, 0) == top
  }

  lemma ClosesOn(a: seq<Piece>, b: seq<Piece>, top: seq<Piece>)
    requires Closes(a, top)
    ensures Closes(a + b, top)
  {
    forall rest: seq<Piece>
      ensures Outline(a + b + rest, 0) == top
    {
      assert a + b + rest == a + (b + rest);
    }
  }

  lemma ClosesHere(a: seq<Piece>, top: seq<Piece>)
    requires Closes(a, top)
    ensures Outline(a, 0) == top
  {
    assert a + [] == a;
    assert Outline(a + [], 0) == top;
  }

  lemma ClosesBehind(inner: seq<Piece>, top: seq<Piece>, target: string)
    requires Levels(inner, top)
    ensures Closes(inner + [End(target)], top)
  {
    forall rest: seq<Piece>
      ensures Outline(inner + [End(target)] + rest, 0) == top
    {
      assert inner + [End(target)] + rest == inner + ([End(target)] + rest);
    }
  }

  /** What follows the comment at t that announces a file, up to the comment that ends it: nothing, or
      all lines of the file. */
  ghost predicate InOrderAt(p: Project, out: seq<Piece>, t: nat)
    requires t < |out|
  {
    var g := Announced(p, out[t]);
    g.Some? ==>
      t + 1 < |out|
      && Closes(out[t + 1..], if out[t + 1].End? then [] else LinesOf(p, g.value, 0))
  }

  ghost predicate InOrder(p: Project, out: seq<Piece>) {
    forall t :: 0 <= t < |out| ==> InOrderAt(p, out, t)
  }

  lemma InOrderThen(p: Project, a: seq<Piece>, b: seq<Piece>)
    requires InOrder(p, a) && InOrder(p, b)
    ensures InOrder(p, a + b)
  {
    forall t | 0 <= t < |a + b|
      ensures InOrderAt(p, a + b, t)
    {
      var g := Announced(p, (a + b)[t]);
      if t >= |a| {
        assert InOrderAt(p, b, t - |a|) && (a + b)[t + 1..] == b[t - |a| + 1..];
      } else if g.Some? {
        assert InOrderAt(p, a, t);
        ClosesOn(a[t + 1..], b, if a[t + 1].End? then [] else LinesOf(p, g.value, 0));
        assert (a + b)[t + 1..] == a[t + 1..] + b;
      }
    }
  }

  lemma InOrderAround(p: Project, x: Piece, inner: seq<Piece>, top: seq<Piece>, target: string)
    requires x.Begin? && InOrder(p, inner) && Levels(inner, top)
    requires Announced(p, x).Some? ==>
               top == if inner == [] || inner[0].End? then [] else LinesOf(p, Announced(p, x).value, 0)
    ensures InOrder(p, [x] + inner + [End(target)])
  {
    var out := [x] + inner + [End(target)];
    InOrderThen(p, inner, [End(target)]);
    forall t | 0 <= t < |out|
      ensures InOrderAt(p, out, t)
    {
      if t > 0 {
        assert InOrderAt(p, inner + [End(target)], t - 1) && out[t + 1..] == (inner + [End(target)])[t..];
      } else {
        ClosesBehind(inner, top, target);
        assert out[1..] == inner + [End(target)];
      }
    }
  }

  lemma InOrderProcess(p: Project, rank: map<string, nat>, f: string, defines: set<string>)
    requires p.Ranked(rank) && p.Valid() && f in p.files
    ensures InOrder(p, Process(p, rank, f, defines).out)
    decreases p.Keys() - defines, 0, p.Level(rank, f), |p.files[f].Lines()| + 1
  {
    match p.Key(f) {
      case None =>
        InOrderFrom(p, rank, f, 0, defines);
      case Some(own) =>
        if own !in defines {
          assert own in p.Keys() - defines;
          InOrderFrom(p, rank, f, 0, defines + {own});
        }
    }
  }

  lemma {:induction false} InOrderFrom(p: Project, rank: map<string, nat>, f: string, i: nat, defines: set<string>)
    requires p.Ranked(rank) && p.Valid() && f in p.files && i <= |p.files[f].Lines()|
    ensures InOrder(p, FromLine(p, rank, f, i, defines).out)
    decreases p.Keys() - defines, if p.Key(f).Some? then 1 else 0, p.Level(rank, f), |p.files[f].Lines()| - i
  {
    if i < |p.files[f].Lines()| {
      var r := AtLine(p, rank, f, i, defines);
      InOrderLine(p, rank, f, i, defines);
      InOrderFrom(p, rank, f, i + 1, r.defines);
      InOrderThen(p, r.out, FromLine(p, rank, f, i + 1, r.defines).out);
    }
  }

  lemma InOrderLine(p: Project, rank: map<string, nat>, f: string, i: nat, defines: set<string>)
    requires p.Ranked(rank) && p.Valid() && f in p.files && i < |p.files[f].Lines()|
    ensures InOrder(p, AtLine(p, rank, f, i, defines).out)
    decreases p.Keys() - defines, if p.Key(f).Some? then 1 else 0, p.Level(rank, f), |p.files[f].Lines()| - i, 0
  {
    match p.files[f].Lines()[i] {
      case Text =>
      case Include(target) =>
        var x := Begin(f, i, target);
        if target in p.excluded {
          LevelsOfOne(Skipped);
          InOrderAround(p, x, [Skipped], [Skipped], target);
        } else if p.Brings(f, i).None? {
          LevelsNothing();
          InOrderAround(p, x, [], [], target);
        } else {
          var g := p.Brings(f, i).value;
          InOrderProcess(p, rank, g, defines);
          LevelsProcess(p, rank, g, defines);
          GoodProcess(p, rank, g, defines);
          if p.Key(g).None? {
            StartsOrEmpty(p, rank, g, defines);
          }
          InOrderAround(p, x, Process(p, rank, g, defines).out,
                        if p.Key(g).Some? && p.Key(g).value in defines then [] else LinesOf(p, g, 0), target);
        }
    }
  }

  /** A file without lines shows nothing; one with lines does not begin with the end of an include. */
  lemma StartsOrEmpty(p: Project, rank: map<string, nat>, g: string, defines: set<string>)
    requires p.Ranked(rank) && p.Valid() && g in p.files && p.Key(g).None?
    ensures var out := Process(p, rank, g, defines).out;
            if p.files[g].Lines() == [] then out == [] else out != [] && !out[0].End?
  {
    if p.files[g].Lines() != [] {
      assert AtLine(p, rank, g, 0, defines).out != [] && !AtLine(p, rank, g, 0, defines).out[0].End?;
    }
  }

  /** And so does every include in it, however deep: what stands between its two comments is nothing,
      if it is left out, or each line of the included file, once and in order. */
  lemma IncludesInOrder(p: Project, rank: map<string, nat>, f: string, before: set<string>, t: nat, g: string)
    requires p.Ranked(rank) && p.Valid() && f in p.files && t < |Process(p, rank, f, before).out|
    requires Announced(p, Process(p, rank, f, before).out[t]) == Some(g)
    ensures var out := Process(p, rank, f, before).out;
            t + 1 < |out| && Outline(out[t + 1..], 0) == if out[t + 1].End? then [] else LinesOf(p, g, 0)
  {
    var out := Process(p, rank, f, before).out;
    InOrderProcess(p, rank, f, before);
    assert InOrderAt(p, out, t);
    ClosesHere(out[t + 1..], if out[t + 1].End? then [] else LinesOf(p, g, 0));
  }

  // ---------------------------------------------------------------- the comments

  /** The comment at t stands for an include of its file. An excluded one is skipped, and there is
      nothing where no file was found. */
  ghost predicate CommentAt(p: Project, out: seq<Piece>, t: nat)
    requires t < |out|
  {
    match out[t]
    case Begin(f, i, target) =>
      && f in p.files && i < |p.files[f].Lines()| && p.files[f].Lines()[i] == Include(target)
      && (target in p.excluded ==> t + 2 < |out| && out[t + 1] == Skipped && out[t + 2] == End(target))
      && (target !in p.excluded && p.Brings(f, i).None? ==> t + 1 < |out| && out[t + 1] == End(target))
    case _ => true
  }

  ghost predicate Commented(p: Project, out: seq<Piece>) {
    forall t :: 0 <= t < |out| ==> CommentAt(p, out, t)
  }

  lemma CommentedThen(p: Project, a: seq<Piece>, b: seq<Piece>)
    requires Commented(p, a) && Commented(p, b)
    ensures Commented(p, a + b)
  {
    forall t | 0 <= t < |a + b|
      ensures CommentAt(p, a + b, t)
    {
      if t < |a| {
        assert CommentAt(p, a, t);
      } else {
        assert CommentAt(p, b, t - |a|);
      }
    }
  }

  lemma CommentedAround(p: Project, f: string, i: nat, target: string, inner: seq<Piece>)
    requires f in p.files && i < |p.files[f].Lines()| && p.files[f].Lines()[i] == Include(target) && Commented(p, inner)
    requires target in p.excluded ==> inner == [Skipped]
    requires target !in p.excluded && p.Brings(f, i).None? ==> inner == []
    ensures Commented(p, [Begin(f, i, target)] + inner + [End(target)])
  {
    var out := [Begin(f, i, target)] + inner + [End(target)];
    CommentedThen(p, inner, [End(target)]);
    forall t | 0 <= t < |out|
      ensures CommentAt(p, out, t)
    {
      if t > 0 {
        assert CommentAt(p, inner + [End(target)], t - 1);
      }
    }
  }

  lemma CommentedProcess(p: Project, rank: map<string, nat>, f: string, defines: set<string>)
    requires p.Ranked(rank) && f in p.files
    ensures Commented(p, Process(p, rank, f, defines).out)
    decreases p.Keys() - defines, 0, p.Level(rank, f), |p.files[f].Lines()| + 1
  {
    match p.Key(f) {
      case None =>
        CommentedFrom(p, rank, f, 0, defines);
      case Some(own) =>
        if own !in defines {
          assert own in p.Keys() - defines;
          CommentedFrom(p, rank, f, 0, defines + {own});
        }
    }
  }

  lemma {:induction false} CommentedFrom(p: Project, rank: map<string, nat>, f: string, i: nat, defines: set<string>)
    requires p.Ranked(rank) && f in p.files && i <= |p.files[f].Lines()|
    ensures Commented(p, FromLine(p, rank, f, i, defines).out)
    decreases p.Keys() - defines, if p.Key(f).Some? then 1 else 0, p.Level(rank, f), |p.files[f].Lines()| - i
  {
    if i < |p.files[f].Lines()| {
      var r := AtLine(p, rank, f, i, defines);
      CommentedLine(p, rank, f, i, defines);
      CommentedFrom(p, rank, f, i + 1, r.defines);
      CommentedThen(p, r.out, FromLine(p, rank, f, i + 1, r.defines).out);
    }
  }

  lemma CommentedLine(p: Project, rank: map<string, nat>, f: string, i: nat, defines: set<string>)
    requires p.Ranked(rank) && f in p.files && i < |p.files[f].Lines()|
    ensures Commented(p, AtLine(p, rank, f, i, defines).out)
    decreases p.Keys() - defines, if p.Key(f).Some? then 1 else 0, p.Level(rank, f), |p.files[f].Lines()| - i, 0
  {
    match p.files[f].Lines()[i] {
      case Text =>
      case Include(target) =>
        if target in p.excluded {
          CommentedAround(p, f, i, target, [Skipped]);
        } else if p.Brings(f, i).None? {
          CommentedAround(p, f, i, target, []);
        } else {
          CommentedProcess(p, rank, p.Brings(f, i).value, defines);
          CommentedAround(p, f, i, target, Process(p, rank, p.Brings(f, i).value, defines).out);
        }
    }
  }

  /** The first of these paths that exists. */
  ghost predicate FirstOf(p: Project, paths: seq<string>, g: string) {
    exists n: nat :: n < |paths| && paths[n] == g && g in p.files && forall k :: 0 <= k < n ==> paths[k] !in p.files
  }

  function PathsOf(p: Project, f: string, target: string): seq<string> {
    if (f, target) in p.candidates then p.candidates[(f, target)] else []
  }

  lemma FirstIsBrought(p: Project, f: string, i: nat, target: string)
    requires f in p.files && i < |p.files[f].Lines()| && p.files[f].Lines()[i] == Include(target) && target !in p.excluded
    ensures p.Brings(f, i).None? <==> forall path :: path in PathsOf(p, f, target) ==> path !in p.files
    ensures p.Brings(f, i).Some? ==> FirstOf(p, PathsOf(p, f, target), p.Brings(f, i).value)
  {
    var found := p.FirstExisting(PathsOf(p, f, target));
    assert p.Brings(f, i) == found;
  }

  /** What each include in the output stands for: nothing but a note if it is excluded, nothing if none
      of its paths exists, and otherwise the first of them that does. */
  lemma IncludeFinds(p: Project, rank: map<string, nat>, f: string, before: set<string>, t: nat)
    requires p.Ranked(rank) && f in p.files && t < |Process(p, rank, f, before).out| && Process(p, rank, f, before).out[t].Begin?
    ensures var out := Process(p, rank, f, before).out;
            var x := out[t];
            if x.target in p.excluded then t + 2 < |out| && out[t + 1] == Skipped && out[t + 2] == End(x.target)
            else if forall path :: path in PathsOf(p, x.file, x.target) ==> path !in p.files then
              t + 1 < |out| && out[t + 1] == End(x.target)
            else Announced(p, x).Some? && FirstOf(p, PathsOf(p, x.file, x.target), Announced(p, x).value)
  {
    var out := Process(p, rank, f, before).out;
    CommentedProcess(p, rank, f, before);
    assert CommentAt(p, out, t);
    if out[t].target !in p.excluded {
      FirstIsBrought(p, out[t].file, out[t].line, out[t].target);
    }
  }
}
