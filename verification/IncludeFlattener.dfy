/** process_file, import_h_file and import_c_file of tools/decompctx.py: a file with its includes
    expanded in place, guarded files only once. Lines are given as the script's regular
    expressions see them, and an include name with the paths it stands for, in the order in which
    they are tried. */
module IncludeFlattener {

  datatype Option<T> = None | Some(value: T)

  /** An include of an assembly file is text like any other. */
  datatype Line = Text | Include(target: string)

  /** What the first line of a file is. */
  datatype Guard = Unguarded | IfNotDefined(name: string) | Once

  /** A file's guard, and its lines in each of the two encodings that are tried; the first may fail. */
  datatype File = File(guard: Guard, utf8: Option<seq<Line>>, other: seq<Line>) {

    /** The lines that are read. */
    function Lines(): seq<Line> {
      match utf8
      case None => other
      case Some(lines) => lines
    }
  }

  datatype Project = Project(files: map<string, File>, candidates: map<(string, string), seq<string>>, excluded: set<string>)
  {
    /** A guard is a line of text. */
    ghost predicate Valid() {
      forall f :: f in files && files[f].guard != Unguarded ==> files[f].Lines() != [] && files[f].Lines()[0] == Text
    }

    /** What a guarded file leaves in the set of definitions: a macro's name or its own path. */
    function Key(f: string): Option<string>
      requires f in files
    {
      match files[f].guard
      case Unguarded => None
      case IfNotDefined(name) => Some(name)
      case Once => Some(f)
    }

    ghost function Keys(): set<string> {
      set f | f in files && Key(f).Some? :: Key(f).value
    }

    function FirstExisting(paths: seq<string>): (g: Option<string>)
      ensures g.Some? ==> g.value in files && exists n: nat :: n < |paths| && paths[n] == g.value && forall k :: 0 <= k < n ==> paths[k] !in files
      ensures g.None? ==> forall path :: path in paths ==> path !in files
    {
      if paths == [] then None else if paths[0] in files then Some(paths[0]) else FirstExisting(paths[1..])
    }

    /** The file an include in f stands for. */
    function Locate(f: string, target: string): (g: Option<string>)
      ensures g.Some? ==> g.value in files
    {
      if (f, target) in candidates then FirstExisting(candidates[(f, target)]) else None
    }

    /** The file that line i of f brings in. */
    function Brings(f: string, i: nat): (g: Option<string>)
      requires f in files && i < |files[f].Lines()|
      ensures g.Some? ==> g.value in files
    {
      match files[f].Lines()[i]
      case Text => None
      case Include(target) => if target in excluded then None else Locate(f, target)
    }

    /** The include graph of the unguarded files has no cycle: this is an order of them. */
    ghost predicate Ranked(rank: map<string, nat>) {
      forall f :: f in files && Key(f).None? ==> f in rank && Below(rank, f, |files[f].Lines()|)
    }

    /** What the first n lines of f bring in comes before f, if it is unguarded. */
    ghost predicate Below(rank: map<string, nat>, f: string, n: nat)
      requires f in files && f in rank && n <= |files[f].Lines()|
    {
      forall i | 0 <= i < n :: Brings(f, i).Some? && Key(Brings(f, i).value).None? ==>
        Brings(f, i).value in rank && rank[Brings(f, i).value] < rank[f]
    }

    ghost function Level(rank: map<string, nat>, f: string): nat
      requires f in files
    {
      if Key(f).None? && f in rank then rank[f] + 1 else 0
    }
  }

  // ---------------------------------------------------------------- the expansion

  /** A piece of the output: a line as it stands, or a comment around what an include brings in. */
  datatype Piece = Copy(file: string, line: nat) | Begin(file: string, line: nat, target: string) | Skipped | End(target: string)

  datatype Result = Result(out: seq<Piece>, defines: set<string>, deps: seq<string>)

  function Then(a: Result, b: Result): Result {
    Result(a.out + b.out, b.defines, a.deps + b.deps)
  }

  ghost function Import(p: Project, rank: map<string, nat>, f: string, defines: set<string>): (r: Result)
    requires p.Ranked(rank) && f in p.files
    ensures defines <= r.defines
    decreases p.Keys() - defines, 0, p.Level(rank, f), |p.files[f].Lines()| + 2
  {
    var r := Process(p, rank, f, defines);
    r.(deps := [f] + r.deps)
  }

  /** A guarded file whose guard is already there gives nothing. */
  ghost function Process(p: Project, rank: map<string, nat>, f: string, defines: set<string>): (r: Result)
    requires p.Ranked(rank) && f in p.files
    ensures defines <= r.defines
    decreases p.Keys() - defines, 0, p.Level(rank, f), |p.files[f].Lines()| + 1
  {
    match p.Key(f)
    case None => FromLine(p, rank, f, 0, defines)
    case Some(key) =>
      if key in defines then Result([], defines, [])
      else
        assert key in p.Keys() - defines;
        FromLine(p, rank, f, 0, defines + {key})
  }

  ghost function FromLine(p: Project, rank: map<string, nat>, f: string, i: nat, defines: set<string>): (r: Result)
    requires p.Ranked(rank) && f in p.files && i <= |p.files[f].Lines()|
    ensures defines <= r.defines
    decreases p.Keys() - defines, if p.Key(f).Some? then 1 else 0, p.Level(rank, f), |p.files[f].Lines()| - i
  {
    if i == |p.files[f].Lines()| then Result([], defines, [])
    else
      var r := AtLine(p, rank, f, i, defines);
      Then(r, FromLine(p, rank, f, i + 1, r.defines))
  }

  ghost function AtLine(p: Project, rank: map<string, nat>, f: string, i: nat, defines: set<string>): (r: Result)
    requires p.Ranked(rank) && f in p.files && i < |p.files[f].Lines()|
    ensures defines <= r.defines
    decreases p.Keys() - defines, if p.Key(f).Some? then 1 else 0, p.Level(rank, f), |p.files[f].Lines()| - i, 0
  {
    match p.files[f].Lines()[i]
    case Text => Result([Copy(f, i)], defines, [])
    case Include(target) =>
      var inner :=
        if target in p.excluded then Result([Skipped], defines, [])
        else if p.Brings(f, i).None? then Result([], defines, [])
        else Import(p, rank, p.Brings(f, i).value, defines);
      inner.(out := [Begin(f, i, target)] + inner.out + [End(target)])
  }

  lemma Grouped(a: Result, b: Result, c: Result)
    ensures Then(Then(a, b), c) == Then(a, Then(b, c))
  {
    assert (a.out + b.out) + c.out == a.out + (b.out + c.out);
    assert (a.deps + b.deps) + c.deps == a.deps + (b.deps + c.deps);
  }

  lemma ThenFirst(r: Result, defines: set<string>)
    ensures Then(Result([], defines, []), r) == r
  {
  }

  // ---------------------------------------------------------------- the script

  /** The expansion of f has come to line i with this result. */
  ghost predicate Reached(p: Project, rank: map<string, nat>, f: string, before: set<string>, i: nat, done: Result)
    requires p.Ranked(rank) && f in p.files && i <= |p.files[f].Lines()|
  {
    Process(p, rank, f, before) == Then(done, FromLine(p, rank, f, i, done.defines))
  }

  lemma ReachedNext(p: Project, rank: map<string, nat>, f: string, before: set<string>, i: nat, done: Result)
    requires p.Ranked(rank) && f in p.files && i < |p.files[f].Lines()| && Reached(p, rank, f, before, i, done)
    ensures var r := AtLine(p, rank, f, i, done.defines);
            Reached(p, rank, f, before, i + 1, Then(done, r))
  {
    var r := AtLine(p, rank, f, i, done.defines);
    Grouped(done, r, FromLine(p, rank, f, i + 1, r.defines));
  }

  class Flattener {
    const p: Project
    var defines: set<string>
    var deps: seq<string>

    constructor (p: Project)
      ensures this.p == p && defines == {} && deps == []
    {
      this.p := p;
      defines, deps := {}, [];
    }

    /** What one of the functions below has done. */
    twostate predicate Did(r: Result, outText: seq<Piece>)
      reads this
    {
      outText == r.out && defines == r.defines && deps == old(deps) + r.deps
    }

    method ImportH(inFile: string, i: nat, target: string, ghost rank: map<string, nat>) returns (outText: seq<Piece>)
      requires p.Ranked(rank) && p.Valid() && inFile in p.files && i < |p.files[inFile].Lines()|
      requires p.files[inFile].Lines()[i] == Include(target) && target !in p.excluded
      modifies this
      ensures Did(if p.Brings(inFile, i).None? then Result([], old(defines), [])
                  else Import(p, rank, p.Brings(inFile, i).value, old(defines)), outText)
      decreases p.Keys() - defines, if p.Key(inFile).Some? then 1 else 0, p.Level(rank, inFile), |p.files[inFile].Lines()| - i, 0
    {
      if (inFile, target) in p.candidates {
        var paths := p.candidates[(inFile, target)];
        var n := 0;
        while n < |paths|
          invariant 0 <= n <= |paths| && defines == old(defines) && deps == old(deps)
          invariant p.FirstExisting(paths[n..]) == p.FirstExisting(paths)
        {
          if paths[n] in p.files {
            assert p.Brings(inFile, i) == Some(paths[n]);
            outText := ImportC(paths[n], rank);
            return;
          }
          assert paths[n..][1..] == paths[n + 1..];
          n := n + 1;
        }
      }
      return [];
    }

    method ImportC(inFile: string, ghost rank: map<string, nat>) returns (outText: seq<Piece>)
      requires p.Ranked(rank) && p.Valid() && inFile in p.files
      modifies this
      ensures Did(Import(p, rank, inFile, old(defines)), outText)
      decreases p.Keys() - defines, 0, p.Level(rank, inFile), |p.files[inFile].Lines()| + 2
    {
      deps := deps + [inFile];
      match p.files[inFile].utf8 {
        case Some(lines) =>
          outText := ProcessFile(inFile, lines, rank);
        case None =>
          // the exception, and the second attempt
          outText := ProcessFile(inFile, p.files[inFile].other, rank);
      }
    }

    method ProcessFile(inFile: string, lines: seq<Line>, ghost rank: map<string, nat>) returns (outText: seq<Piece>)
      requires p.Ranked(rank) && p.Valid() && inFile in p.files && lines == p.files[inFile].Lines()
      modifies this
      ensures Did(Process(p, rank, inFile, old(defines)), outText)
      decreases p.Keys() - defines, 0, p.Level(rank, inFile), |lines| + 1
    {
      outText := [];
      var idx := 0;
      ghost var got: seq<string> := [];
      while idx < |lines|
        invariant 0 <= idx <= |lines| && old(defines) <= defines && deps == old(deps) + got
        invariant idx == 0 ==> outText == [] && defines == old(defines) && got == []
        invariant idx > 0 ==> Entered(inFile, old(defines))
                              && Reached(p, rank, inFile, old(defines), idx, Result(outText, defines, got))
      {
        if idx == 0 {
          var blocked := Enter(inFile);
          if blocked {
            break;
          }
          ThenFirst(FromLine(p, rank, inFile, 0, defines), defines);
        }
        ghost var done := Result(outText, defines, got);
        var piece := OneLine(inFile, idx, rank);
        ReachedNext(p, rank, inFile, old(defines), idx, done);
        outText := outText + piece;
        got := got + AtLine(p, rank, inFile, idx, done.defines).deps;
        idx := idx + 1;
      }
    }

    /** The first line: a file whose guard is set already is left out, otherwise the guard is set. */
    method Enter(inFile: string) returns (blocked: bool)
      requires inFile in p.files
      modifies this`defines
      ensures blocked <==> p.Key(inFile).Some? && p.Key(inFile).value in old(defines)
      ensures defines == if p.Key(inFile).Some? then old(defines) + {p.Key(inFile).value} else old(defines)
    {
      match p.Key(inFile) {
        case None =>
          return false;
        case Some(key) =>
          if key in defines {
            return true;
          }
          defines := defines + {key};
          return false;
      }
    }

    /** The file's guard, if it has one, has just been set. */
    ghost predicate Entered(f: string, before: set<string>)
      requires f in p.files
      reads this
    {
      p.Key(f).Some? ==> p.Key(f).value in p.Keys() && p.Key(f).value in defines && p.Key(f).value !in before
    }

    method OneLine(inFile: string, idx: nat, ghost rank: map<string, nat>) returns (outText: seq<Piece>)
      requires p.Ranked(rank) && p.Valid() && inFile in p.files && idx < |p.files[inFile].Lines()|
      modifies this
      ensures Did(AtLine(p, rank, inFile, idx, old(defines)), outText)
      decreases p.Keys() - defines, if p.Key(inFile).Some? then 1 else 0, p.Level(rank, inFile), |p.files[inFile].Lines()| - idx, 1
    {
      match p.files[inFile].Lines()[idx] {
        case Text =>
          outText := [Copy(inFile, idx)];
        case Include(target) =>
          var excluded := target in p.excluded;
          var inner;
          if excluded {
            inner := [Skipped];
          } else {
            inner := ImportH(inFile, idx, target, rank);
          }
          outText := [Begin(inFile, idx, target)] + inner + [End(target)];
      }
    }
  }

  // ---------------------------------------------------------------- once each

  /** The piece is the first line of a file with this guard. */
  predicate Opens(p: Project, x: Piece, key: string) {
    x.Copy? && x.line == 0 && x.file in p.files && p.Key(x.file) == Some(key)
  }

  /** How often such a file is opened in the output. */
  function Openings(p: Project, out: seq<Piece>, key: string): nat {
    if out == [] then 0 else Openings(p, out[..|out| - 1], key) + if Opens(p, out[|out| - 1], key) then 1 else 0
  }

  lemma {:induction false} OpeningsAdd(p: Project, a: seq<Piece>, b: seq<Piece>, key: string)
    ensures Openings(p, a + b, key) == Openings(p, a, key) + Openings(p, b, key)
    decreases |b|
  {
    if b == [] {
      assert a + b == a;
    } else {
      assert (a + b)[..|a + b| - 1] == a + b[..|b| - 1];
      OpeningsAdd(p, a, b[..|b| - 1], key);
    }
  }

  /** The definition of key is new. */
  function New(key: string, before: set<string>, after: set<string>): nat {
    if key in after && key !in before then 1 else 0
  }

  lemma NewAdds(key: string, a: set<string>, b: set<string>, c: set<string>)
    requires a <= b <= c
    ensures New(key, a, b) + New(key, b, c) == New(key, a, c)
  {
  }

  /** In the output of a file a guarded body is begun exactly once if its guard has been set on the
      way, and not at all otherwise; the file's own guard is set at the end. */
  lemma OnceEach(p: Project, rank: map<string, nat>, f: string, defines: set<string>, key: string)
    requires p.Ranked(rank) && p.Valid() && f in p.files
    ensures Openings(p, Process(p, rank, f, defines).out, key) == New(key, defines, Process(p, rank, f, defines).defines)
    ensures p.Key(f) == Some(key) ==> key in Process(p, rank, f, defines).defines
    decreases p.Keys() - defines, 0, p.Level(rank, f), |p.files[f].Lines()| + 1
  {
    match p.Key(f) {
      case None =>
        OnceFromLine(p, rank, f, 0, defines, key);
      case Some(own) =>
        if own !in defines {
          assert own in p.Keys() - defines;
          OnceFromLine(p, rank, f, 0, defines + {own}, key);
        }
    }
  }

  lemma {:induction false} OnceFromLine(p: Project, rank: map<string, nat>, f: string, i: nat, defines: set<string>, key: string)
    requires p.Ranked(rank) && p.Valid() && f in p.files && i <= |p.files[f].Lines()|
    requires p.Key(f).Some? ==> p.Key(f).value in defines
    ensures Openings(p, FromLine(p, rank, f, i, defines).out, key)
         == New(key, defines, FromLine(p, rank, f, i, defines).defines) + if i == 0 && p.Key(f) == Some(key) then 1 else 0
    decreases p.Keys() - defines, if p.Key(f).Some? then 1 else 0, p.Level(rank, f), |p.files[f].Lines()| - i
  {
    if i < |p.files[f].Lines()| {
      var r := AtLine(p, rank, f, i, defines);
      OnceAtLine(p, rank, f, i, defines, key);
      OnceFromLine(p, rank, f, i + 1, r.defines, key);
      OnceThen(p, key, defines, r, FromLine(p, rank, f, i + 1, r.defines), if i == 0 && p.Key(f) == Some(key) then 1 else 0);
    } else {
      OnceAtEnd(p, rank, f, i, defines, key);
    }
  }

  lemma OnceAtEnd(p: Project, rank: map<string, nat>, f: string, i: nat, defines: set<string>, key: string)
    requires p.Ranked(rank) && p.Valid() && f in p.files && i == |p.files[f].Lines()|
    ensures FromLine(p, rank, f, i, defines) == Result([], defines, []) && !(i == 0 && p.Key(f) == Some(key))
  {
  }

  /** Openings of two results in a row. */
  lemma OnceThen(p: Project, key: string, defines: set<string>, r: Result, rest: Result, own: int)
    requires defines <= r.defines <= rest.defines
    requires Openings(p, r.out, key) == New(key, defines, r.defines) + own
    requires Openings(p, rest.out, key) == New(key, r.defines, rest.defines)
    ensures Openings(p, Then(r, rest).out, key) == New(key, defines, Then(r, rest).defines) + own
  {
    OpeningsAdd(p, r.out, rest.out, key);
    NewAdds(key, defines, r.defines, rest.defines);
  }

  lemma {:induction false} OnceAtLine(p: Project, rank: map<string, nat>, f: string, i: nat, defines: set<string>, key: string)
    requires p.Ranked(rank) && p.Valid() && f in p.files && i < |p.files[f].Lines()|
    requires p.Key(f).Some? ==> p.Key(f).value in defines
    ensures Openings(p, AtLine(p, rank, f, i, defines).out, key)
         == New(key, defines, AtLine(p, rank, f, i, defines).defines) + if i == 0 && p.Key(f) == Some(key) then 1 else 0
    decreases p.Keys() - defines, if p.Key(f).Some? then 1 else 0, p.Level(rank, f), |p.files[f].Lines()| - i, 0
  {
    match p.files[f].Lines()[i] {
      case Text =>
        OpeningsOfOne(p, Copy(f, i), key);
      case Include(target) =>
        var inner := if target in p.excluded then [Skipped] else if p.Brings(f, i).None? then []
                     else Import(p, rank, p.Brings(f, i).value, defines).out;
        OpeningsOfOne(p, Skipped, key);
        OpeningsAround(p, f, i, target, inner, key);
        if target !in p.excluded && p.Brings(f, i).Some? {
          OnceEach(p, rank, p.Brings(f, i).value, defines, key);
        }
    }
  }

  lemma OpeningsAround(p: Project, f: string, i: nat, target: string, inner: seq<Piece>, key: string)
    ensures Openings(p, [Begin(f, i, target)] + inner + [End(target)], key) == Openings(p, inner, key)
  {
    OpeningsAdd(p, [Begin(f, i, target)] + inner, [End(target)], key);
    OpeningsAdd(p, [Begin(f, i, target)], inner, key);
    OpeningsOfOne(p, Begin(f, i, target), key);
    OpeningsOfOne(p, End(target), key);
  }

  lemma OpeningsOfOne(p: Project, x: Piece, key: string)
    ensures Openings(p, [x], key) == if Opens(p, x, key) then 1 else 0
  {
    assert [x][..0] == [];
  }

  // ---------------------------------------------------------------- dependencies

  /** The files that the includes in the output brought in, in order. */
  function Brought(p: Project, out: seq<Piece>): seq<string> {
    if out == [] then []
    else
      var x := out[0];
      (if x.Begin? && x.file in p.files && x.line < |p.files[x.file].Lines()| && p.Brings(x.file, x.line).Some?
       then [p.Brings(x.file, x.line).value] else []) + Brought(p, out[1..])
  }

  lemma {:induction false} BroughtAdd(p: Project, a: seq<Piece>, b: seq<Piece>)
    ensures Brought(p, a + b) == Brought(p, a) + Brought(p, b)
    decreases |a|
  {
    if a == [] {
      assert a + b == b;
    } else {
      assert (a + b)[1..] == a[1..] + b;
      BroughtAdd(p, a[1..], b);
    }
  }

  /** The dependency list names exactly what the includes of the output brought in, in order, also
      where a guard kept the text out. */
  lemma DepsExact(p: Project, rank: map<string, nat>, f: string, defines: set<string>)
    requires p.Ranked(rank) && f in p.files
    ensures Process(p, rank, f, defines).deps == Brought(p, Process(p, rank, f, defines).out)
    decreases p.Keys() - defines, 0, p.Level(rank, f), |p.files[f].Lines()| + 1
  {
    match p.Key(f) {
      case None =>
        DepsFromLine(p, rank, f, 0, defines);
      case Some(own) =>
        if own !in defines {
          assert own in p.Keys() - defines;
          DepsFromLine(p, rank, f, 0, defines + {own});
        }
    }
  }

  lemma {:induction false} DepsFromLine(p: Project, rank: map<string, nat>, f: string, i: nat, defines: set<string>)
    requires p.Ranked(rank) && f in p.files && i <= |p.files[f].Lines()|
    ensures FromLine(p, rank, f, i, defines).deps == Brought(p, FromLine(p, rank, f, i, defines).out)
    decreases p.Keys() - defines, if p.Key(f).Some? then 1 else 0, p.Level(rank, f), |p.files[f].Lines()| - i
  {
    if i < |p.files[f].Lines()| {
      var r := AtLine(p, rank, f, i, defines);
      DepsAtLine(p, rank, f, i, defines);
      DepsFromLine(p, rank, f, i + 1, r.defines);
      BroughtAdd(p, r.out, FromLine(p, rank, f, i + 1, r.defines).out);
    }
  }

  lemma DepsAtLine(p: Project, rank: map<string, nat>, f: string, i: nat, defines: set<string>)
    requires p.Ranked(rank) && f in p.files && i < |p.files[f].Lines()|
    ensures AtLine(p, rank, f, i, defines).deps == Brought(p, AtLine(p, rank, f, i, defines).out)
    decreases p.Keys() - defines, if p.Key(f).Some? then 1 else 0, p.Level(rank, f), |p.files[f].Lines()| - i, 0
  {
    match p.files[f].Lines()[i] {
      case Text =>
      case Include(target) =>
        if target in p.excluded {
          BroughtAround(p, f, i, target, [Skipped]);
        } else if p.Brings(f, i).None? {
          BroughtAround(p, f, i, target, []);
        } else {
          DepsExact(p, rank, p.Brings(f, i).value, defines);
          BroughtAround(p, f, i, target, Import(p, rank, p.Brings(f, i).value, defines).out);
        }
    }
  }

  lemma BroughtAround(p: Project, f: string, i: nat, target: string, inner: seq<Piece>)
    requires f in p.files && i < |p.files[f].Lines()|
    ensures Brought(p, [Begin(f, i, target)] + inner + [End(target)])
         == (if p.Brings(f, i).Some? then [p.Brings(f, i).value] else []) + Brought(p, inner)
    ensures Brought(p, [Skipped]) == []
  {
    BroughtAdd(p, [Begin(f, i, target)] + inner, [End(target)]);
    BroughtAdd(p, [Begin(f, i, target)], inner);
    assert [Begin(f, i, target)][1..] == [] && [End(target)][1..] == [] && [Skipped][1..] == [];
  }

  // ---------------------------------------------------------------- cycles

  /** The same expansion without an order of the files, cut off after so many nested files. */
  function Fuelled(p: Project, f: string, defines: set<string>, fuel: nat): Option<Result>
    requires f in p.files
    decreases fuel, 0
  {
    if fuel == 0 then None
    else
      match p.Key(f)
      case None => FuelledFrom(p, f, 0, defines, fuel - 1)
      case Some(key) => if key in defines then Some(Result([], defines, [])) else FuelledFrom(p, f, 0, defines + {key}, fuel - 1)
  }

  function FuelledFrom(p: Project, f: string, i: nat, defines: set<string>, fuel: nat): Option<Result>
    requires f in p.files && i <= |p.files[f].Lines()|
    decreases fuel, 1 + |p.files[f].Lines()| - i
  {
    if i == |p.files[f].Lines()| then Some(Result([], defines, []))
    else
      var r := FuelledAt(p, f, i, defines, fuel);
      if r.None? then None
      else
        var rest := FuelledFrom(p, f, i + 1, r.value.defines, fuel);
        if rest.None? then None else Some(Then(r.value, rest.value))
  }

  function FuelledAt(p: Project, f: string, i: nat, defines: set<string>, fuel: nat): Option<Result>
    requires f in p.files && i < |p.files[f].Lines()|
    decreases fuel, 1
  {
    match p.files[f].Lines()[i]
    case Text => Some(Result([Copy(f, i)], defines, []))
    case Include(target) =>
      if target in p.excluded then Some(Result([Begin(f, i, target), Skipped, End(target)], defines, []))
      else if p.Brings(f, i).None? then Some(Result([Begin(f, i, target), End(target)], defines, []))
      else
        var g := p.Brings(f, i).value;
        var r := Fuelled(p, g, defines, fuel);
        if r.None? then None
        else Some(Result([Begin(f, i, target)] + r.value.out + [End(target)], r.value.defines, [g] + r.value.deps))
  }

  /** Where the cut-off expansion comes to an end it is the expansion. */
  lemma FuelAgrees(p: Project, rank: map<string, nat>, f: string, defines: set<string>, fuel: nat)
    requires p.Ranked(rank) && f in p.files && Fuelled(p, f, defines, fuel).Some?
    ensures Fuelled(p, f, defines, fuel).value == Process(p, rank, f, defines)
    decreases fuel, 0
  {
    match p.Key(f) {
      case None =>
        FuelAgreesFrom(p, rank, f, 0, defines, fuel - 1);
      case Some(key) =>
        if key !in defines {
          FuelAgreesFrom(p, rank, f, 0, defines + {key}, fuel - 1);
        }
    }
  }

  lemma {:induction false} FuelAgreesFrom(p: Project, rank: map<string, nat>, f: string, i: nat, defines: set<string>, fuel: nat)
    requires p.Ranked(rank) && f in p.files && i <= |p.files[f].Lines()| && FuelledFrom(p, f, i, defines, fuel).Some?
    ensures FuelledFrom(p, f, i, defines, fuel).value == FromLine(p, rank, f, i, defines)
    decreases fuel, 1 + |p.files[f].Lines()| - i
  {
    if i < |p.files[f].Lines()| {
      var r := FuelledAt(p, f, i, defines, fuel);
      match p.files[f].Lines()[i] {
        case Text =>
        case Include(target) =>
          if target !in p.excluded && p.Brings(f, i).Some? {
            FuelAgrees(p, rank, p.Brings(f, i).value, defines, fuel);
          }
      }
      assert r.value == AtLine(p, rank, f, i, defines);
      FuelAgreesFrom(p, rank, f, i + 1, r.value.defines, fuel);
    }
  }

  /** Unguarded files each of which brings in another of them. */
  ghost predicate Trap(p: Project, files: set<string>) {
    files != {} && forall f :: f in files ==> f in p.files && p.Key(f).None? && BringsOneOf(p, f, files, |p.files[f].Lines()|)
  }

  predicate BringsOneOf(p: Project, f: string, files: set<string>, n: nat)
    requires f in p.files && n <= |p.files[f].Lines()|
  {
    n > 0 && ((p.Brings(f, n - 1).Some? && p.Brings(f, n - 1).value in files) || BringsOneOf(p, f, files, n - 1))
  }

  /** From a file of a trap the expansion never comes to an end. */
  lemma TrapNeverEnds(p: Project, files: set<string>, f: string, defines: set<string>, fuel: nat)
    requires Trap(p, files) && f in files
    ensures Fuelled(p, f, defines, fuel).None?
    decreases fuel, 0
  {
    if fuel > 0 {
      TrapFrom(p, files, f, 0, |p.files[f].Lines()|, defines, fuel - 1);
    }
  }

  lemma {:induction false} TrapFrom(p: Project, files: set<string>, f: string, i: nat, n: nat, defines: set<string>, fuel: nat)
    requires Trap(p, files) && f in files && i <= n <= |p.files[f].Lines()|
    requires BringsOneOf(p, f, files, n) && !BringsOneOf(p, f, files, i)
    ensures FuelledFrom(p, f, i, defines, fuel).None?
    decreases fuel, 1 + |p.files[f].Lines()| - i
  {
    if p.Brings(f, i).Some? && p.Brings(f, i).value in files {
      TrapNeverEnds(p, files, p.Brings(f, i).value, defines, fuel);
    } else if FuelledAt(p, f, i, defines, fuel).Some? {
      TrapFrom(p, files, f, i + 1, n, FuelledAt(p, f, i, defines, fuel).value.defines, fuel);
    }
  }

  /** There is an order of the unguarded files, with which the script terminates from every file and
      every set of definitions, exactly when no unguarded files form a trap, from which it does not. */
  lemma RankedExact(p: Project)
    ensures (exists rank :: p.Ranked(rank)) <==> !(exists files :: Trap(p, files))
  {
    if rank, files :| p.Ranked(rank) && Trap(p, files) {
      var f :| f in files;
      NoDescent(p, rank, files, f);
    }
    if !(exists files :: Trap(p, files)) {
      var unguarded := set f | f in p.files && p.Key(f).None?;
      var rank := Peel(p, map[], unguarded, 0);
    }
  }

  lemma {:induction false} NoDescent(p: Project, rank: map<string, nat>, files: set<string>, f: string)
    requires p.Ranked(rank) && Trap(p, files) && f in files
    ensures false
    decreases rank[f]
  {
    var i := LineInto(p, f, files, |p.files[f].Lines()|);
    assert p.Below(rank, f, |p.files[f].Lines()|);
    NoDescent(p, rank, files, p.Brings(f, i).value);
  }

  lemma {:induction false} LineInto(p: Project, f: string, files: set<string>, n: nat) returns (i: nat)
    requires f in p.files && n <= |p.files[f].Lines()| && BringsOneOf(p, f, files, n)
    ensures i < n && p.Brings(f, i).Some? && p.Brings(f, i).value in files
  {
    if p.Brings(f, n - 1).Some? && p.Brings(f, n - 1).value in files {
      i := n - 1;
    } else {
      i := LineInto(p, f, files, n - 1);
    }
  }

  /** The files ranked so far bring in only such files, and every rank is below `next`. */
  ghost predicate PartlyRanked(p: Project, rank: map<string, nat>, rest: set<string>, next: nat) {
    && (forall f :: f in p.files && p.Key(f).None? ==> f in rank || f in rest)
    && (forall f :: f in rank ==> f in p.files && f !in rest && rank[f] < next && p.Below(rank, f, |p.files[f].Lines()|))
    && (forall f :: f in rest ==> f in p.files && p.Key(f).None?)
  }

  /** Ranking the files one after the other that bring in none of the rest. */
  lemma {:induction false} Peel(p: Project, rank: map<string, nat>, rest: set<string>, next: nat) returns (r: map<string, nat>)
    requires PartlyRanked(p, rank, rest, next) && !(exists files :: Trap(p, files))
    ensures p.Ranked(r)
    decreases rest
  {
    if rest == {} {
      r := rank;
    } else {
      assert !Trap(p, rest);
      var f :| f in rest && !BringsOneOf(p, f, rest, |p.files[f].Lines()|);
      PeelOne(p, rank, rest, next, f);
      r := Peel(p, rank[f := next], rest - {f}, next + 1);
    }
  }

  lemma PeelOne(p: Project, rank: map<string, nat>, rest: set<string>, next: nat, f: string)
    requires PartlyRanked(p, rank, rest, next) && f in rest && !BringsOneOf(p, f, rest, |p.files[f].Lines()|)
    ensures PartlyRanked(p, rank[f := next], rest - {f}, next + 1)
  {
    var more := rank[f := next];
    NothingInto(p, rank, rest, next, f, |p.files[f].Lines()|);
    forall g | g in rank
      ensures p.Below(more, g, |p.files[g].Lines()|)
    {
      assert p.Below(rank, g, |p.files[g].Lines()|);
    }
  }

  lemma {:induction false} NothingInto(p: Project, rank: map<string, nat>, rest: set<string>, next: nat, f: string, n: nat)
    requires PartlyRanked(p, rank, rest, next) && f in rest && n <= |p.files[f].Lines()| && !BringsOneOf(p, f, rest, n)
    ensures p.Below(rank[f := next], f, n)
  {
    if n > 0 {
      NothingInto(p, rank, rest, next, f, n - 1);
    }
  }
}
