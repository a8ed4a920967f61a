/** When the search for a chunk (src/bannerSound/AudioWaveUtility.cpp), run with 32-bit cursors, ends
    at all. */
module ChunkCycles {
  import opened Bytes
  import opened ChunkReader

  const TWO_31: nat := 0x8000_0000

  // ---------------------------------------------------------------- cursors that come back

  /** Where n steps lead. */
  function After(next: U32 -> U32, at: U32, n: nat): U32
    decreases n
  {
    if n == 0 then at else After(next, next(at), n - 1)
  }

  lemma {:induction false} AfterAdd(next: U32 -> U32, at: U32, m: nat, n: nat)
    ensures After(next, at, m + n) == After(next, After(next, at, m), n)
    decreases m
  {
    if m > 0 {
      AfterAdd(next, next(at), m - 1, n);
      assert m + n - 1 == (m - 1) + n;
    }
  }

  /** The n-th cursor is the first that stops the search. */
  predicate FirstStop(next: U32 -> U32, stops: U32 -> bool, at: U32, n: nat) {
    stops(After(next, at, n)) && Going(next, stops, at, n)
  }

  /** None of the first n cursors stops it. */
  predicate Going(next: U32 -> U32, stops: U32 -> bool, at: U32, n: nat) {
    forall m :: 0 <= m < n ==> !stops(After(next, at, m))
  }

  lemma FindFirstStop(next: U32 -> U32, stops: U32 -> bool, at: U32, n: nat) returns (first: nat)
    requires stops(After(next, at, n))
    ensures first <= n && FirstStop(next, stops, at, first)
  {
    first := 0;
    while !stops(After(next, at, first))
      invariant first <= n && Going(next, stops, at, first)
      decreases n - first
    {
      first := first + 1;
    }
  }

  /** A search that ends meets no cursor twice. */
  lemma NoneTwice(next: U32 -> U32, stops: U32 -> bool, at: U32, n: nat, i: nat, j: nat)
    requires FirstStop(next, stops, at, n) && i < j <= n
    ensures After(next, at, i) != After(next, at, j)
  {
    AfterAdd(next, at, j, n - j);
    AfterAdd(next, at, i, n - j);
    assert j + (n - j) == n && !stops(After(next, at, i + (n - j)));
  }

  /** The cursor comes back before any cursor has stopped the search. */
  predicate ComesBack(next: U32 -> U32, stops: U32 -> bool, at: U32, i: nat, j: nat) {
    i < j && After(next, at, i) == After(next, at, j) && Going(next, stops, at, j)
  }

  lemma NeverStops(next: U32 -> U32, stops: U32 -> bool, at: U32, i: nat, j: nat, n: nat)
    requires ComesBack(next, stops, at, i, j)
    ensures !stops(After(next, at, n))
  {
    if stops(After(next, at, n)) {
      var first := FindFirstStop(next, stops, at, n);
      NoneTwice(next, stops, at, first, i, j);
    }
  }

  // ---------------------------------------------------------------- counting them

  predicate Distinct(s: seq<nat>) {
    forall i, j :: 0 <= i < j < |s| ==> s[i] != s[j]
  }

  predicate Below(s: seq<nat>, n: nat) {
    forall i :: 0 <= i < |s| ==> s[i] < n
  }

  /** There are no more than n different numbers below n. */
  lemma {:induction false} Pigeonhole(s: seq<nat>, n: nat)
    requires Distinct(s) && Below(s, n)
    ensures |s| <= n
    decreases n
  {
    if s != [] {
      assert s[0] < n;
      if i :| 0 <= i < |s| && s[i] == n - 1 {
        var rest := s[..i] + s[i + 1..];
        forall k | 0 <= k < |rest|
          ensures rest[k] == s[if k < i then k else k + 1]
        {
        }
        Pigeonhole(rest, n - 1);
      } else {
        Pigeonhole(s, n - 1);
      }
    }
  }

  /** All cursors but the first are even. */
  predicate Evens(next: U32 -> U32) {
    forall at: U32 :: next(at) % 2 == 0
  }

  lemma {:induction false} AfterEven(next: U32 -> U32, at: U32, n: nat)
    requires Evens(next) && n > 0
    ensures After(next, at, n) % 2 == 0
    decreases n
  {
    if n == 1 {
      assert After(next, at, n) == After(next, next(at), 0) == next(at);
    } else {
      AfterEven(next, next(at), n - 1);
    }
  }

  /** The cursors from the second to the n-th are different. */
  predicate AllDifferent(next: U32 -> U32, at: U32, n: nat) {
    forall i, j :: 0 < i < j <= n ==> After(next, at, i) != After(next, at, j)
  }

  lemma DifferentCursors(next: U32 -> U32, at: U32, n: nat)
    requires Evens(next) && AllDifferent(next, at, n)
    ensures n <= TWO_31
  {
    var s: seq<nat> := seq(n, i requires 0 <= i < n => After(next, at, i + 1) / 2);
    forall i, j | 0 <= i < j < |s|
      ensures s[i] != s[j]
    {
      AfterEven(next, at, i + 1);
      AfterEven(next, at, j + 1);
      assert After(next, at, i + 1) != After(next, at, j + 1);
    }
    assert Below(s, TWO_31);
    Pigeonhole(s, TWO_31);
  }

  // ---------------------------------------------------------------- the search

  /** The cursor behind a chunk. */
  function Behind(order: Order, mem: Memory, at: U32): U32 {
    NumFits(order, mem, at + 4);
    Step32(at, Num32(order, mem, at + 4))
  }

  /** The search ends on this cursor. */
  predicate Ends(mem: Memory, at: U32, id: nat, area: U32) {
    at >= area || Tag(mem, at) == id
  }

  lemma SearchStep(order: Order, mem: Memory, at: U32, id: nat, area: U32, fuel: nat)
    requires fuel > 0
    ensures if Ends(mem, at, id, area) then Search32(order, mem, at, id, area, fuel).Some?
            else Search32(order, mem, at, id, area, fuel) == Search32(order, mem, Behind(order, mem, at), id, area, fuel - 1)
  {
  }

  /** It ends within so many rounds exactly when one of the first cursors ends it. */
  lemma {:induction false} EndsExact(next: U32 -> U32, stops: U32 -> bool, order: Order, mem: Memory, at: U32, id: nat, area: U32,
                                     fuel: nat)
    requires forall x: U32 :: next(x) == Behind(order, mem, x)
    requires forall x: U32 :: stops(x) == Ends(mem, x, id, area)
    ensures Search32(order, mem, at, id, area, fuel).Some? <==> !Going(next, stops, at, fuel)
    decreases fuel
  {
    if fuel > 0 {
      SearchStep(order, mem, at, id, area, fuel);
      assert After(next, at, 0) == at;
      if !stops(at) {
        EndsExact(next, stops, order, mem, next(at), id, area, fuel - 1);
        GoingOn(next, stops, at, fuel);
      }
    }
  }

  lemma GoingOn(next: U32 -> U32, stops: U32 -> bool, at: U32, n: nat)
    requires n > 0 && !stops(at)
    ensures Going(next, stops, at, n) <==> Going(next, stops, next(at), n - 1)
  {
    if Going(next, stops, at, n) {
      forall m | 0 <= m < n - 1
        ensures !stops(After(next, next(at), m))
      {
        assert After(next, at, m + 1) == After(next, next(at), m);
      }
    }
    if Going(next, stops, next(at), n - 1) {
      forall m | 0 <= m < n
        ensures !stops(After(next, at, m))
      {
        if m > 0 {
          assert After(next, at, m) == After(next, next(at), m - 1);
        }
      }
    }
  }

  function Advance(order: Order, mem: Memory): U32 -> U32 {
    (at: U32) => Behind(order, mem, at)
  }

  function Stop(mem: Memory, id: nat, area: U32): U32 -> bool {
    (at: U32) => Ends(mem, at, id, area)
  }

  lemma StepsEven(order: Order, mem: Memory)
    ensures Evens(Advance(order, mem))
  {
    forall at: U32
      ensures Advance(order, mem)(at) % 2 == 0
    {
      BehindEven(order, mem, at);
    }
  }

  lemma BehindEven(order: Order, mem: Memory, at: U32)
    ensures Behind(order, mem, at) % 2 == 0
  {
    NumFits(order, mem, at + 4);
    StepEven(at, Num32(order, mem, at + 4));
  }

  lemma StepEven(at: U32, size: U32)
    ensures Step32(at, size) % 2 == 0
  {
  }

  /** A search that ends does so within 2^31 + 1 rounds. */
  lemma EndsSoon(next: U32 -> U32, stops: U32 -> bool, at: U32, n: nat, rounds: nat)
    requires Evens(next) && !Going(next, stops, at, n) && rounds > TWO_31
    ensures !Going(next, stops, at, rounds)
  {
    var m :| 0 <= m < n && stops(After(next, at, m));
    var first := FindFirstStop(next, stops, at, m);
    forall i, j | 0 < i < j <= first
      ensures After(next, at, i) != After(next, at, j)
    {
      NoneTwice(next, stops, at, first, i, j);
    }
    DifferentCursors(next, at, first);
  }

  /** So it ends at all exactly when it ends within 2^31 + 1 rounds, or any larger number of them. */
  lemma SearchEndsExact(order: Order, mem: Memory, at: U32, id: nat, area: U32, rounds: nat)
    requires rounds > TWO_31
    ensures (exists fuel: nat :: Search32(order, mem, at, id, area, fuel).Some?)
       <==> Search32(order, mem, at, id, area, rounds).Some?
  {
    var next, stops := Advance(order, mem), Stop(mem, id, area);
    if fuel: nat :| Search32(order, mem, at, id, area, fuel).Some? {
      EndsExact(next, stops, order, mem, at, id, area, fuel);
      EndsExact(next, stops, order, mem, at, id, area, rounds);
      StepsEven(order, mem);
      EndsSoon(next, stops, at, fuel, rounds);
    }
  }

  /** Some cursor among more than 2^31 of them comes back. */
  lemma SomeComesBack(next: U32 -> U32, stops: U32 -> bool, at: U32, rounds: nat) returns (i: nat, j: nat)
    requires Evens(next) && Going(next, stops, at, rounds + 1) && rounds > TWO_31
    ensures ComesBack(next, stops, at, i, j)
  {
    if AllDifferent(next, at, rounds) {
      DifferentCursors(next, at, rounds);
      assert false;
    } else {
      i, j :| 0 < i < j <= rounds && After(next, at, i) == After(next, at, j);
    }
  }

  /** The search never ends. */
  ghost predicate Forever(order: Order, mem: Memory, at: U32, id: nat, area: U32) {
    forall fuel: nat :: Search32(order, mem, at, id, area, fuel) == None
  }

  lemma ForeverComesBack(order: Order, mem: Memory, at: U32, id: nat, area: U32, rounds: nat) returns (i: nat, j: nat)
    requires Forever(order, mem, at, id, area) && rounds > TWO_31
    ensures ComesBack(Advance(order, mem), Stop(mem, id, area), at, i, j)
  {
    StepsEven(order, mem);
    EndsExact(Advance(order, mem), Stop(mem, id, area), order, mem, at, id, area, rounds + 1);
    assert Search32(order, mem, at, id, area, rounds + 1) == None;
    i, j := SomeComesBack(Advance(order, mem), Stop(mem, id, area), at, rounds);
  }

  lemma NeverEnds(order: Order, mem: Memory, at: U32, id: nat, area: U32, i: nat, j: nat, fuel: nat)
    requires ComesBack(Advance(order, mem), Stop(mem, id, area), at, i, j)
    ensures Search32(order, mem, at, id, area, fuel) == None
  {
    EndsExact(Advance(order, mem), Stop(mem, id, area), order, mem, at, id, area, fuel);
    forall n | 0 <= n < fuel
      ensures !Stop(mem, id, area)(After(Advance(order, mem), at, n))
    {
      NeverStops(Advance(order, mem), Stop(mem, id, area), at, i, j, n);
    }
  }

  /** And it goes on for ever exactly when a cursor comes back before the search has ended. */
  lemma SearchLoopsExact(order: Order, mem: Memory, at: U32, id: nat, area: U32)
    ensures Forever(order, mem, at, id, area)
       <==> exists i: nat, j: nat :: ComesBack(Advance(order, mem), Stop(mem, id, area), at, i, j)
  {
    if Forever(order, mem, at, id, area) {
      var i, j := ForeverComesBack(order, mem, at, id, area, TWO_31 + 1);
    }
    if i: nat, j: nat :| ComesBack(Advance(order, mem), Stop(mem, id, area), at, i, j) {
      forall fuel: nat
        ensures Search32(order, mem, at, id, area, fuel) == None
      {
        NeverEnds(order, mem, at, id, area, i, j, fuel);
      }
    }
  }
}
