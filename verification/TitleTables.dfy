/** The disc's title queries of src/BS2/BS2Mach.c: BS2GetLockedTitles, BS2IsTitleAvailable and
    BS2StartLoadingTitle over the two partition tables in one buffer. */
module TitleTables {
  import opened Bytes
  import Arithmetic

  datatype State = DataDisk | RvlGame | LockedDisk | FromCache | OtherState

  datatype Partition = Partition(gamePartition: U32, kind: U32)

  const TITLE_TYPE_DISC: int := 0x0001_0000
  const TWO_31: int := 0x8000_0000
  const TWO_32: int := 0x1_0000_0000

  /** The second table starts 32 bytes behind the first: four entries. */
  const SECOND: int := 4

  /** Some of the upper eight bits of the type are set. */
  predicate Locked(p: Partition) {
    p.kind / 0x100_0000 != 0
  }

  function TitleOf(p: Partition): int {
    TITLE_TYPE_DISC * TWO_32 + p.kind
  }

  /** The titles of the locked partitions, in table order. */
  function LockedTitles(entries: seq<Partition>): (titles: seq<int>)
    ensures |titles| <= |entries|
  {
    if entries == [] then []
    else
      var n := |entries| - 1;
      LockedTitles(entries[..n]) + if Locked(entries[n]) then [TitleOf(entries[n])] else []
  }

  /** At most k of them; a negative k does not limit. */
  function TakeSome(k: int, titles: seq<int>): seq<int> {
    if 0 <= k < |titles| then titles[..k] else titles
  }

  /** Where the first partition of a type is, or -1. */
  function FirstOf(entries: seq<Partition>, kind: U32): (i: int)
    ensures -1 <= i < |entries|
    ensures i >= 0 ==> entries[i].kind == kind
    ensures forall j :: 0 <= j < (if i < 0 then |entries| else i) ==> entries[j].kind != kind
  {
    if entries == [] then -1
    else if entries[0].kind == kind then 0
    else if FirstOf(entries[1..], kind) < 0 then -1
    else FirstOf(entries[1..], kind) + 1
  }

  lemma FirstOfAdd(a: seq<Partition>, b: seq<Partition>, kind: U32)
    ensures FirstOf(a + b, kind)
         == if FirstOf(a, kind) >= 0 then FirstOf(a, kind)
            else if FirstOf(b, kind) >= 0 then |a| + FirstOf(b, kind) else -1
  {
    var i := FirstOf(a + b, kind);
    if i >= 0 {
      assert (a + b)[i].kind == kind;
    }
    if FirstOf(a, kind) >= 0 {
      assert (a + b)[FirstOf(a, kind)].kind == kind;
    } else if FirstOf(b, kind) >= 0 {
      assert (a + b)[|a| + FirstOf(b, kind)].kind == kind;
    }
  }

  lemma {:induction false} LockedAdd(a: seq<Partition>, b: seq<Partition>)
    ensures LockedTitles(a + b) == LockedTitles(a) + LockedTitles(b)
    decreases |b|
  {
    if b == [] {
      assert a + b == a;
    } else {
      assert (a + b)[..|a + b| - 1] == a + b[..|b| - 1];
      LockedAdd(a, b[..|b| - 1]);
    }
  }

  /** The titles of the first partitions come first. */
  lemma {:induction false} LockedPrefix(entries: seq<Partition>, i: nat)
    requires i <= |entries|
    ensures LockedTitles(entries[..i]) <= LockedTitles(entries)
  {
    LockedAdd(entries[..i], entries[i..]);
    assert entries == entries[..i] + entries[i..];
  }

  lemma TakeAcross(k: int, a: seq<int>, b: seq<int>)
    ensures TakeSome(k, a + b) == TakeSome(k, a) + TakeSome(k - |TakeSome(k, a)|, b)
  {
  }

  // ---------------------------------------------------------------- the loops over one table

  method CountTable(table: seq<Partition>, count0: nat) returns (count: nat)
    ensures count == count0 + |LockedTitles(table)|
  {
    count := count0;
    var i := 0;
    assert table[..|table|] == table;
    while i < |table|
      invariant 0 <= i <= |table| && count == count0 + |LockedTitles(table[..i])|
    {
      NextLocked(table, i);
      if table[i].kind / 0x100_0000 != 0 {
        count := count + 1;
      }
      i := i + 1;
    }
  }

  /** From place at0 on; stops when nothing more is asked for. */
  method FillTable(table: seq<Partition>, titles: array<int>, at0: nat, curCount0: int) returns (at: nat, curCount: int)
    requires at0 + |TakeSome(curCount0, LockedTitles(table))| <= titles.Length
    modifies titles
    ensures at == at0 + |TakeSome(curCount0, LockedTitles(table))| && curCount == curCount0 - (at - at0)
    ensures Patched(old(titles[..]), titles[..], at0, TakeSome(curCount0, LockedTitles(table)))
  {
    at, curCount := at0, curCount0;
    var i := 0;
    assert table[..|table|] == table;
    while i < |table| && curCount != 0
      invariant 0 <= i <= |table| && at == at0 + |LockedTitles(table[..i])| <= titles.Length
      invariant curCount == curCount0 - (at - at0) && (curCount0 >= 0 ==> curCount >= 0)
      invariant Patched(old(titles[..]), titles[..], at0, LockedTitles(table[..i]))
    {
      NextLocked(table, i);
      if table[i].kind / 0x100_0000 != 0 {
        curCount := curCount - 1;
        titles[at] := TITLE_TYPE_DISC * TWO_32 + table[i].kind;
        at := at + 1;
      }
      i := i + 1;
    }
    LockedPrefix(table, i);
  }

  /** The place in the table, or -1. */
  method FindPartition(table: seq<Partition>, kind: U32) returns (found: int)
    ensures found == FirstOf(table, kind)
  {
    var i := 0;
    while i < |table|
      invariant 0 <= i <= |table| && forall j :: 0 <= j < i ==> table[j].kind != kind
    {
      if table[i].kind == kind {
        return i;
      }
      i := i + 1;
    }
    return -1;
  }

  /** These values have been written from place `at` on, and nothing else. */
  ghost predicate Patched(before: seq<int>, now: seq<int>, at: nat, written: seq<int>) {
    |now| == |before| && at + |written| <= |now|
    && (forall j :: 0 <= j < |written| ==> now[at + j] == written[j])
    && (forall j :: 0 <= j < at || at + |written| <= j < |now| ==> now[j] == before[j])
  }

  lemma PatchedOn(a: seq<int>, b: seq<int>, c: seq<int>, at: nat, first: seq<int>, second: seq<int>)
    requires Patched(a, b, at, first) && Patched(b, c, at + |first|, second)
    ensures Patched(a, c, at, first + second)
  {
    forall j | 0 <= j < |first + second|
      ensures c[at + j] == (first + second)[j]
    {
      if j < |first| {
        assert b[at + j] == first[j];
      } else {
        assert c[at + |first| + (j - |first|)] == second[j - |first|];
      }
    }
  }

  class Disc {
    var state: State
    var buf: seq<Partition>
    var n1: nat
    var n2: nat
    var bootFromCache: bool
    var bootCaching: bool
    /** The partition that has been chosen: its place in the buffer, or -1. */
    var chosen: int
    /** A title has been asked for, and with which ticket (an address). */
    var asked: bool
    var ticketView: U32

    /** The tables fit the buffer; they may overlap. */
    predicate Valid()
      reads this
    {
      n1 <= |buf| <= 256 && SECOND + n2 <= |buf|
    }

    /** Both tables, one after the other. */
    function Entries(): seq<Partition>
      requires Valid()
      reads this
    {
      buf[..n1] + buf[SECOND..SECOND + n2]
    }

    predicate Asking()
      reads this
    {
      state == DataDisk || state == RvlGame
    }

    /** Without an array the number of locked partitions; with one the first `count0` of their
        titles, in table order, and nothing else. */
    method GetLockedTitles(lockedTitles: array?<int>, count0: U32) returns (ok: bool, count: nat)
      requires Valid()
      requires lockedTitles != null ==> |TakeSome(count0, LockedTitles(Entries()))| <= lockedTitles.Length
      modifies lockedTitles
      ensures ok == Asking()
      ensures count == if ok && lockedTitles == null then |LockedTitles(Entries())| else count0
      ensures lockedTitles != null ==>
                Patched(old(lockedTitles[..]), lockedTitles[..], 0, if ok then TakeSome(count0, LockedTitles(Entries())) else [])
    {
      count := count0;
      if state != DataDisk && state != RvlGame {
        return false, count;
      }
      ghost var first, second := buf[..n1], buf[SECOND..SECOND + n2];
      LockedAdd(first, second);
      if lockedTitles == null {
        count := CountTable(buf[..n1], 0);
        count := CountTable(buf[SECOND..SECOND + n2], count);
      } else if count0 != 0 {
        var curCount := if count0 < TWO_31 then count0 else count0 - TWO_32;
        NeverReached(count0, LockedTitles(first), LockedTitles(second));
        FillTables(lockedTitles, curCount);
      }
      return true, count;
    }

    /** The filling pass over both tables. */
    method FillTables(titles: array<int>, curCount0: int)
      requires Valid() && |TakeSome(curCount0, LockedTitles(Entries()))| <= titles.Length
      modifies titles
      ensures Patched(old(titles[..]), titles[..], 0, TakeSome(curCount0, LockedTitles(Entries())))
    {
      var first, second := buf[..n1], buf[SECOND..SECOND + n2];
      LockedAdd(first, second);
      TakeAcross(curCount0, LockedTitles(first), LockedTitles(second));
      var at, curCount := FillTable(first, titles, 0, curCount0);
      ghost var half := titles[..];
      at, curCount := FillTable(second, titles, at, curCount);
      PatchedOn(old(titles[..]), half, titles[..], 0, TakeSome(curCount0, LockedTitles(first)),
                TakeSome(curCount0 - |TakeSome(curCount0, LockedTitles(first))|, LockedTitles(second)));
    }

    /** A title is available if its lower half is the type of some partition. */
    method IsTitleAvailable(titleId: nat) returns (ok: bool)
      requires Valid()
      ensures ok <==> Asking() && FirstOf(Entries(), titleId % TWO_32) >= 0
    {
      if state != DataDisk && state != RvlGame {
        return false;
      }
      FirstOfAdd(buf[..n1], buf[SECOND..SECOND + n2], titleId % TWO_32);
      var i := FindPartition(buf[..n1], titleId % TWO_32);
      if i >= 0 {
        return true;
      }
      i := FindPartition(buf[SECOND..SECOND + n2], titleId % TWO_32);
      return i >= 0;
    }

    /** Where in the buffer the i-th entry is, or -1. */
    function PlaceOf(i: int): int
      reads this
    {
      if i < 0 then -1 else if i < n1 then i else SECOND + (i - n1)
    }

    /** This place of the buffer holds the first partition of the type: in the first table, or, if that has
        none, in the second. */
    ghost predicate FirstAt(place: int, kind: int)
      requires Valid()
      reads this
    {
      && 0 <= place < |buf| && buf[place].kind == kind
      && ((place < n1 && forall j :: 0 <= j < place ==> buf[j].kind != kind)
          || (SECOND <= place < SECOND + n2 && (forall j :: 0 <= j < n1 ==> buf[j].kind != kind)
              && forall j :: SECOND <= j < place ==> buf[j].kind != kind))
    }

    lemma PlaceIsFirst(kind: U32)
      requires Valid() && FirstOf(Entries(), kind) >= 0
      ensures FirstAt(PlaceOf(FirstOf(Entries(), kind)), kind)
    {
      var i, entries := FirstOf(Entries(), kind), Entries();
      assert forall j :: 0 <= j < n1 ==> entries[j] == buf[j];
      assert forall j :: SECOND <= j < SECOND + n2 ==> entries[j - SECOND + n1] == buf[j];
      assert entries[i].kind == kind && forall j :: 0 <= j < i ==> entries[j].kind != kind;
    }

    /** The searches through both tables. */
    method FindPlace(id: U32) returns (place: int)
      requires Valid()
      ensures place == PlaceOf(FirstOf(Entries(), id)) && (place >= 0 <==> FirstOf(Entries(), id) >= 0)
      ensures place >= 0 ==> FirstAt(place, id)
    {
      if FirstOf(Entries(), id) >= 0 {
        PlaceIsFirst(id);
      }
      FirstOfAdd(buf[..n1], buf[SECOND..SECOND + n2], id);
      place := FindPartition(buf[..n1], id);
      if place >= 0 {
        return place;
      }
      place := FindPartition(buf[SECOND..SECOND + n2], id);
      if place >= 0 {
        place := SECOND + place;
      }
    }

    /** Chooses the first partition of the title's type and gives up both cache flags. The ticket
        is noted even if there is no such partition. */
    method StartLoadingTitle(titleId: nat, ticket: U32) returns (ok: bool)
      requires Valid()
      modifies this`chosen, this`state, this`bootFromCache, this`bootCaching, this`asked, this`ticketView
      ensures ok == (old(Asking()) && FirstOf(old(Entries()), titleId % TWO_32) >= 0)
      ensures ok ==> && chosen == PlaceOf(FirstOf(Entries(), titleId % TWO_32)) && FirstAt(chosen, titleId % TWO_32)
                     && state == (if old(bootFromCache) then FromCache else LockedDisk)
                     && !bootFromCache && !bootCaching && !Asking()
      ensures !ok ==> chosen == old(chosen) && state == old(state)
                        && bootFromCache == old(bootFromCache) && bootCaching == old(bootCaching)
      ensures if old(Asking()) then asked && ticketView == ticket
              else asked == old(asked) && ticketView == old(ticketView)
    {
      if state != DataDisk && state != RvlGame {
        return false;
      }
      ghost var entries := Entries();
      asked, ticketView := true, ticket;
      assert Entries() == entries;
      var place := FindPlace(titleId % TWO_32);
      if place < 0 {
        return false;
      }
      Choose(place);
      assert Entries() == entries;
      return true;
    }

    method Choose(place: int)
      modifies this`chosen, this`state, this`bootFromCache, this`bootCaching
      ensures chosen == place && state == (if old(bootFromCache) then FromCache else LockedDisk)
      ensures !bootFromCache && !bootCaching
    {
      chosen := place;
      state := if bootFromCache then FromCache else LockedDisk;
      bootFromCache, bootCaching := false, false;
    }
  }

  lemma {:induction false} NextLocked(entries: seq<Partition>, i: nat)
    requires i < |entries|
    ensures LockedTitles(entries[..i + 1])
         == LockedTitles(entries[..i]) + if Locked(entries[i]) then [TitleOf(entries[i])] else []
    ensures LockedTitles(entries[..i + 1]) <= LockedTitles(entries)
  {
    assert entries[..i + 1][..i] == entries[..i];
    LockedPrefix(entries, i + 1);
  }

  /** A count of 2^31 or more becomes negative and then never reaches zero. */
  lemma NeverReached(count: U32, a: seq<int>, b: seq<int>)
    requires |a| + |b| < TWO_31
    ensures TakeSome(if count < TWO_31 then count else count - TWO_32, a + b) == TakeSome(count, a + b)
  {
  }

  // ---------------------------------------------------------------- the queries agree

  /** The number that the counting pass returns is enough for all titles and no more. */
  lemma TwoPasses(entries: seq<Partition>, k: nat)
    ensures TakeSome(k, LockedTitles(entries)) == LockedTitles(entries) <==> k >= |LockedTitles(entries)|
    ensures |TakeSome(k, LockedTitles(entries))| <= k && TakeSome(k, LockedTitles(entries)) <= LockedTitles(entries)
  {
  }

  /** Every title the filling pass yields is available, and loading it chooses a locked partition. */
  lemma {:induction false} TitlesAvailable(entries: seq<Partition>, t: nat)
    requires t < |LockedTitles(entries)|
    ensures var title := LockedTitles(entries)[t];
            && title >= 0 && FirstOf(entries, title % TWO_32) >= 0
            && Locked(entries[FirstOf(entries, title % TWO_32)])
            && title == TitleOf(entries[FirstOf(entries, title % TWO_32)])
    decreases |entries|
  {
    var n := |entries| - 1;
    if t < |LockedTitles(entries[..n])| {
      TitlesAvailable(entries[..n], t);
      FirstOfAdd(entries[..n], entries[n..], LockedTitles(entries)[t] % TWO_32);
    } else {
      FirstOfAdd(entries[..n], entries[n..], entries[n].kind);
      TitleCode(entries[n]);
    }
    assert entries[..n] + entries[n..] == entries;
  }

  lemma TitleCode(p: Partition)
    ensures TitleOf(p) % TWO_32 == p.kind && TitleOf(p) >= 0
  {
    Arithmetic.ModUnique(TitleOf(p), TWO_32, TITLE_TYPE_DISC, p.kind);
  }

  /** And every locked partition's title is yielded, behind those of the locked ones in front of it. */
  lemma AllYielded(entries: seq<Partition>, i: nat)
    requires i < |entries| && Locked(entries[i])
    ensures |LockedTitles(entries[..i])| < |LockedTitles(entries)|
    ensures LockedTitles(entries)[|LockedTitles(entries[..i])|] == TitleOf(entries[i])
  {
    NextLocked(entries, i);
    var l := LockedTitles(entries[..i + 1]);
    assert l[|l| - 1] == TitleOf(entries[i]);
  }

  /** Exactly the titles of disc type whose lower half is the type of some partition, with one of its
      upper eight bits set. */
  lemma YieldedExact(entries: seq<Partition>, kind: U32)
    ensures 0x1_0000_0000_0000 + kind in LockedTitles(entries)
       <==> kind >= 0x100_0000 && exists i :: 0 <= i < |entries| && entries[i].kind == kind
  {
    var titles := LockedTitles(entries);
    if t :| 0 <= t < |titles| && titles[t] == 0x1_0000_0000_0000 + kind {
      TitlesAvailable(entries, t);
      var p := entries[FirstOf(entries, titles[t] % TWO_32)];
      TitleCode(p);
      assert p.kind == kind;
    }
    if kind >= 0x100_0000 {
      if i :| 0 <= i < |entries| && entries[i].kind == kind {
        AllYielded(entries, i);
      }
    }
  }
}
