/** The boot flags of src/BS2: the state record that BS2.c reads and overwrites at boot, that the
    functions of BS2Reset.c write when a session ends, and the two cache flags that main and
    BS2Mach.c decide on. What the hardware and the file system answer are parameters. */
module BootFlags {

  datatype Option<T> = None | Some(value: T)

  type U8 = x: int | 0 <= x < 256

  datatype Flags = Flags(lastAppType: U8, shutdownType: U8, discState: U8, menuMode: U8)

  const POWER_OFF: U8 := 1
  const RESTART: U8 := 2
  const RETURN_MENU: U8 := 3
  const LAUNCH_TITLE: U8 := 4
  const IDLE: U8 := 5
  const BAD: U8 := 0xFF

  const DISC_IN: U8 := 1
  const DISC_CHANGED: U8 := 2
  const DISC_NONE: U8 := 3

  const MENU: U8 := 0
  const DATA_MANAGER: U8 := 1

  const APP_IPL: U8 := 0x40
  const APP_CHANNEL: U8 := 0x81
  const APP_84: U8 := 0x84

  /** The record written at every boot, in the expectation that a reset function overwrites it. */
  const BAD_FLAGS: Flags := Flags(0, BAD, DISC_CHANGED, MENU)

  predicate HasIpl(appType: U8) {
    appType / 64 % 2 == 1
  }

  predicate HasDvd(appType: U8) {
    appType / 128 == 1
  }

  /** BS2LastMode: 1, 2 (GC), 4, or 0. */
  function LastMode(appType: U8): int {
    if HasDvd(appType) && appType % 64 in {1, 2, 4} then appType % 64 else 0
  }

  // ---------------------------------------------------------------- what a session meets

  /** The answers a session gets while a reset function runs. `rtcSet` says that the RTC flags
      could be read and were not all clear; `junk` is what an unread record holds. */
  datatype Closing = Closing(coverClosed: bool, rtcSet: bool, standby: bool, ios9: bool, readOk: bool, writeOk: bool, junk: Flags)

  /** The answers it gets from boot to the end of main's shutdown sequence. `replaced` says that
      a boot cache file of the wrong size was deleted. */
  datatype Start = Start(readOk: bool, writeOk: bool, noDisk: bool, color16: bool, launchInfo: bool, replaced: bool,
                         eject: bool, discChanged: bool, closing: Closing)

  datatype Globals = Globals(flags: Flags, invalid: bool, fromCache: bool, caching: bool, driveReset: bool, waitSpinup: bool,
                             lastMode: int, toMenu: bool, toData: bool, toIdle: bool, launch: bool)

  const ZERO_FLAGS: Flags := Flags(0, 0, 0, 0)

  const FRESH: Globals := Globals(ZERO_FLAGS, false, false, true, false, true, 0, false, false, false, false)

  // ---------------------------------------------------------------- decisions

  predicate Readable(nand: Option<Flags>, readOk: bool) {
    nand.Some? && readOk
  }

  /** A shutdown type that the boot takes for an orderly end. */
  predicate Orderly(f: Flags, color16: bool) {
    f.shutdownType != BAD && !(color16 && (f.shutdownType == RETURN_MENU || f.shutdownType == IDLE))
  }

  predicate Trusted(nand: Option<Flags>, s: Start) {
    Readable(nand, s.readOk) && Orderly(nand.value, s.color16)
  }

  predicate CacheUsable(f: Flags, noDisk: bool) {
    f.discState == DISC_IN && HasIpl(f.lastAppType) && !noDisk && (LastMode(f.lastAppType) == 1 || LastMode(f.lastAppType) == 4)
  }

  /** The globals after UpdateStateFlagsAndBootCache. */
  function Booted(nand: Option<Flags>, s: Start): Globals {
    if !Readable(nand, s.readOk) then FRESH.(invalid := true)
    else
      var f, trusted := nand.value, Trusted(nand, s);
      var cache := trusted && CacheUsable(f, s.noDisk);
      Globals(f, !trusted, cache && !s.replaced, !(cache && !s.replaced), false, !cache || s.replaced, LastMode(f.lastAppType),
              trusted && f.shutdownType == RETURN_MENU,
              trusted && f.shutdownType == RETURN_MENU && f.menuMode == DATA_MANAGER,
              trusted && f.shutdownType == IDLE,
              trusted && f.shutdownType == LAUNCH_TITLE && s.launchInfo)
  }

  /** The EJECT switch of a machine that was switched off properly. */
  predicate Ejecting(g: Globals, s: Start) {
    !g.invalid && g.flags.shutdownType == POWER_OFF && s.eject
  }

  /** The shutdown sequence ends the session: to eject a disc, or to shift to idle. */
  predicate Off(g: Globals, s: Start) {
    !g.invalid && if Ejecting(g, s) then !s.noDisk else g.toIdle
  }

  predicate DiscIsNew(g: Globals, s: Start) {
    !g.invalid && !Ejecting(g, s) && !g.toIdle
    && s.discChanged && (g.flags.discState == DISC_NONE || g.flags.shutdownType == LAUNCH_TITLE)
  }

  /** The globals after main's shutdown sequence, if the session goes on. */
  function Sequenced(g: Globals, s: Start): Globals {
    var dropped := Ejecting(g, s) || DiscIsNew(g, s);
    var spin := g.invalid || DiscIsNew(g, s) || (!Ejecting(g, s) && (g.toMenu || g.toData));
    g.(fromCache := g.fromCache && !dropped, caching := g.caching || dropped,
       driveReset := g.driveReset || spin, waitSpinup := g.waitSpinup || spin)
  }

  /** What the reset functions write over the record they find. */
  function Written(nand: Option<Flags>, fromCache: bool, appType: U8, shutdownType: U8, c: Closing): (f: Flags)
    requires appType == APP_84 || appType == APP_CHANNEL
  {
    var found := if Readable(nand, c.readOk) then nand.value else c.junk;
    Flags(if fromCache then appType + APP_IPL else appType, shutdownType,
          if !c.coverClosed then DISC_NONE else if !fromCache || c.rtcSet then DISC_CHANGED else DISC_IN,
          found.menuMode)
  }

  function Stored(nand: Option<Flags>, f: Flags, writeOk: bool): Option<Flags> {
    if writeOk then Some(f) else nand
  }

  // ---------------------------------------------------------------- the program

  class Console {
    var nand: Option<Flags>
    var flags: Flags
    var invalidShutdown: bool
    var bootFromCache: bool
    var bootCaching: bool
    var driveReset: bool
    var waitSpinup: bool
    var lastMode: int
    var returnToMenu: bool
    var returnToDataManager: bool
    var returnToIdle: bool
    var launchTitle: bool

    /** A session begins with the program's initial data and whatever is stored. */
    constructor (nand: Option<Flags>)
      ensures this.nand == nand && View() == FRESH
    {
      this.nand := nand;
      flags, invalidShutdown, bootFromCache, bootCaching := ZERO_FLAGS, false, false, true;
      driveReset, waitSpinup, lastMode := false, true, 0;
      returnToMenu, returnToDataManager, returnToIdle, launchTitle := false, false, false, false;
    }

    function View(): Globals
      reads this
    {
      Globals(flags, invalidShutdown, bootFromCache, bootCaching, driveReset, waitSpinup, lastMode,
              returnToMenu, returnToDataManager, returnToIdle, launchTitle)
    }

    method WriteStateFlags(f: Flags, writeOk: bool)
      modifies this`nand
      ensures nand == Stored(old(nand), f, writeOk)
    {
      if writeOk {
        nand := Some(f);
      }
    }

    method ReadLastMode()
      modifies this`lastMode
      ensures lastMode == if HasDvd(flags.lastAppType) then LastMode(flags.lastAppType) else old(lastMode)
    {
      if HasDvd(flags.lastAppType) {
        var mode := flags.lastAppType % 64;
        if mode == 1 {
          lastMode := 1;
        } else if mode == 2 {
          lastMode := 2;
        } else if mode == 4 {
          lastMode := 4;
        } else {
          lastMode := 0;
        }
      }
    }

    /** What the last session asks of this one. */
    method ReadPurpose(s: Start)
      modifies this`returnToMenu, this`returnToDataManager, this`returnToIdle, this`launchTitle
      ensures returnToMenu == (old(returnToMenu) || flags.shutdownType == RETURN_MENU)
      ensures returnToDataManager
           == (old(returnToDataManager) || (flags.shutdownType == RETURN_MENU && flags.menuMode == DATA_MANAGER))
      ensures returnToIdle == (old(returnToIdle) || flags.shutdownType == IDLE)
      ensures launchTitle == (old(launchTitle) || (flags.shutdownType == LAUNCH_TITLE && s.launchInfo))
    {
      if flags.shutdownType == RETURN_MENU {
        returnToMenu := true;
        if flags.menuMode == DATA_MANAGER {
          returnToDataManager := true;
        }
      }
      if flags.shutdownType == IDLE {
        returnToIdle := true;
      }
      if flags.shutdownType == LAUNCH_TITLE && s.launchInfo {
        launchTitle := true;
      }
    }

    method ChooseCache(noDisk: bool)
      requires lastMode == LastMode(flags.lastAppType)
      modifies this`bootFromCache, this`bootCaching, this`driveReset, this`waitSpinup
      ensures bootFromCache == CacheUsable(flags, noDisk) && bootCaching == !bootFromCache
      ensures driveReset == (old(driveReset) && !bootFromCache) && waitSpinup == (old(waitSpinup) && !bootFromCache)
    {
      if flags.discState == DISC_IN && HasIpl(flags.lastAppType) && !noDisk && (lastMode == 1 || lastMode == 4) {
        bootFromCache, bootCaching := true, false;
        driveReset, waitSpinup := false, false;
      } else {
        bootFromCache, bootCaching := false, true;
      }
    }

    /** The record, as far as it can be read and trusted. */
    method ReadStateFlags(s: Start)
      requires View() == FRESH
      modifies this
      ensures View() == Booted(nand, s.(replaced := false)) && nand == old(nand)
    {
      if !Readable(nand, s.readOk) {
        invalidShutdown := true;
        return;
      }
      flags := nand.value;
      ReadLastMode();
      var orderly := JudgeShutdown(s);
      if orderly {
        TakeOver(s);
      }
    }

    /** Whether the last session ended in a shutdown type to be trusted. */
    method JudgeShutdown(s: Start) returns (orderly: bool)
      modifies this`invalidShutdown
      ensures orderly == Orderly(flags, s.color16) && invalidShutdown == (old(invalidShutdown) || !orderly)
    {
      if flags.shutdownType == BAD {
        invalidShutdown := true;
        return false;
      } else if s.color16 && (flags.shutdownType == RETURN_MENU || flags.shutdownType == IDLE) {
        invalidShutdown := true;
        return false;
      }
      return true;
    }

    /** What an orderly session hands over. */
    method TakeOver(s: Start)
      requires View() == FRESH.(flags := flags, lastMode := LastMode(flags.lastAppType)) && Orderly(flags, s.color16)
      modifies this`returnToMenu, this`returnToDataManager, this`returnToIdle, this`launchTitle
      modifies this`bootFromCache, this`bootCaching, this`driveReset, this`waitSpinup
      ensures View() == Booted(Some(flags), s.(replaced := false, readOk := true))
    {
      ReadPurpose(s);
      ChooseCache(s.noDisk);
    }

    method UpdateStateFlagsAndBootCache(s: Start)
      requires View() == FRESH
      modifies this
      ensures View() == Booted(old(nand), s)
      ensures nand == Stored(old(nand), BAD_FLAGS, s.writeOk)
    {
      ReadStateFlags(s);
      WriteStateFlags(Flags(0, BAD, DISC_CHANGED, MENU), s.writeOk);
      if s.replaced {
        bootFromCache, bootCaching, waitSpinup := false, true, true;
      }
    }

    /** The shutdown sequence of main; `off` if it has ended the session. */
    method ShutdownSequence(s: Start) returns (off: bool)
      modifies this
      ensures off <==> Off(old(View()), s)
      ensures !off ==> View() == Sequenced(old(View()), s) && nand == old(nand)
      ensures off ==> nand == Stored(old(nand), Written(old(nand), old(bootFromCache), APP_84,
                                                        if old(Ejecting(View(), s)) then OffType(s.closing) else OffTypeForBS(s.closing),
                                                        s.closing), s.closing.writeOk)
    {
      off := false;
      if !invalidShutdown {
        if flags.shutdownType == POWER_OFF && s.eject {
          if !s.noDisk && flags.shutdownType != LAUNCH_TITLE {
            ShutdownSystem(s.closing);
            return true;
          }
          bootFromCache, bootCaching := false, true;
        } else if returnToIdle {
          ShutdownSystemForBS(s.closing);
          return true;
        } else if s.discChanged && (flags.discState == DISC_NONE || flags.shutdownType == LAUNCH_TITLE) {
          driveReset, waitSpinup := true, true;
          bootFromCache, bootCaching := false, true;
        } else if returnToMenu || returnToDataManager {
          driveReset, waitSpinup := true, true;
        }
      } else {
        driveReset, waitSpinup := true, true;
      }
    }

    /** The part the reset functions have in common. */
    method CloseState(appType: U8, c: Closing) returns (state: Flags)
      requires appType == APP_84 || appType == APP_CHANNEL
      ensures state == Written(nand, bootFromCache, appType, state.shutdownType, c)
    {
      state := if Readable(nand, c.readOk) then nand.value else c.junk;
      state := state.(lastAppType := appType);
      if bootFromCache {
        state := state.(lastAppType := appType + APP_IPL);
      }
      if !c.coverClosed {
        state := state.(discState := DISC_NONE);
      } else {
        if !bootFromCache || c.rtcSet {
          state := state.(discState := DISC_CHANGED);
        } else {
          state := state.(discState := DISC_IN);
        }
      }
    }

    /** The source stores its disc state 2, which is the shutdown type for a restart. */
    method RebootSystem(c: Closing)
      modifies this`nand
      ensures nand == Stored(old(nand), Written(old(nand), bootFromCache, APP_84, RESTART, c), c.writeOk)
    {
      var state := CloseState(APP_84, c);
      state := state.(shutdownType := DISC_CHANGED);
      WriteStateFlags(state, c.writeOk);
    }

    method ShutdownSystem(c: Closing)
      modifies this`nand
      ensures nand == Stored(old(nand), Written(old(nand), bootFromCache, APP_84, OffType(c), c), c.writeOk)
    {
      var state := CloseState(APP_84, c);
      if c.standby {
        state := state.(shutdownType := IDLE);
      } else {
        state := state.(shutdownType := POWER_OFF);
      }
      WriteStateFlags(state, c.writeOk);
    }

    method ShutdownSystemForBS(c: Closing)
      modifies this`nand
      ensures nand == Stored(old(nand), Written(old(nand), bootFromCache, APP_84, OffTypeForBS(c), c), c.writeOk)
    {
      var state := CloseState(APP_84, c);
      if c.standby && !c.ios9 {
        state := state.(shutdownType := LAUNCH_TITLE);
      } else {
        state := state.(shutdownType := POWER_OFF);
      }
      WriteStateFlags(state, c.writeOk);
    }

    /** The source stores its disc state 3, which is the shutdown type for a return to the menu. */
    method ReturnToMenu(c: Closing)
      modifies this`nand
      ensures nand == Stored(old(nand), Written(old(nand), bootFromCache, APP_84, RETURN_MENU, c), c.writeOk)
    {
      var state := CloseState(APP_84, c);
      state := state.(shutdownType := DISC_NONE);
      WriteStateFlags(state, c.writeOk);
    }

    /** Before a title is launched: the record still says BAD. */
    method SetStateFlags(c: Closing)
      modifies this`nand
      ensures nand == Stored(old(nand), Written(old(nand), bootFromCache, APP_CHANNEL, BAD, c), c.writeOk)
    {
      var state := CloseState(APP_CHANNEL, c);
      state := state.(shutdownType := BAD);
      WriteStateFlags(state, c.writeOk);
    }

    // What BS2Mach.c does to the flags later in a session.

    method NANDCallback(failed: bool)
      modifies this
      ensures View() == Later(old(View()), NandResult(failed)) && nand == old(nand)
    {
      if failed {
        bootFromCache, bootCaching := false, false;
      }
    }

    method RestartStateMachine(rtcSet: bool)
      modifies this
      ensures View() == Later(old(View()), Restart(rtcSet)) && nand == old(nand)
    {
      if rtcSet {
        bootFromCache, bootCaching := false, true;
      }
    }

    /** The flags' part of BS2StartLoadingTitle, when it has found the title. */
    method TitleFound()
      modifies this
      ensures View() == Later(old(View()), LoadTitle) && nand == old(nand)
    {
      bootFromCache, bootCaching := false, false;
    }
  }

  function OffType(c: Closing): U8 {
    if c.standby then IDLE else POWER_OFF
  }

  function OffTypeForBS(c: Closing): U8 {
    if c.standby && !c.ios9 then LAUNCH_TITLE else POWER_OFF
  }

  // ---------------------------------------------------------------- histories

  datatype Event = NandResult(failed: bool) | Restart(rtcSet: bool) | LoadTitle | Announce(c: Closing)

  function Later(g: Globals, x: Event): Globals {
    match x
    case NandResult(failed) => if failed then g.(fromCache := false, caching := false) else g
    case Restart(rtcSet) => if rtcSet then g.(fromCache := false, caching := true) else g
    case LoadTitle => g.(fromCache := false, caching := false)
    case Announce(_) => g
  }

  /** How a session ends: with power lost or a launched title, or in a reset function. */
  datatype Ending = Abrupt | Reset(shutdownType: U8, c: Closing)

  datatype Session = Session(start: Start, events: seq<Event>, end: Ending)

  /** The running part of a session: the globals and the record after some events. */
  function Running(g: Globals, nand: Option<Flags>, events: seq<Event>): (Globals, Option<Flags>)
    decreases |events|
  {
    if events == [] then (g, nand)
    else
      var n := |events| - 1;
      var (g', nand') := Running(g, nand, events[..n]);
      (Later(g', events[n]), Announced(g', nand', events[n]))
  }

  function Announced(g: Globals, nand: Option<Flags>, x: Event): Option<Flags> {
    match x
    case Announce(c) => Stored(nand, Written(nand, g.fromCache, APP_CHANNEL, BAD, c), c.writeOk)
    case _ => nand
  }

  /** The globals with which a session goes on after main's shutdown sequence. */
  function AfterBoot(nand: Option<Flags>, s: Start): Globals {
    Sequenced(Booted(nand, s), s)
  }

  /** The record that a session leaves behind. */
  function Left(nand: Option<Flags>, x: Session): Option<Flags> {
    var g, bad := Booted(nand, x.start), Stored(nand, BAD_FLAGS, x.start.writeOk);
    if Off(g, x.start) then
      var c := x.start.closing;
      Stored(bad, Written(bad, g.fromCache, APP_84, if Ejecting(g, x.start) then OffType(c) else OffTypeForBS(c), c), c.writeOk)
    else
      var (h, found) := Running(Sequenced(g, x.start), bad, x.events);
      match x.end
      case Abrupt => found
      case Reset(shutdownType, c) => Stored(found, Written(found, h.fromCache, APP_84, shutdownType, c), c.writeOk)
  }

  /** After main's sequence exactly one of boot-from-cache and boot-caching holds. */
  lemma ExactlyOne(nand: Option<Flags>, s: Start)
    ensures AfterBoot(nand, s).fromCache <==> !AfterBoot(nand, s).caching
  {
    assert Booted(nand, s).fromCache <==> !Booted(nand, s).caching;
  }

  /** No later step makes both of them true, nor turns booting from the cache on again. */
  lemma {:induction false} NeverBoth(g: Globals, nand: Option<Flags>, events: seq<Event>)
    requires !(g.fromCache && g.caching)
    ensures var h := Running(g, nand, events).0;
            !(h.fromCache && h.caching) && (h.fromCache ==> g.fromCache)
    decreases |events|
  {
    if events != [] {
      NeverBoth(g, nand, events[..|events| - 1]);
    }
  }

  /** From boot on the record says BAD, whatever happens in the session before a reset function. */
  lemma {:induction false} StaysBad(g: Globals, nand: Option<Flags>, events: seq<Event>)
    requires nand.Some? && nand.value.shutdownType == BAD
    ensures var found := Running(g, nand, events).1;
            found.Some? && found.value.shutdownType == BAD
    decreases |events|
  {
    if events != [] {
      StaysBad(g, nand, events[..|events| - 1]);
    }
  }

  /** The shutdown type a session has managed to write at its end, or BAD. */
  function TypeLeft(nand: Option<Flags>, x: Session): U8 {
    var g, c := Booted(nand, x.start), x.start.closing;
    if Off(g, x.start) then (if !c.writeOk then BAD else if Ejecting(g, x.start) then OffType(c) else OffTypeForBS(c))
    else if x.end.Reset? && x.end.c.writeOk then x.end.shutdownType
    else BAD
  }

  lemma TypeIsLeft(nand: Option<Flags>, x: Session)
    requires x.start.writeOk
    ensures Left(nand, x).Some? && Left(nand, x).value.shutdownType == TypeLeft(nand, x)
  {
    if !Off(Booted(nand, x.start), x.start) {
      StaysBad(AfterBoot(nand, x.start), Some(BAD_FLAGS), x.events);
    }
  }

  /** The next boot takes a session for invalid exactly when its record cannot be read or does not
      name an orderly end: in particular whenever no reset function has written it. */
  lemma NextInvalidExact(nand: Option<Flags>, x: Session, next: Start)
    requires x.start.writeOk
    ensures Booted(Left(nand, x), next).invalid
       <==> !next.readOk || TypeLeft(nand, x) == BAD
            || (next.color16 && (TypeLeft(nand, x) == RETURN_MENU || TypeLeft(nand, x) == IDLE))
  {
    TypeIsLeft(nand, x);
  }

  /** So a session that ends abruptly makes the next one invalid, not from the cache, and with the
      drive reset. */
  lemma AbruptIsInvalid(nand: Option<Flags>, x: Session, next: Start)
    requires x.start.writeOk && !Off(Booted(nand, x.start), x.start) && x.end == Abrupt
    ensures var g := AfterBoot(Left(nand, x), next);
            g.invalid && !g.fromCache && g.caching && g.driveReset && g.waitSpinup
    ensures !Off(Booted(Left(nand, x), next), next)
  {
    NextInvalidExact(nand, x, next);
  }

  /** What a start must meet for the cache not to be dropped again. */
  predicate CacheKept(t: U8, s: Start) {
    && !s.noDisk && !s.replaced && !(t == POWER_OFF && s.eject) && !(t == LAUNCH_TITLE && s.discChanged)
    && t != BAD && !(s.color16 && (t == RETURN_MENU || t == IDLE))
  }

  /** A session boots from the cache exactly when the one before did so up to its end in a reset
      function, with the cover closed and the RTC flags clear, and nothing has dropped the cache since. */
  lemma CacheInheritedExact(nand: Option<Flags>, x: Session, t: U8, c: Closing, next: Start)
    requires x.start.writeOk && !Off(Booted(nand, x.start), x.start) && x.end == Reset(t, c) && c.writeOk
    ensures AfterBoot(Left(nand, x), next).fromCache
       <==> && Running(AfterBoot(nand, x.start), Some(BAD_FLAGS), x.events).0.fromCache
            && c.coverClosed && !c.rtcSet && next.readOk && CacheKept(t, next)
  {
    var h, found := Running(AfterBoot(nand, x.start), Some(BAD_FLAGS), x.events).0,
                    Running(AfterBoot(nand, x.start), Some(BAD_FLAGS), x.events).1;
    assert Left(nand, x) == Some(Written(found, h.fromCache, APP_84, t, c));
  }

  /** The application type holds a bit for the disc, a bit for the IPL's cache and a mode. */
  lemma AppTypeRead(dvd: bool, ipl: bool, mode: nat)
    requires mode < 64
    ensures var appType := (if dvd then 128 else 0) + (if ipl then 64 else 0) + mode;
            && (HasDvd(appType) <==> dvd) && (HasIpl(appType) <==> ipl)
            && LastMode(appType) == if dvd && (mode == 1 || mode == 2 || mode == 4) then mode else 0
  {
  }

  /** What a reset function asks for the next boot does: a session that ended in one, with its record
      written and trusted, is followed by one that goes to the menu, to the data manager, to idle or to a
      title exactly as the shutdown type says; after any other end nothing is asked for. */
  lemma PurposeInherited(nand: Option<Flags>, x: Session, next: Start)
    requires x.start.writeOk
    ensures var g, t := Booted(Left(nand, x), next), TypeLeft(nand, x);
            var asked := next.readOk && !(next.color16 && (t == RETURN_MENU || t == IDLE));
            && (g.toMenu <==> asked && t == RETURN_MENU) && (g.toIdle <==> asked && t == IDLE)
            && (g.launch <==> asked && t == LAUNCH_TITLE && next.launchInfo)
            && (g.toData <==> g.toMenu && Left(nand, x).value.menuMode == DATA_MANAGER)
  {
    TypeIsLeft(nand, x);
  }

  /** Switching a console with standby off leads to idle once: the session that shifts to idle leaves
      a type that does not, whatever the hardware answers. */
  lemma IdleOnce(nand: Option<Flags>, x: Session, between: Start, next: Start)
    requires x.start.writeOk && between.writeOk
    requires Booted(Left(nand, x), between).toIdle
    ensures TypeLeft(nand, x) == IDLE && Off(Booted(Left(nand, x), between), between)
    ensures forall y: Session :: y.start == between ==>
              !Booted(Left(Left(nand, x), y), next).toIdle && !Booted(Left(Left(nand, x), y), next).toMenu
  {
    PurposeInherited(nand, x, between);
    forall y: Session | y.start == between
      ensures !Booted(Left(Left(nand, x), y), next).toIdle && !Booted(Left(Left(nand, x), y), next).toMenu
    {
      PurposeInherited(Left(nand, x), y, next);
    }
  }

  /** Switched off by the user, a console with standby goes to idle with the next boot, and one without
      does not. */
  lemma StandbyIdles(nand: Option<Flags>, x: Session, c: Closing, next: Start)
    requires x.start.writeOk && !Off(Booted(nand, x.start), x.start) && x.end == Reset(OffType(c), c) && c.writeOk
    ensures Booted(Left(nand, x), next).toIdle <==> next.readOk && !next.color16 && c.standby
  {
    PurposeInherited(nand, x, next);
  }

  /** A session that goes on does so without waiting for the drive exactly when it boots from the cache
      and has not been asked to the menu; it only resets the drive if it waits for it, and always does
      after an invalid end. */
  lemma WaitsExact(nand: Option<Flags>, s: Start)
    requires !Off(Booted(nand, s), s)
    ensures var g := AfterBoot(nand, s);
            && (!g.waitSpinup <==> g.fromCache && !g.toMenu)
            && (g.driveReset ==> g.waitSpinup) && (g.invalid ==> g.driveReset)
  {
    assert Booted(nand, s).fromCache <==> !Booted(nand, s).waitSpinup;
  }

  /** The disc state is told from the cover, the cache and the RTC flags. */
  lemma DiscStateLeft(nand: Option<Flags>, fromCache: bool, appType: U8, t: U8, c: Closing)
    requires appType == APP_84 || appType == APP_CHANNEL
    ensures var f := Written(nand, fromCache, appType, t, c);
            && (f.discState == DISC_NONE <==> !c.coverClosed)
            && (f.discState == DISC_IN <==> c.coverClosed && fromCache && !c.rtcSet)
            && (HasIpl(f.lastAppType) <==> fromCache) && HasDvd(f.lastAppType)
            && LastMode(f.lastAppType) == (if appType == APP_84 then 4 else 1)
            && (nand.Some? && c.readOk ==> f.menuMode == nand.value.menuMode)
  {
    AppTypeRead(true, fromCache, if appType == APP_84 then 4 else 1);
  }

  // ---------------------------------------------------------------- whole histories

  predicate NoIpl(nand: Option<Flags>) {
    nand.Some? ==> !HasIpl(nand.value.lastAppType)
  }

  lemma {:induction false} NoIplRunning(g: Globals, nand: Option<Flags>, events: seq<Event>)
    requires !g.fromCache && NoIpl(nand)
    ensures !Running(g, nand, events).0.fromCache && NoIpl(Running(g, nand, events).1)
    decreases |events|
  {
    if events != [] {
      var (h, found) := Running(g, nand, events[..|events| - 1]);
      NoIplRunning(g, nand, events[..|events| - 1]);
      NoIplAnnounced(h, found, events[|events| - 1]);
    }
  }

  lemma NoIplAnnounced(g: Globals, nand: Option<Flags>, x: Event)
    requires !g.fromCache && NoIpl(nand)
    ensures !Later(g, x).fromCache && NoIpl(Announced(g, nand, x))
  {
    assert !HasIpl(APP_CHANNEL);
  }

  /** The record after a history of sessions. */
  function History(nand: Option<Flags>, sessions: seq<Session>): Option<Flags>
    decreases |sessions|
  {
    if sessions == [] then nand else Left(History(nand, sessions[..|sessions| - 1]), sessions[|sessions| - 1])
  }

  /** Booting from the cache is only ever passed on: over every history of sessions of this
      program, from a record without the IPL bit, no session boots from the cache. */
  lemma {:induction false} CacheNeverArises(nand: Option<Flags>, sessions: seq<Session>, next: Start)
    requires NoIpl(nand)
    ensures NoIpl(History(nand, sessions)) && !Booted(History(nand, sessions), next).fromCache
    decreases |sessions|
  {
    if sessions != [] {
      var n := |sessions| - 1;
      CacheNeverArises(nand, sessions[..n], sessions[n].start);
      SessionLeavesNoIpl(History(nand, sessions[..n]), sessions[n]);
    }
  }

  lemma SessionLeavesNoIpl(nand: Option<Flags>, x: Session)
    requires NoIpl(nand)
    ensures NoIpl(Left(nand, x))
  {
    NoIplRunning(AfterBoot(nand, x.start), Stored(nand, BAD_FLAGS, x.start.writeOk), x.events);
  }
}
