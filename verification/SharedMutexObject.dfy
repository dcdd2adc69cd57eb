/** The lock as the object it is: spLock, the slot array and the threads' own
    map entries, updated in place one atomic access at a time. */
module SharedMutexObject {
  import opened SharedMutex

  class Mutex {
    var spLock: bool
    const flags: array<Flag>
    const threads: array<Local>   // the thread-local entries, by thread
    const protocol: Protocol

    ghost function Contents(): State
      reads this, flags, threads
    {
      State(spLock, flags[..], threads[..])
    }

    constructor (slots: nat, threadCount: nat, p: Protocol)
      ensures fresh(flags) && fresh(threads) && protocol == p
      ensures Contents() == Init(slots, threadCount)
    {
      spLock := false;
      flags := new Flag[slots](_ => Unregistered);
      threads := new Local[threadCount](_ => Local(Outside, NoEntry));
      protocol := p;
    }

    method Go(t: nat, pc: PC)
      requires t < threads.Length
      modifies threads
      ensures threads[..] == old(threads[..])[t := Local(pc, old(threads[t]).index)]
    {
      threads[t] := threads[t].(pc := pc);
    }

    /** The call a thread makes from outside, up to but not including its first atomic access. */
    method Call(t: nat, a: Action)
      requires Enabled(Contents(), t, a) && threads[t].pc.Outside?
      modifies threads
      ensures Contents() == Next(protocol, old(Contents()), t, a)
    {
      var index := threads[t].index;
      if a.LockShared? {
        // getOrSetIndex: a thread without an entry gets one and tries to register
        match index {
          case NoEntry => threads[t] := Local(RegCas(0), Unslotted);
          case Unslotted => Go(t, SpillCas);
          case Slot(_) => Go(t, Enter(protocol));
        }
      } else if a.Lock? {
        Go(t, XCas);
      } else {
        Go(t, if index.Slot? then Exiting else Gone);
      }
    }

    /** One access to the thread's own slot, or to a slot it tries or scans. */
    method SlotAccess(t: nat, a: Action)
      requires Enabled(Contents(), t, a)
      requires var pc := threads[t].pc;
               pc.RegCas? || pc.Announce? || pc.Retreat? || pc.Exiting? || (pc.XScan? && pc.j < flags.Length)
      modifies flags, threads
      ensures Contents() == Next(protocol, old(Contents()), t, a)
    {
      var l := threads[t];
      match l.pc
      case RegCas(i) =>
        if i == flags.Length {
          Go(t, SpillCas);
        } else if flags[i].Unregistered? {
          flags[i] := Registered;
          threads[t] := Local(Enter(protocol), Slot(i));
        } else {
          Go(t, RegCas(i + 1));
        }
      case Announce =>
        flags[l.index.i] := SharedLock;
        Go(t, if protocol.Handshake? then Recheck else InShared(true));
      case Retreat =>
        flags[l.index.i] := PrepareLock;
        Go(t, Spin);
      case XScan(j) =>
        if !flags[j].SharedLock? {
          Go(t, XScan(j + 1));
        }
      case Exiting =>
        if !a.CasFails? && flags[l.index.i].Registered? {
          flags[l.index.i] := Unregistered;
          Go(t, Gone);
        }
    }

    /** One access to spLock, or the store that ends a section. */
    method SpillAccess(t: nat, a: Action)
      requires Enabled(Contents(), t, a)
      requires var pc := threads[t].pc;
               pc.Recheck? || pc.Spin? || pc.SpillCas? || pc.XCas? || pc.InShared? || pc == XScan(flags.Length)
      modifies this, flags, threads
      ensures Contents() == Next(protocol, old(Contents()), t, a)
    {
      var l := threads[t];
      match l.pc
      case Recheck => Go(t, if spLock then Retreat else InShared(true));
      case Spin =>
        if !spLock {
          Go(t, Announce);
        }
      case SpillCas =>
        if !a.CasFails? && !spLock {
          spLock := true;
          Go(t, InShared(false));
        }
      case XCas =>
        if !a.CasFails? && !spLock {
          spLock := true;
          Go(t, XScan(0));
        }
      case InShared(_) =>
        if l.index.Slot? {
          flags[l.index.i] := Registered;
        } else {
          spLock := false;
        }
        Go(t, Outside);
      case XScan(_) =>
        spLock := false;
        Go(t, Outside);
    }

    /** One atomic step of thread t, in place. */
    method Step(t: nat, a: Action)
      requires Enabled(Contents(), t, a)
      modifies this, flags, threads
      ensures Contents() == Next(protocol, old(Contents()), t, a)
      ensures protocol.Handshake? && old(HandshakeInv(Contents())) ==> HandshakeInv(Contents()) && Exclusion(Contents())
    {
      ghost var s := Contents();
      var pc := threads[t].pc;
      if pc.Outside? {
        Call(t, a);
      } else if pc.RegCas? || pc.Announce? || pc.Retreat? || pc.Exiting? || (pc.XScan? && pc.j < flags.Length) {
        SlotAccess(t, a);
      } else {
        SpillAccess(t, a);
      }
      if protocol.Handshake? && HandshakeInv(s) {
        HandshakeStep(s, t, a);
        InvExcludes(Contents());
      }
    }
  }
}
