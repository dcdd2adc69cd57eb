/** The recursive mutex as the object it is: want_x_lock, owner_thread_id, recursive_xlock_count and the slot
    array, with its reference count, stored and loaded in place one atomic access at a time. */
module RecursiveMutexObject {
  import opened RecursiveMutex

  lemma {:induction false} RegisteredUpdate(threads: seq<Local>, t: nat, l: Local)
    requires t < |threads|
    ensures Registered(threads[t := l])
            == Registered(threads) - (if threads[t].index.Slot? then 1 else 0) + (if l.index.Slot? then 1 else 0)
  {
    if t == 0 {
      assert threads[t := l][1..] == threads[1..];
    } else {
      RegisteredUpdate(threads[1..], t - 1, l);
      assert threads[t := l][1..] == threads[1..][t - 1 := l];
    }
  }

  lemma {:induction false} NoneRegistered(n: nat)
    ensures Registered(seq(n, _ => Local(Outside, NoSlot, 0, 0, 0))) == 0
  {
    if n > 0 {
      NoneRegistered(n - 1);
      assert seq(n, _ => Local(Outside, NoSlot, 0, 0, 0))[1..] == seq(n - 1, _ => Local(Outside, NoSlot, 0, 0, 0));
    }
  }

  class Mutex {
    var want_x_lock: bool
    var owner_thread_id: Owner
    var recursive_xlock_count: int
    var useCount: int             // of the shared pointer to the slot array
    const slots: array<int>
    const threads: array<Local>   // the thread-local entries, by thread

    ghost function Contents(): State
      reads this, slots, threads
    {
      State(want_x_lock, owner_thread_id, recursive_xlock_count, slots[..], threads[..])
    }

    /** The mutex and each registered thread's map entry hold one reference each. */
    ghost predicate Valid()
      reads this, threads
    {
      useCount == 1 + Registered(threads[..])
    }

    constructor (slotCount: nat, threadCount: nat)
      ensures fresh(slots) && fresh(threads)
      ensures Valid() && Contents() == Init(slotCount, threadCount)
    {
      want_x_lock, owner_thread_id, recursive_xlock_count, useCount := false, NoOwner, 0, 1;
      slots := new int[slotCount](_ => 0);
      threads := new Local[threadCount](_ => Local(Outside, NoSlot, 0, 0, 0));
      new;
      NoneRegistered(threadCount);
      assert threads[..] == seq(threadCount, _ => Local(Outside, NoSlot, 0, 0, 0));
    }

    /** The thread's own entry; its slot stays. */
    method Put(t: nat, l: Local)
      requires Valid() && t < threads.Length && l.index == threads[t].index
      modifies threads
      ensures Valid() && threads[..] == old(threads[..])[t := l]
    {
      RegisteredUpdate(threads[..], t, l);
      threads[t] := l;
    }

    method Go(t: nat, pc: PC)
      requires Valid() && t < threads.Length
      modifies threads
      ensures Valid() && threads[..] == old(threads[..])[t := old(threads[t]).(pc := pc)]
    {
      Put(t, threads[t].(pc := pc));
    }

    method CallStep(t: nat, a: Action)
      requires Valid() && Enabled(Contents(), t, a) && threads[t].pc.Outside?
      modifies threads
      ensures Valid() && Contents() == Next(old(Contents()), t, a)
    {
      var l := threads[t];
      match a
      case LockShared => Go(t, if l.index.Slot? then LoadDepth else UseCount);
      case UnlockShared =>
        if l.index.Slot? {
          Put(t, l.(pc := LoadHeld, slotDepth := l.slotDepth - 1));
        } else {
          Put(t, l.(pc := Drop, spillDepth := l.spillDepth - 1));
        }
      case Lock => Go(t, XOwner);
      case Unlock => Put(t, l.(pc := Drop, xDepth := l.xDepth - 1));
      case UnregisterThread =>
        if slots[l.index.i] == 1 {
          Go(t, Unregister(false));
        }
      case Exit => Go(t, if l.index.Slot? then Unregister(true) else Gone);
    }

    /** register_thread, and the destructor that gives the slot back. */
    method Registration(t: nat, a: Action)
      requires Valid() && Enabled(Contents(), t, a)
      requires var pc := threads[t].pc; pc.UseCount? || pc.TrySlot? || pc.TakeSlot? || pc.Unregister?
      requires threads[t].pc.TakeSlot? ==> threads[t].index.NoSlot?
      modifies this, slots, threads
      ensures Valid() && Contents() == Next(old(Contents()), t, a)
    {
      var l := threads[t];
      match l.pc
      case UseCount => Go(t, if useCount <= slots.Length then TrySlot(0) else SpillOwner);
      case TrySlot(i) =>
        Go(t, if i == slots.Length then SpillOwner else if slots[i] == 0 then TakeSlot(i) else TrySlot(i + 1));
      case TakeSlot(i) =>
        if slots[i] == 0 {
          slots[i] := 1;
          RegisteredUpdate(threads[..], t, l.(pc := LoadDepth, index := Slot(i)));
          threads[t] := l.(pc := LoadDepth, index := Slot(i));
          useCount := useCount + 1;
        } else {
          Go(t, TrySlot(i + 1));
        }
      case Unregister(exits) =>
        slots[l.index.i] := slots[l.index.i] - 1;
        RegisteredUpdate(threads[..], t, l.(pc := if exits then Gone else Outside, index := NoSlot));
        threads[t] := l.(pc := if exits then Gone else Outside, index := NoSlot);
        useCount := useCount - 1;
    }

    /** One access to the thread's own slot, or to a slot it scans. */
    method SlotAccess(t: nat, a: Action)
      requires Valid() && Enabled(Contents(), t, a)
      requires var pc := threads[t].pc;
               || pc.LoadDepth? || pc.Deepen? || pc.Announce? || pc.Retreat? || pc.LoadHeld? || pc.Shallow?
               || (pc.XScan? && pc.j < slots.Length)
      modifies slots, threads
      ensures Valid() && Contents() == Next(old(Contents()), t, a)
    {
      var l := threads[t];
      match l.pc
      case LoadDepth =>
        var d := slots[l.index.i];
        Go(t, if d > 1 then Deepen(d) else Announce(d));
      case Deepen(d) =>
        slots[l.index.i] := d + 1;
        Put(t, l.(pc := Outside, slotDepth := l.slotDepth + 1));
      case Announce(d) =>
        slots[l.index.i] := d + 1;
        Go(t, Recheck(d));
      case Retreat(d) =>
        slots[l.index.i] := d;
        Go(t, Spin(d));
      case LoadHeld => Go(t, Shallow(slots[l.index.i]));
      case Shallow(d) =>
        slots[l.index.i] := d - 1;
        Go(t, Outside);
      case XScan(j) =>
        if slots[j] <= 1 {
          Go(t, XScan(j + 1));
        }
    }

    /** One access to want_x_lock. */
    method FlagAccess(t: nat, a: Action)
      requires Valid() && Enabled(Contents(), t, a)
      requires var pc := threads[t].pc; pc.Recheck? || pc.Spin? || pc.SpillCas? || pc.XCas? || pc.ClearWant?
      modifies this, threads
      ensures Valid() && Contents() == Next(old(Contents()), t, a)
    {
      var l := threads[t];
      match l.pc
      case Recheck(d) =>
        if want_x_lock {
          Go(t, Retreat(d));
        } else {
          Put(t, l.(pc := Outside, slotDepth := l.slotDepth + 1));
        }
      case Spin(d) =>
        if !want_x_lock {
          Go(t, Announce(d));
        }
      case SpillCas =>
        if !a.CasFails? && !want_x_lock {
          want_x_lock := true;
          Go(t, SpillStore);
        }
      case XCas =>
        if !a.CasFails? && !want_x_lock {
          want_x_lock := true;
          Go(t, XStore);
        }
      case ClearWant =>
        want_x_lock := false;
        Go(t, Outside);
    }

    /** One access to owner_thread_id or recursive_xlock_count. */
    method OwnerAccess(t: nat, a: Action)
      requires Valid() && Enabled(Contents(), t, a)
      requires var pc := threads[t].pc;
               || pc.SpillOwner? || pc.SpillStore? || pc.SpillCount? || pc.XOwner? || pc.XStore?
               || pc == XScan(slots.Length) || pc.Drop? || pc.ClearOwner?
      modifies this, threads
      ensures Valid() && Contents() == Next(old(Contents()), t, a)
    {
      var l := threads[t];
      match l.pc
      case SpillOwner => Go(t, if owner_thread_id == OwnedBy(t) then SpillCount else SpillCas);
      case SpillStore =>
        owner_thread_id := OwnedBy(t);
        Go(t, SpillCount);
      case SpillCount =>
        recursive_xlock_count := recursive_xlock_count + 1;
        Put(t, l.(pc := Outside, spillDepth := l.spillDepth + 1));
      case XOwner => Go(t, if owner_thread_id == OwnedBy(t) then XScan(slots.Length) else XCas);
      case XStore =>
        owner_thread_id := OwnedBy(t);
        Go(t, XScan(0));
      case XScan(_) =>
        recursive_xlock_count := recursive_xlock_count + 1;
        Put(t, l.(pc := Outside, xDepth := l.xDepth + 1));
      case Drop =>
        recursive_xlock_count := recursive_xlock_count - 1;
        Go(t, if recursive_xlock_count == 0 then ClearOwner else Outside);
      case ClearOwner =>
        owner_thread_id := NoOwner;
        Go(t, ClearWant);
    }

    /** One atomic step of thread t, in place; the invariant and exclusion are kept. */
    method StepInPlace(t: nat, a: Action)
      requires Valid() && Enabled(Contents(), t, a) && Inv(Contents())
      modifies this, slots, threads
      ensures Valid() && Contents() == Next(old(Contents()), t, a)
      ensures Inv(Contents()) && Exclusion(Contents())
    {
      hide Inv, Next, Enabled;
      ghost var s := Contents();
      Step(s, t, a);
      EnabledMeans(s, t, a);
      var pc := threads[t].pc;
      if pc.Outside? {
        CallStep(t, a);
      } else if pc.UseCount? || pc.TrySlot? || pc.TakeSlot? || pc.Unregister? {
        Registration(t, a);
      } else if pc.Recheck? || pc.Spin? || pc.SpillCas? || pc.XCas? || pc.ClearWant? {
        FlagAccess(t, a);
      } else if pc.LoadDepth? || pc.Deepen? || pc.Announce? || pc.Retreat? || pc.LoadHeld? || pc.Shallow?
                || (pc.XScan? && pc.j < slots.Length) {
        SlotAccess(t, a);
      } else {
        OwnerAccess(t, a);
      }
      InvExcludes(Contents());
    }
  }

  lemma EnabledMeans(s: State, t: nat, a: Action)
    requires Enabled(s, t, a) && Inv(s)
    ensures t < |s.threads| && !s.threads[t].pc.Gone?
    ensures s.threads[t].pc.XScan? ==> s.threads[t].pc.j <= |s.slots|
    ensures s.threads[t].pc.TakeSlot? ==> s.threads[t].index.NoSlot?
  {
    assert LocalOk(s.slots, s.threads[t]);
  }
}
