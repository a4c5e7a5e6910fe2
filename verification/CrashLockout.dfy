/**
 * The crash latch and the supervisor together: after five crash boots in a row the charger
 * keeps its contactor open until the flag of the latch has dropped and the fault has been
 * cleared by request after that.
 */
module CrashLockout {
  import Fault
  import CrashState
  import opened Evse
  import opened EvseRuns

  /**
   * What a power cycle sees of the latch's flag: its value at boot, until the alive marker
   * has reset it, from tick `dropped` on.
   */
  predicate FlagSeen(flag: bool, dropped: nat, boot: BootInput, xs: seq<Input>) {
    boot.safeFail == flag && forall i :: 0 <= i < |xs| ==> xs[i].safeFail == (flag && i < dropped)
  }

  /** Some tick since the flag dropped has taken a clear of this fault, or of all. */
  ghost predicate ClearedSince(dropped: nat, xs: seq<Input>) {
    exists i :: dropped <= i < |xs| && Covered(Taken(xs[i].requests), Fault.CRASH_LOOP_SAFE_FAIL)
  }

  /** The fault is up exactly from a boot with the flag set until it is cleared with the flag down. */
  lemma {:induction false} UpExactlyUntilCleared(flag: bool, dropped: nat, boot: BootInput, xs: seq<Input>)
    requires FlagSeen(flag, dropped, boot, xs)
    ensures Fault.CRASH_LOOP_SAFE_FAIL in Run(Booted(boot), xs).faults.active <==> flag && !ClearedSince(dropped, xs)
    decreases |xs|
  {
    BootEndsWell(boot);
    if xs != [] {
      var n := |xs| - 1;
      var ys, x := xs[..n], xs[n];
      assert xs == ys + [x] && x.safeFail == (flag && n < dropped);
      UpExactlyUntilCleared(flag, dropped, boot, ys);
      RunEndsWell(Booted(boot), ys);
      TickLatches(Run(Booted(boot), ys), x, Fault.CRASH_LOOP_SAFE_FAIL);
      ClearedStep(dropped, ys, x);
      NoneClearedBefore(dropped, xs);
    }
  }

  lemma NoneClearedBefore(dropped: nat, xs: seq<Input>)
    ensures |xs| <= dropped ==> !ClearedSince(dropped, xs)
  {
  }

  lemma ClearedStep(dropped: nat, ys: seq<Input>, x: Input)
    ensures ClearedSince(dropped, ys + [x]) <==>
      ClearedSince(dropped, ys) || (dropped <= |ys| && Covered(Taken(x.requests), Fault.CRASH_LOOP_SAFE_FAIL))
  {
    var xs := ys + [x];
    if ClearedSince(dropped, ys) {
      var i :| dropped <= i < |ys| && Covered(Taken(ys[i].requests), Fault.CRASH_LOOP_SAFE_FAIL);
      assert xs[i] == ys[i];
    }
    if dropped <= |ys| && Covered(Taken(x.requests), Fault.CRASH_LOOP_SAFE_FAIL) {
      assert xs[|ys|] == x;
    }
  }

  /**
   * After a history of boots and alive markers whose last five are crash boots, the charger
   * boots into a fault and is locked out at every tick end, until a clear is taken with the
   * flag down; after any other history the latch does not keep it from becoming ready, and
   * never raises its fault.
   */
  lemma CrashLoopLocksOut(latch: CrashState.CrashLatch, history: seq<CrashState.Event>, dropped: nat,
                          boot: BootInput, xs: seq<Input>)
    requires CrashState.Reflects(latch, CrashState.Streak(history))
    requires FlagSeen(latch.safeFail, dropped, boot, xs)
    ensures CrashState.FiveCrashBoots(history) && !ClearedSince(dropped, xs) ==> LockedOut(Run(Booted(boot), xs))
    ensures Fault.CRASH_LOOP_SAFE_FAIL in Run(Booted(boot), xs).faults.active <==>
      CrashState.FiveCrashBoots(history) && !ClearedSince(dropped, xs)
    ensures !CrashState.FiveCrashBoots(history) && !SelfTestFails(boot) ==> Booted(boot).phase == Ready
  {
    CrashState.StreakCountsBack(history, CrashState.THRESHOLD);
    BootEndsWell(boot);
    RunEndsWell(Booted(boot), xs);
    UpExactlyUntilCleared(latch.safeFail, dropped, boot, xs);
    if CrashState.FiveCrashBoots(history) && !ClearedSince(dropped, xs) {
      LatchedLocksOut(Run(Booted(boot), xs), Fault.CRASH_LOOP_SAFE_FAIL);
    }
  }
}
