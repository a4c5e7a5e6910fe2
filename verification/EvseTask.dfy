/**
 * The supervisor as the firmware has it: variables updated in place, step by step. Every
 * method is shown to do to the state what the corresponding function of `Evse` says, so
 * everything proved of `Tick` and `Run` holds of the variables.
 */
module EvseTask {
  import opened J1772
  import Fault
  import GfciPolicy
  import OverTemp
  import opened SoftOverCurrent
  import opened Evse
  import opened EvseInvariant
  import opened EvseRuns

  class Supervisor {
    const pilot: Classifier
    const faults: Fault.Register
    const gfci: GfciPolicy.Detector
    const overTemp: OverTemp.Detector

    var phase: Phase
    var session: bool
    var derate: nat
    var window: nat
    var authorized: bool
    var learn: nat
    var closed: bool
    var latch: bool
    var cp: Pwm

    var cpEStreak: nat
    var cStreak: nat
    var adcStreak: nat
    var pollDiv: nat
    var acStreak: nat
    var weldStreak: nat
    var weldSettle: nat
    var weldWasClosed: bool
    var stuckStreak: nat
    var hocStreak: nat
    var socStreak: nat

    function View(): State
      reads this, pilot, faults, gfci, overTemp
    {
      State(phase, faults.View(), pilot.View(), session, derate, window, authorized, learn, closed, latch, cp,
            gfci.View(), overTemp.View(), cpEStreak, cStreak, adcStreak,
            Metering(pollDiv, acStreak, weldStreak, weldSettle, weldWasClosed, stuckStreak, hocStreak, socStreak))
    }

    constructor ()
      ensures View() == POWER_ON
      ensures fresh(pilot) && fresh(faults) && fresh(gfci) && fresh(overTemp)
    {
      pilot := new Classifier();
      faults := new Fault.Register();
      gfci := new GfciPolicy.Detector();
      overTemp := new OverTemp.Detector();
      phase, session, derate, window, authorized, learn := Boot, false, 0, 0, false, 0;
      closed, latch, cp := false, false, IdleHigh;
      cpEStreak, cStreak, adcStreak, pollDiv, acStreak, weldStreak, weldSettle := 0, 0, 0, 0, 0, 0, 0;
      weldWasClosed, stuckStreak, hocStreak, socStreak := false, 0, 0, 0;
    }

    // ----------------------------------------------------------- transitions

    method SessionEnd()
      modifies this`session, this`derate
      ensures session == false && derate == if old(session) then 0 else old(derate)
    {
      if !session {
        return;
      }
      session := false;
      derate := 0;
    }

    method EvseTransition(next: Phase)
      modifies this`phase, this`session, this`derate, this`closed, this`latch, this`cp
      ensures View() == Transition(old(View()), next)
    {
      if phase == next {
        return;
      }
      MoveSession(next);
      EnterPhase(next);
    }

    method MoveSession(next: Phase)
      requires phase != next
      modifies this`session, this`derate
      ensures View() == SessionMoved(old(View()), next)
    {
      if next == Charging {
        session := true;
      } else if phase == Charging {
        SessionEnd();
      }
    }

    method EnterPhase(next: Phase)
      modifies this`phase, this`closed, this`latch, this`cp
      ensures View() == PhaseEntered(old(View()), next)
    {
      phase := next;
      if next == Faulted {
        cp := StateF;
        closed := false;
        latch := true;
      } else if latch {
        latch := false;
      }
    }

    /** The common tail of the latched detectors. */
    method RaiseOnce(id: nat)
      requires Fault.IdOk(id)
      modifies this`phase, this`session, this`derate, this`closed, this`latch, this`cp, faults
      ensures View() == Tripped(old(View()), id)
    {
      if !faults.IsActive(id) {
        var rc := faults.Raise(id);
        EvseTransition(Faulted);
      }
    }

    // -------------------------------------------------------------- requests

    method ClearFaults(id: nat)
      requires !ClearRefused(id)
      modifies this`cpEStreak, faults
      ensures View() == AfterClear(old(View()), id)
    {
      var cleared := false;
      if id == 0 {
        var n := faults.ClearAllClearable();
        cleared := n > 0;
      } else {
        var rc := faults.Clear(id);
        cleared := rc == 1;
      }
      if cleared && (id == 0 || id == Fault.CP_NO_PILOT) {
        cpEStreak := 0;
      }
    }

    method Recover()
      modifies this`phase, this`session, this`derate, this`closed, this`latch, this`cp, this`cpEStreak, faults, pilot
      ensures View() == Recovered(old(View()))
    {
      EvseTransition(Ready);
      faults.firstRaised := Fault.NONE;
      cpEStreak := 0;
      pilot.Init();
    }

    method HandleClear(id: nat)
      modifies this, faults, pilot
      ensures View() == Processed(old(View()), ClearFault(id))
    {
      if id != 0 && (id == Fault.GFCI || id >= Fault.COUNT) {
        return;
      }
      ClearFaults(id);
      if phase == Faulted {
        var any := faults.AnyLatchedActive();
        if !any {
          Recover();
        }
      }
    }

    method HandleReplug()
      modifies this
      ensures View() == Processed(old(View()), SimulateReplug)
    {
      if pilot.committed != B && pilot.committed != C && pilot.committed != D {
        return;
      }
      if phase == Ready || phase == Charging || phase == UserPaused || phase == CoolingDown {
        EvseTransition(UserPaused);
        OpenWindow();
      }
    }

    method OpenWindow()
      modifies this`window, this`cp
      ensures View() == old(View()).(window := REPLUG_WINDOW_TICKS, cp := StateF)
    {
      window := REPLUG_WINDOW_TICKS;
      cp := StateF;
    }

    method ProcessRequest(r: Request)
      modifies this, faults, pilot
      ensures View() == Processed(old(View()), r)
    {
      match r {
        case ClearFault(id) =>
          HandleClear(id);
        case UserPause =>
          if phase == Ready || phase == Charging {
            EvseTransition(UserPaused);
          }
        case UserResume =>
          if phase == UserPaused {
            EvseTransition(Ready);
          }
        case LearnArm =>
          learn := LEARN_TICKS;
        case SimulateReplug =>
          HandleReplug();
        case Publish =>
        case RunGfciCalTest =>
        case Unknown =>
      }
    }

    /** At most four requests a tick; the rest of the inbox waits. */
    method DrainInbox(inbox: seq<Request>)
      modifies this, faults, pilot
      ensures View() == Drained(old(View()), Taken(inbox))
    {
      var n := if |inbox| < 4 then |inbox| else 4;
      for i := 0 to n
        invariant View() == Drained(old(View()), inbox[..i])
      {
        assert inbox[..i + 1][..i] == inbox[..i];
        ProcessRequest(inbox[i]);
      }
      assert inbox[..n] == Taken(inbox);
    }

    method ServiceWindow()
      modifies this, pilot
      ensures View() == WindowServed(old(View()))
    {
      if window > 0 {
        window := window - 1;
        if window == 0 {
          EndWindow();
        }
      }
    }

    method EndWindow()
      modifies this, pilot
      ensures View() == WindowOver(old(View()))
    {
      if phase == UserPaused {
        EvseTransition(Ready);
      }
      StartAfresh();
    }

    /** The pilot is about to swing: its classifier and its fault streak start over. */
    method StartAfresh()
      modifies this`cpEStreak, pilot
      ensures View() == old(View()).(cpEStreak := 0, pilot := FRESH)
    {
      cpEStreak := 0;
      pilot.Init();
    }

    // ------------------------------------------------------------- detectors

    /** The streak of a detector: it grows up to its limit while the condition is seen, and starts over when not. */
    static method Count(streak: nat, seen: bool, limit: nat) returns (n: nat)
      ensures n == Evse.Counted(streak, seen, limit)
    {
      n := streak;
      if seen {
        if n < limit {
          n := n + 1;
        }
      } else {
        n := 0;
      }
    }

    method CheckSafeFail(safeFail: bool)
      modifies this, faults
      ensures View() == SafeFailChecked(old(View()), safeFail)
    {
      if safeFail {
        RaiseOnce(Fault.CRASH_LOOP_SAFE_FAIL);
      }
    }

    method CheckGfci(low: bool, policy: nat)
      modifies this, faults, gfci
      ensures View() == GfciChecked(old(View()), GfciPolicy.Sample(low, policy))
    {
      var act := gfci.Step(low, policy);
      match act {
        case Nothing =>
        case WarnEmit =>
        case RaiseFault =>
          var rc := faults.Raise(Fault.GFCI);
          EvseTransition(Faulted);
      }
    }

    method CheckAdcRuntime(ac: nat, ct: nat, lct: nat)
      modifies this, faults
      ensures View() == AdcChecked(old(View()), OnRail(ac) || OnRail(ct) || OnRail(lct))
    {
      if phase == Boot || phase == SelfTest || phase == Faulted {
        adcStreak := 0;
        return;
      }
      var ranks := [ac, ct, lct];
      var rail := false;
      for i := 0 to |ranks|
        invariant rail <==> exists k :: 0 <= k < i && OnRail(ranks[k])
      {
        if ranks[i] < ADC_MIN || ranks[i] > ADC_MAX {
          rail := true;
        }
      }
      assert rail <==> OnRail(ranks[0]) || OnRail(ranks[1]) || OnRail(ranks[2]);
      adcStreak := Count(adcStreak, rail, ADC_PERSIST_TICKS);
      if adcStreak >= ADC_PERSIST_TICKS {
        RaiseOnce(Fault.ADC_OUT_OF_RANGE);
      }
    }

    method CheckCpE()
      modifies this, faults
      ensures View() == CpEChecked(old(View()))
    {
      if phase == Faulted || window > 0 {
        cpEStreak := 0;
        return;
      }
      cpEStreak := Count(cpEStreak, pilot.committed == E, CP_E_PERSIST_TICKS);
      if cpEStreak >= CP_E_PERSIST_TICKS {
        RaiseOnce(Fault.CP_NO_PILOT);
      }
    }

    method CheckOverTemp(x: OverTemp.Sample)
      modifies this, faults, overTemp
      ensures View() == OverTempChecked(old(View()), x)
    {
      overTemp.faultActive := faults.IsActive(Fault.OVER_TEMP);
      var act := overTemp.Step(x);
      match act {
        case Stay =>
        case Trip =>
          var rc := faults.Raise(Fault.OVER_TEMP);
          if phase != Faulted {
            EvseTransition(CoolingDown);
          }
        case Clear =>
          var rc := faults.Clear(Fault.OVER_TEMP);
          if phase == CoolingDown {
            EvseTransition(Ready);
          }
      }
    }

    // ------------------------------------------------- phase, relay and pilot

    method UpdateFromPilot(requireAuth: bool)
      modifies this
      ensures View() == Updated(old(View()), requireAuth)
    {
      var js := pilot.committed;
      if phase == Faulted || phase == Boot || phase == SelfTest || phase == CoolingDown {
        cStreak := 0;
        return;
      }
      if js == A && authorized {
        authorized := false;
      }
      if phase == UserPaused {
        HoldPause();
        return;
      }
      Dwell(requireAuth);
    }

    method HoldPause()
      modifies this
      ensures View() == Held(old(View()))
    {
      cStreak := 0;
      if pilot.committed == A {
        EvseTransition(Ready);
      }
    }

    method Dwell(requireAuth: bool)
      modifies this
      ensures View() == Dwelt(old(View()), requireAuth)
    {
      cStreak := Count(cStreak, pilot.committed == C, C_DWELL_TICKS);
      if phase == Ready && cStreak >= C_DWELL_TICKS && (!requireAuth || authorized) {
        EvseTransition(Charging);
      } else if phase == Charging && pilot.committed != C {
        EvseTransition(Ready);
      }
    }

    method ApplyRelay()
      modifies this`closed
      ensures View() == RelayApplied(old(View()))
    {
      var latched := faults.AnyLatchedActive();
      var wantClosed := phase == Charging && pilot.committed == C && !latched;
      if wantClosed && !closed {
        closed := true;
      } else if !wantClosed && closed {
        closed := false;
      }
    }

    method ApplyCp(l: Limits)
      modifies this`cp
      ensures View() == CpApplied(old(View()), l)
    {
      var js := pilot.committed;
      if window > 0 {
        cp := StateF;
      } else if phase == Faulted {
        cp := StateF;
      } else if phase == CoolingDown {
        cp := IdleHigh;
      } else if phase == UserPaused {
        cp := IdleHigh;
      } else if js == B || js == C || js == D {
        cp := Advertise(Amps(l, derate));
      } else {
        cp := IdleHigh;
      }
    }

    // ------------------------------------------------ detectors on the meter

    method CheckAcAbsent(r: Reading)
      modifies this`acStreak, faults
      ensures View() == AcChecked(old(View()), r)
    {
      if !r.valid {
        return;
      }
      if r.vRms < V_AC_PRESENT {
        if acStreak < DETECTOR_PERSIST {
          acStreak := acStreak + 1;
        }
      } else {
        acStreak := 0;
        if faults.IsActive(Fault.AC_ABSENT) {
          var rc := faults.Clear(Fault.AC_ABSENT);
        }
        return;
      }
      if acStreak >= DETECTOR_PERSIST && !faults.IsActive(Fault.AC_ABSENT) {
        var rc := faults.Raise(Fault.AC_ABSENT);
      }
    }

    method CheckRelayWeld(r: Reading)
      modifies this, faults
      ensures View() == WeldChecked(old(View()), r)
    {
      if !r.valid {
        return;
      }
      if r.scale <= 0 {
        weldStreak := 0;
        return;
      }
      NoteEdge();
      if weldSettle > 0 {
        weldSettle := weldSettle - 1;
        weldStreak := 0;
        return;
      }
      JudgeWeld(r);
    }

    method NoteEdge()
      modifies this`weldSettle, this`weldWasClosed
      ensures View() == EdgeNoted(old(View()))
    {
      if weldWasClosed && !closed {
        weldSettle := WELD_SETTLE_POLLS;
      }
      weldWasClosed := closed;
    }

    method JudgeWeld(r: Reading)
      requires r.scale > 0
      modifies this, faults
      ensures View() == WeldJudged(old(View()), r)
    {
      weldStreak := Count(weldStreak, Milliamps(r) >= FLOW_MA && !closed, DETECTOR_PERSIST);
      if weldStreak >= DETECTOR_PERSIST {
        RaiseOnce(Fault.RELAY_WELD);
      }
    }

    method CheckRelayStuckOpen(r: Reading)
      modifies this, faults
      ensures View() == StuckChecked(old(View()), r)
    {
      if !r.valid {
        return;
      }
      if r.scale <= 0 {
        stuckStreak := 0;
        return;
      }
      if phase != Charging || !closed {
        stuckStreak := 0;
        return;
      }
      stuckStreak := Count(stuckStreak, Milliamps(r) < FLOW_MA, STUCK_OPEN_PERSIST);
      if stuckStreak >= STUCK_OPEN_PERSIST {
        RaiseOnce(Fault.RELAY_STUCK_OPEN);
      }
    }

    method CheckHardOverCurrent(l: Limits, r: Reading)
      modifies this, faults
      ensures View() == HardChecked(old(View()), l, r)
    {
      if !r.valid {
        return;
      }
      if r.scale <= 0 {
        hocStreak := 0;
        return;
      }
      hocStreak := Count(hocStreak, Milliamps(r) > HocThreshold(Amps(l, derate)), HOC_PERSIST_POLLS);
      if hocStreak >= HOC_PERSIST_POLLS {
        RaiseOnce(Fault.HARD_OVER_CURRENT);
      }
    }

    method CheckSoftOverCurrent(l: Limits, r: Reading)
      modifies this`socStreak, this`derate, faults
      ensures View() == SoftChecked(old(View()), l, r)
    {
      if !r.valid {
        return;
      }
      if r.scale <= 0 {
        socStreak := 0;
        return;
      }
      var amps := Amps(l, derate);
      if Milliamps(r) <= Threshold(amps) {
        socStreak := 0;
        if faults.IsActive(Fault.SOFT_OVER_CURRENT) {
          var rc := faults.Clear(Fault.SOFT_OVER_CURRENT);
        }
        return;
      }
      if socStreak < PERSIST_POLLS {
        socStreak := socStreak + 1;
        return;
      }
      if amps > FLOOR {
        derate := derate + if amps >= 10 then amps / 10 else 1;
        socStreak := 0;
        return;
      }
      if !faults.IsActive(Fault.SOFT_OVER_CURRENT) {
        var rc := faults.Raise(Fault.SOFT_OVER_CURRENT);
      }
    }

    method PollMeter(x: Input)
      modifies this, faults
      ensures View() == Metered(old(View()), x)
    {
      pollDiv := pollDiv + 1;
      if pollDiv < POLL_TICKS {
        return;
      }
      pollDiv := 0;
      CheckAcAbsent(x.reading);
      CheckRelayWeld(x.reading);
      CheckRelayStuckOpen(x.reading);
      CheckHardOverCurrent(x.limits, x.reading);
      CheckSoftOverCurrent(x.limits, x.reading);
    }

    // ------------------------------------------------------------------ tick

    method HandleSwipe(swipe: Swipe)
      modifies this`authorized, this`learn
      ensures View() == Swiped(old(View()), swipe)
    {
      if swipe != NoCard {
        if learn > 0 {
          learn := 0;
        } else if swipe == KnownCard {
          authorized := true;
        }
      }
      if learn > 0 {
        learn := learn - 1;
      }
    }

    method CheckFaults(x: Input)
      modifies this, faults, gfci, overTemp
      ensures View() == Checked(old(View()), x)
    {
      CheckSafeFail(x.safeFail);
      CheckGfci(x.gfciLow, x.gfciPolicy);
      CheckAdcRuntime(x.ac, x.ct, x.lct);
      CheckCpE();
      CheckOverTemp(OverTemp.Sample(x.ntc1, x.gun, true, true));
    }

    method TickOnce(x: Input)
      modifies this, faults, pilot, gfci, overTemp
      ensures View() == Tick(old(View()), x)
    {
      DrainInbox(x.requests);
      ServiceWindow();
      var s := pilot.Step(x.mv, DEBOUNCE_N);
      CheckFaults(x);
      UpdateFromPilot(x.requireAuth);
      ApplyRelay();
      ApplyCp(x.limits);
      PollMeter(x);
      HandleSwipe(x.swipe);
      TickInStages(old(View()), x);
    }

    /** The boot path, from power-on to the first tick. */
    method BootUp(x: BootInput)
      requires View() == POWER_ON
      modifies this, faults, pilot
      ensures View() == Booted(x) && EndOfTick(View())
    {
      EvseTransition(SelfTest);
      var mv := WarmUp(x.pilot);
      RunSelfTest(x, mv);
      CheckSafeFail(x.safeFail);
      if phase != Faulted {
        EvseTransition(Ready);
      }
      BootEndsWell(x);
    }

    method WarmUp(samples: seq<int>) returns (mv: int)
      modifies pilot
      ensures View() == PilotWarmUp(old(View()), samples)
      ensures mv == if samples == [] then 0 else samples[|samples| - 1]
    {
      mv := 0;
      for i := 0 to |samples|
        invariant View() == PilotWarmUp(old(View()), samples[..i])
        invariant mv == if i == 0 then 0 else samples[i - 1]
      {
        assert samples[..i + 1][..i] == samples[..i];
        mv := samples[i];
        var s := pilot.Step(mv, DEBOUNCE_N);
      }
      assert samples[..|samples|] == samples;
    }

    method RunSelfTest(x: BootInput, mv: int)
      requires mv == if x.pilot == [] then 0 else x.pilot[|x.pilot| - 1]
      modifies this, faults
      ensures View() == if SelfTestFails(x) then Tripped(old(View()), Fault.BOOT_SELF_TEST) else old(View())
    {
      var fails := 0;
      if OnRail(x.ac) || OnRail(x.ct) || OnRail(x.lct) || OnRail(x.cpRaw) {
        fails := fails + 1;
      }
      if mv < CP_PILOT_PRESENT_MV {
        fails := fails + 1;
      }
      if fails > 0 {
        RaiseOnce(Fault.BOOT_SELF_TEST);
      }
    }

    /** Boot and any number of ticks. */
    method Live(boot: BootInput, xs: seq<Input>)
      requires View() == POWER_ON
      modifies this, faults, pilot, gfci, overTemp
      ensures View() == Run(Booted(boot), xs)
      ensures EndOfTick(View())
    {
      BootUp(boot);
      for i := 0 to |xs|
        invariant View() == Run(Booted(boot), xs[..i])
      {
        assert xs[..i + 1][..i] == xs[..i];
        TickOnce(xs[i]);
      }
      assert xs[..|xs|] == xs;
      RunEndsWell(Booted(boot), xs);
    }
  }
}
