/** The training-session controller: the module-level state of the page script
    as the fields of one object, with `Start` (the Start button), `Tick` (one
    firing of the periodic signal timer), `Stop` (the Stop button, and the
    automatic stop on completion) and `OnBeforeUnload` (the page-unload guard).

    The host is abstract: the timer firing is an explicit call to `Tick`, the
    flash/beep/vibration of a signal and the arrow overlay are events reported
    to the caller, and whether the browser could create an audio context is a
    parameter of `Start`. */
module Training {
  import Cadence

  datatype Option<T> = None | Some(value: T)

  /** An armed periodic timer: its period and the signals-per-arrow count the
      tick callback captured when the session started. */
  datatype Timer = Timer(period: int, signalsPerArrow: int)

  /** What a press of Start did. */
  datatype StartOutcome =
    | AlreadyRunning   // a session was running: nothing happened
    | Rejected         // an input was not positive: the alert, no session
    | Started          // a session started and its first signal was emitted

  /** The event passed to the page's `beforeunload` listener. */
  class UnloadEvent {
    var defaultPrevented: bool
    var returnValue: string

    constructor ()
      ensures !defaultPrevented && returnValue == ""
    {
      defaultPrevented, returnValue := false, "";
    }
  }

  class Trainer {
    var signalInterval: Option<Timer>
    var signalCount: int
    var arrowCount: int
    var totalRepetitions: int
    var currentRepetition: int
    var isRunning: bool
    var arrowIntervalValue: int
    /** Whether an audio context is held (the global is non-null). */
    var audioOpen: bool

    /** Signals per arrow of the armed timer, 0 when none is armed. */
    function SignalsPerArrow(): (k: int)
      reads this
    {
      if signalInterval.Some? then signalInterval.value.signalsPerArrow else 0
    }

    /** While idle no timer is armed and the counters are zero. */
    ghost predicate IdleInv()
      reads this
    {
      signalInterval == None && signalCount == 0 && arrowCount == 0 && currentRepetition == 0
    }

    /** While running, the armed timer carries the rounded ratio of the two
        intervals, one repetition has been recorded per arrow shown so far,
        and the target has not yet been reached. */
    ghost predicate RunningInv()
      reads this
    {
      signalInterval.Some? &&
      signalInterval.value.period > 0 && arrowIntervalValue > 0 &&
      signalInterval.value.signalsPerArrow == Cadence.Round(arrowIntervalValue, signalInterval.value.period) &&
      signalCount >= 1 &&
      arrowCount == currentRepetition == Cadence.ArrowsFired(signalCount, signalInterval.value.signalsPerArrow) &&
      0 <= currentRepetition < totalRepetitions
    }

    ghost predicate Valid()
      reads this
    {
      if isRunning then RunningInv() else IdleInv()
    }

    /** The state at page load. */
    constructor ()
      ensures Valid() && !isRunning && !audioOpen
      ensures totalRepetitions == 0 && arrowIntervalValue == 0
    {
      signalInterval := None;
      signalCount, arrowCount := 0, 0;
      totalRepetitions, currentRepetition := 0, 0;
      isRunning := false;
      arrowIntervalValue := 0;
      audioOpen := false;
    }

    /** Start a session with the given intervals (milliseconds) and target
        number of repetitions. The arrow interval and the target are stored
        before they are validated; the audio context is acquired before
        validation too, and a rejected start does not release it. */
    method Start(signalMs: int, arrowMs: int, repetitions: int, audioSupported: bool)
      returns (outcome: StartOutcome)
      requires Valid()
      modifies this
      ensures Valid()
      ensures outcome == AlreadyRunning <==> old(isRunning)
      ensures old(isRunning) ==> unchanged(this)
      ensures !old(isRunning) ==>
                arrowIntervalValue == arrowMs && totalRepetitions == repetitions &&
                audioOpen == (audioSupported || old(audioOpen))
      ensures outcome == Rejected <==>
                !old(isRunning) && (signalMs <= 0 || arrowMs <= 0 || repetitions <= 0)
      ensures outcome == Rejected ==>
                !isRunning && signalInterval == old(signalInterval) &&
                signalCount == old(signalCount) && arrowCount == old(arrowCount) &&
                currentRepetition == old(currentRepetition)
      ensures outcome == Started ==>
                isRunning && signalCount == 1 && arrowCount == 0 && currentRepetition == 0 &&
                signalInterval == Some(Timer(signalMs, Cadence.Round(arrowMs, signalMs)))
    {
      if isRunning {
        return AlreadyRunning;
      }
      arrowIntervalValue := arrowMs;
      totalRepetitions := repetitions;
      if audioSupported {
        audioOpen := true;
      }
      if signalMs <= 0 || arrowMs <= 0 || repetitions <= 0 {
        return Rejected;
      }
      signalCount, arrowCount, currentRepetition := 0, 0, 0;
      isRunning := true;
      currentRepetition := 0;
      var signalsPerArrow := Cadence.Round(arrowMs, signalMs);
      signalInterval := Some(Timer(signalMs, signalsPerArrow));
      // the immediate first signal
      signalCount := 1;
      outcome := Started;
    }

    /** One firing of the periodic timer: a signal is emitted and counted;
        when the count is a multiple of the signals-per-arrow k an arrow is
        shown and a repetition recorded; when that repetition is the last,
        the same firing stops the session. */
    method Tick() returns (arrowShown: bool, finished: bool)
      requires Valid() && isRunning
      modifies this
      ensures Valid()
      ensures arrowShown <==> old(SignalsPerArrow()) > 0 && (old(signalCount) + 1) % old(SignalsPerArrow()) == 0
      ensures finished <==> old(currentRepetition) + 1 == totalRepetitions && arrowShown
      ensures finished <==>
                old(SignalsPerArrow()) > 0 &&
                old(signalCount) + 1 == Cadence.CompletionCount(old(SignalsPerArrow()), old(totalRepetitions))
      ensures totalRepetitions == old(totalRepetitions) && arrowIntervalValue == old(arrowIntervalValue)
      ensures !finished ==>
                isRunning && signalInterval == old(signalInterval) && audioOpen == old(audioOpen) &&
                signalCount == old(signalCount) + 1 &&
                arrowCount == old(arrowCount) + (if arrowShown then 1 else 0) &&
                currentRepetition == old(currentRepetition) + (if arrowShown then 1 else 0)
      ensures finished ==>
                !isRunning && signalInterval == None && !audioOpen &&
                signalCount == 0 && arrowCount == 0 && currentRepetition == 0
    {
      var k := signalInterval.value.signalsPerArrow;
      ghost var c := signalCount;
      signalCount := signalCount + 1;
      arrowShown := k > 0 && signalCount % k == 0;
      finished := false;
      if arrowShown {
        arrowCount := arrowCount + 1;
        currentRepetition := currentRepetition + 1;
        if currentRepetition >= totalRepetitions {
          finished := true;
          Stop();
        }
      }
      if k > 0 {
        var total := totalRepetitions;
        Cadence.CompletesAt(k, total, c);
        Cadence.CompletesAt(k, total, c + 1);
      }
    }

    /** End the session: disarm the timer, zero the counters and release the
        audio context. Nothing happens when no session is running. Besides
        the Stop button, `Tick` calls it in the middle of its own update, so
        the running state need not satisfy the session invariant. */
    method Stop()
      requires isRunning || Valid()
      modifies this
      ensures Valid() && !isRunning
      ensures !old(isRunning) ==> unchanged(this)
      ensures old(isRunning) ==>
                signalInterval == None && signalCount == 0 && arrowCount == 0 &&
                currentRepetition == 0 && !audioOpen &&
                totalRepetitions == old(totalRepetitions) && arrowIntervalValue == old(arrowIntervalValue)
    {
      if !isRunning {
        return;
      }
      isRunning := false;
      if signalInterval.Some? {
        signalInterval := None;
      }
      signalCount, arrowCount, currentRepetition := 0, 0, 0;
      audioOpen := false;
    }

    /** The `beforeunload` listener: while a session runs it asks the browser
        to confirm leaving the page; otherwise it leaves the event alone. */
    method OnBeforeUnload(e: UnloadEvent)
      modifies e
      ensures isRunning ==> e.defaultPrevented && e.returnValue == ""
      ensures !isRunning ==> unchanged(e)
    {
      if isRunning {
        e.defaultPrevented := true;
        e.returnValue := "";
      }
    }
  }

  /** A session with a 500 ms signal, a 2000 ms arrow interval and 3
      repetitions: arrows are shown on signals 4, 8 and 12, and the firing
      that emits signal 12 ends the session; the unload guard is active
      before it and inactive after it. */
  method SessionFourSignalsPerArrow() returns (arrowSignals: seq<int>, guardedBefore: bool, guardedAfter: bool)
    ensures arrowSignals == [4, 8, 12]
    ensures guardedBefore && !guardedAfter
  {
    var t := new Trainer();
    var outcome := t.Start(500, 2000, 3, true);
    assert Cadence.Round(2000, 500) == 4;
    var e := new UnloadEvent();
    t.OnBeforeUnload(e);
    guardedBefore := e.defaultPrevented;
    arrowSignals := [];
    var signal := 1;
    while t.isRunning
      invariant t.Valid() && 1 <= signal <= 12
      invariant t.totalRepetitions == 3
      invariant t.isRunning ==> t.signalCount == signal && t.SignalsPerArrow() == 4
      invariant !t.isRunning ==> signal == 12
      invariant arrowSignals == Multiples4UpTo(signal)
      decreases 12 - signal
    {
      var arrow, finished := t.Tick();
      signal := signal + 1;
      if arrow {
        arrowSignals := arrowSignals + [signal];
      }
    }
    e := new UnloadEvent();
    t.OnBeforeUnload(e);
    guardedAfter := e.defaultPrevented;
  }

  /** The multiples of 4 in 2..n, in increasing order. */
  function Multiples4UpTo(n: int): (ms: seq<int>)
    decreases n
  {
    if n <= 1 then [] else Multiples4UpTo(n - 1) + (if n % 4 == 0 then [n] else [])
  }

  /** Any session whose arrow interval is at least half its signal interval
      (so that the signals-per-arrow count k is at least 1) runs, firing by
      firing, until it stops by itself: it shows exactly `repetitions` arrows
      and ends on signal `CompletionCount(k, repetitions)`. */
  method SessionRunsToCompletion(signalMs: int, arrowMs: int, repetitions: int)
    returns (arrows: int, endSignal: int)
    requires signalMs > 0 && arrowMs > 0 && repetitions > 0
    requires 2 * arrowMs >= signalMs
    ensures Cadence.Round(arrowMs, signalMs) >= 1
    ensures arrows == repetitions
    ensures endSignal == Cadence.CompletionCount(Cadence.Round(arrowMs, signalMs), repetitions)
  {
    var t := new Trainer();
    var outcome := t.Start(signalMs, arrowMs, repetitions, true);
    var k := Cadence.Round(arrowMs, signalMs);
    Cadence.RoundIsZeroIff(arrowMs, signalMs);
    var last := Cadence.CompletionCount(k, repetitions);
    arrows, endSignal := 0, 1;
    while t.isRunning
      invariant t.Valid() && t.totalRepetitions == repetitions
      invariant t.isRunning ==> t.signalCount == endSignal < last && t.SignalsPerArrow() == k
      invariant t.isRunning ==> arrows == t.currentRepetition
      invariant !t.isRunning ==> endSignal == last && arrows == repetitions
      decreases last - endSignal
    {
      Cadence.CompletesAt(k, repetitions, endSignal);
      var arrow, finished := t.Tick();
      endSignal := endSignal + 1;
      if arrow {
        arrows := arrows + 1;
      }
      if t.isRunning {
        Cadence.CompletesAt(k, repetitions, endSignal);
      }
    }
  }

  /** A session where both intervals are 1000 ms and one repetition is asked
      for: the immediate first signal shows no arrow, the first timer firing
      shows the arrow and ends the session. */
  method SessionOneSignalPerArrow() returns (arrowOnFirstFiring: bool, finishedOnFirstFiring: bool, firstSignalCount: int)
    ensures firstSignalCount == 1 && arrowOnFirstFiring && finishedOnFirstFiring
  {
    var t := new Trainer();
    var outcome := t.Start(1000, 1000, 1, false);
    assert Cadence.Round(1000, 1000) == 1;
    firstSignalCount := t.signalCount;
    arrowOnFirstFiring, finishedOnFirstFiring := t.Tick();
  }

  /** A session whose arrow interval (1000 ms) is less than half its signal
      interval (3000 ms): the signals-per-arrow count rounds to 0, so no
      firing of the timer shows an arrow or ends the session. */
  method SessionWithoutArrows() returns (signalsPerArrow: int, arrows: bool, finishedEver: bool)
    ensures signalsPerArrow == 0 && !arrows && !finishedEver
  {
    var t := new Trainer();
    var outcome := t.Start(3000, 1000, 1, true);
    Cadence.RoundIsZeroIff(1000, 3000);
    signalsPerArrow := t.SignalsPerArrow();
    arrows, finishedEver := false, false;
    var n := 0;
    while n < 100
      invariant t.Valid() && t.isRunning && t.SignalsPerArrow() == 0
      invariant !arrows && !finishedEver
    {
      var a, f := t.Tick();
      arrows, finishedEver := arrows || a, finishedEver || f;
      n := n + 1;
    }
  }
}
