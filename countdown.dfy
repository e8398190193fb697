/** The countdown of `LuisApp::update` (src/app.rs): the time Luis still has
    to type, driven once per frame by the wall clock and by whether the
    current challenge key was pressed.

    Durations and instants are whole nanoseconds; an instant is measured
    from an arbitrary origin. Subtracting a later instant from an earlier
    one gives zero, as `Instant - Instant` does. */
module Countdown {

  const NanosPerSec: nat := 1_000_000_000
  /** A correct key less than this long ago makes the countdown run. */
  const ActiveWindow: nat := 3 * NanosPerSec
  /** With reversal on, no correct key for longer than this makes it run back. */
  const IdleWindow: nat := 10 * NanosPerSec

  /** `a - b`, or zero when `b` is larger (`Duration::saturating_sub`). */
  function SatSub(a: nat, b: nat): (d: nat)
    ensures d <= a
    ensures a >= b ==> d + b == a
    ensures a < b ==> d == 0
  {
    if a >= b then a - b else 0
  }

  function Min(a: nat, b: nat): nat {
    if a <= b then a else b
  }

  /** The timing fields of the app: `time_left`, `last_typed`, `last_frame`. */
  datatype Clock = Clock(timeLeft: nat, lastTyped: nat, lastFrame: nat)

  /** One frame at instant `now`; `typed` says whether the current challenge
      key was pressed in this frame and `maxTime` is the configured typing
      time. Nothing happens once the countdown is zero; while it runs, every
      frame stamps `last_frame`, stamps `last_typed` exactly on a correct
      key, and leaves at most `maxTime`. */
  function Step(c: Clock, now: nat, typed: bool, canReverse: bool, maxTime: nat): (r: Clock)
    ensures c.timeLeft == 0 ==> r == c
    ensures c.timeLeft > 0 ==>
      && r.timeLeft <= maxTime
      && r.lastFrame == now
      && r.lastTyped == (if typed then now else c.lastTyped)
  {
    if c.timeLeft == 0 then c
    else
      var frameDiff := SatSub(now, c.lastFrame);
      var sinceTyped := SatSub(now, c.lastTyped);
      var t :=
        if sinceTyped < ActiveWindow then SatSub(c.timeLeft, frameDiff)
        else if sinceTyped > IdleWindow && canReverse then c.timeLeft + frameDiff
        else c.timeLeft;
      Clock(if t > maxTime then maxTime else t,
            if typed then now else c.lastTyped,
            now)
  }

  /** A correct key less than 3 s ago: the frame's duration comes off the
      countdown, stopping at zero, before the clamp to `maxTime`. */
  lemma StepActiveCountsDown(c: Clock, now: nat, typed: bool, canReverse: bool, maxTime: nat)
    requires c.timeLeft > 0 && SatSub(now, c.lastTyped) < ActiveWindow
    ensures var r := Step(c, now, typed, canReverse, maxTime);
      && r.timeLeft == Min(SatSub(c.timeLeft, SatSub(now, c.lastFrame)), maxTime)
      && r.timeLeft <= c.timeLeft
  {
  }

  /** Between 3 s and 10 s since the last correct key, or later with
      reversal off, the countdown only feels the clamp. */
  lemma StepIdleHolds(c: Clock, now: nat, typed: bool, canReverse: bool, maxTime: nat)
    requires c.timeLeft > 0
    requires ActiveWindow <= SatSub(now, c.lastTyped)
    requires SatSub(now, c.lastTyped) <= IdleWindow || !canReverse
    ensures Step(c, now, typed, canReverse, maxTime).timeLeft == Min(c.timeLeft, maxTime)
  {
  }

  /** With reversal on and more than 10 s since the last correct key, the
      frame's duration is added to the countdown, up to `maxTime`; when that
      stays within `maxTime` and time has passed, the countdown strictly grows. */
  lemma StepIdleGrows(c: Clock, now: nat, typed: bool, maxTime: nat)
    requires c.timeLeft > 0 && SatSub(now, c.lastTyped) > IdleWindow
    ensures var r := Step(c, now, typed, true, maxTime);
      && r.timeLeft == Min(c.timeLeft + SatSub(now, c.lastFrame), maxTime)
      && (0 < SatSub(now, c.lastFrame) && c.timeLeft + SatSub(now, c.lastFrame) <= maxTime ==>
            r.timeLeft > c.timeLeft)
  {
  }

  /** The countdown grows only with reversal on, more than 10 s after the
      last correct key, and then by the frame's duration up to `maxTime`. */
  lemma StepGrowsOnlyWhenIdle(c: Clock, now: nat, typed: bool, canReverse: bool, maxTime: nat)
    ensures var r := Step(c, now, typed, canReverse, maxTime);
      r.timeLeft > c.timeLeft ==>
        && canReverse
        && SatSub(now, c.lastTyped) > IdleWindow
        && r.timeLeft == Min(c.timeLeft + SatSub(now, c.lastFrame), maxTime)
  {
  }

  /** One frame as the caller of `update` sees it. */
  datatype Frame = Frame(now: nat, typed: bool, maxTime: nat)

  /** The countdown after a sequence of frames. */
  function Run(c: Clock, canReverse: bool, frames: seq<Frame>): Clock
    decreases |frames|
  {
    if frames == [] then c
    else
      var f := frames[0];
      Run(Step(c, f.now, f.typed, canReverse, f.maxTime), canReverse, frames[1..])
  }

  /** Once the countdown is zero no sequence of frames changes anything. */
  lemma {:induction false} RunZeroIsTerminal(c: Clock, canReverse: bool, frames: seq<Frame>)
    requires c.timeLeft == 0
    ensures Run(c, canReverse, frames) == c
  {
    if frames != [] {
      RunZeroIsTerminal(c, canReverse, frames[1..]);
    }
  }

  /** Without reversal the countdown never grows, over any sequence of frames. */
  lemma {:induction false} RunWithoutReversalNeverGrows(c: Clock, frames: seq<Frame>)
    decreases |frames|
    ensures Run(c, false, frames).timeLeft <= c.timeLeft
  {
    if frames != [] {
      var f := frames[0];
      var c' := Step(c, f.now, f.typed, false, f.maxTime);
      RunWithoutReversalNeverGrows(c', frames[1..]);
    }
  }

  /** With the typing time fixed at `maxTime`, one frame is enough to bring
      the countdown to at most `maxTime` (the initial 6000000 s included),
      and it stays there. */
  lemma {:induction false} RunBoundedByMaxTime(c: Clock, canReverse: bool, frames: seq<Frame>, maxTime: nat)
    requires frames != []
    requires forall i :: 0 <= i < |frames| ==> frames[i].maxTime == maxTime
    ensures Run(c, canReverse, frames).timeLeft <= maxTime
    decreases |frames|
  {
    var f := frames[0];
    var c' := Step(c, f.now, f.typed, canReverse, f.maxTime);
    assert c'.timeLeft <= maxTime;
    if |frames| > 1 {
      RunBoundedByMaxTime(c', canReverse, frames[1..], maxTime);
    } else {
      assert frames[1..] == [];
    }
  }

  /** The instant before frame `i`: `start` for the first frame. */
  function PrevNow(start: nat, frames: seq<Frame>, i: nat): nat
    requires i < |frames|
  {
    if i == 0 then start else frames[i - 1].now
  }

  /** Frames at the instants `start, frames[0].now, frames[1].now, ...`,
      each less than 3 s after the one before and each with a correct key. */
  ghost predicate KeptTyping(start: nat, frames: seq<Frame>) {
    forall i: nat :: i < |frames| ==>
      && frames[i].typed
      && PrevNow(start, frames, i) <= frames[i].now < PrevNow(start, frames, i) + ActiveWindow
  }

  /** Under `KeptTyping`, the instants never go back. */
  lemma {:induction false} KeptTypingMonotone(start: nat, frames: seq<Frame>)
    requires frames != [] && KeptTyping(start, frames)
    ensures start <= frames[0].now <= frames[|frames| - 1].now
    decreases |frames|
  {
    assert PrevNow(start, frames, 0) <= frames[0].now;
    if |frames| > 1 {
      KeptTypingTail(start, frames);
      KeptTypingMonotone(frames[0].now, frames[1..]);
    }
  }

  /** Dropping the first frame keeps `KeptTyping`, from that frame's instant. */
  lemma KeptTypingTail(start: nat, frames: seq<Frame>)
    requires frames != [] && KeptTyping(start, frames)
    ensures KeptTyping(frames[0].now, frames[1..])
  {
    var rest := frames[1..];
    forall i: nat | i < |rest|
      ensures rest[i].typed
      ensures PrevNow(frames[0].now, rest, i) <= rest[i].now < PrevNow(frames[0].now, rest, i) + ActiveWindow
    {
      assert rest[i] == frames[i + 1];
      assert PrevNow(frames[0].now, rest, i) == PrevNow(start, frames, i + 1);
    }
  }

  /** Typing steadily drains the countdown at wall-clock speed: after frames
      ending at instant `end`, exactly `end - start` has come off it. */
  lemma {:induction false} SteadyTypingDrains(c: Clock, canReverse: bool, frames: seq<Frame>, maxTime: nat)
    requires c.lastTyped == c.lastFrame && c.timeLeft <= maxTime
    requires forall i :: 0 <= i < |frames| ==> frames[i].maxTime == maxTime
    requires KeptTyping(c.lastFrame, frames)
    ensures var end := if frames == [] then c.lastFrame else frames[|frames| - 1].now;
      c.lastFrame <= end && Run(c, canReverse, frames).timeLeft == SatSub(c.timeLeft, end - c.lastFrame)
    decreases |frames|
  {
    if frames != [] {
      KeptTypingMonotone(c.lastFrame, frames);
      var f := frames[0];
      var c' := Step(c, f.now, f.typed, canReverse, f.maxTime);
      if c.timeLeft == 0 {
        RunZeroIsTerminal(c, canReverse, frames);
      } else {
        assert PrevNow(c.lastFrame, frames, 0) <= f.now < PrevNow(c.lastFrame, frames, 0) + ActiveWindow;
        assert f.typed && f.maxTime == maxTime;
        assert c'.lastTyped == c'.lastFrame == f.now;
        assert c'.timeLeft == SatSub(c.timeLeft, f.now - c.lastFrame);
        KeptTypingTail(c.lastFrame, frames);
        SteadyTypingDrains(c', canReverse, frames[1..], maxTime);
        if |frames| > 1 {
          assert frames[1..][|frames[1..]| - 1] == frames[|frames| - 1];
        }
      }
    }
  }
}
