/** The state of `LuisApp` (src/app.rs) that the frame logic changes, with
    the three pieces of `update` and `change_char_to_type` that change it:
    the challenge redraw, one frame of the countdown with its key press,
    and the confirmation of a new password once the countdown is over.

    The clock, the random source, the pressed keys, the text field and the
    confirm button reach the model as parameters or fields: `now` is the
    value `Instant::now()` returned, `rng` the draws `gen_range(0..26)` is
    yet to produce, `pressed` the keys pressed this frame. */
module App {
  import opened PasswordRules
  import opened Keys
  import opened Countdown

  /** `Duration::from_secs(6000000)`: the countdown before the first frame. */
  const InitialTimeLeft: nat := 6_000_000 * NanosPerSec
  const InitialHiddenMessage: string := "SupersicherPasswort123"

  class LuisApp {
    var hiddenMessage: string
    var newMessage: string
    var timeCanReverse: bool
    var timeLeft: nat
    var lastTyped: nat
    var lastFrame: nat
    var charToType: Key
    /** The draws the random source has yet to produce. */
    var rng: seq<LetterIndex>

    /** The timing fields as one value. */
    ghost function ClockOf(): Clock
      reads this
    {
      Clock(timeLeft, lastTyped, lastFrame)
    }

    /** The class invariant: once constructed, the challenge is always a
        letter. The constructor establishes it and every method keeps it. */
    ghost predicate Valid()
      reads this
    {
      charToType != Space
    }

    /** `Default::default()` at instant `now`: the initial countdown, the
        default password, reversal off, and a first challenge drawn from
        `Space`, which every letter differs from. */
    constructor (now: nat, draws: seq<LetterIndex>)
      requires draws != []
      ensures Valid()
      ensures hiddenMessage == InitialHiddenMessage && newMessage == [] && !timeCanReverse
      ensures ClockOf() == Clock(InitialTimeLeft, now, now)
      ensures charToType == KeyAt(draws[0]) && rng == draws[1..]
    {
      hiddenMessage := InitialHiddenMessage;
      newMessage := [];
      timeCanReverse := false;
      timeLeft := InitialTimeLeft;
      lastTyped := now;
      lastFrame := now;
      charToType := Space;
      rng := draws;
      new;
      FirstDrawFromSpace(draws);
      ChangeCharToType();
    }

    /** `change_char_to_type`: draw letters until one differs from the
        current challenge, and make it the challenge. The draws before it
        are consumed with it. */
    method ChangeCharToType()
      requires HasFreshDraw(rng, charToType)
      modifies this`charToType, this`rng
      ensures charToType != old(charToType) && Valid()
      ensures var j := FirstFresh(old(rng), old(charToType));
        charToType == KeyAt(old(rng)[j]) && rng == old(rng)[j + 1..]
    {
      ghost var draws, current := rng, charToType;
      while true
        invariant charToType == current
        invariant |rng| <= |draws| && rng == draws[|draws| - |rng|..]
        invariant HasFreshDraw(rng, current)
        invariant FirstFresh(draws, current) == |draws| - |rng| + FirstFresh(rng, current)
        decreases |rng|
      {
        var index := rng[0];
        var ch := KeyAt(index);
        ghost var j := FirstFresh(rng, current);
        rng := rng[1..];
        if ch != charToType {
          charToType := ch;
          return;
        }
        assert rng[j - 1] == draws[|draws| - |rng| - 1 + j];
      }
    }

    /** One frame of `update` while the countdown is not zero: the time
        since the last frame comes off, is added or is ignored according to
        the time since the last correct key, the result is clamped to
        `maxTime`, and a press of the challenge key draws the next one and
        stamps `last_typed`. With the countdown at zero nothing changes. */
    method Tick(now: nat, pressed: set<Key>, maxTime: nat)
      requires Valid()
      requires timeLeft != 0 && charToType in pressed ==> HasFreshDraw(rng, charToType)
      modifies this`timeLeft, this`lastTyped, this`lastFrame, this`charToType, this`rng
      ensures ClockOf() == Step(old(ClockOf()), now, old(charToType) in pressed, timeCanReverse, maxTime)
      ensures if old(timeLeft) != 0 && old(charToType) in pressed then
                var j := FirstFresh(old(rng), old(charToType));
                && charToType != old(charToType)
                && charToType == KeyAt(old(rng)[j])
                && rng == old(rng)[j + 1..]
              else
                charToType == old(charToType) && rng == old(rng)
      ensures Valid()
    {
      if timeLeft != 0 {
        var frameDiff := SatSub(now, lastFrame);
        lastFrame := now;
        var durSinceTyped := SatSub(now, lastTyped);
        if durSinceTyped < ActiveWindow {
          timeLeft := SatSub(timeLeft, frameDiff);
        } else if durSinceTyped > IdleWindow && timeCanReverse {
          timeLeft := timeLeft + frameDiff;
        }
        if timeLeft > maxTime {
          timeLeft := maxTime;
        }
        if charToType in pressed {
          ChangeCharToType();
          lastTyped := now;
        }
      }
    }

    /** The password field once the countdown is over: the field now holds
        `edited`; its rejection reason is returned, and only an accepted
        candidate with the confirm button clicked replaces the hidden
        message. */
    method Confirm(edited: string, clicked: bool) returns (reason: Option<Reason>)
      requires Valid() && timeLeft == 0
      modifies this`newMessage, this`hiddenMessage
      ensures Valid()
      ensures newMessage == edited && reason == Validate(edited)
      ensures hiddenMessage == if reason == None && clicked then edited else old(hiddenMessage)
      ensures hiddenMessage != old(hiddenMessage) ==> Validate(hiddenMessage) == None
    {
      newMessage := edited;
      reason := ReasonMessageIsBad(newMessage);
      if reason.Some? {
        // the reason is shown next to the field; nothing is stored
      } else if clicked {
        hiddenMessage := newMessage;
      }
    }
  }
}
