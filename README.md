# luis-muss-warten: the gate and its password rules, in Dafny

The app withholds a password ("hidden message") from Luis until Luis has
spent a configured time typing randomly chosen letters. Each frame, a
countdown runs down while the requested letter keeps being pressed. It
stays put during a pause, and with "time can run backwards" switched on
it grows again after a long pause. When the countdown reaches zero the hidden
message is shown. A replacement password can then be entered; it is
checked against fixed strength rules and stored only when it passes and is
confirmed.

The model has four modules:

- `PasswordRules` (password_rules.dfy): the validator `reason_message_is_bad`.
  `Validate` is the first-failing-check specification. `ReasonMessageIsBad`
  is the source's procedure: five counting checks, then a left-to-right
  scan keeping the previous character's case shape and a streak counter.
  It is proved equal to `Validate` by loop invariants. The invariant says
  that the streak is the length of the maximal same-case run ending at the
  current character.
- `Keys` (keys.dfy): the 26 challenge keys and `FirstFresh`, the position
  of the draw that the redraw loop of `change_char_to_type` accepts.
- `Countdown` (countdown.dfy): the timing fields as a value (`Clock`), one
  frame of the countdown (`Step`), any sequence of frames (`Run`), and what
  they guarantee.
- `App` (app.dfy): the class `LuisApp` with the fields the frame logic
  changes. Its methods are the constructor (`Default::default`),
  `ChangeCharToType`, `Tick` (one frame of `update` while the countdown
  runs: lines 180-195 and 211-216) and `Confirm` (the password field once
  the countdown is zero: lines 229-230 and 249-251). `update` runs `Tick`
  while `time_left` is non-zero and the confirm branch otherwise, so
  `Confirm` requires `timeLeft == 0`.

Units and inputs:

- Durations and instants are natural numbers of nanoseconds.
- Subtracting a later instant from an earlier one gives zero, as Rust's
  `Instant - Instant` does.
- The clock reading, the random draws, the keys pressed in a frame, the
  text typed into the password field and the confirm click are
  parameters. The draws are held as a field `rng`, the sequence of values
  that `gen_range(0..26)` has yet to produce.
- The configured typing time is the parameter `maxTime`. In the source it
  is computed from a float.

Behaviour worth knowing, as the code has it:

- The length check uses `str::len`, the UTF-8 byte length, while the help
  text next to the field asks for at least 10 characters ("Zeichen"). So
  the 8-character candidate "AbAb12§§" (10 bytes) passes the length check
  and is accepted (`ExampleMultiByte`).
- The checks run in a fixed order, so "AAAb11!!" is rejected as too short,
  not for its run of three capitals (`ExamplesRejected`).
- There is no typing counter; the gate is the countdown alone.
- The clamp to the configured time applies on every frame, not only when
  the countdown grows.
- The redraw loop has no retry bound.

## Model

| member | source | states |
|---|---|---|
| `PasswordRules.ReasonMessageIsBad` | src/app.rs:62-111 | the count-then-scan procedure returns exactly the first failing check of `Validate`, or None |
| `PasswordRules.Validate` | src/app.rs:62-111 | the validator returns a reason only for a check that fails, and None exactly when every check passes |
| `PasswordRules.FirstFailingCheck` | src/app.rs:63-108 | the validator returns reason r iff check r fails and every check before it passes, so exactly one reason, the first failing one, is returned |
| `PasswordRules.AcceptedIffStrong` | src/app.rs:63-110 | a candidate is accepted iff it has at least 10 bytes, 2 digits, 2 upper-case, 2 lower-case and 2 non-alphanumeric characters and no three same-case letters in a row |
| `PasswordRules.Utf8Width` | src/app.rs:63 | a character takes 1 to 4 bytes of UTF-8, and exactly 1 iff it is ASCII |
| `PasswordRules.ByteLen` | src/app.rs:63 | the byte length `len()` checks lies between the character count and four times it |
| `PasswordRules.ByteLenOfAscii` | src/app.rs:63 | for ASCII text the byte length equals the character count |
| `PasswordRules.TenCharsPassLength` | src/app.rs:63-65 | a candidate of at least 10 characters is never rejected as too short |
| `PasswordRules.ShortAsciiRejected` | src/app.rs:63-65 | an ASCII candidate of fewer than 10 characters is rejected with "Zu kurz" |
| `PasswordRules.ExamplesRejected` | src/app.rs:63-68 | "Ab1!" and "AAAb11!!" are too short; "Abcdefghij" has too few digits |
| `PasswordRules.ExampleMultiByte` | src/app.rs:62-111 | an 8-character, 10-byte candidate passes the length check and is accepted outright |
| `PasswordRules.RunEndExtend` | src/app.rs:86-103 | each streak update (same case: +1, other case: 1, non-letter: 0) keeps the streak equal to the maximal same-case run ending at the current character |
| `PasswordRules.RunEndTriple` | src/app.rs:105-107 | that run exceeds 2 exactly when the last three characters are same-case letters |
| `PasswordRules.ScanStep` | src/app.rs:85-108 | one scan step either finds a run of three same-case letters in the candidate or keeps the scan invariant (no triple so far, streak at most 2) |
| `Keys.TableIsTheAlphabet` | src/app.rs:133-137 | the 26 table entries are distinct letters, and every letter key is one of them |
| `Keys.FirstFresh` | src/app.rs:138-145 | the accepted draw differs from the current key and every draw before it names the current key |
| `Keys.FirstDrawFromSpace` | src/app.rs:54-57 | from the initial Space, the first draw is always accepted |
| `Keys.TwoDistinctDrawsSuffice` | src/app.rs:138-145 | two different consecutive draws end the redraw within two draws, whatever the current key |
| `Countdown.SatSub` | src/app.rs:187 | saturating subtraction never goes below zero and is exact when no saturation occurs |
| `Countdown.Step` | src/app.rs:180-216 | with time_left zero a frame changes nothing; while the countdown runs, a frame leaves it at most max_time, sets last_frame to now, and sets last_typed to now exactly on a correct key |
| `Countdown.StepActiveCountsDown` | src/app.rs:185-195 | under 3 s since the last correct key, time_left becomes min(max(time_left - frame_diff, 0), max_time) and does not grow |
| `Countdown.StepIdleHolds` | src/app.rs:185-195 | from 3 s to 10 s since the last correct key, or later with reversal off, only the clamp to max_time applies |
| `Countdown.StepIdleGrows` | src/app.rs:185-195 | with reversal on and over 10 s since the last correct key, time_left becomes min(time_left + frame_diff, max_time), and strictly grows when frame_diff is positive and the sum stays within max_time |
| `Countdown.StepGrowsOnlyWhenIdle` | src/app.rs:188-195 | time_left grows only with reversal on and over 10 s since the last correct key, and then to min(time_left + frame_diff, max_time) |
| `Countdown.RunZeroIsTerminal` | src/app.rs:180 | once time_left is zero, no sequence of frames changes any timing field |
| `Countdown.RunWithoutReversalNeverGrows` | src/app.rs:185-195 | with reversal off, time_left never grows over any sequence of frames |
| `Countdown.RunBoundedByMaxTime` | src/app.rs:192-195 | with max_time fixed, after one or more frames time_left is at most max_time, whatever it started at (the initial 6000000 s included) |
| `Countdown.SteadyTypingDrains` | src/app.rs:180-216 | with a correct key every frame and frames less than 3 s apart, time_left falls by exactly the elapsed wall-clock time, stopping at zero |
| `App.LuisApp.constructor` | src/app.rs:32-59 | the initial state: the default password, reversal off, 6000000 s on the countdown, both instants at now, and the first challenge taken from the first draw |
| `App.LuisApp.ChangeCharToType` | src/app.rs:132-146 | the new challenge is a letter other than the old one, so the class invariant holds after it; it is the first draw that differs, and exactly the draws up to it are consumed |
| `App.LuisApp.Tick` | src/app.rs:180-216 | the timing fields move as `Step` says; a press of the challenge key while the countdown runs redraws the challenge, and nothing else changes it; the class invariant (the challenge is a letter) is kept |
| `App.LuisApp.Confirm` | src/app.rs:229-251 | the field holds the edited text and its reason is returned; the hidden message changes only to an accepted candidate and only on a click; the class invariant is kept |

## Left out

- Rendering: the panels, labels, buttons and hover texts, the zoom value
  and pixel scale, repaint requests and the close command. These are user
  interface only.
- Persistence: `new`, `save`, the serde attributes and `HIDDEN_MSG_KEY`.
  These are storage I/O.
- The 50 warm-up draws of the random generator and the uniformity of its
  draws. The model takes whatever draws it is given.
- Unicode character classes: `is_numeric`, `is_uppercase`, `is_lowercase`
  and `is_alphanumeric` are modelled for ASCII. Every other character
  counts as non-alphanumeric. The byte length does follow UTF-8 for all
  characters.
- Floats: the conversion of `specified_minutes_typing * 60.0` into a
  duration (the model receives `maxTime` in nanoseconds), the rounded-up
  seconds shown on screen, and the slider range.
- The slider and the checkbox that set the typing time and reversal. They
  are widgets; the model reads `timeCanReverse` as a field and `maxTime`
  as a parameter.
- The panic of `time_left += frame_diff` on `Duration` overflow.
  Naturals do not overflow.
- The egui keys other than Space and A to Z, which the challenge never
  holds.
- App.LuisApp.ChangeCharToType: requires that the remaining draws contain
  a letter other than the current challenge. The source loops until the
  random source produces one; a finite sequence of draws must contain it
  for the loop to end.
- App.LuisApp.Tick: requires the same of the draws when the challenge key
  is pressed while the countdown runs, because the press calls
  `ChangeCharToType`.
