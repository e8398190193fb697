/** The strength rules a replacement password must meet before it may
    overwrite the hidden message (`reason_message_is_bad` in src/app.rs).

    A candidate is checked in a fixed order and the first failing check
    decides the single reason returned:
      1. at least 10 bytes of UTF-8                      ("Zu kurz")
      2. at least 2 digits                               ("Zu wenig Ziffern")
      3. at least 2 upper-case letters                   ("Zu wenig Großbuchstaben")
      4. at least 2 lower-case letters                   ("Zu wenig Kleinbuchstaben")
      5. at least 2 characters that are not alphanumeric ("Zu wenig Sonderzeichen")
      6. no three upper-case or three lower-case letters in a row ("Zu wenig Varianz")

    Character classes are those of ASCII; every other character is neither
    a digit nor a letter, so it counts as a special character. */
module PasswordRules {

  datatype Option<+T> = None | Some(value: T)

  /** One constructor per rejection message, in the order they are checked. */
  datatype Reason =
    | TooShort          // "Zu kurz"
    | TooFewDigits      // "Zu wenig Ziffern"
    | TooFewUpper       // "Zu wenig Großbuchstaben"
    | TooFewLower       // "Zu wenig Kleinbuchstaben"
    | TooFewSpecial     // "Zu wenig Sonderzeichen"
    | TooLittleVariety  // "Zu wenig Varianz"

  /** The minimum length, in bytes of the UTF-8 encoding. */
  const MinLength: nat := 10
  /** The minimum count of each character class. */
  const MinPerClass: nat := 2

  // ----- character classes -----

  predicate IsNumeric(c: char) { '0' <= c <= '9' }
  predicate IsUpper(c: char) { 'A' <= c <= 'Z' }
  predicate IsLower(c: char) { 'a' <= c <= 'z' }
  predicate IsAlphanumeric(c: char) { IsNumeric(c) || IsUpper(c) || IsLower(c) }
  predicate IsSpecial(c: char) { !IsAlphanumeric(c) }
  predicate IsAscii(c: char) { c as int < 0x80 }

  /** The case "shape" the run scan gives a character; upper case is
      tested first. */
  datatype Shape = Upper | Lower | Other

  function ShapeOf(c: char): Shape {
    if IsUpper(c) then Upper else if IsLower(c) then Lower else Other
  }

  // ----- lengths and counts -----

  /** Number of bytes UTF-8 uses for one character. */
  function Utf8Width(c: char): (w: nat)
    ensures 1 <= w <= 4
    ensures w == 1 <==> IsAscii(c)
  {
    if c as int < 0x80 then 1
    else if c as int < 0x800 then 2
    else if c as int < 0x1_0000 then 3
    else 4
  }

  /** Length of the UTF-8 encoding of `s` (Rust's `str::len`): between the
      number of characters and four times that. */
  function ByteLen(s: string): (n: nat)
    ensures |s| <= n <= 4 * |s|
  {
    if s == [] then 0 else Utf8Width(s[0]) + ByteLen(s[1..])
  }

  /** Number of characters of `s` that satisfy `p` (`chars().filter(p).count()`). */
  function Count(s: string, p: char -> bool): nat {
    if s == [] then 0 else (if p(s[0]) then 1 else 0) + Count(s[1..], p)
  }

  /** Three same-case letters starting at position `j`. */
  predicate SameCaseAt(s: string, j: nat)
    requires j + 2 < |s|
  {
    (IsUpper(s[j]) && IsUpper(s[j + 1]) && IsUpper(s[j + 2])) ||
    (IsLower(s[j]) && IsLower(s[j + 1]) && IsLower(s[j + 2]))
  }

  /** `s` holds three consecutive upper-case or three consecutive lower-case letters. */
  predicate HasTripleRun(s: string) {
    exists j: nat :: j + 2 < |s| && SameCaseAt(s, j)
  }

  // ----- the checks -----

  /** Whether the check that produces reason `r` fails for `msg`. */
  predicate Fails(msg: string, r: Reason) {
    match r
    case TooShort => ByteLen(msg) < MinLength
    case TooFewDigits => Count(msg, IsNumeric) < MinPerClass
    case TooFewUpper => Count(msg, IsUpper) < MinPerClass
    case TooFewLower => Count(msg, IsLower) < MinPerClass
    case TooFewSpecial => Count(msg, IsSpecial) < MinPerClass
    case TooLittleVariety => HasTripleRun(msg)
  }

  /** Position of a check in the evaluation order. */
  function Rank(r: Reason): nat {
    match r
    case TooShort => 0
    case TooFewDigits => 1
    case TooFewUpper => 2
    case TooFewLower => 3
    case TooFewSpecial => 4
    case TooLittleVariety => 5
  }

  /** The validator as a specification: the first failing check, or None.
      A reason is returned only for a failing check, and None only when
      every check passes. */
  function Validate(msg: string): (r: Option<Reason>)
    ensures r.Some? ==> Fails(msg, r.value)
    ensures r == None <==> forall e: Reason :: !Fails(msg, e)
  {
    if Fails(msg, TooShort) then Some(TooShort)
    else if Fails(msg, TooFewDigits) then Some(TooFewDigits)
    else if Fails(msg, TooFewUpper) then Some(TooFewUpper)
    else if Fails(msg, TooFewLower) then Some(TooFewLower)
    else if Fails(msg, TooFewSpecial) then Some(TooFewSpecial)
    else if Fails(msg, TooLittleVariety) then Some(TooLittleVariety)
    else None
  }

  /** Validate returns reason `r` exactly when check `r` fails and every
      check before it passes: a single, first-failing reason. */
  lemma FirstFailingCheck(msg: string, r: Reason)
    ensures Validate(msg) == Some(r) <==>
              Fails(msg, r) && forall e: Reason :: Rank(e) < Rank(r) ==> !Fails(msg, e)
  {
  }

  /** A candidate is accepted exactly when it is at least 10 bytes long,
      holds two of each character class and no three same-case letters in
      a row. */
  lemma AcceptedIffStrong(msg: string)
    ensures Validate(msg) == None <==>
              && ByteLen(msg) >= MinLength
              && Count(msg, IsNumeric) >= MinPerClass
              && Count(msg, IsUpper) >= MinPerClass
              && Count(msg, IsLower) >= MinPerClass
              && Count(msg, IsSpecial) >= MinPerClass
              && !HasTripleRun(msg)
  {
  }

  /** ASCII text takes exactly one byte per character. */
  lemma {:induction false} ByteLenOfAscii(s: string)
    requires forall i :: 0 <= i < |s| ==> IsAscii(s[i])
    ensures ByteLen(s) == |s|
  {
    if s != [] {
      assert IsAscii(s[0]);
      assert forall i :: 0 <= i < |s[1..]| ==> s[1..][i] == s[i + 1];
      ByteLenOfAscii(s[1..]);
    }
  }

  /** A candidate of ten or more characters always clears the length check. */
  lemma TenCharsPassLength(msg: string)
    requires |msg| >= MinLength
    ensures Validate(msg) != Some(TooShort)
  {
  }

  /** An ASCII candidate of fewer than ten characters is rejected as too short. */
  lemma ShortAsciiRejected(msg: string)
    requires |msg| < MinLength
    requires forall i :: 0 <= i < |msg| ==> IsAscii(msg[i])
    ensures Validate(msg) == Some(TooShort)
  {
    ByteLenOfAscii(msg);
  }

  /** Worked examples. "AAAb11!!" holds a run of three upper-case letters,
      but at 8 bytes it is rejected by the length check before the run check
      is reached. */
  lemma ExamplesRejected()
    ensures Validate("Ab1!") == Some(TooShort)
    ensures Validate("Abcdefghij") == Some(TooFewDigits)
    ensures Validate("AAAb11!!") == Some(TooShort)
  {
  }

  /** The length check counts bytes: "AbAb12§§" has 8 characters but 10
      bytes, and it is accepted, although the help text next to the field
      asks for at least 10 characters. */
  lemma ExampleMultiByte()
    ensures |"AbAb12\U{A7}\U{A7}"| == 8
    ensures Validate("AbAb12\U{A7}\U{A7}") == None
  {
    assert !HasTripleRun("AbAb12\U{A7}\U{A7}");
  }

  // ----- the run scan -----

  /** `k` is the length of the maximal run of same-shape letters ending at
      position `n - 1` of `s`, and 0 when `n` is 0 or that character is not a
      letter. */
  ghost predicate IsRunEnd(s: string, n: nat, k: nat) {
    && k <= n <= |s|
    && (k == 0 <==> (n == 0 || ShapeOf(s[n - 1]) == Other))
    && (forall j :: n - k <= j < n ==> ShapeOf(s[j]) == ShapeOf(s[n - 1]))
    && (0 < k < n ==> ShapeOf(s[n - k - 1]) != ShapeOf(s[n - 1]))
  }

  /** Reading one more character moves the streak as the scan does: back to
      0 after a non-letter, one longer after a letter of the same case, and
      to 1 after a letter of the other case. */
  lemma RunEndExtend(s: string, n: nat, k: nat, k': nat)
    requires n < |s| && IsRunEnd(s, n, k)
    requires k' == if ShapeOf(s[n]) == Other then 0
                   else if n > 0 && ShapeOf(s[n - 1]) == ShapeOf(s[n]) then k + 1
                   else 1
    ensures IsRunEnd(s, n + 1, k')
  {
  }

  /** The maximal run ending at position `n - 1` reaches 3 exactly when
      positions n-3, n-2 and n-1 hold same-case letters. */
  lemma RunEndTriple(s: string, n: nat, k: nat)
    requires IsRunEnd(s, n, k) && n >= 3
    ensures SameCaseAt(s, n - 3) <==> k >= 3
  {
    if k >= 3 {
      assert ShapeOf(s[n - 3]) == ShapeOf(s[n - 1]) && ShapeOf(s[n - 2]) == ShapeOf(s[n - 1]);
    } else if SameCaseAt(s, n - 3) {
      assert false;
    }
  }

  /** What the scan knows after reading the first `i` characters of `msg`:
      `last` is the shape of the previous character, `streak` the length of
      the same-case run ending there, and no window so far is a triple. */
  ghost predicate ScanInvariant(msg: string, i: nat, last: Shape, streak: nat) {
    && i <= |msg|
    && last == (if i == 0 then Other else ShapeOf(msg[i - 1]))
    && IsRunEnd(msg, i, streak)
    && streak <= 2
    && forall j: nat :: j + 2 < i ==> !SameCaseAt(msg, j)
  }

  /** One step of the scan: the new streak passes 2 exactly when positions
      i-2, i-1 and i hold same-case letters; below that the scan goes on. */
  lemma ScanStep(msg: string, i: nat, last: Shape, k: nat, last': Shape, k': nat)
    requires i < |msg| && ScanInvariant(msg, i, last, k)
    requires last' == ShapeOf(msg[i])
    requires k' == if last' == Other then 0 else if last == last' then k + 1 else 1
    ensures k' > 2 ==> HasTripleRun(msg)
    ensures k' <= 2 ==> ScanInvariant(msg, i + 1, last', k')
  {
    RunEndExtend(msg, i, k, k');
    if i >= 2 {
      RunEndTriple(msg, i + 1, k');
    }
  }

  /** `reason_message_is_bad`: the five counting checks, then a left-to-right
      scan that tracks the shape of the previous character and the length
      of the current same-case streak. */
  method ReasonMessageIsBad(msg: string) returns (reason: Option<Reason>)
    ensures reason == Validate(msg)
  {
    if ByteLen(msg) < MinLength {
      return Some(TooShort);
    }
    if Count(msg, IsNumeric) < MinPerClass {
      return Some(TooFewDigits);
    }
    if Count(msg, IsUpper) < MinPerClass {
      return Some(TooFewUpper);
    }
    if Count(msg, IsLower) < MinPerClass {
      return Some(TooFewLower);
    }
    if Count(msg, IsSpecial) < MinPerClass {
      return Some(TooFewSpecial);
    }
    assert Validate(msg) == if HasTripleRun(msg) then Some(TooLittleVariety) else None;
    var last := Other;
    var streak: nat := 0;
    for i := 0 to |msg|
      invariant ScanInvariant(msg, i, last, streak)
    {
      var c := msg[i];
      ghost var (last0, k) := (last, streak);
      if IsUpper(c) {
        if last == Upper {
          streak := streak + 1;
        } else {
          streak := 1;
        }
        last := Upper;
      } else if IsLower(c) {
        if last == Lower {
          streak := streak + 1;
        } else {
          streak := 1;
        }
        last := Lower;
      } else {
        last := Other;
        streak := 0;
      }
      ScanStep(msg, i, last0, k, last, streak);
      if streak > 2 {
        return Some(TooLittleVariety);
      }
    }
    return None;
  }
}
