/** The challenge letter: the keyboard keys the app asks for, and the
    redraw rule of `change_char_to_type` (src/app.rs). The random source is
    a sequence of draws, each an index into the 26 letter keys, as
    `gen_range(0..26)` would produce them. */
module Keys {

  /** Number of letter keys to draw from. */
  const LetterCount: nat := 26

  /** One draw of the random source: an index into the letter table. */
  type LetterIndex = i: int | 0 <= i < LetterCount

  /** The keys `char_to_type` can hold: `Space` before the first draw, then
      a letter key; `Letter(0)` is the key A, `Letter(25)` the key Z. */
  datatype Key = Space | Letter(index: LetterIndex)

  /** The entry of the `KEYS` table at position `i`. */
  function KeyAt(i: LetterIndex): Key {
    Letter(i)
  }

  /** The table holds 26 distinct keys, and they are exactly the keys other
      than `Space`. */
  lemma TableIsTheAlphabet()
    ensures forall i: LetterIndex, j: LetterIndex :: i != j ==> KeyAt(i) != KeyAt(j)
    ensures forall i: LetterIndex :: KeyAt(i) != Space
    ensures forall k: Key :: k != Space ==> KeyAt(k.index) == k
  {
  }

  /** Some draw in `draws` names a letter other than `current`. */
  predicate HasFreshDraw(draws: seq<LetterIndex>, current: Key) {
    exists j :: 0 <= j < |draws| && KeyAt(draws[j]) != current
  }

  /** Position of the draw the redraw loop accepts: the first one whose
      letter differs from `current`; every draw before it names `current`. */
  function FirstFresh(draws: seq<LetterIndex>, current: Key): (j: nat)
    requires HasFreshDraw(draws, current)
    ensures j < |draws| && KeyAt(draws[j]) != current
    ensures forall i :: 0 <= i < j ==> KeyAt(draws[i]) == current
  {
    if KeyAt(draws[0]) != current then 0
    else
      var j :| 0 <= j < |draws| && KeyAt(draws[j]) != current;
      assert draws[1..][j - 1] == draws[j];
      1 + FirstFresh(draws[1..], current)
  }

  /** Every table entry is a letter, so from the initial `Space` the very
      first draw is taken. */
  lemma FirstDrawFromSpace(draws: seq<LetterIndex>)
    requires |draws| > 0
    ensures HasFreshDraw(draws, Space) && FirstFresh(draws, Space) == 0
  {
    assert KeyAt(draws[0]) != Space;
  }

  /** Two different draws in a row are enough: whatever the current key,
      the redraw takes one of the first two. */
  lemma {:induction false} TwoDistinctDrawsSuffice(draws: seq<LetterIndex>, current: Key)
    requires |draws| >= 2 && draws[0] != draws[1]
    ensures HasFreshDraw(draws, current) && FirstFresh(draws, current) <= 1
  {
    if KeyAt(draws[0]) == current {
      assert KeyAt(draws[1]) != current;
    }
  }
}
