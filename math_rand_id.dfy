/** The identifier generator of the two map-only shorteners (genID in
    storage/main.go, and the same loop inlined in Storage.Add of
    storage/storage.go): IdLength characters of the 62-character alphabet,
    each picked by rand.Int31n(62) of math/rand. Both files declare the
    alphabet and the length themselves, with the values of utils.GenRandomID,
    which are used here. The pseudo-random stream is an explicit sequence of
    the values Int31n returned; writing to a strings.Builder never fails, so
    the error result of fmt.Fprint is always nil and is not modelled. */
module MathRandId {
  import opened Types
  import opened IdGen

  /** A value of rand.Int31n(62): in [0, 62). */
  type Index = i: nat | i < 62

  /** The values math/rand returns, in order. */
  type Draws = seq<Index>

  lemma AlphabetSize()
    ensures |AllowedCharacters| == 62
  {
  }

  /** The characters the indices pick. */
  function Spell(d: seq<Index>): (id: ID)
    ensures |id| == |d|
    ensures forall k | 0 <= k < |d| :: id[k] in AllowedCharacters
  {
    AlphabetSize();
    seq(|d|, k requires 0 <= k < |d| => AllowedCharacters[d[k]])
  }

  /** Spelling one more index appends its character. */
  lemma SpellSnoc(d: seq<Index>, i: Index)
    ensures Spell(d + [i]) == Spell(d) + [AllowedCharacters[i]]
  {
    AlphabetSize();
    assert forall k | 0 <= k < |d| + 1 :: Spell(d + [i])[k] == (Spell(d) + [AllowedCharacters[i]])[k];
  }

  /** The retry loop: take IdLength values, and again while the identifier
      they spell is taken. None when the given draws run out first, which
      stands for a loop that has not finished yet. */
  function Mint(taken: set<ID>, draws: Draws): (r: Option<(ID, Draws)>)
    ensures r.Some? ==> r.value.0 !in taken && ValidId(r.value.0)
    ensures r.Some? ==> |r.value.1| + IdLength <= |draws|
    decreases |draws|
  {
    if |draws| < IdLength then None
    else
      var id := Spell(draws[..IdLength]);
      if id in taken then Mint(taken, draws[IdLength..]) else Some((id, draws[IdLength..]))
  }

  /** The loop ends at the first identifier that is not taken. */
  lemma MintFirst(taken: set<ID>, draws: Draws)
    requires IdLength <= |draws| && Spell(draws[..IdLength]) !in taken
    ensures Mint(taken, draws) == Some((Spell(draws[..IdLength]), draws[IdLength..]))
  {
  }

  /** With nothing taken, the first IdLength draws are the identifier. */
  lemma MintNothingTaken(draws: Draws)
    requires IdLength <= |draws|
    ensures Mint({}, draws).Some?
    ensures Mint({}, draws).value.0 == Spell(draws[..IdLength])
  {
  }
}
