/** utils.GenRandomID: a short identifier of IdLength characters drawn
    uniformly from a 62-character alphabet with crypto/rand. The random source
    is an explicit, finite byte sequence; running out of it is the read error
    crypto/rand would report. */
module IdGen {
  import opened Types

  /** The characters an identifier is made of. */
  const AllowedCharacters: Text := "abcdefghijklm" + "nopqrstuvwxyz" + "ABCDEFGHIJKLM" + "NOPQRSTUVWXYZ" + "01234" + "56789"

  /** The length of a generated identifier. */
  const IdLength: nat := 5

  /** What is left of the random source. */
  type Entropy = seq<Octet>

  /** An identifier that GenRandomID can produce. */
  predicate ValidId(id: ID)
  {
    |id| == IdLength && forall k | 0 <= k < |id| :: id[k] in AllowedCharacters
  }

  /** The alphabet is the lower-case letters, the upper-case letters and the
      digits, in that order. */
  lemma AllowedLetters()
    ensures |AllowedCharacters| == 62
    ensures forall k | 0 <= k < 26 :: 'a' <= AllowedCharacters[k] <= 'z'
    ensures forall k | 26 <= k < 52 :: 'A' <= AllowedCharacters[k] <= 'Z'
  {
    var lower := "abcdefghijklm" + "nopqrstuvwxyz";
    var upper := "ABCDEFGHIJKLM" + "NOPQRSTUVWXYZ";
    assert AllowedCharacters == lower + upper + ("01234" + "56789");
    assert forall k | 0 <= k < 26 :: 'a' <= lower[k] <= 'z';
    assert forall k | 0 <= k < 26 :: 'A' <= upper[k] <= 'Z';
  }

  lemma AllowedDigits()
    ensures forall k | 52 <= k < 62 :: '0' <= AllowedCharacters[k] <= '9'
  {
    var letters := "abcdefghijklm" + "nopqrstuvwxyz" + "ABCDEFGHIJKLM" + "NOPQRSTUVWXYZ";
    var digits := "01234" + "56789";
    assert AllowedCharacters == letters + digits;
    assert |letters| == 52;
    assert forall k | 0 <= k < 10 :: '0' <= digits[k] <= '9';
  }

  /** No allowed character is a field or line separator of the text logs. */
  lemma AllowedCharactersClean()
    ensures ',' !in AllowedCharacters && '\n' !in AllowedCharacters
  {
    AllowedLetters();
    AllowedDigits();
  }

  /** A generated identifier holds no field or line separator. */
  lemma ValidIdClean(id: ID)
    requires ValidId(id)
    ensures ',' !in id && '\n' !in id
  {
    AllowedCharactersClean();
    assert forall k | 0 <= k < |id| :: id[k] != ',' && id[k] != '\n';
  }

  /** rand.Int(rand.Reader, 62): one byte is read and masked to its low six
      bits (62 needs six); a value of 62 or 63 is rejected and another byte is
      read. None when the source runs out. */
  function RandIndex(src: Entropy): (r: Option<(nat, Entropy)>)
    ensures r.Some? ==> r.value.0 < |AllowedCharacters| && |r.value.1| < |src|
    ensures r.Some? ==> r.value.1 == src[|src| - |r.value.1|..]
    decreases |src|
  {
    if src == [] then None
    else if src[0] % 64 < 62 then Some((src[0] % 64, src[1..]))
    else RandIndex(src[1..])
  }

  /** n characters drawn one after another, with the source left over; None
      as soon as a draw fails. */
  function Draw(src: Entropy, n: nat): (r: Option<(ID, Entropy)>)
    ensures r.Some? ==> |r.value.0| == n && |r.value.1| + n <= |src|
    ensures r.Some? ==> forall k | 0 <= k < n :: r.value.0[k] in AllowedCharacters
    decreases n
  {
    if n == 0 then Some(([], src))
    else
      var first := RandIndex(src);
      if first.None? then None
      else
        var (i, rest) := first.value;
        Prefix([AllowedCharacters[i]], Draw(rest, n - 1))
  }

  /** Puts p in front of the identifier of an outcome. */
  function Prefix(p: ID, r: Option<(ID, Entropy)>): (q: Option<(ID, Entropy)>)
    ensures q.Some? <==> r.Some?
    ensures q.Some? ==> q.value == (p + r.value.0, r.value.1)
  {
    if r.None? then None else Some((p + r.value.0, r.value.1))
  }

  lemma PrefixEmpty(r: Option<(ID, Entropy)>)
    ensures Prefix([], r) == r
  {
    if r.Some? {
      assert [] + r.value.0 == r.value.0;
    }
  }

  lemma PrefixPrefix(p: ID, q: ID, r: Option<(ID, Entropy)>)
    ensures Prefix(p, Prefix(q, r)) == Prefix(p + q, r)
  {
    if r.Some? {
      assert p + (q + r.value.0) == p + q + r.value.0;
    }
  }

  /** What GenRandomID computes from a random source. */
  function Generate(src: Entropy): (r: Option<(ID, Entropy)>)
  {
    Draw(src, IdLength)
  }

  /** Every identifier produced has IdLength characters, all allowed, and
      consumes at least one byte per character. */
  lemma GenerateValid(src: Entropy)
    requires Generate(src).Some?
    ensures ValidId(Generate(src).value.0)
    ensures |Generate(src).value.1| + IdLength <= |src|
  {
  }

  /** Generation fails only when the source runs dry: a source holding
      IdLength acceptable bytes always yields an identifier. */
  lemma {:induction false} DrawEnough(src: Entropy, n: nat)
    requires n <= |src|
    requires forall k | 0 <= k < n :: src[k] % 64 < 62
    ensures Draw(src, n).Some?
    ensures Draw(src, n).value.1 == src[n..]
    decreases n
  {
    if n > 0 {
      assert RandIndex(src) == Some((src[0] % 64, src[1..]));
      DrawEnough(src[1..], n - 1);
      assert src[1..][n - 1..] == src[n..];
    }
  }

  /** utils.GenRandomID: IdLength draws appended one by one to a builder; the
      first failed draw returns ("", err). The rest of the source is returned
      so that a caller can draw again. */
  method GenRandomID(src: Entropy) returns (id: ID, err: Option<Error>, rest: Entropy)
    ensures err.None? <==> Generate(src).Some?
    ensures err.None? ==> (id, rest) == Generate(src).value
    ensures err.Some? ==> id == [] && err == Some(ErrEntropy) && rest == []
  {
    var b: ID := [];
    var cur := src;
    var i := 0;
    PrefixEmpty(Generate(src));
    while i < IdLength
      invariant 0 <= i <= IdLength
      invariant Generate(src) == Prefix(b, Draw(cur, IdLength - i))
    {
      var n := RandIndex(cur);
      if n.None? {
        assert Draw(cur, IdLength - i) == None;
        return [], Some(ErrEntropy), [];
      }
      var k, after := n.value.0, n.value.1;
      assert Draw(cur, IdLength - i) == Prefix([AllowedCharacters[k]], Draw(after, IdLength - i - 1));
      PrefixPrefix(b, [AllowedCharacters[k]], Draw(after, IdLength - i - 1));
      b := b + [AllowedCharacters[k]];
      cur := after;
      i := i + 1;
    }
    assert Draw(cur, 0) == Some(([], cur));
    assert b + [] == b;
    assert Generate(src) == Some((b, cur));
    return b, None, cur;
  }

  /** The retry loops of the storages: draw identifiers until one is not in
      taken. None when the source runs out first. */
  function GenerateUnused(taken: set<ID>, src: Entropy): (r: Option<(ID, Entropy)>)
    ensures r.Some? ==> r.value.0 !in taken && ValidId(r.value.0)
    ensures r.Some? ==> |r.value.1| + IdLength <= |src|
    decreases |src|
  {
    var g := Generate(src);
    if g.None? then None
    else
      GenerateValid(src);
      if g.value.0 in taken then GenerateUnused(taken, g.value.1) else g
  }

  /** The retry loop stops at the first identifier that is not taken. */
  lemma GenerateUnusedFirst(taken: set<ID>, src: Entropy)
    requires Generate(src).Some? && Generate(src).value.0 !in taken
    ensures GenerateUnused(taken, src) == Generate(src)
  {
  }

  /** An identifier that is taken is skipped: the loop draws again from what
      is left of the source. */
  lemma GenerateUnusedSkip(taken: set<ID>, src: Entropy)
    requires Generate(src).Some? && Generate(src).value.0 in taken
    ensures GenerateUnused(taken, src) == GenerateUnused(taken, Generate(src).value.1)
  {
  }
}
