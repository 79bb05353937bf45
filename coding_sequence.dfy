/**
 * The coding-sequence generator: an RNA string that opens with the start codon
 * and continues with codons drawn base by base, where a drawn codon that the
 * standard genetic code (NCBI translation table 1) reads as a stop is thrown
 * away and drawn again.
 *
 * The random source is an input: `draws` is the stream of values returned by
 * the successive `randint(0, 3)` calls, each an index into `Bases`.
 */
module CodingSequence {
  import opened Wrappers
  import opened Seqs

  /** The RNA alphabet, in the order a drawn index selects from it. */
  const Bases: string := "AUCG"

  const StartCodon: string := "AUG"

  /** Codons per coding sequence, the start codon included. */
  const SequenceLength: nat := 7

  /** One value of `randint(0, 3)`. */
  type BaseDraw = d: int | 0 <= d < 4

  /**
   * A stop codon of the standard genetic code, a codon that translates to
   * `*`, tested base by base.
   */
  predicate IsStopCodon(codon: string)
  {
    && |codon| == 3
    && codon[0] == 'U'
    && ((codon[1] == 'A' && (codon[2] == 'A' || codon[2] == 'G')) || (codon[1] == 'G' && codon[2] == 'A'))
  }

  /** The base-by-base test names exactly the three stop codons UAA, UAG and UGA. */
  lemma StopCodonsListed(codon: string)
    requires IsCodon(codon)
    ensures IsStopCodon(codon) <==> codon == "UAA" || codon == "UAG" || codon == "UGA"
  {
  }

  /** Three bases of the alphabet. */
  predicate IsCodon(codon: string)
  {
    |codon| == 3 && forall k :: 0 <= k < 3 ==> codon[k] in Bases
  }

  /** The `j`-th codon (counting from 0) of a sequence read in frame. */
  function CodonAt(s: string, j: nat): string
    requires 3 * j + 3 <= |s|
  {
    s[3 * j .. 3 * j + 3]
  }

  /** What every accepted outcome of the generator looks like. */
  ghost predicate IsCodingSequence(s: string)
  {
    && |s| == 3 * SequenceLength
    && s[..3] == StartCodon
    && (forall k :: 0 <= k < |s| ==> s[k] in Bases)
    && (forall j :: 1 <= j < SequenceLength ==> !IsStopCodon(CodonAt(s, j)))
  }

  /** The codon spelled by three draws. */
  function CodonOf(a: BaseDraw, b: BaseDraw, c: BaseDraw): (codon: string)
    ensures IsCodon(codon)
    ensures codon[0] == Bases[a] && codon[1] == Bases[b] && codon[2] == Bases[c]
  {
    [Bases[a], Bases[b], Bases[c]]
  }

  /** The codon spelled by the `k`-th triple of draws (counting from 0). */
  function TripleAt(draws: seq<BaseDraw>, k: nat): (codon: string)
    requires 3 * k + 3 <= |draws|
    ensures IsCodon(codon)
  {
    CodonOf(draws[3 * k], draws[3 * k + 1], draws[3 * k + 2])
  }

  /**
   * Reference definition of the rejection loop: the first `n` consecutive
   * triples of draws, each read as a codon, less those that spell a stop
   * codon.
   */
  function AcceptedCodons(draws: seq<BaseDraw>, n: nat): (codons: seq<string>)
    requires 3 * n <= |draws|
    ensures |codons| <= n
  {
    if n == 0 then []
    else
      var codon := TripleAt(draws, n - 1);
      AcceptedCodons(draws, n - 1) + (if IsStopCodon(codon) then [] else [codon])
  }

  /**
   * The coding sequence a stream of draws yields: the start codon followed by
   * the first `SequenceLength - 1` accepted codons; `None` when the stream ends
   * before that many codons were accepted (a trailing incomplete triple is
   * never read as a codon).
   */
  function CodingSequenceFrom(draws: seq<BaseDraw>): (r: Option<string>)
    ensures r.Some? ==> StartCodon <= r.value
  {
    var codons := AcceptedCodons(draws, |draws| / 3);
    if |codons| < SequenceLength - 1 then None
    else Some(StartCodon + Flatten(codons[..SequenceLength - 1]))
  }

  /** Every accepted codon is a codon of the alphabet and not a stop codon. */
  lemma {:induction false} AcceptedCodonsValid(draws: seq<BaseDraw>, n: nat)
    requires 3 * n <= |draws|
    ensures forall j :: 0 <= j < |AcceptedCodons(draws, n)| ==> IsCodon(AcceptedCodons(draws, n)[j]) && !IsStopCodon(AcceptedCodons(draws, n)[j])
  {
    if n > 0 {
      AcceptedCodonsValid(draws, n - 1);
    }
  }

  /** Reading more triples only ever appends to the codons accepted so far. */
  lemma {:induction false} AcceptedCodonsGrow(draws: seq<BaseDraw>, n: nat, m: nat)
    requires n <= m && 3 * m <= |draws|
    ensures AcceptedCodons(draws, n) <= AcceptedCodons(draws, m)
  {
    if n < m {
      AcceptedCodonsGrow(draws, n, m - 1);
    }
  }

  /** Concatenated codons: the length is three per codon, each codon reads back in frame, every base is in the alphabet. */
  lemma {:induction false} FlattenCodons(codons: seq<string>)
    requires forall j :: 0 <= j < |codons| ==> IsCodon(codons[j])
    ensures |Flatten(codons)| == 3 * |codons|
    ensures forall j :: 0 <= j < |codons| ==> CodonAt(Flatten(codons), j) == codons[j]
    ensures forall k :: 0 <= k < |Flatten(codons)| ==> Flatten(codons)[k] in Bases
  {
    if codons != [] {
      var rest := Flatten(codons[1..]);
      FlattenCodons(codons[1..]);
      assert Flatten(codons) == codons[0] + rest;
      forall j | 0 <= j < |codons|
        ensures CodonAt(Flatten(codons), j) == codons[j]
      {
        if j > 0 {
          assert CodonAt(Flatten(codons), j) == CodonAt(rest, j - 1);
          assert codons[1..][j - 1] == codons[j];
        }
      }
      forall k | 0 <= k < |Flatten(codons)|
        ensures Flatten(codons)[k] in Bases
      {
        if k >= 3 {
          assert Flatten(codons)[k] == rest[k - 3];
        }
      }
    }
  }

  /**
   * Every accepted outcome has length `3 * SequenceLength`, begins with the
   * start codon, uses only the four bases (so the palette lookup by base index
   * stays within the four colours), and holds no stop codon after the start.
   */
  lemma CodingSequenceIsWellFormed(draws: seq<BaseDraw>)
    ensures CodingSequenceFrom(draws).Some? ==> IsCodingSequence(CodingSequenceFrom(draws).value)
  {
    var codons := AcceptedCodons(draws, |draws| / 3);
    if |codons| >= SequenceLength - 1 {
      AcceptedCodonsValid(draws, |draws| / 3);
      var tail := codons[..SequenceLength - 1];
      FlattenCodons(tail);
      var s := StartCodon + Flatten(tail);
      assert s[..3] == StartCodon;
      forall j | 1 <= j < SequenceLength
        ensures !IsStopCodon(CodonAt(s, j))
      {
        assert CodonAt(s, j) == CodonAt(Flatten(tail), j - 1);
      }
      forall k | 0 <= k < |s|
        ensures s[k] in Bases
      {
        if k >= 3 {
          assert s[k] == Flatten(tail)[k - 3];
        }
      }
    }
  }

  /** Position of a base in the alphabet, the index that picks its palette colour. */
  function BaseIndex(b: char): (i: nat)
    requires b in Bases
    ensures i < |Bases| && Bases[i] == b
  {
    if b == 'A' then 0 else if b == 'U' then 1 else if b == 'C' then 2 else 3
  }

  /**
   * Only stop codons are rejected: when the draws open with a `UAA` triple
   * and then an `AUG` triple, the first is skipped and the second is kept like
   * any other codon, so the coding sequence repeats the start codon.
   */
  lemma StopSkippedStartKept(draws: seq<BaseDraw>)
    requires |draws| >= 6
    requires draws[0] == 1 && draws[1] == 0 && draws[2] == 0
    requires draws[3] == 0 && draws[4] == 1 && draws[5] == 3
    ensures AcceptedCodons(draws, 2) == [StartCodon]
    ensures CodingSequenceFrom(draws).Some? ==> StartCodon + StartCodon <= CodingSequenceFrom(draws).value
  {
    assert IsStopCodon(TripleAt(draws, 0));
    assert AcceptedCodons(draws, 1) == [];
    assert TripleAt(draws, 1) == StartCodon;
    var codons := AcceptedCodons(draws, |draws| / 3);
    if |codons| >= SequenceLength - 1 {
      AcceptedCodonsGrow(draws, 2, |draws| / 3);
      var tail := codons[..SequenceLength - 1];
      assert tail[0] == StartCodon;
      assert Flatten(tail) == StartCodon + Flatten(tail[1..]);
      PrefixOfConcat(StartCodon, StartCodon, Flatten(tail[1..]));
    }
  }

  /**
   * The retry loop for one codon: draw three bases, and draw again while they
   * spell a stop codon. Starting after the first `read` triples, returns the
   * codon and the number of triples read by then; `None` if the draws run out
   * first.
   */
  method DrawCodon(draws: seq<BaseDraw>, read: nat) returns (codon: Option<string>, next: nat)
    requires 3 * read <= |draws|
    ensures read <= next && 3 * next <= |draws|
    ensures codon.Some? ==> read < next && codon.value == TripleAt(draws, next - 1)
    ensures codon.Some? ==> AcceptedCodons(draws, next) == AcceptedCodons(draws, read) + [codon.value]
    ensures codon.None? ==> AcceptedCodons(draws, |draws| / 3) == AcceptedCodons(draws, read)
  {
    next := read;
    while true
      invariant read <= next && 3 * next <= |draws|
      invariant AcceptedCodons(draws, next) == AcceptedCodons(draws, read)
      decreases |draws| - 3 * next
    {
      if 3 * next + 3 > |draws| {
        assert next == |draws| / 3;
        return None, next;
      }
      var c := TripleAt(draws, next);
      next := next + 1;
      if !IsStopCodon(c) {
        return Some(c), next;
      }
    }
  }

  /**
   * The generator: starting from the start codon, append `SequenceLength - 1`
   * codons, each obtained by the retry loop of `DrawCodon`. Returns `None` if
   * the draws run out first.
   */
  method GenerateCodingSequence(draws: seq<BaseDraw>) returns (r: Option<string>)
    ensures r == CodingSequenceFrom(draws)
    ensures r.Some? ==> IsCodingSequence(r.value)
  {
    CodingSequenceIsWellFormed(draws);
    var s := StartCodon;
    var read := 0;
    for i := 0 to SequenceLength - 1
      invariant 3 * read <= |draws|
      invariant |AcceptedCodons(draws, read)| == i
      invariant s == StartCodon + Flatten(AcceptedCodons(draws, read))
    {
      ghost var accepted := AcceptedCodons(draws, read);
      var codon;
      codon, read := DrawCodon(draws, read);
      if codon.None? {
        return None;
      }
      FlattenSnoc(accepted, codon.value);
      s := s + codon.value;
    }
    AcceptedCodonsGrow(draws, read, |draws| / 3);
    assert AcceptedCodons(draws, |draws| / 3)[..SequenceLength - 1] == AcceptedCodons(draws, read);
    r := Some(s);
  }
}
