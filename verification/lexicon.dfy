/** Words and lexicons of the sound-change simulator: a word is a CVC
    syllable of integer codes, a lexicon is a sequence of words (duplicates
    allowed). This module also holds the translation between spelled and
    coded words, the per-slot phoneme sets, and the pairwise distance
    statistic used to summarise a lexicon. */
module Lexicon {
  import opened Alphabet

  datatype Option<+T> = None | Some(value: T)

  /** The three positions of the CVC template. */
  datatype Slot = Onset | Nucleus | Coda

  /** A coded word (onset, nucleus, coda). */
  datatype Word = Word(onset: nat, nucleus: nat, coda: nat) {

    function Get(s: Slot): nat
    {
      match s
      case Onset => onset
      case Nucleus => nucleus
      case Coda => coda
    }

    /** This word with slot `s` replaced by `v`. */
    function With(s: Slot, v: nat): (w: Word)
      ensures w.Get(s) == v
      ensures forall t :: t != s ==> w.Get(t) == Get(t)
    {
      match s
      case Onset => this.(onset := v)
      case Nucleus => this.(nucleus := v)
      case Coda => this.(coda := v)
    }
  }

  /** A word spelled with symbols, as read from the word list. */
  type Spelling = (string, string, string)

  /** Number of codes of the phoneme class filling a slot. */
  function ClassSize(s: Slot): nat
  {
    if s == Nucleus then |RevVowels| else |RevConsonants|
  }

  /** Every code of the word is a key of the matching inverse table. */
  predicate InInventory(w: Word)
  {
    w.onset < |RevConsonants| && w.nucleus < |RevVowels| && w.coda < |RevConsonants|
  }

  predicate AllInInventory(lex: seq<Word>)
  {
    forall k :: 0 <= k < |lex| ==> InInventory(lex[k])
  }

  /** Encodes a spelled word; `None` stands for the lookup failure of an
      unknown symbol. */
  function Vectorize(t: Spelling): (r: Option<Word>)
    ensures r.Some? <==> t.0 in Consonants && t.1 in Vowels && t.2 in Consonants
    ensures r.Some? ==> InInventory(r.value)
  {
    ConsonantTablesInverse();
    VowelTablesInverse();
    if t.0 in Consonants && t.1 in Vowels && t.2 in Consonants then
      Some(Word(Consonants[t.0], Vowels[t.1], Consonants[t.2]))
    else
      None
  }

  /** Decodes a coded word slot by slot; `None` when a code has no symbol. */
  function DecodeSlots(w: Word): (r: Option<Spelling>)
    ensures r.Some? <==> InInventory(w)
  {
    if InInventory(w) then
      Some((RevConsonants[w.onset], RevVowels[w.nucleus], RevConsonants[w.coda]))
    else
      None
  }

  /** The word as one string: the three symbols concatenated. */
  function VectorizeInverse(w: Word): (r: Option<string>)
    ensures r.Some? <==> InInventory(w)
  {
    match DecodeSlots(w)
    case Some(t) => Some(t.0 + t.1 + t.2)
    case None => None
  }

  /** Decoding an encoded word gives back its symbols, and its spelling. */
  lemma VectorizeRoundTrip(t: Spelling, w: Word)
    requires Vectorize(t) == Some(w)
    ensures DecodeSlots(w) == Some(t)
    ensures VectorizeInverse(w) == Some(t.0 + t.1 + t.2)
  {
    ConsonantTablesInverse();
    VowelTablesInverse();
  }

  /** Encoding the symbols of a decodable word gives back the word. */
  lemma DecodeRoundTrip(w: Word, t: Spelling)
    requires DecodeSlots(w) == Some(t)
    ensures Vectorize(t) == Some(w)
  {
    ConsonantTablesInverse();
    VowelTablesInverse();
  }

  /** Encodes a whole word list; `None` as soon as one word has an unknown
      symbol. */
  function Load(spelled: seq<Spelling>): (r: Option<seq<Word>>)
    ensures r.Some? <==> forall k :: 0 <= k < |spelled| ==> Vectorize(spelled[k]).Some?
    ensures r.Some? ==> |r.value| == |spelled| && AllInInventory(r.value)
    ensures r.Some? ==> forall k :: 0 <= k < |spelled| ==> Some(r.value[k]) == Vectorize(spelled[k])
    decreases |spelled|
  {
    if spelled == [] then Some([])
    else
      match (Vectorize(spelled[0]), Load(spelled[1..]))
      case (Some(w), Some(rest)) => Some([w] + rest)
      case _ => None
  }

  /** The set of codes occurring in slot `s` of the lexicon. */
  function SlotSet(lex: seq<Word>, s: Slot): (r: set<nat>)
    ensures forall x :: x in r <==> exists k :: 0 <= k < |lex| && lex[k].Get(s) == x
  {
    set w | w in lex :: w.Get(s)
  }

  /** Total number of phonemes in use: consonants (onset or coda) plus vowels. */
  function PhonemeCount(lex: seq<Word>): nat
  {
    |SlotSet(lex, Onset) + SlotSet(lex, Coda)| + |SlotSet(lex, Nucleus)|
  }

  /** Number of positions at which two words differ. */
  function Distance(a: Word, b: Word): (d: nat)
    ensures d <= 3
    ensures d == 0 <==> a == b
  {
    (if a.onset != b.onset then 1 else 0)
    + (if a.nucleus != b.nucleus then 1 else 0)
    + (if a.coda != b.coda then 1 else 0)
  }

  /** The slots in which two words differ. */
  function DifferingSlots(a: Word, b: Word): set<Slot>
  {
    set s | s in {Onset, Nucleus, Coda} && a.Get(s) != b.Get(s)
  }

  /** The distance is the number of slots in which the two words differ. */
  lemma DistanceCountsSlots(a: Word, b: Word)
    ensures Distance(a, b) == |DifferingSlots(a, b)|
  {
    var o: set<Slot> := if a.onset != b.onset then {Onset} else {};
    var n: set<Slot> := if a.nucleus != b.nucleus then {Nucleus} else {};
    var c: set<Slot> := if a.coda != b.coda then {Coda} else {};
    forall s: Slot
      ensures s in DifferingSlots(a, b) <==> s in o + n + c
    {
      match s
      case Onset =>
      case Nucleus =>
      case Coda =>
    }
    assert DifferingSlots(a, b) == o + n + c;
    assert |o + n| == |o| + |n|;
    assert |o + n + c| == |o + n| + |c|;
  }

  lemma DistanceSymmetric(a: Word, b: Word)
    ensures Distance(a, b) == Distance(b, a)
  {
  }

  /** Sum of the distances from `w` to each word of `s`. */
  function RowSum(w: Word, s: seq<Word>): nat
  {
    if s == [] then 0 else RowSum(w, s[..|s| - 1]) + Distance(w, s[|s| - 1])
  }

  /** Sum of the distances over all unordered pairs of positions of `lex`:
      each word is compared with the words after it. */
  function DistanceSum(lex: seq<Word>): nat
  {
    if lex == [] then 0 else RowSum(lex[0], lex[1..]) + DistanceSum(lex[1..])
  }

  /** Number of unordered pairs of positions among `n` words. */
  function PairCount(n: nat): nat
  {
    if n == 0 then 0 else (n - 1) + PairCount(n - 1)
  }

  lemma {:induction false} PairCountClosed(n: nat)
    ensures PairCount(n) == n * (n - 1) / 2
    ensures PairCount(n) > 0 <==> n >= 2
  {
    if n > 0 {
      PairCountClosed(n - 1);
      assert n * (n - 1) == (n - 1) * (n - 2) + 2 * (n - 1);
    }
  }

  /** The inner loop of the average: distances from `w` to each later word,
      and how many were taken. */
  method RowDistances(w: Word, later: seq<Word>) returns (row: nat, taken: nat)
    ensures row == RowSum(w, later)
    ensures taken == |later|
  {
    row, taken := 0, 0;
    while taken < |later|
      invariant taken <= |later|
      invariant row == RowSum(w, later[..taken])
    {
      assert later[..taken + 1][..taken] == later[..taken];
      row := row + Distance(w, later[taken]);
      taken := taken + 1;
    }
    assert later[..taken] == later;
  }

  /** The average distance is `sum / pairs`; the source divides, so the
      average exists only when `pairs > 0`, that is for two or more words. */
  method Average(lex: seq<Word>) returns (sum: nat, pairs: nat)
    ensures sum == DistanceSum(lex)
    ensures pairs == PairCount(|lex|)
    ensures pairs > 0 <==> |lex| >= 2
    ensures sum <= 3 * pairs
  {
    sum, pairs := 0, 0;
    var index := 0;
    while index < |lex|
      invariant 0 <= index <= |lex|
      invariant sum + DistanceSum(lex[index..]) == DistanceSum(lex)
      invariant pairs + PairCount(|lex| - index) == PairCount(|lex|)
    {
      assert lex[index + 1..] == lex[index..][1..];
      var row, taken := RowDistances(lex[index], lex[index + 1..]);
      sum := sum + row;
      pairs := pairs + taken;
      index := index + 1;
    }
    PairCountClosed(|lex|);
    DistanceSumBound(lex);
  }

  lemma {:induction false} RowSumBound(w: Word, s: seq<Word>)
    ensures RowSum(w, s) <= 3 * |s|
  {
    if s != [] {
      RowSumBound(w, s[..|s| - 1]);
    }
  }

  /** Every pair contributes at most 3, so the average never exceeds 3. */
  lemma {:induction false} DistanceSumBound(lex: seq<Word>)
    ensures DistanceSum(lex) <= 3 * PairCount(|lex|)
  {
    if lex != [] {
      RowSumBound(lex[0], lex[1..]);
      DistanceSumBound(lex[1..]);
    }
  }

  lemma {:induction false} RowSumAppend(w: Word, a: seq<Word>, b: seq<Word>)
    ensures RowSum(w, a + b) == RowSum(w, a) + RowSum(w, b)
  {
    if b != [] {
      assert (a + b)[..|a + b| - 1] == a + b[..|b| - 1];
      RowSumAppend(w, a, b[..|b| - 1]);
    } else {
      assert a + b == a;
    }
  }

  /** Appending a word adds its distances to all earlier words. */
  lemma {:induction false} DistanceSumSnoc(a: seq<Word>, w: Word)
    ensures DistanceSum(a + [w]) == DistanceSum(a) + RowSum(w, a)
  {
    if a == [] {
      assert [] + [w] == [w];
    } else {
      var x, rest := a[0], a[1..];
      assert (a + [w])[1..] == rest + [w];
      assert (rest + [w])[..|rest + [w]| - 1] == rest;
      DistanceSumSnoc(rest, w);
      assert a == [x] + rest;
      RowSumAppend(w, [x], rest);
      assert [x][..0] == [];
      DistanceSymmetric(x, w);
    }
  }

  /** The lexicon in the opposite order. */
  function Reverse(s: seq<Word>): (r: seq<Word>)
    ensures |r| == |s|
    ensures forall i :: 0 <= i < |s| ==> r[i] == s[|s| - 1 - i]
  {
    if s == [] then [] else Reverse(s[1..]) + [s[0]]
  }

  lemma {:induction false} RowSumReverse(w: Word, s: seq<Word>)
    ensures RowSum(w, Reverse(s)) == RowSum(w, s)
  {
    if s != [] {
      RowSumReverse(w, s[1..]);
      RowSumAppend(w, Reverse(s[1..]), [s[0]]);
      assert s == [s[0]] + s[1..];
      RowSumAppend(w, [s[0]], s[1..]);
      assert [s[0]][..0] == [];
      assert [s[0]][..1 - 1] == [];
    }
  }

  /** The distance statistic does not depend on the order of the lexicon:
      reversing it leaves the sum unchanged. */
  lemma {:induction false} DistanceSumReverse(lex: seq<Word>)
    ensures DistanceSum(Reverse(lex)) == DistanceSum(lex)
  {
    if lex != [] {
      DistanceSumReverse(lex[1..]);
      DistanceSumSnoc(Reverse(lex[1..]), lex[0]);
      RowSumReverse(lex[0], lex[1..]);
    }
  }

  lemma {:induction false} RowSumZero(w: Word, s: seq<Word>)
    ensures RowSum(w, s) == 0 <==> forall k :: 0 <= k < |s| ==> s[k] == w
  {
    if s != [] {
      RowSumZero(w, s[..|s| - 1]);
    }
  }

  /** The distance sum is zero exactly when all words of the lexicon are
      identical. */
  lemma {:induction false} DistanceSumZero(lex: seq<Word>)
    ensures DistanceSum(lex) == 0 <==> forall j, k :: 0 <= j < |lex| && 0 <= k < |lex| ==> lex[j] == lex[k]
  {
    if lex != [] {
      DistanceSumZero(lex[1..]);
      RowSumZero(lex[0], lex[1..]);
      if DistanceSum(lex) == 0 {
        forall j, k | 0 <= j < |lex| && 0 <= k < |lex|
          ensures lex[j] == lex[k]
        {
          assert lex[j] == lex[0] by { if j > 0 { assert lex[j] == lex[1..][j - 1]; } }
          assert lex[k] == lex[0] by { if k > 0 { assert lex[k] == lex[1..][k - 1]; } }
        }
      }
    }
  }

  /** `(0, 0, 0)` and `(1, 1, 1)` differ in all three slots, so their one
      pair contributes 3. */
  lemma DistanceExample()
    ensures DistanceSum([Word(0, 0, 0), Word(1, 1, 1)]) == 3
    ensures PairCount(2) == 1
  {
    assert [Word(0, 0, 0), Word(1, 1, 1)][1..] == [Word(1, 1, 1)];
    assert [Word(1, 1, 1)][..0] == [];
  }

  /** Table lookups for the demonstration words. */
  lemma VectorizeDog()
    ensures Vectorize(("d", "o", "g")) == Some(Word(5, 3, 13))
  {
  }

  lemma VectorizeCat()
    ensures Vectorize(("c", "a", "t")) == Some(Word(16, 2, 6))
  {
  }

  lemma VectorizePig()
    ensures Vectorize(("p", "i", "g")) == Some(Word(1, 0, 13))
  {
  }

  /** The demonstration words "dog", "cat", "pig" load through the tables to
      (5, 3, 13), (16, 2, 6) and (1, 0, 13). */
  lemma DogCatPigLoad()
    ensures Load([("d", "o", "g"), ("c", "a", "t"), ("p", "i", "g")]) == Some([Word(5, 3, 13), Word(16, 2, 6), Word(1, 0, 13)])
  {
    var spelled: seq<Spelling> := [("d", "o", "g"), ("c", "a", "t"), ("p", "i", "g")];
    VectorizeDog();
    VectorizeCat();
    VectorizePig();
    var loaded := Load(spelled);
    assert loaded.Some?;
    assert loaded.value == [Word(5, 3, 13), Word(16, 2, 6), Word(1, 0, 13)];
  }

  /** The loaded demonstration words (`DogCatPigLoad`) have distance sum
      3 + 2 + 3 over their 3 pairs. */
  lemma DogCatPigDistance()
    ensures DistanceSum([Word(5, 3, 13), Word(16, 2, 6), Word(1, 0, 13)]) == 8
  {
    var dog, cat, pig := Word(5, 3, 13), Word(16, 2, 6), Word(1, 0, 13);
    var lex := [dog, cat, pig];
    assert lex[1..] == [cat, pig];
    assert [cat, pig][1..] == [pig];
    assert [pig][1..] == [];
    assert [cat, pig][..1] == [cat];
    assert [cat][..0] == [];
    assert [pig][..0] == [];
    assert RowSum(dog, [cat]) == 3;
    assert RowSum(dog, [cat, pig]) == 5;
    assert RowSum(cat, [pig]) == 3;
    assert DistanceSum([pig]) == 0;
    assert DistanceSum([cat, pig]) == 3;
  }
}
