/** N-gram extraction for the functional-load calculation. A corpus is the
    item list of a word -> token-frequency dictionary. For order `k = 0` every
    character of every word is counted; for `k >= 1` every window of `k + 1`
    characters of the word padded with a boundary mark on both sides is
    counted, starting at every position except the last `k`. Each occurrence
    counts the word's frequency. */
module NGrams {
  import opened Counter

  /** One dictionary item: a word and its token frequency. */
  datatype Entry = Entry(word: string, freq: int)

  type Corpus = seq<Entry>

  /** A dictionary's item list names each word once. */
  predicate IsDict(c: Corpus)
  {
    forall a, b :: 0 <= a < b < |c| ==> c[a].word != c[b].word
  }

  const Boundary: char := '|'

  function Pad(w: string): (p: string)
    ensures |p| == |w| + 2
  {
    [Boundary] + w + [Boundary]
  }

  /** Number of n-grams of order `k` a word yields. */
  function GramCount(w: string, k: nat): nat
  {
    if k == 0 then |w| else if |w| + 2 > k then |w| + 2 - k else 0
  }

  /** The n-grams of one word, in the order they are counted. */
  function Grams(w: string, k: nat): (r: seq<string>)
    ensures |r| == GramCount(w, k)
  {
    if k == 0 then
      seq(|w|, i requires 0 <= i < |w| => [w[i]])
    else
      var p := Pad(w);
      seq(GramCount(w, k), i requires 0 <= i < GramCount(w, k) => p[i..i + k + 1])
  }

  /** Adds `f` to the count of each key of `keys`, in order. */
  function Tally(m: Table, keys: seq<string>, f: int): Table
    decreases |keys|
  {
    if keys == [] then m else Tally(Add(m, keys[0], f), keys[1..], f)
  }

  /** Counts the n-grams of the corpus words from `c` on into `m`. */
  function NGramsFrom(m: Table, c: Corpus, k: nat): Table
    decreases |c|
  {
    if c == [] then m else NGramsFrom(Tally(m, Grams(c[0].word, k), c[0].freq), c[1..], k)
  }

  /** The n-gram table of order `k` of a corpus. */
  function NGramTable(c: Corpus, k: nat): Table
  {
    NGramsFrom(map[], c, k)
  }

  /** The windows of `n` characters of `s`, from left to right: an
      independent statement of which substrings `ngrams` visits. */
  function Windows(s: string, n: nat): seq<string>
    requires n > 0
    decreases |s|
  {
    if |s| < n then [] else [s[..n]] + Windows(s[1..], n)
  }

  /** There is one window per start position, and the `i`-th starts at `i`. */
  lemma {:induction false} WindowsAt(s: string, n: nat)
    requires n > 0
    ensures |Windows(s, n)| == if |s| >= n then |s| - n + 1 else 0
    ensures forall i :: 0 <= i < |Windows(s, n)| ==> Windows(s, n)[i] == s[i..i + n]
    decreases |s|
  {
    if |s| >= n {
      WindowsAt(s[1..], n);
      forall i | 0 <= i < |Windows(s, n)|
        ensures Windows(s, n)[i] == s[i..i + n]
      {
        if i > 0 {
          assert Windows(s, n)[i] == Windows(s[1..], n)[i - 1];
          assert s[1..][i - 1..i - 1 + n] == s[i..i + n];
        }
      }
    }
  }

  /** A word's n-grams are all its windows: the single characters for
      `k = 0`, and every window of `k + 1` characters of the padded word for
      `k >= 1`, each exactly once and in order. */
  lemma GramsWindows(w: string, k: nat)
    ensures k == 0 ==> Grams(w, k) == Windows(w, 1)
    ensures k > 0 ==> Grams(w, k) == Windows(Pad(w), k + 1)
  {
    if k == 0 {
      WindowsAt(w, 1);
      forall i | 0 <= i < |w|
        ensures Grams(w, k)[i] == Windows(w, 1)[i]
      {
        assert w[i..i + 1] == [w[i]];
      }
    } else {
      WindowsAt(Pad(w), k + 1);
    }
  }

  /** Number of times `g` occurs in `keys`. */
  function Occurrences(keys: seq<string>, g: string): nat
    decreases |keys|
  {
    if keys == [] then 0 else (if keys[0] == g then 1 else 0) + Occurrences(keys[1..], g)
  }

  /** Reference count of `g`: each word contributes its frequency once per
      occurrence of `g` among its n-grams. */
  function Weighted(c: Corpus, k: nat, g: string): int
    decreases |c|
  {
    if c == [] then 0 else c[0].freq * Occurrences(Grams(c[0].word, k), g) + Weighted(c[1..], k, g)
  }

  /** Reference total: each word contributes its frequency times the number
      of its n-grams. */
  function Mass(c: Corpus, k: nat): int
    decreases |c|
  {
    if c == [] then 0 else c[0].freq * GramCount(c[0].word, k) + Mass(c[1..], k)
  }

  /** `g` is an n-gram of some word of the corpus. */
  ghost predicate Occurs(c: Corpus, k: nat, g: string)
  {
    exists j :: 0 <= j < |c| && g in Grams(c[j].word, k)
  }

  lemma {:induction false} TallyCount(m: Table, keys: seq<string>, f: int, g: string)
    ensures Count(Tally(m, keys, f), g) == Count(m, g) + f * Occurrences(keys, g)
    decreases |keys|
  {
    if keys != [] {
      var m' := Add(m, keys[0], f);
      TallyCount(m', keys[1..], f, g);
      var n := Occurrences(keys[1..], g);
      if keys[0] == g {
        MulStep(f, n);
      }
    }
  }

  lemma MulStep(f: int, n: int)
    ensures f * (n + 1) == f * n + f
  {
  }

  lemma {:induction false} TallyKeys(m: Table, keys: seq<string>, f: int)
    ensures Tally(m, keys, f).Keys == m.Keys + set g | g in keys
    decreases |keys|
  {
    if keys != [] {
      TallyKeys(Add(m, keys[0], f), keys[1..], f);
      assert keys == [keys[0]] + keys[1..];
      assert (set g | g in keys) == {keys[0]} + set g | g in keys[1..];
    }
  }

  lemma {:induction false} TallyTotal(m: Table, keys: seq<string>, f: int)
    ensures Total(Tally(m, keys, f)) == Total(m) + f * |keys|
    decreases |keys|
  {
    if keys != [] {
      TotalAdd(m, keys[0], f);
      TallyTotal(Add(m, keys[0], f), keys[1..], f);
      MulStep(f, |keys| - 1);
    }
  }

  lemma {:induction false} NGramsFromCount(m: Table, c: Corpus, k: nat, g: string)
    ensures Count(NGramsFrom(m, c, k), g) == Count(m, g) + Weighted(c, k, g)
    decreases |c|
  {
    if c != [] {
      TallyCount(m, Grams(c[0].word, k), c[0].freq, g);
      NGramsFromCount(Tally(m, Grams(c[0].word, k), c[0].freq), c[1..], k, g);
    }
  }

  /** The count of every n-gram is the frequency-weighted number of its
      occurrences over the words of the corpus. */
  lemma NGramsCount(c: Corpus, k: nat, g: string)
    ensures Count(NGramTable(c, k), g) == Weighted(c, k, g)
  {
    NGramsFromCount(map[], c, k, g);
  }

  lemma {:induction false} NGramsFromTotal(m: Table, c: Corpus, k: nat)
    ensures Total(NGramsFrom(m, c, k)) == Total(m) + Mass(c, k)
    decreases |c|
  {
    if c != [] {
      TallyTotal(m, Grams(c[0].word, k), c[0].freq);
      NGramsFromTotal(Tally(m, Grams(c[0].word, k), c[0].freq), c[1..], k);
    }
  }

  /** The counts add up to the sum over the words of frequency times number
      of n-grams: `|w|` for `k = 0`, `max(0, |w| + 2 - k)` otherwise. */
  lemma NGramsTotal(c: Corpus, k: nat)
    ensures Total(NGramTable(c, k)) == Mass(c, k)
  {
    NGramsFromTotal(map[], c, k);
  }

  lemma {:induction false} NGramsFromKeys(m: Table, c: Corpus, k: nat)
    ensures forall g :: g in NGramsFrom(m, c, k) <==> g in m || Occurs(c, k, g)
    decreases |c|
  {
    if c != [] {
      var m' := Tally(m, Grams(c[0].word, k), c[0].freq);
      TallyKeys(m, Grams(c[0].word, k), c[0].freq);
      NGramsFromKeys(m', c[1..], k);
      forall g
        ensures Occurs(c, k, g) <==> g in Grams(c[0].word, k) || Occurs(c[1..], k, g)
      {
        if Occurs(c, k, g) {
          var j :| 0 <= j < |c| && g in Grams(c[j].word, k);
          if j > 0 {
            assert c[1..][j - 1] == c[j];
          }
        }
        if Occurs(c[1..], k, g) {
          var j :| 0 <= j < |c[1..]| && g in Grams(c[1..][j].word, k);
          assert c[1..][j] == c[j + 1];
        }
      }
    }
  }

  /** The table's keys are exactly the n-grams occurring in some word. */
  lemma NGramsKeys(c: Corpus, k: nat)
    ensures forall g :: g in NGramTable(c, k) <==> Occurs(c, k, g)
  {
    NGramsFromKeys(map[], c, k);
  }

  /** `g` is a window of `k + 1` characters of the padded word. */
  ghost predicate IsWindow(w: string, k: nat, g: string)
  {
    exists i :: 0 <= i && i + k + 1 <= |Pad(w)| && g == Pad(w)[i..][..k + 1]
  }

  /** The shape of the `i`-th n-gram of a word: for `k >= 1`, the window of
      the padded word that starts at position `i`. */
  lemma GramShape(w: string, k: nat, i: nat)
    requires i < |Grams(w, k)|
    ensures k == 0 ==> |Grams(w, k)[i]| == 1 && Grams(w, k)[i][0] == w[i]
    ensures k > 0 ==> i + k + 1 <= |Pad(w)| && Grams(w, k)[i] == Pad(w)[i..i + k + 1]
    ensures k > 0 ==> |Grams(w, k)[i]| == k + 1 && IsWindow(w, k, Grams(w, k)[i])
  {
    if k > 0 {
      assert Grams(w, k)[i] == Pad(w)[i..][..k + 1];
    }
  }

  /** For `k = 0` every key is one character of some word; for `k >= 1` every
      key has `k + 1` characters and is a window of some padded word. */
  lemma NGramsKeyShape(c: Corpus, k: nat, g: string)
    requires g in NGramTable(c, k)
    ensures k == 0 ==> |g| == 1 && exists j :: 0 <= j < |c| && g[0] in c[j].word
    ensures k > 0 ==> |g| == k + 1 && exists j :: 0 <= j < |c| && IsWindow(c[j].word, k, g)
  {
    NGramsKeys(c, k);
    var j :| 0 <= j < |c| && g in Grams(c[j].word, k);
    var gs := Grams(c[j].word, k);
    var i :| 0 <= i < |gs| && gs[i] == g;
    GramShape(c[j].word, k, i);
  }

  lemma {:induction false} WeightedNonNegative(c: Corpus, k: nat, g: string)
    requires forall j :: 0 <= j < |c| ==> c[j].freq >= 0
    ensures Weighted(c, k, g) >= 0
    decreases |c|
  {
    if c != [] {
      WeightedNonNegative(c[1..], k, g);
      var n := Occurrences(Grams(c[0].word, k), g);
      assert c[0].freq * n >= 0;
    }
  }

  /** With non-negative frequencies every count is non-negative. */
  lemma NGramsNonNegative(c: Corpus, k: nat)
    requires forall j :: 0 <= j < |c| ==> c[j].freq >= 0
    ensures forall g :: g in NGramTable(c, k) ==> NGramTable(c, k)[g] >= 0
  {
    forall g | g in NGramTable(c, k)
      ensures NGramTable(c, k)[g] >= 0
    {
      NGramsCount(c, k, g);
      WeightedNonNegative(c, k, g);
    }
  }

  /** A single occurrence of "dog" gives one count to each of its letters. */
  lemma DogUnigrams()
    ensures NGramTable([Entry("dog", 1)], 0) == map["d" := 1, "o" := 1, "g" := 1]
  {
    var gs := Grams("dog", 0);
    assert gs == ["d", "o", "g"];
    assert gs[1..] == ["o", "g"];
    assert gs[1..][1..] == ["g"];
  }

  /** The bigrams of `{"ab": 1}` are the three windows of `"|ab|"`. */
  lemma AbBigrams()
    ensures NGramTable([Entry("ab", 1)], 1) == map["|a" := 1, "ab" := 1, "b|" := 1]
  {
    var gs := Grams("ab", 1);
    assert gs[0] == "|a";
    assert gs[1] == "ab";
    assert gs[2] == "b|";
    assert gs == ["|a", "ab", "b|"];
    assert gs[1..] == ["ab", "b|"];
    assert gs[1..][1..] == ["b|"];
  }
}
