/** The merged frequency table of the functional-load calculation: every
    word of the dictionary has each occurrence of one phoneme symbol replaced
    by another, and words that become equal pool their frequencies. */
module FunctionalLoad {
  import opened Counter
  import opened NGrams

  /** Python's `s.replace(phon1, phon2)`: non-overlapping occurrences of
      `phon1`, found from left to right, are replaced by `phon2`; an empty
      `phon1` inserts `phon2` before every character and at the end. */
  function Replace(s: string, phon1: string, phon2: string): string
  {
    if phon1 == [] then Interleave(s, phon2) else ReplaceOccurrences(s, phon1, phon2)
  }

  function Interleave(s: string, sep: string): string
    decreases |s|
  {
    if s == [] then sep else sep + [s[0]] + Interleave(s[1..], sep)
  }

  function ReplaceOccurrences(s: string, phon1: string, phon2: string): string
    requires phon1 != []
    decreases |s|
  {
    if s == [] then []
    else if phon1 <= s then phon2 + ReplaceOccurrences(s[|phon1|..], phon1, phon2)
    else [s[0]] + ReplaceOccurrences(s[1..], phon1, phon2)
  }

  /** The counter built from a dictionary's items: `table[word] += freq`. */
  function TableOf(c: Corpus): Table
  {
    TableFrom(map[], c)
  }

  function TableFrom(m: Table, c: Corpus): Table
    decreases |c|
  {
    if c == [] then m else TableFrom(Add(m, c[0].word, c[0].freq), c[1..])
  }

  /** The dictionary items with every word rewritten. */
  function Rename(c: Corpus, phon1: string, phon2: string): (r: Corpus)
    ensures |r| == |c|
    ensures forall j :: 0 <= j < |c| ==> r[j] == Entry(Replace(c[j].word, phon1, phon2), c[j].freq)
    decreases |c|
  {
    if c == [] then [] else [Entry(Replace(c[0].word, phon1, phon2), c[0].freq)] + Rename(c[1..], phon1, phon2)
  }

  /** The merged table: `merged[word.replace(phon1, phon2)] += freq`. */
  function Merged(c: Corpus, phon1: string, phon2: string): Table
  {
    TableOf(Rename(c, phon1, phon2))
  }

  /** Set of the words of the items. */
  function Words(c: Corpus): set<string>
    decreases |c|
  {
    if c == [] then {} else {c[0].word} + Words(c[1..])
  }

  /** Sum of all frequencies. */
  function FreqSum(c: Corpus): int
    decreases |c|
  {
    if c == [] then 0 else c[0].freq + FreqSum(c[1..])
  }

  /** Sum of the frequencies of the items whose word is `g`. */
  function FreqOf(c: Corpus, g: string): int
    decreases |c|
  {
    if c == [] then 0 else (if c[0].word == g then c[0].freq else 0) + FreqOf(c[1..], g)
  }

  /** Sum of the frequencies of the items whose word becomes `g` after the
      replacement. */
  function Collision(c: Corpus, phon1: string, phon2: string, g: string): int
    decreases |c|
  {
    if c == [] then 0
    else (if Replace(c[0].word, phon1, phon2) == g then c[0].freq else 0) + Collision(c[1..], phon1, phon2, g)
  }

  // ---------------------------------------------------------------- Replace

  lemma {:induction false} InterleaveEmpty(s: string)
    ensures Interleave(s, []) == s
    decreases |s|
  {
    if s != [] {
      InterleaveEmpty(s[1..]);
      assert s == [s[0]] + s[1..];
    }
  }

  lemma {:induction false} ReplaceOccurrencesSame(s: string, p: string)
    requires p != []
    ensures ReplaceOccurrences(s, p, p) == s
    decreases |s|
  {
    if s != [] {
      if p <= s {
        ReplaceOccurrencesSame(s[|p|..], p);
        assert s[..|p|] == p;
        assert s == p + s[|p|..];
      } else {
        ReplaceOccurrencesSame(s[1..], p);
        assert s == [s[0]] + s[1..];
      }
    }
  }

  /** Replacing a symbol by itself changes nothing. */
  lemma ReplaceSame(s: string, p: string)
    ensures Replace(s, p, p) == s
  {
    if p == [] {
      InterleaveEmpty(s);
    } else {
      ReplaceOccurrencesSame(s, p);
    }
  }

  /** Replacing one character by another maps the word character by
      character: same length, `a` becomes `b`, all else stays. */
  lemma {:induction false} ReplaceChar(s: string, a: char, b: char)
    ensures |Replace(s, [a], [b])| == |s|
    ensures forall i :: 0 <= i < |s| ==> Replace(s, [a], [b])[i] == (if s[i] == a then b else s[i])
    decreases |s|
  {
    if s != [] {
      ReplaceChar(s[1..], a, b);
      var r := Replace(s, [a], [b]);
      var tail := Replace(s[1..], [a], [b]);
      if [a] <= s {
        assert s[|[a]|..] == s[1..];
        assert r == [b] + tail;
      } else {
        assert r == [s[0]] + tail;
      }
      forall i | 0 <= i < |s|
        ensures r[i] == (if s[i] == a then b else s[i])
      {
        if i > 0 {
          assert r[i] == tail[i - 1];
          assert s[i] == s[1..][i - 1];
        }
      }
    }
  }

  /** With an empty `phon1`, the replacement is inserted around every
      character. */
  lemma ReplaceEmptyExample()
    ensures Replace("ab", "", "x") == "xaxbx"
  {
    assert "ab"[1..] == "b";
    assert "b"[1..] == "";
  }

  // ------------------------------------------------------- dictionary table

  lemma {:induction false} TableFromCount(m: Table, c: Corpus, g: string)
    ensures Count(TableFrom(m, c), g) == Count(m, g) + FreqOf(c, g)
    decreases |c|
  {
    if c != [] {
      TableFromCount(Add(m, c[0].word, c[0].freq), c[1..], g);
    }
  }

  lemma {:induction false} TableFromKeys(m: Table, c: Corpus)
    ensures TableFrom(m, c).Keys == m.Keys + Words(c)
    decreases |c|
  {
    if c != [] {
      TableFromKeys(Add(m, c[0].word, c[0].freq), c[1..]);
    }
  }

  lemma {:induction false} TableFromTotal(m: Table, c: Corpus)
    ensures Total(TableFrom(m, c)) == Total(m) + FreqSum(c)
    decreases |c|
  {
    if c != [] {
      TotalAdd(m, c[0].word, c[0].freq);
      TableFromTotal(Add(m, c[0].word, c[0].freq), c[1..]);
    }
  }

  lemma {:induction false} FreqOfDict(c: Corpus, j: nat)
    requires IsDict(c) && j < |c|
    ensures FreqOf(c, c[j].word) == c[j].freq
    decreases |c|
  {
    if j == 0 {
      FreqOfAbsent(c[1..], c[0].word);
    } else {
      assert IsDict(c[1..]) by {
        forall a, b | 0 <= a < b < |c[1..]|
          ensures c[1..][a].word != c[1..][b].word
        {
          assert c[1..][a] == c[a + 1] && c[1..][b] == c[b + 1];
        }
      }
      assert c[1..][j - 1] == c[j];
      assert c[0].word != c[j].word;
      FreqOfDict(c[1..], j - 1);
    }
  }

  lemma {:induction false} FreqOfAbsent(c: Corpus, g: string)
    requires forall j :: 0 <= j < |c| ==> c[j].word != g
    ensures FreqOf(c, g) == 0
    decreases |c|
  {
    if c != [] {
      assert forall j :: 0 <= j < |c[1..]| ==> c[1..][j] == c[j + 1];
      FreqOfAbsent(c[1..], g);
    }
  }

  /** The counter built from corpus lines, which may repeat a word (the
      homophones of a phonetic corpus), holds exactly the words of the lines,
      each counted with the sum of its lines' frequencies. */
  lemma CorpusTable(c: Corpus)
    ensures TableOf(c).Keys == Words(c)
    ensures forall g :: Count(TableOf(c), g) == FreqOf(c, g)
  {
    TableFromKeys(map[], c);
    forall g
      ensures Count(TableOf(c), g) == FreqOf(c, g)
    {
      TableFromCount(map[], c, g);
    }
  }

  /** Two lines for the same word are summed into one entry. */
  lemma HomophoneExample()
    ensures TableOf([Entry("sa", 2), Entry("so", 1), Entry("sa", 3)]) == map["sa" := 5, "so" := 1]
  {
    var c := [Entry("sa", 2), Entry("so", 1), Entry("sa", 3)];
    assert c[1..] == [Entry("so", 1), Entry("sa", 3)];
    assert c[1..][1..] == [Entry("sa", 3)];
    assert c[1..][1..][1..] == [];
  }

  /** The counter built from a dictionary holds exactly its words, each with
      its own frequency. */
  lemma TableOfDict(c: Corpus)
    requires IsDict(c)
    ensures TableOf(c).Keys == Words(c)
    ensures forall j :: 0 <= j < |c| ==> c[j].word in TableOf(c) && TableOf(c)[c[j].word] == c[j].freq
  {
    TableFromKeys(map[], c);
    forall j | 0 <= j < |c|
      ensures c[j].word in TableOf(c) && TableOf(c)[c[j].word] == c[j].freq
    {
      WordsMember(c, c[j].word);
      TableFromCount(map[], c, c[j].word);
      FreqOfDict(c, j);
    }
  }

  // ----------------------------------------------------------- merged table

  lemma {:induction false} FreqOfRename(c: Corpus, phon1: string, phon2: string, g: string)
    ensures FreqOf(Rename(c, phon1, phon2), g) == Collision(c, phon1, phon2, g)
    decreases |c|
  {
    if c != [] {
      FreqOfRename(c[1..], phon1, phon2, g);
      assert Rename(c, phon1, phon2)[1..] == Rename(c[1..], phon1, phon2);
    }
  }

  /** Words that collide after the replacement pool their frequencies: the
      merged count of `g` is the total frequency of the words turned into `g`. */
  lemma MergedCount(c: Corpus, phon1: string, phon2: string, g: string)
    ensures Count(Merged(c, phon1, phon2), g) == Collision(c, phon1, phon2, g)
  {
    TableFromCount(map[], Rename(c, phon1, phon2), g);
    FreqOfRename(c, phon1, phon2, g);
  }

  lemma {:induction false} FreqSumRename(c: Corpus, phon1: string, phon2: string)
    ensures FreqSum(Rename(c, phon1, phon2)) == FreqSum(c)
    decreases |c|
  {
    if c != [] {
      FreqSumRename(c[1..], phon1, phon2);
      assert Rename(c, phon1, phon2)[1..] == Rename(c[1..], phon1, phon2);
    }
  }

  /** Merging keeps the total count of the original table. */
  lemma MergedTotal(c: Corpus, phon1: string, phon2: string)
    ensures Total(Merged(c, phon1, phon2)) == Total(TableOf(c)) == FreqSum(c)
  {
    TableFromTotal(map[], Rename(c, phon1, phon2));
    TableFromTotal(map[], c);
    FreqSumRename(c, phon1, phon2);
  }

  lemma {:induction false} RenameSame(c: Corpus, p: string)
    ensures Rename(c, p, p) == c
    decreases |c|
  {
    if c != [] {
      RenameSame(c[1..], p);
      ReplaceSame(c[0].word, p);
      assert c == [c[0]] + c[1..];
    }
  }

  /** Replacing a phoneme by itself yields the original table. */
  lemma MergedIdentity(c: Corpus, p: string)
    ensures Merged(c, p, p) == TableOf(c)
  {
    RenameSame(c, p);
  }

  lemma {:induction false} WordsRename(c: Corpus, phon1: string, phon2: string)
    ensures forall g :: g in Words(Rename(c, phon1, phon2)) <==> exists j :: 0 <= j < |c| && Replace(c[j].word, phon1, phon2) == g
    decreases |c|
  {
    if c != [] {
      WordsRename(c[1..], phon1, phon2);
      assert Rename(c, phon1, phon2)[1..] == Rename(c[1..], phon1, phon2);
      forall g | g in Words(Rename(c, phon1, phon2))
        ensures exists j :: 0 <= j < |c| && Replace(c[j].word, phon1, phon2) == g
      {
        if g != Replace(c[0].word, phon1, phon2) {
          assert g in Words(Rename(c[1..], phon1, phon2));
          var j :| 0 <= j < |c[1..]| && Replace(c[1..][j].word, phon1, phon2) == g;
          assert c[1..][j] == c[j + 1];
        }
      }
      forall g, j | 0 <= j < |c| && Replace(c[j].word, phon1, phon2) == g
        ensures g in Words(Rename(c, phon1, phon2))
      {
        if j > 0 {
          assert c[1..][j - 1] == c[j];
        }
      }
    }
  }

  /** The merged keys are exactly the rewritten words. */
  lemma MergedKeys(c: Corpus, phon1: string, phon2: string)
    ensures forall g :: g in Merged(c, phon1, phon2) <==> exists j :: 0 <= j < |c| && Replace(c[j].word, phon1, phon2) == g
  {
    TableFromKeys(map[], Rename(c, phon1, phon2));
    WordsRename(c, phon1, phon2);
  }

  lemma {:induction false} WordsRenameCard(c: Corpus, phon1: string, phon2: string)
    ensures |Words(Rename(c, phon1, phon2))| <= |Words(c)|
    decreases |c|
  {
    if c != [] {
      var rest := c[1..];
      WordsRenameCard(rest, phon1, phon2);
      assert Rename(c, phon1, phon2)[1..] == Rename(rest, phon1, phon2);
      var w := c[0].word;
      var renamed := Words(Rename(rest, phon1, phon2));
      assert Words(Rename(c, phon1, phon2)) == {Replace(w, phon1, phon2)} + renamed;
      assert Words(c) == {w} + Words(rest);
      if w in Words(rest) {
        RenamedWord(rest, w, phon1, phon2);
        assert Words(Rename(c, phon1, phon2)) == renamed;
        assert Words(c) == Words(rest);
      } else {
        assert |Words(c)| == |Words(rest)| + 1;
      }
    }
  }

  /** A word of the corpus is rewritten into a word of the renamed corpus. */
  lemma {:induction false} RenamedWord(c: Corpus, w: string, phon1: string, phon2: string)
    requires w in Words(c)
    ensures Replace(w, phon1, phon2) in Words(Rename(c, phon1, phon2))
    decreases |c|
  {
    assert Rename(c, phon1, phon2)[1..] == Rename(c[1..], phon1, phon2);
    if w != c[0].word {
      RenamedWord(c[1..], w, phon1, phon2);
    }
  }

  lemma {:induction false} WordsMember(c: Corpus, w: string)
    ensures w in Words(c) <==> exists j :: 0 <= j < |c| && c[j].word == w
    decreases |c|
  {
    if c != [] {
      WordsMember(c[1..], w);
      if w in Words(c[1..]) {
        var j :| 0 <= j < |c[1..]| && c[1..][j].word == w;
        assert c[j + 1].word == w;
      }
      if exists j :: 0 <= j < |c| && c[j].word == w {
        var j :| 0 <= j < |c| && c[j].word == w;
        if j > 0 {
          assert c[1..][j - 1].word == w;
        }
      }
    }
  }

  /** Merging never increases the number of distinct keys. */
  lemma MergedKeyCount(c: Corpus, phon1: string, phon2: string)
    ensures |Merged(c, phon1, phon2).Keys| <= |TableOf(c).Keys|
  {
    TableFromKeys(map[], Rename(c, phon1, phon2));
    TableFromKeys(map[], c);
    WordsRenameCard(c, phon1, phon2);
  }

  /** Merging two different single-character phonemes removes the first from
      every key and keeps the length of every word. */
  lemma MergedSingleChar(c: Corpus, a: char, b: char)
    requires a != b
    ensures forall g :: g in Merged(c, [a], [b]) ==> a !in g
    ensures forall j :: 0 <= j < |c| ==> |Replace(c[j].word, [a], [b])| == |c[j].word|
  {
    MergedKeys(c, [a], [b]);
    forall j | 0 <= j < |c|
      ensures |Replace(c[j].word, [a], [b])| == |c[j].word|
      ensures a !in Replace(c[j].word, [a], [b])
    {
      ReplaceChar(c[j].word, a, b);
    }
  }
}
