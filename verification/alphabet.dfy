/** The phoneme inventory of the sound-change simulator: two fixed symbol
    tables (symbol -> code) and their inverses (code -> symbol).

    The inverse tables are written as sequences indexed by code; the codes of
    each table are exactly 0 .. |table| - 1, so a code is a key of the inverse
    table precisely when it is below the table's size. */
module Alphabet {

  /** Vowel symbol -> code (15 symbols). */
  const Vowels: map<string, nat> :=
    map["i" := 0, "e" := 1, "a" := 2, "o" := 3, "u" := 4, "ou" := 5, "ei" := 6, "ea" := 7,
        "ee" := 8, "oo" := 9, "ai" := 10, "oa" := 11, "oi" := 12, "io" := 13, "ie" := 14]

  /** Consonant symbol -> code (26 symbols, among them " "). */
  const Consonants: map<string, nat> :=
    map["m" := 0, "p" := 1, "b" := 2, "f" := 3, "v" := 4, "d" := 5, "t" := 6, "l" := 7,
        "n" := 8, "r" := 9, "s" := 10, "k" := 11, "y" := 12, "g" := 13, "j" := 14, "h" := 15,
        "c" := 16, " " := 17, "th" := 18, "sh" := 19, "wh" := 20, "ch" := 21, "tw" := 22,
        "x" := 23, "w" := 24, "z" := 25]

  /** Vowel code -> symbol: the inverse of `Vowels`. */
  const RevVowels: seq<string> :=
    ["i", "e", "a", "o", "u", "ou", "ei", "ea", "ee", "oo", "ai", "oa", "oi", "io", "ie"]

  /** Consonant code -> symbol: the inverse of `Consonants`. */
  const RevConsonants: seq<string> :=
    ["m", "p", "b", "f", "v", "d", "t", "l", "n", "r", "s", "k", "y", "g", "j", "h",
     "c", " ", "th", "sh", "wh", "ch", "tw", "x", "w", "z"]

  /** `rev` is the inverse of `table`: every symbol's code indexes back to the
      symbol, and every code names a symbol that maps back to the code. */
  ghost predicate Inverse(table: map<string, nat>, rev: seq<string>)
  {
    && (forall s :: s in table ==> table[s] < |rev| && rev[table[s]] == s)
    && (forall c :: 0 <= c < |rev| ==> rev[c] in table && table[rev[c]] == c)
  }

  /** A table with an inverse gives distinct symbols distinct codes. */
  lemma InverseInjective(table: map<string, nat>, rev: seq<string>)
    requires Inverse(table, rev)
    ensures forall s, t :: s in table && t in table && table[s] == table[t] ==> s == t
  {
  }

  /** The vowel inverse table inverts the vowel table; in particular the vowel
      table is injective. */
  lemma VowelTablesInverse()
    ensures Inverse(Vowels, RevVowels)
  {
    VowelCodesIndexBack();
    VowelSymbolsMapBack();
  }

  /** Each vowel symbol's code indexes the inverse table back to it. */
  lemma VowelCodesIndexBack()
    ensures forall s :: s in Vowels ==> Vowels[s] < |RevVowels| && RevVowels[Vowels[s]] == s
  {
  }

  /** Each vowel code's symbol maps back to the code. */
  lemma VowelSymbolsMapBack()
    ensures forall c :: 0 <= c < |RevVowels| ==> RevVowels[c] in Vowels && Vowels[RevVowels[c]] == c
  {
  }

  /** The consonant inverse table inverts the consonant table; in particular
      the consonant table is injective. */
  lemma ConsonantTablesInverse()
    ensures Inverse(Consonants, RevConsonants)
  {
    ConsonantCodesIndexBack();
    ConsonantSymbolsMapBack();
  }

  /** Each consonant symbol's code indexes the inverse table back to it. */
  lemma ConsonantCodesIndexBack()
    ensures forall s :: s in Consonants ==> Consonants[s] < |RevConsonants| && RevConsonants[Consonants[s]] == s
  {
  }

  /** Each consonant code's symbol maps back to the code. */
  lemma ConsonantSymbolsMapBack()
    ensures forall c :: 0 <= c < |RevConsonants| ==> RevConsonants[c] in Consonants && Consonants[RevConsonants[c]] == c
  {
    ConsonantSymbolsMapBackLow();
    ConsonantSymbolsMapBackMiddle();
    ConsonantSymbolsMapBackHigh();
  }

  /** The codes below 7. */
  lemma ConsonantSymbolsMapBackLow()
    ensures forall c :: 0 <= c < 7 ==> RevConsonants[c] in Consonants && Consonants[RevConsonants[c]] == c
  {
  }

  /** The codes from 7 to 12. */
  lemma ConsonantSymbolsMapBackMiddle()
    ensures forall c :: 7 <= c < 13 ==> RevConsonants[c] in Consonants && Consonants[RevConsonants[c]] == c
  {
  }

  /** The codes from 13 on. */
  lemma ConsonantSymbolsMapBackHigh()
    ensures forall c :: 13 <= c < |RevConsonants| ==> RevConsonants[c] in Consonants && Consonants[RevConsonants[c]] == c
  {
  }
}
