/** Conditioned mergers. A merger picks two adjacent codes of the targeted
    phoneme class, builds a conditioning environment from the phonemes
    currently used in another slot, and rewrites the targeted slot of every
    word that has the first code in that environment to the second code.

    The simulator's global lexicon and cached phoneme sets are an explicit
    `State`; the random draws (the pair index, the order in which the two
    codes come out of the sample, the threshold) are parameters. */
module SoundChange {
  import opened Alphabet
  import opened Lexicon

  /** The lexicon together with the cached onset, nucleus and coda sets. */
  datatype State = State(lexicon: seq<Word>, onset: set<nat>, nucleus: set<nat>, coda: set<nat>)
  {
    function Cached(s: Slot): set<nat>
    {
      match s
      case Onset => onset
      case Nucleus => nucleus
      case Coda => coda
    }

    /** Replaces the lexicon and the cached set of one slot. */
    function Update(lex: seq<Word>, s: Slot, recomputed: set<nat>): (st: State)
      ensures st.lexicon == lex
      ensures st.Cached(s) == recomputed
      ensures forall t :: t != s ==> st.Cached(t) == Cached(t)
    {
      match s
      case Onset => State(lex, recomputed, nucleus, coda)
      case Nucleus => State(lex, onset, recomputed, coda)
      case Coda => State(lex, onset, nucleus, recomputed)
    }
  }

  /** Every cached set is the set of codes found in its slot of the lexicon. */
  predicate Consistent(st: State)
  {
    forall s: Slot :: st.Cached(s) == SlotSet(st.lexicon, s)
  }

  /** The state a run starts from: the loaded lexicon and its three sets. */
  function Init(lex: seq<Word>): (st: State)
    ensures st.lexicon == lex
    ensures Consistent(st)
  {
    State(lex, SlotSet(lex, Onset), SlotSet(lex, Nucleus), SlotSet(lex, Coda))
  }

  /** The four merger kinds: which slot changes and which slot conditions it. */
  datatype Variant = OnsetByNucleus | NucleusByOnset | NucleusByCoda | CodaByNucleus
  {
    function Target(): Slot
    {
      match this
      case OnsetByNucleus => Onset
      case NucleusByOnset => Nucleus
      case NucleusByCoda => Nucleus
      case CodaByNucleus => Coda
    }

    function Condition(): Slot
    {
      match this
      case OnsetByNucleus => Nucleus
      case NucleusByOnset => Onset
      case NucleusByCoda => Coda
      case CodaByNucleus => Nucleus
    }
  }

  /** The keys of an inverse table of `n` codes, sorted. */
  function SortedCodes(n: nat): (r: seq<nat>)
    ensures |r| == n
    ensures forall a, b :: 0 <= a < b < n ==> r[a] < r[b]
    ensures forall c :: 0 <= c < n ==> r[c] == c
  {
    seq(n, c => c)
  }

  /** The two merger codes: the slice `[i:i+2]` of the sorted codes, in the
      order the sample returned them (`swap` when the second came first). */
  function MergerPair(n: nat, i: nat, swap: bool): (p: (nat, nat))
    requires i + 1 < n
    ensures p.0 < n && p.1 < n
    ensures p.0 == p.1 + 1 || p.1 == p.0 + 1
    ensures multiset{p.0, p.1} == multiset(SortedCodes(n)[i..i + 2])
    ensures p == if swap then (i + 1, i) else (i, i + 1)
  {
    var pool := SortedCodes(n)[i..i + 2];
    assert pool == [pool[0], pool[1]];
    if swap then (pool[1], pool[0]) else (pool[0], pool[1])
  }

  /** The conditioning environment: the codes of `available` at or above the
      threshold when merging towards a higher code, at or below it otherwise. */
  function Environment(available: set<nat>, merg1: nat, merg2: nat, threshold: nat): (env: set<nat>)
    ensures env <= available
    ensures forall p :: p in env <==> p in available && (if merg1 < merg2 then p >= threshold else p <= threshold)
  {
    if merg1 < merg2 then
      set p | p in available && p >= threshold
    else
      set p | p in available && p <= threshold
  }

  /** A concrete merger: in slot `target`, `merg1` becomes `merg2` in words
      whose `condition` slot lies in `env`. */
  datatype Rule = Rule(target: Slot, condition: Slot, merg1: nat, merg2: nat, env: set<nat>)
  {
    predicate Matches(w: Word)
    {
      w.Get(target) == merg1 && w.Get(condition) in env
    }
  }

  /** `out` is `lex` with every word the rule matches rewritten in the
      targeted slot, and every other word as it was. */
  predicate Rewritten(lex: seq<Word>, out: seq<Word>, r: Rule)
  {
    && |out| == |lex|
    && (forall k :: 0 <= k < |lex| && r.Matches(lex[k]) ==> out[k] == lex[k].With(r.target, r.merg2))
    && (forall k :: 0 <= k < |lex| && !r.Matches(lex[k]) ==> out[k] == lex[k])
  }

  /** Rewrites every matching word; the others pass through unchanged. */
  method Rewrite(lex: seq<Word>, r: Rule) returns (out: seq<Word>)
    ensures Rewritten(lex, out, r)
  {
    out := [];
    for k := 0 to |lex|
      invariant |out| == k
      invariant forall j :: 0 <= j < k && r.Matches(lex[j]) ==> out[j] == lex[j].With(r.target, r.merg2)
      invariant forall j :: 0 <= j < k && !r.Matches(lex[j]) ==> out[j] == lex[j]
    {
      if r.Matches(lex[k]) {
        out := out + [lex[k].With(r.target, r.merg2)];
      } else {
        out := out + [lex[k]];
      }
    }
  }

  /** The rewritten lexicon as a value. */
  function Applied(lex: seq<Word>, r: Rule): (out: seq<Word>)
    ensures Rewritten(lex, out, r)
  {
    seq(|lex|, k requires 0 <= k < |lex| => if r.Matches(lex[k]) then lex[k].With(r.target, r.merg2) else lex[k])
  }

  /** `Rewritten` pins the new lexicon down completely. */
  lemma RewrittenUnique(lex: seq<Word>, a: seq<Word>, b: seq<Word>, r: Rule)
    requires Rewritten(lex, a, r) && Rewritten(lex, b, r)
    ensures a == b
  {
    assert forall k :: 0 <= k < |a| ==> a[k] == b[k] by {
      forall k | 0 <= k < |a|
        ensures a[k] == b[k]
      {
        if r.Matches(lex[k]) {
          assert a[k] == lex[k].With(r.target, r.merg2);
        } else {
          assert a[k] == lex[k];
        }
      }
    }
  }

  /** After a merger of two different codes no word matches the rule any more:
      a rewritten word now has `merg2`, and the others did not match. */
  lemma RewriteExhausts(lex: seq<Word>, out: seq<Word>, r: Rule)
    requires Rewritten(lex, out, r)
    requires r.target != r.condition && r.merg1 != r.merg2
    ensures forall k :: 0 <= k < |out| ==> !r.Matches(out[k])
  {
    forall k | 0 <= k < |out|
      ensures !r.Matches(out[k])
    {
      if r.Matches(lex[k]) {
        assert out[k].Get(r.target) == r.merg2;
      }
    }
  }

  /** A word changes exactly when the rule matches it. */
  lemma RewriteChanges(lex: seq<Word>, out: seq<Word>, r: Rule)
    requires Rewritten(lex, out, r)
    requires r.merg1 != r.merg2
    ensures forall k :: 0 <= k < |lex| ==> (out[k] != lex[k] <==> r.Matches(lex[k]))
  {
    forall k | 0 <= k < |lex| && r.Matches(lex[k])
      ensures out[k] != lex[k]
    {
      assert out[k].Get(r.target) != lex[k].Get(r.target);
    }
  }

  /** Without an environment, or without a word carrying `merg1`, nothing changes. */
  lemma RewriteIdle(lex: seq<Word>, out: seq<Word>, r: Rule)
    requires Rewritten(lex, out, r)
    requires r.env == {} || r.merg1 !in SlotSet(lex, r.target)
    ensures out == lex
  {
    assert forall k :: 0 <= k < |lex| ==> lex[k].Get(r.target) in SlotSet(lex, r.target);
  }

  /** Only the targeted slot's set can change, and it can only lose codes or
      gain `merg2`; codes stay within the inventory when `merg2` does. */
  lemma RewriteSets(lex: seq<Word>, out: seq<Word>, r: Rule)
    requires Rewritten(lex, out, r)
    ensures SlotSet(out, r.target) <= SlotSet(lex, r.target) + {r.merg2}
    ensures forall s :: s != r.target ==> SlotSet(out, s) == SlotSet(lex, s)
    ensures AllInInventory(lex) && r.merg2 < ClassSize(r.target) ==> AllInInventory(out)
  {
    forall x | x in SlotSet(out, r.target)
      ensures x in SlotSet(lex, r.target) + {r.merg2}
    {
      var k :| 0 <= k < |out| && out[k].Get(r.target) == x;
      if !r.Matches(lex[k]) {
        assert lex[k].Get(r.target) == x;
      }
    }
    forall s: Slot | s != r.target
      ensures SlotSet(out, s) == SlotSet(lex, s)
    {
      assert forall k :: 0 <= k < |out| ==> out[k].Get(s) == lex[k].Get(s);
    }
    if AllInInventory(lex) && r.merg2 < ClassSize(r.target) {
      forall k | 0 <= k < |out|
        ensures InInventory(out[k])
      {
        assert InInventory(lex[k]);
      }
    }
  }

  /** The rule a merger of kind `v` builds from the draws and the current
      cached set of the conditioning slot. */
  function RuleFor(st: State, v: Variant, i: nat, swap: bool, threshold: nat): Rule
    requires i + 1 < ClassSize(v.Target())
  {
    var pair := MergerPair(ClassSize(v.Target()), i, swap);
    Rule(v.Target(), v.Condition(), pair.0, pair.1, Environment(st.Cached(v.Condition()), pair.0, pair.1, threshold))
  }

  /** The state after a merger of kind `v` with the given draws: the rewritten
      lexicon, with the targeted slot's set recomputed from it. */
  function Merge(st: State, v: Variant, i: nat, swap: bool, threshold: nat): State
    requires i + 1 < ClassSize(v.Target())
  {
    var r := RuleFor(st, v, i, swap, threshold);
    var lex' := Applied(st.lexicon, r);
    st.Update(lex', r.target, SlotSet(lex', r.target))
  }

  /** One merger of kind `v` with the given random draws: `i` indexes the pair
      of adjacent codes, `swap` orders it, `threshold` bounds the environment.
      Only the targeted slot's set is recomputed. */
  method Change(st: State, v: Variant, i: nat, swap: bool, threshold: nat) returns (st': State, r: Rule)
    requires Consistent(st)
    requires i + 1 < ClassSize(v.Target())
    requires threshold < ClassSize(v.Condition())
    ensures Consistent(st')
    ensures r.target == v.Target() && r.condition == v.Condition()
    // the merged codes are the drawn slice of the sorted codes, in the drawn order
    ensures (r.merg1, r.merg2) == MergerPair(ClassSize(v.Target()), i, swap)
    ensures r == RuleFor(st, v, i, swap, threshold)
    ensures st' == Merge(st, v, i, swap, threshold)
    // the merged codes are adjacent codes of the targeted class
    ensures r.merg1 == r.merg2 + 1 || r.merg2 == r.merg1 + 1
    ensures r.merg1 < ClassSize(r.target) && r.merg2 < ClassSize(r.target)
    // the environment filters the conditioning slot's current set by the threshold
    ensures forall p :: p in r.env <==> p in st.Cached(r.condition) && (if r.merg1 < r.merg2 then p >= threshold else p <= threshold)
    // positions kept; a word changes exactly when it matches, and then only in the targeted slot
    ensures |st'.lexicon| == |st.lexicon|
    ensures forall k :: 0 <= k < |st.lexicon| ==> (st'.lexicon[k] != st.lexicon[k] <==> r.Matches(st.lexicon[k]))
    ensures forall k :: 0 <= k < |st.lexicon| && r.Matches(st.lexicon[k]) ==> st'.lexicon[k] == st.lexicon[k].With(r.target, r.merg2)
    // nothing is left for the rule to apply to
    ensures forall k :: 0 <= k < |st'.lexicon| ==> !r.Matches(st'.lexicon[k])
    ensures r.env == {} ==> st'.lexicon == st.lexicon
    ensures r.merg1 !in st.Cached(r.target) ==> st'.lexicon == st.lexicon
    // the targeted set can only lose codes or gain the merger's outcome; the others stay
    ensures st'.Cached(r.target) <= st.Cached(r.target) + {r.merg2}
    ensures forall s :: s != r.target ==> st'.Cached(s) == st.Cached(s)
    ensures AllInInventory(st.lexicon) ==> AllInInventory(st'.lexicon)
  {
    var pair := MergerPair(ClassSize(v.Target()), i, swap);
    var env := Environment(st.Cached(v.Condition()), pair.0, pair.1, threshold);
    r := Rule(v.Target(), v.Condition(), pair.0, pair.1, env);
    var lex' := Rewrite(st.lexicon, r);
    RewrittenUnique(st.lexicon, lex', Applied(st.lexicon, r), r);
    RewriteExhausts(st.lexicon, lex', r);
    RewriteChanges(st.lexicon, lex', r);
    if r.env == {} || r.merg1 !in SlotSet(st.lexicon, r.target) {
      RewriteIdle(st.lexicon, lex', r);
    }
    RewriteSets(st.lexicon, lex', r);
    st' := st.Update(lex', r.target, SlotSet(lex', r.target));
  }

  /** Onset merger conditioned by the following nucleus. */
  method ChangeOnset(st: State, i: nat, swap: bool, threshold: nat) returns (st': State, merg1: nat, merg2: nat, env: set<nat>)
    requires Consistent(st)
    requires i + 1 < |RevConsonants| && threshold < |RevVowels|
    ensures Consistent(st')
    ensures (merg1, merg2) == MergerPair(|RevConsonants|, i, swap)
    ensures st' == Merge(st, OnsetByNucleus, i, swap, threshold)
    ensures merg1 < |RevConsonants| && merg2 < |RevConsonants| && (merg1 == merg2 + 1 || merg2 == merg1 + 1)
    ensures forall p :: p in env <==> p in st.nucleus && (if merg1 < merg2 then p >= threshold else p <= threshold)
    ensures |st'.lexicon| == |st.lexicon|
    ensures forall k :: 0 <= k < |st.lexicon| ==>
      var w := st.lexicon[k];
      st'.lexicon[k] == (if w.onset == merg1 && w.nucleus in env then Word(merg2, w.nucleus, w.coda) else w)
    ensures forall k :: 0 <= k < |st'.lexicon| ==> !(st'.lexicon[k].onset == merg1 && st'.lexicon[k].nucleus in env)
    ensures st'.onset <= st.onset + {merg2}
    ensures st'.nucleus == st.nucleus && st'.coda == st.coda
  {
    var r;
    st', r := Change(st, OnsetByNucleus, i, swap, threshold);
    assert st'.Cached(Nucleus) == st.Cached(Nucleus) && st'.Cached(Coda) == st.Cached(Coda);
    merg1, merg2, env := r.merg1, r.merg2, r.env;
  }

  /** Nucleus merger conditioned by the preceding onset. */
  method ChangeNucleus(st: State, i: nat, swap: bool, threshold: nat) returns (st': State, merg1: nat, merg2: nat, env: set<nat>)
    requires Consistent(st)
    requires i + 1 < |RevVowels| && threshold < |RevConsonants|
    ensures Consistent(st')
    ensures (merg1, merg2) == MergerPair(|RevVowels|, i, swap)
    ensures st' == Merge(st, NucleusByOnset, i, swap, threshold)
    ensures merg1 < |RevVowels| && merg2 < |RevVowels| && (merg1 == merg2 + 1 || merg2 == merg1 + 1)
    ensures forall p :: p in env <==> p in st.onset && (if merg1 < merg2 then p >= threshold else p <= threshold)
    ensures |st'.lexicon| == |st.lexicon|
    ensures forall k :: 0 <= k < |st.lexicon| ==>
      var w := st.lexicon[k];
      st'.lexicon[k] == (if w.onset in env && w.nucleus == merg1 then Word(w.onset, merg2, w.coda) else w)
    ensures forall k :: 0 <= k < |st'.lexicon| ==> !(st'.lexicon[k].onset in env && st'.lexicon[k].nucleus == merg1)
    ensures st'.nucleus <= st.nucleus + {merg2}
    ensures st'.onset == st.onset && st'.coda == st.coda
  {
    var r;
    st', r := Change(st, NucleusByOnset, i, swap, threshold);
    assert st'.Cached(Onset) == st.Cached(Onset) && st'.Cached(Coda) == st.Cached(Coda);
    merg1, merg2, env := r.merg1, r.merg2, r.env;
  }

  /** Nucleus merger conditioned by the following coda. */
  method ChangeNucleus2(st: State, i: nat, swap: bool, threshold: nat) returns (st': State, merg1: nat, merg2: nat, env: set<nat>)
    requires Consistent(st)
    requires i + 1 < |RevVowels| && threshold < |RevConsonants|
    ensures Consistent(st')
    ensures (merg1, merg2) == MergerPair(|RevVowels|, i, swap)
    ensures st' == Merge(st, NucleusByCoda, i, swap, threshold)
    ensures merg1 < |RevVowels| && merg2 < |RevVowels| && (merg1 == merg2 + 1 || merg2 == merg1 + 1)
    ensures forall p :: p in env <==> p in st.coda && (if merg1 < merg2 then p >= threshold else p <= threshold)
    ensures |st'.lexicon| == |st.lexicon|
    ensures forall k :: 0 <= k < |st.lexicon| ==>
      var w := st.lexicon[k];
      st'.lexicon[k] == (if w.coda in env && w.nucleus == merg1 then Word(w.onset, merg2, w.coda) else w)
    ensures forall k :: 0 <= k < |st'.lexicon| ==> !(st'.lexicon[k].coda in env && st'.lexicon[k].nucleus == merg1)
    ensures st'.nucleus <= st.nucleus + {merg2}
    ensures st'.onset == st.onset && st'.coda == st.coda
  {
    var r;
    st', r := Change(st, NucleusByCoda, i, swap, threshold);
    assert st'.Cached(Onset) == st.Cached(Onset) && st'.Cached(Coda) == st.Cached(Coda);
    merg1, merg2, env := r.merg1, r.merg2, r.env;
  }

  /** Coda merger conditioned by the preceding nucleus. */
  method ChangeCoda(st: State, i: nat, swap: bool, threshold: nat) returns (st': State, merg1: nat, merg2: nat, env: set<nat>)
    requires Consistent(st)
    requires i + 1 < |RevConsonants| && threshold < |RevVowels|
    ensures Consistent(st')
    ensures (merg1, merg2) == MergerPair(|RevConsonants|, i, swap)
    ensures st' == Merge(st, CodaByNucleus, i, swap, threshold)
    ensures merg1 < |RevConsonants| && merg2 < |RevConsonants| && (merg1 == merg2 + 1 || merg2 == merg1 + 1)
    ensures forall p :: p in env <==> p in st.nucleus && (if merg1 < merg2 then p >= threshold else p <= threshold)
    ensures |st'.lexicon| == |st.lexicon|
    ensures forall k :: 0 <= k < |st.lexicon| ==>
      var w := st.lexicon[k];
      st'.lexicon[k] == (if w.coda == merg1 && w.nucleus in env then Word(w.onset, w.nucleus, merg2) else w)
    ensures forall k :: 0 <= k < |st'.lexicon| ==> !(st'.lexicon[k].coda == merg1 && st'.lexicon[k].nucleus in env)
    ensures st'.coda <= st.coda + {merg2}
    ensures st'.onset == st.onset && st'.nucleus == st.nucleus
  {
    var r;
    st', r := Change(st, CodaByNucleus, i, swap, threshold);
    assert st'.Cached(Onset) == st.Cached(Onset) && st'.Cached(Nucleus) == st.Cached(Nucleus);
    merg1, merg2, env := r.merg1, r.merg2, r.env;
  }
}
