/** The word catalog and the queries over it: words of one tier, a random word,
    a random word avoiding a list, and up to `count` distinct random words.
    `Math.random()` is the argument `rand` in [0, 1); a random reordering is a
    choice sequence (module Reorder). The catalog is a constant, so no query
    can change it. */
module Words {
  import opened Types
  import opened Text
  import opened Reorder
  import opened Catalog

  function Min(a: nat, b: nat): nat { if a <= b then a else b }

  /** The filter of `getRandomWordExcluding`: the word is of the tier and its
      lower-cased text is not among the excluded texts. */
  predicate Eligible(w: Word, tier: Difficulty, excluded: seq<string>)
  {
    w.difficulty == tier && Lower(w.word) !in excluded
  }

  /** `excludeWords.map(w => w.word.toLowerCase())`. */
  function ExcludedTexts(exclude: seq<Word>): seq<string>
  {
    seq(|exclude|, i requires 0 <= i < |exclude| => Lower(exclude[i].word))
  }

  /** Some word of `exclude` has the same text as `w`, ignoring case. */
  predicate IsExcluded(w: Word, exclude: seq<Word>)
  {
    exists x :: x in exclude && Lower(x.word) == Lower(w.word)
  }

  lemma ExcludedTextsMatch(w: Word, exclude: seq<Word>)
    ensures Lower(w.word) in ExcludedTexts(exclude) <==> IsExcluded(w, exclude)
  {
    var texts := ExcludedTexts(exclude);
    if Lower(w.word) in texts {
      var i :| 0 <= i < |texts| && texts[i] == Lower(w.word);
      assert exclude[i] in exclude;
    }
    if IsExcluded(w, exclude) {
      var x :| x in exclude && Lower(x.word) == Lower(w.word);
      var i :| 0 <= i < |exclude| && exclude[i] == x;
      assert texts[i] == Lower(w.word);
    }
  }

  /** `ws.filter(w => Eligible(w, tier, excluded))`, keeping catalog order. */
  function Filter(ws: seq<Word>, tier: Difficulty, excluded: seq<string>): (r: seq<Word>)
    ensures |r| <= |ws|
    ensures forall w :: w in r <==> w in ws && Eligible(w, tier, excluded)
  {
    if ws == [] then []
    else (if Eligible(ws[0], tier, excluded) then [ws[0]] else []) + Filter(ws[1..], tier, excluded)
  }

  /** `vocabulary.filter(w => w.difficulty === tier)`. */
  function WordsOf(tier: Difficulty): seq<Word>
  {
    Filter(Vocabulary, tier, [])
  }

  lemma ScaledBelow(rand: real, n: nat)
    requires 0.0 <= rand < 1.0
    ensures 0.0 <= rand * n as real
    ensures n > 0 ==> rand * n as real < n as real
  {
    var gap := (1.0 - rand) * n as real;
    assert n as real - rand * n as real == gap;
    if n > 0 {
      assert gap > 0.0;
    }
  }

  /** `Math.floor(rand * n)`. */
  function RandomIndex(rand: real, n: nat): (i: nat)
    requires 0.0 <= rand < 1.0
    ensures n > 0 ==> i < n
    ensures n == 0 ==> i == 0
  {
    var x := rand * n as real;
    ScaledBelow(rand, n);
    x.Floor
  }

  /** `getRandomWord(tier)`: an indexed pick among the words of the tier.
      On an empty tier the source indexes an empty array and yields
      `undefined`, modelled as `None`. */
  function GetRandomWord(tier: Difficulty, rand: real): (r: Option<Word>)
    requires 0.0 <= rand < 1.0
    ensures r.Some? <==> WordsOf(tier) != []
    ensures r.Some? ==> r.value in Vocabulary && r.value.difficulty == tier
  {
    var filtered := WordsOf(tier);
    var i := RandomIndex(rand, |filtered|);
    if i < |filtered| then Some(filtered[i]) else None
  }

  /** The pick of `getRandomWordExcluding` from a word list `ws`: `None` (the
      source's `null`) exactly when every word of the tier is excluded;
      otherwise a word of the tier whose text differs, ignoring case, from
      every excluded word. */
  function PickExcluding(ws: seq<Word>, tier: Difficulty, exclude: seq<Word>, rand: real): (r: Option<Word>)
    requires 0.0 <= rand < 1.0
    ensures r.Some? ==> r.value in ws && r.value.difficulty == tier
    ensures r.Some? ==> forall x :: x in exclude ==> Lower(x.word) != Lower(r.value.word)
    ensures r.None? <==> forall w :: w in ws && w.difficulty == tier ==> IsExcluded(w, exclude)
  {
    var filtered := Filter(ws, tier, ExcludedTexts(exclude));
    if |filtered| == 0 then
      assert forall w :: w in ws && w.difficulty == tier ==> IsExcluded(w, exclude) by {
        forall w | w in ws && w.difficulty == tier ensures IsExcluded(w, exclude) {
          ExcludedTextsMatch(w, exclude);
        }
      }
      None
    else
      var w := filtered[RandomIndex(rand, |filtered|)];
      ExcludedTextsMatch(w, exclude);
      assert w in filtered;
      Some(w)
  }

  /** `getRandomWordExcluding(tier, exclude)`: the pick from the catalog. */
  function GetRandomWordExcluding(tier: Difficulty, exclude: seq<Word>, rand: real): (r: Option<Word>)
    requires 0.0 <= rand < 1.0
    ensures r.Some? ==> r.value in Vocabulary && r.value.difficulty == tier
    ensures r.Some? ==> forall x :: x in exclude ==> Lower(x.word) != Lower(r.value.word)
    ensures r.None? <==> forall w :: w in Vocabulary && w.difficulty == tier ==> IsExcluded(w, exclude)
  {
    PickExcluding(Vocabulary, tier, exclude, rand)
  }

  /** `getRandomWords(tier, count)`: the first `min(count, n)` words of a
      reordering of the tier's `n` words. */
  function GetRandomWords(tier: Difficulty, count: nat, c: seq<nat>): (r: seq<Word>)
    ensures |r| == Min(count, |WordsOf(tier)|)
    ensures forall w :: w in r ==> w in Vocabulary && w.difficulty == tier
    ensures multiset(r) <= multiset(WordsOf(tier))
    ensures Distinct(r)
  {
    var filtered := WordsOf(tier);
    var shuffled := Shuffle(filtered, c);
    VocabularyDistinct();
    ShuffledPrefix(Vocabulary, tier, [], count, c);
    shuffled[..Min(count, |shuffled|)]
  }

  /** `getRandomWordsExcluding(tier, count, exclude)`: the first
      `min(count, n)` words of a reordering of the `n` eligible words. */
  function GetRandomWordsExcluding(tier: Difficulty, count: nat, exclude: seq<Word>, c: seq<nat>): (r: seq<Word>)
    ensures |r| == Min(count, |Filter(Vocabulary, tier, ExcludedTexts(exclude))|)
    ensures forall w :: w in r ==> w in Vocabulary && w.difficulty == tier && !IsExcluded(w, exclude)
    ensures multiset(r) <= multiset(Filter(Vocabulary, tier, ExcludedTexts(exclude)))
    ensures Distinct(r)
  {
    var filtered := Filter(Vocabulary, tier, ExcludedTexts(exclude));
    var shuffled := Shuffle(filtered, c);
    VocabularyDistinct();
    ShuffledPrefix(Vocabulary, tier, ExcludedTexts(exclude), count, c);
    forall w | w in shuffled[..Min(count, |shuffled|)] ensures !IsExcluded(w, exclude) {
      ExcludedTextsMatch(w, exclude);
    }
    shuffled[..Min(count, |shuffled|)]
  }

  /** A prefix of a reordering of a filtered duplicate-free list is
      duplicate-free and made of eligible words of the list. */
  lemma ShuffledPrefix(ws: seq<Word>, tier: Difficulty, excluded: seq<string>, count: nat, c: seq<nat>)
    requires Distinct(ws)
    ensures var filtered := Filter(ws, tier, excluded);
      var r := Shuffle(filtered, c)[..Min(count, |Shuffle(filtered, c)|)];
      && |Shuffle(filtered, c)| == |filtered|
      && |r| == Min(count, |filtered|)
      && Distinct(r)
      && multiset(r) <= multiset(filtered)
      && forall w :: w in r ==> w in ws && Eligible(w, tier, excluded)
  {
    var filtered := Filter(ws, tier, excluded);
    FilterKeepsDistinct(ws, tier, excluded);
    ShufflePrefixDistinct(filtered, c, Min(count, |filtered|));
    var r := Shuffle(filtered, c)[..Min(count, |filtered|)];
    forall w | w in r ensures w in ws && Eligible(w, tier, excluded) {
      assert w in multiset(r);
      assert w in multiset(filtered);
    }
  }

  // ---------------------------------------------------------------------
  // Facts about the filter and the catalog

  lemma {:induction false} FilterKeepsDistinct(ws: seq<Word>, tier: Difficulty, excluded: seq<string>)
    requires Distinct(ws)
    ensures Distinct(Filter(ws, tier, excluded))
  {
    if ws != [] {
      FilterKeepsDistinct(ws[1..], tier, excluded);
      assert ws[0] !in ws[1..];
    }
  }

  lemma {:induction false} FilterAppend(a: seq<Word>, b: seq<Word>, tier: Difficulty, excluded: seq<string>)
    ensures Filter(a + b, tier, excluded) == Filter(a, tier, excluded) + Filter(b, tier, excluded)
  {
    if a == [] {
      assert a + b == b;
    } else {
      var rest := a[1..];
      FilterAppend(rest, b, tier, excluded);
      Uncons(a, b);
      FilterCons(a[0], rest + b, tier, excluded);
      FilterCons(a[0], rest, tier, excluded);
      var head := if Eligible(a[0], tier, excluded) then [a[0]] else [];
      AppendAssociates(head, Filter(rest, tier, excluded), Filter(b, tier, excluded));
    }
  }

  lemma Uncons<T>(a: seq<T>, b: seq<T>)
    requires a != []
    ensures a == [a[0]] + a[1..]
    ensures a + b == [a[0]] + (a[1..] + b)
  {
  }

  lemma AppendAssociates<T>(x: seq<T>, y: seq<T>, z: seq<T>)
    ensures x + (y + z) == (x + y) + z
  {
  }

  /** The filter of a list with a first element. */
  lemma FilterCons(w: Word, ws: seq<Word>, tier: Difficulty, excluded: seq<string>)
    ensures Filter([w] + ws, tier, excluded)
         == (if Eligible(w, tier, excluded) then [w] else []) + Filter(ws, tier, excluded)
  {
    assert ([w] + ws)[1..] == ws;
  }

  lemma {:induction false} FilterByTier(ws: seq<Word>, t: Difficulty, tier: Difficulty)
    requires forall w :: w in ws ==> w.difficulty == t
    ensures Filter(ws, tier, []) == if t == tier then ws else []
  {
    if ws != [] {
      assert ws[0] in ws;
      FilterByTier(ws[1..], t, tier);
      assert [ws[0]] + ws[1..] == ws;
    }
  }

  /** Each tier's words are exactly its block of the catalog, eight of them. */
  lemma CatalogTiers()
    ensures WordsOf(Easy) == EasyWords && |WordsOf(Easy)| == 8
    ensures WordsOf(Medium) == MediumWords && |WordsOf(Medium)| == 8
    ensures WordsOf(Hard) == HardWords && |WordsOf(Hard)| == 8
  {
    EasyTier();
    MediumTier();
    HardTier();
    FilterTiers(EasyWords, MediumWords, HardWords);
  }

  /** Filtering three single-tier blocks by tier gives back one block. */
  lemma FilterTiers(a: seq<Word>, b: seq<Word>, c: seq<Word>)
    requires forall w :: w in a ==> w.difficulty == Easy
    requires forall w :: w in b ==> w.difficulty == Medium
    requires forall w :: w in c ==> w.difficulty == Hard
    ensures Filter(a + b + c, Easy, []) == a
    ensures Filter(a + b + c, Medium, []) == b
    ensures Filter(a + b + c, Hard, []) == c
  {
    FilterAppend(a + b, c, Easy, []);
    FilterAppend(a, b, Easy, []);
    FilterAppend(a + b, c, Medium, []);
    FilterAppend(a, b, Medium, []);
    FilterAppend(a + b, c, Hard, []);
    FilterAppend(a, b, Hard, []);
    FilterByTier(a, Easy, Easy);
    FilterByTier(b, Medium, Easy);
    FilterByTier(c, Hard, Easy);
    FilterByTier(a, Easy, Medium);
    FilterByTier(b, Medium, Medium);
    FilterByTier(c, Hard, Medium);
    FilterByTier(a, Easy, Hard);
    FilterByTier(b, Medium, Hard);
    FilterByTier(c, Hard, Hard);
  }
}
