/** The static word catalog (`vocabulary`): eight words per tier, each with a
    definition and an example sentence holding one blank `_`. Each entry
    writes its sentence as the text before and after the blank; the tier is
    given per block. */
module Catalog {
  import opened Types
  import opened Text

  /** An example sentence, written as the text before and after its blank. */
  function Blanked(before: string, after: string): string
  {
    before + "_" + after
  }

  /** One catalog entry, without its tier. */
  datatype Entry = Entry(word: string, definition: string, before: string, after: string)

  /** The catalog word an entry stands for in tier `tier`. */
  function WordOf(e: Entry, tier: Difficulty): Word
  {
    Word(e.word, e.definition, tier, Some(Blanked(e.before, e.after)))
  }

  /** A block of entries as words of one tier, in order. */
  function Tiered(es: seq<Entry>, tier: Difficulty): (r: seq<Word>)
    ensures |r| == |es|
    ensures forall i :: 0 <= i < |es| ==> r[i] == WordOf(es[i], tier)
  {
    seq(|es|, i requires 0 <= i < |es| => WordOf(es[i], tier))
  }

  const EasyEntries: seq<Entry> := [
    Entry("happy", "Feeling or showing pleasure or contentment",
          "She felt very ", " after receiving the good news."),
    Entry("brave", "Ready to face and endure danger or pain",
          "The ", " firefighter rescued the cat from the tree."),
    Entry("quick", "Moving fast or doing something in a short time",
          "He took a ", " glance at his watch."),
    Entry("smart", "Having or showing intelligence",
          "She made a ", " decision to save money."),
    Entry("friend", "A person with whom one has a bond of mutual affection",
          "My best ", " and I have known each other for years."),
    Entry("bright", "Giving out or reflecting much light",
          "The ", " sun shone through the window."),
    Entry("clean", "Free from dirt, marks, or stains",
          "Please keep your room ", " and tidy."),
    Entry("strong", "Having the power to move heavy things or overcome resistance",
          "He is ", " enough to lift that heavy box.")
  ]

  const MediumEntries: seq<Entry> := [
    Entry("abundant", "Existing or available in large quantities",
          "The garden had an ", " supply of fresh vegetables."),
    Entry("candid", "Truthful and straightforward; frank",
          "She gave a ", " response about her concerns."),
    Entry("diligent", "Having or showing care in one's work or duties",
          "The ", " student studied for hours every day."),
    Entry("eloquent", "Fluent or persuasive in speaking or writing",
          "The speaker delivered an ", " presentation."),
    Entry("frugal", "Sparing or economical with regard to money or food",
          "She is very ", " and always looks for the best deals."),
    Entry("genuine", "Truly what something is said to be; authentic",
          "His smile was warm and ", "."),
    Entry("humble", "Having or showing a modest estimate of one's importance",
          "Despite her success, she remained ", "."),
    Entry("innovative", "Featuring new methods; advanced and original",
          "The company is known for its ", " approach to technology.")
  ]

  const HardEntries: seq<Entry> := [
    Entry("ephemeral", "Lasting for a very short time",
          "The beauty of cherry blossoms is ", " but breathtaking."),
    Entry("quintessential", "Representing the most perfect or typical example",
          "She is the ", " professional, always punctual and prepared."),
    Entry("ubiquitous", "Present, appearing, or found everywhere",
          "Smartphones have become ", " in modern society."),
    Entry("meticulous", "Showing great attention to detail; very careful",
          "The artist was ", " in her attention to every brushstroke."),
    Entry("benevolent", "Well-meaning and kindly",
          "The ", " organization helps families in need."),
    Entry("pragmatic", "Dealing with things sensibly and realistically",
          "We need a ", " approach to solve this complex problem."),
    Entry("ambiguous", "Open to more than one interpretation; unclear",
          "The ", " instructions confused many people."),
    Entry("tenacious", "Persistent and determined",
          "Her ", " spirit helped her overcome many obstacles.")
  ]

  const EasyWords: seq<Word> := Tiered(EasyEntries, Easy)
  const MediumWords: seq<Word> := Tiered(MediumEntries, Medium)
  const HardWords: seq<Word> := Tiered(HardEntries, Hard)

  /** `vocabulary`, in catalog order. */
  const Vocabulary: seq<Word> := EasyWords + MediumWords + HardWords

  /** The word has an example sentence with exactly one `_`. */
  predicate HasOneBlank(w: Word)
  {
    w.exampleSentence.Some? && Count(w.exampleSentence.value, '_') == 1
  }

  /** The entry's text around the blank holds no `_` itself. */
  predicate Clear(e: Entry)
  {
    '_' !in e.before && '_' !in e.after
  }

  /** A sentence built around one blank, from text free of `_`, holds exactly
      one `_` and splits into the text before and after it. */
  lemma BlankedHasOneBlank(before: string, after: string)
    requires '_' !in before && '_' !in after
    ensures Count(Blanked(before, after), '_') == 1
    ensures Split(Blanked(before, after), '_') == [before, after]
  {
    SplitAtOnlySeparator(before, '_', after);
    SplitPieces(Blanked(before, after), '_');
  }

  /** Words built from clear entries hold exactly one blank. */
  lemma TieredBlanks(es: seq<Entry>, tier: Difficulty)
    requires forall e :: e in es ==> Clear(e)
    ensures forall w :: w in Tiered(es, tier) ==> HasOneBlank(w)
  {
    var ws := Tiered(es, tier);
    forall w | w in ws
      ensures HasOneBlank(w)
    {
      var i :| 0 <= i < |ws| && ws[i] == w;
      assert es[i] in es;
      BlankedHasOneBlank(es[i].before, es[i].after);
    }
  }

  /** A block of eight clear entries. */
  lemma EightClear(es: seq<Entry>)
    requires |es| == 8
    requires Clear(es[0]) && Clear(es[1]) && Clear(es[2]) && Clear(es[3])
    requires Clear(es[4]) && Clear(es[5]) && Clear(es[6]) && Clear(es[7])
    ensures forall e :: e in es ==> Clear(e)
  {
    forall e | e in es
      ensures Clear(e)
    {
      var i :| 0 <= i < 8 && es[i] == e;
    }
  }

  /** An entry whose texts around the blank are known to be free of `_`. */
  lemma EntryClear(e: Entry, before: string, after: string)
    requires e.before == before && e.after == after
    requires '_' !in before && '_' !in after
    ensures Clear(e)
  {
  }

  // One pair of lemmas per catalog word follows. `<Word>Text` checks that
  // the literal text around the blank is free of `_`, and `<Word>Clear` lifts
  // that fact to the entry. Keeping each string literal inside its own small
  // proof keeps the whole catalog out of the larger proofs that use it.

  lemma HappyText()
    ensures '_' !in "She felt very " && '_' !in " after receiving the good news."
  {
  }

  lemma HappyClear()
    ensures Clear(EasyEntries[0])
  {
    HappyText();
    EntryClear(EasyEntries[0], "She felt very ", " after receiving the good news.");
  }

  lemma BraveText()
    ensures '_' !in "The " && '_' !in " firefighter rescued the cat from the tree."
  {
  }

  lemma BraveClear()
    ensures Clear(EasyEntries[1])
  {
    BraveText();
    EntryClear(EasyEntries[1], "The ", " firefighter rescued the cat from the tree.");
  }

  lemma QuickText()
    ensures '_' !in "He took a " && '_' !in " glance at his watch."
  {
  }

  lemma QuickClear()
    ensures Clear(EasyEntries[2])
  {
    QuickText();
    EntryClear(EasyEntries[2], "He took a ", " glance at his watch.");
  }

  lemma SmartText()
    ensures '_' !in "She made a " && '_' !in " decision to save money."
  {
  }

  lemma SmartClear()
    ensures Clear(EasyEntries[3])
  {
    SmartText();
    EntryClear(EasyEntries[3], "She made a ", " decision to save money.");
  }

  lemma FriendText()
    ensures '_' !in "My best " && '_' !in " and I have known each other for years."
  {
  }

  lemma FriendClear()
    ensures Clear(EasyEntries[4])
  {
    FriendText();
    EntryClear(EasyEntries[4], "My best ", " and I have known each other for years.");
  }

  lemma BrightText()
    ensures '_' !in "The " && '_' !in " sun shone through the window."
  {
  }

  lemma BrightClear()
    ensures Clear(EasyEntries[5])
  {
    BrightText();
    EntryClear(EasyEntries[5], "The ", " sun shone through the window.");
  }

  lemma CleanText()
    ensures '_' !in "Please keep your room " && '_' !in " and tidy."
  {
  }

  lemma CleanClear()
    ensures Clear(EasyEntries[6])
  {
    CleanText();
    EntryClear(EasyEntries[6], "Please keep your room ", " and tidy.");
  }

  lemma StrongText()
    ensures '_' !in "He is " && '_' !in " enough to lift that heavy box."
  {
  }

  lemma StrongClear()
    ensures Clear(EasyEntries[7])
  {
    StrongText();
    EntryClear(EasyEntries[7], "He is ", " enough to lift that heavy box.");
  }

  lemma AbundantText()
    ensures '_' !in "The garden had an " && '_' !in " supply of fresh vegetables."
  {
  }

  lemma AbundantClear()
    ensures Clear(MediumEntries[0])
  {
    AbundantText();
    EntryClear(MediumEntries[0], "The garden had an ", " supply of fresh vegetables.");
  }

  lemma CandidText()
    ensures '_' !in "She gave a " && '_' !in " response about her concerns."
  {
  }

  lemma CandidClear()
    ensures Clear(MediumEntries[1])
  {
    CandidText();
    EntryClear(MediumEntries[1], "She gave a ", " response about her concerns.");
  }

  lemma DiligentText()
    ensures '_' !in "The " && '_' !in " student studied for hours every day."
  {
  }

  lemma DiligentClear()
    ensures Clear(MediumEntries[2])
  {
    DiligentText();
    EntryClear(MediumEntries[2], "The ", " student studied for hours every day.");
  }

  lemma EloquentText()
    ensures '_' !in "The speaker delivered an " && '_' !in " presentation."
  {
  }

  lemma EloquentClear()
    ensures Clear(MediumEntries[3])
  {
    EloquentText();
    EntryClear(MediumEntries[3], "The speaker delivered an ", " presentation.");
  }

  lemma FrugalText()
    ensures '_' !in "She is very " && '_' !in " and always looks for the best deals."
  {
  }

  lemma FrugalClear()
    ensures Clear(MediumEntries[4])
  {
    FrugalText();
    EntryClear(MediumEntries[4], "She is very ", " and always looks for the best deals.");
  }

  lemma GenuineText()
    ensures '_' !in "His smile was warm and " && '_' !in "."
  {
  }

  lemma GenuineClear()
    ensures Clear(MediumEntries[5])
  {
    GenuineText();
    EntryClear(MediumEntries[5], "His smile was warm and ", ".");
  }

  lemma HumbleText()
    ensures '_' !in "Despite her success, she remained " && '_' !in "."
  {
  }

  lemma HumbleClear()
    ensures Clear(MediumEntries[6])
  {
    HumbleText();
    EntryClear(MediumEntries[6], "Despite her success, she remained ", ".");
  }

  lemma InnovativeText()
    ensures '_' !in "The company is known for its " && '_' !in " approach to technology."
  {
  }

  lemma InnovativeClear()
    ensures Clear(MediumEntries[7])
  {
    InnovativeText();
    EntryClear(MediumEntries[7], "The company is known for its ", " approach to technology.");
  }

  lemma EphemeralText()
    ensures '_' !in "The beauty of cherry blossoms is " && '_' !in " but breathtaking."
  {
  }

  lemma EphemeralClear()
    ensures Clear(HardEntries[0])
  {
    EphemeralText();
    EntryClear(HardEntries[0], "The beauty of cherry blossoms is ", " but breathtaking.");
  }

  lemma QuintessentialText()
    ensures '_' !in "She is the " && '_' !in " professional, always punctual and prepared."
  {
  }

  lemma QuintessentialClear()
    ensures Clear(HardEntries[1])
  {
    QuintessentialText();
    EntryClear(HardEntries[1], "She is the ", " professional, always punctual and prepared.");
  }

  lemma UbiquitousText()
    ensures '_' !in "Smartphones have become " && '_' !in " in modern society."
  {
  }

  lemma UbiquitousClear()
    ensures Clear(HardEntries[2])
  {
    UbiquitousText();
    EntryClear(HardEntries[2], "Smartphones have become ", " in modern society.");
  }

  lemma MeticulousText()
    ensures '_' !in "The artist was " && '_' !in " in her attention to every brushstroke."
  {
  }

  lemma MeticulousClear()
    ensures Clear(HardEntries[3])
  {
    MeticulousText();
    EntryClear(HardEntries[3], "The artist was ", " in her attention to every brushstroke.");
  }

  lemma BenevolentText()
    ensures '_' !in "The " && '_' !in " organization helps families in need."
  {
  }

  lemma BenevolentClear()
    ensures Clear(HardEntries[4])
  {
    BenevolentText();
    EntryClear(HardEntries[4], "The ", " organization helps families in need.");
  }

  lemma PragmaticText()
    ensures '_' !in "We need a " && '_' !in " approach to solve this complex problem."
  {
  }

  lemma PragmaticClear()
    ensures Clear(HardEntries[5])
  {
    PragmaticText();
    EntryClear(HardEntries[5], "We need a ", " approach to solve this complex problem.");
  }

  lemma AmbiguousText()
    ensures '_' !in "The " && '_' !in " instructions confused many people."
  {
  }

  lemma AmbiguousClear()
    ensures Clear(HardEntries[6])
  {
    AmbiguousText();
    EntryClear(HardEntries[6], "The ", " instructions confused many people.");
  }

  lemma TenaciousText()
    ensures '_' !in "Her " && '_' !in " spirit helped her overcome many obstacles."
  {
  }

  lemma TenaciousClear()
    ensures Clear(HardEntries[7])
  {
    TenaciousText();
    EntryClear(HardEntries[7], "Her ", " spirit helped her overcome many obstacles.");
  }

  lemma EasyBlanks()
    ensures forall w :: w in EasyWords ==> HasOneBlank(w)
  {
    HappyClear();
    BraveClear();
    QuickClear();
    SmartClear();
    FriendClear();
    BrightClear();
    CleanClear();
    StrongClear();
    EightClear(EasyEntries);
    TieredBlanks(EasyEntries, Easy);
  }

  lemma MediumBlanks()
    ensures forall w :: w in MediumWords ==> HasOneBlank(w)
  {
    AbundantClear();
    CandidClear();
    DiligentClear();
    EloquentClear();
    FrugalClear();
    GenuineClear();
    HumbleClear();
    InnovativeClear();
    EightClear(MediumEntries);
    TieredBlanks(MediumEntries, Medium);
  }

  lemma HardBlanks()
    ensures forall w :: w in HardWords ==> HasOneBlank(w)
  {
    EphemeralClear();
    QuintessentialClear();
    UbiquitousClear();
    MeticulousClear();
    BenevolentClear();
    PragmaticClear();
    AmbiguousClear();
    TenaciousClear();
    EightClear(HardEntries);
    TieredBlanks(HardEntries, Hard);
  }

  /** Every catalog sentence holds exactly one blank. */
  lemma CatalogBlanks()
    ensures forall w :: w in Vocabulary ==> HasOneBlank(w)
  {
    EasyBlanks();
    MediumBlanks();
    HardBlanks();
  }

  /** Words built from entries of pairwise different texts are pairwise
      different. */
  lemma TieredDistinct(es: seq<Entry>, tier: Difficulty)
    requires forall i, j :: 0 <= i < j < |es| ==> es[i].word != es[j].word
    ensures Distinct(Tiered(es, tier))
  {
  }

  /** Every word of a block has the block's tier. */
  lemma TieredTier(es: seq<Entry>, tier: Difficulty)
    ensures forall w :: w in Tiered(es, tier) ==> w.difficulty == tier
  {
    var ws := Tiered(es, tier);
    forall w | w in ws
      ensures w.difficulty == tier
    {
      var i :| 0 <= i < |ws| && ws[i] == w;
    }
  }

  lemma EasyDistinct()
    ensures Distinct(EasyWords)
  {
    assert forall i, j :: 0 <= i < j < |EasyEntries| ==> EasyEntries[i].word != EasyEntries[j].word;
    TieredDistinct(EasyEntries, Easy);
  }

  lemma EasyTier()
    ensures |EasyWords| == 8
    ensures forall w :: w in EasyWords ==> w.difficulty == Easy
  {
    TieredTier(EasyEntries, Easy);
  }

  lemma MediumDistinct()
    ensures Distinct(MediumWords)
  {
    assert forall i, j :: 0 <= i < j < |MediumEntries| ==> MediumEntries[i].word != MediumEntries[j].word;
    TieredDistinct(MediumEntries, Medium);
  }

  lemma MediumTier()
    ensures |MediumWords| == 8
    ensures forall w :: w in MediumWords ==> w.difficulty == Medium
  {
    TieredTier(MediumEntries, Medium);
  }

  lemma HardDistinct()
    ensures Distinct(HardWords)
  {
    assert forall i, j :: 0 <= i < j < |HardEntries| ==> HardEntries[i].word != HardEntries[j].word;
    TieredDistinct(HardEntries, Hard);
  }

  lemma HardTier()
    ensures |HardWords| == 8
    ensures forall w :: w in HardWords ==> w.difficulty == Hard
  {
    TieredTier(HardEntries, Hard);
  }

  /** No word is listed twice in the catalog. */
  lemma VocabularyDistinct()
    ensures Distinct(Vocabulary)
  {
    EasyDistinct();
    MediumDistinct();
    HardDistinct();
    EasyTier();
    MediumTier();
    HardTier();
    DistinctTiers(EasyWords, MediumWords, HardWords);
  }

  /** Three duplicate-free blocks of different tiers make a duplicate-free list. */
  lemma DistinctTiers(a: seq<Word>, b: seq<Word>, c: seq<Word>)
    requires Distinct(a) && Distinct(b) && Distinct(c)
    requires forall w :: w in a ==> w.difficulty == Easy
    requires forall w :: w in b ==> w.difficulty == Medium
    requires forall w :: w in c ==> w.difficulty == Hard
    ensures Distinct(a + b + c)
  {
    var s := a + b + c;
    forall i, j | 0 <= i < j < |s| ensures s[i] != s[j] {
      assert s[i] in a || s[i] in b || s[i] in c;
      if i < |a| {
        assert s[i] == a[i];
        if j < |a| { assert s[j] == a[j]; }
        else if j < |a| + |b| { assert s[j] in b; }
        else { assert s[j] in c; }
      } else if i < |a| + |b| {
        assert s[i] == b[i - |a|];
        if j < |a| + |b| { assert s[j] == b[j - |a|]; }
        else { assert s[j] in c; }
      } else {
        assert s[i] == c[i - |a| - |b|] && s[j] == c[j - |a| - |b|];
      }
    }
  }
}
