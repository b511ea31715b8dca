/** The two multiple-choice rounds. The definition round shows the target's
    definition and offers words; the fill-in-the-blank round shows the
    target's example sentence with its blank and offers word texts. Both offer
    the target together with up to three other words of the tier that are
    neither the target nor already answered, in a random order, and both latch
    the first selection: it is judged by exact text equality and scored 10 or
    0, and later selections are ignored. */
module Choice {
  import opened Types
  import opened Text
  import opened Reorder
  import opened Catalog
  import opened Words

  /** How many other words a round asks for. */
  const OtherCount: nat := 3
  const CorrectPoints: nat := 10

  /** The text shown in the blank before a selection. */
  const EmptyBlank: string := "______"
  /** The text shown when the word has no example sentence. */
  const NoSentence: string := "No example sentence available."

  /** The other words offered with `word`: up to three words of the tier,
      drawn excluding the history and the target itself. */
  function OtherWords(word: Word, tier: Difficulty, history: seq<Word>, c: seq<nat>): (r: seq<Word>)
    ensures |r| == Min(OtherCount, |Filter(Vocabulary, tier, ExcludedTexts(history + [word]))|)
    ensures forall o :: o in r ==>
      && o in Vocabulary && o.difficulty == tier
      && !IsExcluded(o, history) && Lower(o.word) != Lower(word.word)
    ensures Distinct(r)
  {
    var r := GetRandomWordsExcluding(tier, OtherCount, history + [word], c);
    forall o | o in r
      ensures !IsExcluded(o, history) && Lower(o.word) != Lower(word.word)
    {
      ExcludingTarget(o, history, word);
    }
    r
  }

  /** Excluding the history and the target excludes each of them. */
  lemma ExcludingTarget(o: Word, history: seq<Word>, word: Word)
    requires !IsExcluded(o, history + [word])
    ensures !IsExcluded(o, history) && Lower(o.word) != Lower(word.word)
  {
    assert word in history + [word];
    forall x | x in history
      ensures Lower(x.word) != Lower(o.word)
    {
      assert x in history + [word];
    }
  }

  /** Offering `first` along with `rest`, reordered: a permutation of
      `first` and `rest`, so one more option than `rest` holds, `first` among
      them exactly once when `rest` lacks it, and nothing that is neither. */
  lemma OfferedOnce<T>(first: T, rest: seq<T>, order: seq<nat>)
    requires first !in rest
    ensures var r := Shuffle([first] + rest, order);
      && multiset(r) == multiset([first] + rest)
      && |r| == 1 + |rest|
      && multiset(r)[first] == 1
      && forall o :: o in r ==> o == first || o in rest
  {
    var r := Shuffle([first] + rest, order);
    ShuffleLength([first] + rest, order);
    assert multiset(rest)[first] == 0;
    assert multiset(r) == multiset([first]) + multiset(rest);
    forall o | o in r
      ensures o == first || o in rest
    {
      assert o in multiset(r);
    }
  }

  /** The definition round's options: the target and the other words,
      shuffled. They are a permutation of the target and the other words, so
      the target is offered exactly once, there are at most four options,
      and every other option is one of the other words. */
  function DefinitionOptions(word: Word, tier: Difficulty, history: seq<Word>,
                             c: seq<nat>, order: seq<nat>): (r: seq<Word>)
    ensures multiset(r) == multiset([word] + OtherWords(word, tier, history, c))
    ensures |r| == 1 + |OtherWords(word, tier, history, c)| && |r| <= 1 + OtherCount
    ensures multiset(r)[word] == 1
    ensures forall o :: o in r ==> o == word || o in OtherWords(word, tier, history, c)
  {
    var others := OtherWords(word, tier, history, c);
    assert word !in others;
    OfferedOnce(word, others, order);
    Shuffle([word] + others, order)
  }

  /** The texts of a list of words, in order. */
  function TextsOf(ws: seq<Word>): (r: seq<string>)
    ensures |r| == |ws|
    ensures forall i :: 0 <= i < |ws| ==> r[i] == ws[i].word
  {
    seq(|ws|, i requires 0 <= i < |ws| => ws[i].word)
  }

  /** A text whose lower-case form no word of the list shares is not among
      the list's texts. */
  lemma TextsAvoid(ws: seq<Word>, target: Word)
    requires forall o :: o in ws ==> Lower(o.word) != Lower(target.word)
    ensures target.word !in TextsOf(ws)
  {
  }

  /** The fill-in-the-blank round's options: the target's text and the other
      words' texts, shuffled. The target's text is offered exactly once, there
      are at most four options, and every other option is the text of one of
      the other words (see `TextsOf`). The options are a permutation of
      those texts. */
  function FillBlankOptions(word: Word, tier: Difficulty, history: seq<Word>,
                            c: seq<nat>, order: seq<nat>): (r: seq<string>)
    ensures multiset(r) == multiset([word.word] + TextsOf(OtherWords(word, tier, history, c)))
    ensures |r| == 1 + |OtherWords(word, tier, history, c)| && |r| <= 1 + OtherCount
    ensures multiset(r)[word.word] == 1
    ensures forall o :: o in r ==> o == word.word || o in TextsOf(OtherWords(word, tier, history, c))
  {
    var others := OtherWords(word, tier, history, c);
    TextsAvoid(others, word);
    OfferedOnce(word.word, TextsOf(others), order);
    Shuffle([word.word] + TextsOf(others), order)
  }

  /** `handleSelect`'s verdict: correct exactly when the selected text is the
      target's text (case-sensitive), worth 10 points, otherwise 0. */
  function Judge(choice: string, target: Word): (r: RoundResult)
    ensures r.correct <==> choice == target.word
    ensures r.correct ==> r.score == CorrectPoints
    ensures !r.correct ==> r.score == 0
  {
    if choice == target.word then RoundResult(true, CorrectPoints) else RoundResult(false, 0)
  }

  /** How the blank is coloured. */
  datatype BlankColour = Plain | Success | Failure

  /** The blank stays plain until the round is revealed; then it shows success
      exactly when the selection is the target's text. */
  function BlankColourOf(revealed: bool, selected: Option<string>, target: Word): (b: BlankColour)
    ensures b == Plain <==> !revealed
    ensures b == Success <==> revealed && selected == Some(target.word)
  {
    if !revealed then Plain
    else if selected == Some(target.word) then Success
    else Failure
  }

  /** The text in the blank: the selection, or the placeholder when nothing
      (or the empty text) is selected. */
  function Fill(selected: Option<string>): (r: string)
    ensures selected.Some? && selected.value != "" ==> r == selected.value
    ensures selected.None? || selected.value == "" ==> r == EmptyBlank
  {
    if selected.Some? && selected.value != "" then selected.value else EmptyBlank
  }

  /** `renderSentence` as text: without a sentence (or with an empty one) a
      fixed message; otherwise the text before the first `_`, the blank's
      text, and the text between the first and the second `_`. */
  function RenderSentence(sentence: Option<string>, selected: Option<string>): (r: string)
    ensures sentence.None? || sentence.value == "" ==> r == NoSentence
  {
    if sentence.None? || sentence.value == "" then NoSentence
    else
      var parts := Split(sentence.value, '_');
      parts[0] + Fill(selected) + (if |parts| > 1 then parts[1] else "")
  }

  /** For every catalog word the rendering replaces the sentence's only blank
      by the blank's text and keeps the rest of the sentence. */
  lemma CatalogSentenceRender(w: Word, selected: Option<string>)
    requires w in Vocabulary
    ensures w.exampleSentence.Some?
    ensures var parts := Split(w.exampleSentence.value, '_');
      && |parts| == 2
      && w.exampleSentence.value == parts[0] + "_" + parts[1]
      && '_' !in parts[0] && '_' !in parts[1]
      && RenderSentence(w.exampleSentence, selected) == parts[0] + Fill(selected) + parts[1]
  {
    CatalogBlanks();
    SplitOneSeparator(w.exampleSentence.value, '_');
  }

  /** Text after a second blank is dropped: only the first two pieces of the
      split are shown. */
  lemma RenderDropsAfterSecondBlank(a: string, b: string, c: string, selected: Option<string>)
    requires '_' !in a && '_' !in b
    ensures RenderSentence(Some(a + "_" + b + "_" + c), selected) == a + Fill(selected) + b
  {
    var s := a + "_" + b + "_" + c;
    assert s == a + ['_'] + (b + ['_'] + c);
    SplitAfterPrefix(a, '_', b + ['_'] + c);
    SplitAfterPrefix(b, '_', c);
    assert Split(s, '_')[..2] == [a, b];
  }

  /** A sentence without a blank is shown with the blank's text after it. */
  lemma RenderWithoutBlank(s: string, selected: Option<string>)
    requires s != "" && '_' !in s
    ensures RenderSentence(Some(s), selected) == s + Fill(selected)
  {
    SplitNoSeparator(s, '_');
  }

  /** The selection latch shared by both multiple-choice rounds: the word
      asked about, the selection, whether the answer is revealed, and what
      the round has passed to `onComplete`. */
  class ChoiceRound {
    var word: Word
    var selected: Option<string>
    var revealed: bool
    /** What the round has passed to `onComplete`. */
    var reports: seq<RoundResult>

    /** A selection has been made exactly when the round is revealed, and a
        revealed round has reported that selection's verdict once. */
    ghost predicate Valid()
      reads this
    {
      && (revealed <==> selected.Some?)
      && reports == (if revealed then [Judge(selected.value, word)] else [])
    }

    constructor (word: Word)
      ensures Valid() && this.word == word
      ensures selected == None && !revealed && reports == []
    {
      this.word := word;
      selected := None;
      revealed := false;
      reports := [];
    }

    method NewWord(word: Word)
      modifies this
      ensures Valid() && this.word == word
      ensures selected == None && !revealed && reports == []
    {
      this.word := word;
      selected := None;
      revealed := false;
      reports := [];
    }

    /** The blank's colour agrees with the verdict the round reported. */
    function Colour(): (b: BlankColour)
      reads this
      requires Valid()
      ensures !revealed ==> b == Plain
      ensures revealed ==> (b == Success <==> reports[0].correct)
    {
      BlankColourOf(revealed, selected, word)
    }

    /** `handleSelect`: ignored once revealed; otherwise records the choice,
        reveals, and reports the verdict. */
    method HandleSelect(choice: string)
      requires Valid()
      modifies this
      ensures Valid()
      ensures old(revealed) ==> unchanged(this)
      ensures !old(revealed) ==>
        && selected == Some(choice) && revealed
        && reports == [Judge(choice, word)]
        && word == old(word)
    {
      if revealed {
        return;
      }
      selected := Some(choice);
      revealed := true;
      reports := reports + [Judge(choice, word)];
    }
  }

  /** The definition round: the target's definition is shown with words to
      choose from, built by the option effect from the word, the tier and the
      history. */
  class DefinitionRound {
    const round: ChoiceRound
    var options: seq<Word>

    /** The latch is consistent, and the options offer the target exactly
        once among at most four words. */
    ghost predicate Valid()
      reads this, round
    {
      && round.Valid()
      && multiset(options)[round.word] == 1
      && |options| <= 1 + OtherCount
    }

    constructor (word: Word, tier: Difficulty, history: seq<Word>, c: seq<nat>, order: seq<nat>)
      ensures Valid() && fresh(round)
      ensures options == DefinitionOptions(word, tier, history, c, order)
      ensures round.word == word && round.selected == None && !round.revealed && round.reports == []
    {
      round := new ChoiceRound(word);
      options := DefinitionOptions(word, tier, history, c, order);
    }

    /** The option effect for a new word: the options are rebuilt, the
        selection cleared and the answer hidden. */
    method NewWord(word: Word, tier: Difficulty, history: seq<Word>, c: seq<nat>, order: seq<nat>)
      modifies this, round
      ensures Valid()
      ensures options == DefinitionOptions(word, tier, history, c, order)
      ensures round.word == word && round.selected == None && !round.revealed && round.reports == []
    {
      round.NewWord(word);
      options := DefinitionOptions(word, tier, history, c, order);
    }

    /** `handleSelect`, with the offered words untouched. */
    method HandleSelect(choice: string)
      requires Valid()
      modifies round
      ensures Valid() && options == old(options)
      ensures old(round.revealed) ==> unchanged(round)
      ensures !old(round.revealed) ==>
        && round.selected == Some(choice) && round.revealed
        && round.reports == [Judge(choice, round.word)]
        && round.word == old(round.word)
    {
      round.HandleSelect(choice);
    }
  }

  /** The fill-in-the-blank round: the target's example sentence is shown
      with its blank and word texts to choose from, built by the option
      effect from the word, the tier and the history. */
  class FillBlankRound {
    const round: ChoiceRound
    var options: seq<string>

    /** The latch is consistent, and the options offer the target's text
        exactly once among at most four texts. */
    ghost predicate Valid()
      reads this, round
    {
      && round.Valid()
      && multiset(options)[round.word.word] == 1
      && |options| <= 1 + OtherCount
    }

    constructor (word: Word, tier: Difficulty, history: seq<Word>, c: seq<nat>, order: seq<nat>)
      ensures Valid() && fresh(round)
      ensures options == FillBlankOptions(word, tier, history, c, order)
      ensures round.word == word && round.selected == None && !round.revealed && round.reports == []
    {
      round := new ChoiceRound(word);
      options := FillBlankOptions(word, tier, history, c, order);
    }

    /** The option effect for a new word: the options are rebuilt, the
        selection cleared and the answer hidden. */
    method NewWord(word: Word, tier: Difficulty, history: seq<Word>, c: seq<nat>, order: seq<nat>)
      modifies this, round
      ensures Valid()
      ensures options == FillBlankOptions(word, tier, history, c, order)
      ensures round.word == word && round.selected == None && !round.revealed && round.reports == []
    {
      round.NewWord(word);
      options := FillBlankOptions(word, tier, history, c, order);
    }

    /** `handleSelect`, with the offered texts untouched. */
    method HandleSelect(choice: string)
      requires Valid()
      modifies round
      ensures Valid() && options == old(options)
      ensures old(round.revealed) ==> unchanged(round)
      ensures !old(round.revealed) ==>
        && round.selected == Some(choice) && round.revealed
        && round.reports == [Judge(choice, round.word)]
        && round.word == old(round.word)
    {
      round.HandleSelect(choice);
    }
  }
}
