/** The fill-in-the-blank worksheet: a word is shown with one letter missing, four letters are
    offered, and the child picks the missing one. Questions are not repeated until every
    question of the bank has been asked. */
module FillBlanks {
  import opened Wrappers
  import opened Seqs
  import opened Shuffle
  import opened Letters

  /** One missing letter of a word and where it goes. */
  datatype Blank = Blank(letter: string, position: nat)

  /** A word to complete. The question bank itself is not part of the catalog; it is given to
      the worksheet when it is created. */
  datatype FillBlankQuestion = FillBlankQuestion(word: string, emoji: string, blanks: seq<Blank>)

  /** How many letters a question offers. */
  const OptionCount := 4
  /** Points for a right answer. */
  const Points := 10
  /** Every score that is a multiple of this is celebrated. */
  const CelebrationStep := 50

  /** The letter strings of every vowel and consonant, the pool of candidate answers. */
  const AllLetterNames: seq<string> := LetterNames(AllLetters)

  /** The worksheet reads blanks[0] of whichever question it draws, so the bank must be
      non-empty and every question must have a blank. */
  predicate ValidBank(bank: seq<FillBlankQuestion>) {
    |bank| > 0 && forall q :: q in bank ==> |q.blanks| > 0
  }

  /** The letter that fills the first blank. */
  function CorrectLetter(q: FillBlankQuestion): string
    requires |q.blanks| > 0
  {
    q.blanks[0].letter
  }

  /** No asked question has q's word. */
  predicate NotAsked(asked: seq<FillBlankQuestion>, q: FillBlankQuestion) {
    forall a :: a in asked ==> a.word != q.word
  }

  /** The bank questions whose word has not been asked yet. */
  function Remaining(bank: seq<FillBlankQuestion>, asked: seq<FillBlankQuestion>): (r: seq<FillBlankQuestion>)
    ensures |r| <= |bank|
  {
    Filter(bank, q => NotAsked(asked, q))
  }

  /** The question generateQuestion draws: the first of a shuffle of the remaining questions, or
      of the whole bank once every word has been asked. */
  function PickQuestion(bank: seq<FillBlankQuestion>, asked: seq<FillBlankQuestion>, rolls: seq<nat>): (q: FillBlankQuestion)
    requires |bank| > 0 && ValidRolls(rolls, |bank|)
    ensures q in bank
    ensures |Remaining(bank, asked)| > 0 ==> NotAsked(asked, q)
  {
    var remaining := Remaining(bank, asked);
    FilterMembers(bank, q => NotAsked(asked, q));
    assert |remaining| > 0 ==> remaining[0] in remaining;
    var pool := if |remaining| > 0 then remaining else bank;
    var shuffled := Shuffled(pool, rolls);
    ShuffledIsPermutation(pool, rolls);
    assert shuffled[0] in shuffled;
    shuffled[0]
  }

  /** Some question remains exactly when some bank question's word has not been asked. */
  lemma RemainingNonEmpty(bank: seq<FillBlankQuestion>, asked: seq<FillBlankQuestion>)
    ensures |Remaining(bank, asked)| > 0 <==> exists b :: b in bank && NotAsked(asked, b)
  {
    FilterMembers(bank, q => NotAsked(asked, q));
    var r := Remaining(bank, asked);
    if |r| > 0 {
      assert r[0] in r;
    }
  }

  /** Before anything is asked every question remains. */
  lemma NothingAskedAllRemain(bank: seq<FillBlankQuestion>)
    ensures Remaining(bank, []) == bank
  {
    FilterKeepsAll(bank, q => NotAsked([], q));
  }

  /** The options built from a pool of distinct letters: the correct letter and three others
      drawn from the pool minus the correct letter, shuffled together. */
  function OptionsFrom(pool: seq<string>, correct: string, wrongRolls: seq<nat>, optionRolls: seq<nat>): (r: seq<string>)
    requires Distinct(pool) && OptionCount <= |pool|
    requires ValidRolls(wrongRolls, |pool|) && ValidRolls(optionRolls, OptionCount)
    ensures |r| == OptionCount && correct in r && Distinct(r)
    ensures forall x :: x in r ==> x == correct || (x in pool && x != correct)
  {
    var others := Filter(pool, l => l != correct);
    FilterMembers(pool, l => l != correct);
    FilterDistinct(pool, l => l != correct);
    FilterDropsAtMostOne(pool, l => l != correct);
    var wrong := ShuffledPrefix(others, wrongRolls, OptionCount - 1);
    ShuffledPrefixSelects(others, wrongRolls, OptionCount - 1);
    ShuffledOptionsHold(correct, wrong, optionRolls);
    ShuffledOptions(correct, wrong, optionRolls)
  }

  /** The catalog's letter strings are distinct, so the options drawn from them are too. */
  lemma AllLetterNamesDistinct()
    ensures Distinct(AllLetterNames) && |AllLetterNames| == 48
  {
    AllLettersDistinct();
  }

  /** Asked questions never share a word. */
  ghost predicate WordsDistinct(asked: seq<FillBlankQuestion>) {
    forall i, j :: 0 <= i < j < |asked| ==> asked[i].word != asked[j].word
  }

  /** Appending a question whose word was not asked keeps the words distinct. */
  lemma AppendUnasked(asked: seq<FillBlankQuestion>, q: FillBlankQuestion)
    requires WordsDistinct(asked) && NotAsked(asked, q)
    ensures WordsDistinct(asked + [q])
  {
    var s := asked + [q];
    forall i, j | 0 <= i < j < |s| ensures s[i].word != s[j].word {
      if j == |asked| {
        assert s[i] in asked;
      }
    }
  }

  /** Questions with pairwise different words, all from the bank, are at most as many as the
      bank's questions. */
  lemma AskedAtMostBank(bank: seq<FillBlankQuestion>, asked: seq<FillBlankQuestion>)
    requires WordsDistinct(asked) && forall a :: a in asked ==> a in bank
    ensures |asked| <= |bank|
  {
    assert Distinct(asked);
    DistinctCard(asked);
    SubsetCard(set a | a in asked, set b | b in bank);
    SetOfSeqCard(bank);
  }

  /** While the bank holds a word other than q's, the question drawn once only q has been asked
      has a different word. This is what the corrected reset relies on: it records the question
      it shows, so the next question is not that one again. */
  lemma NextAfterResetDiffers(bank: seq<FillBlankQuestion>, q: FillBlankQuestion, rolls: seq<nat>)
    requires |bank| > 0 && ValidRolls(rolls, |bank|)
    requires exists b :: b in bank && b.word != q.word
    ensures PickQuestion(bank, [q], rolls).word != q.word
  {
    var b :| b in bank && b.word != q.word;
    assert NotAsked([q], b);
    RemainingNonEmpty(bank, [q]);
  }

  /** Two questions with different words, both already asked, and the draws [0, 0]. The reset as
      the code is written draws against the old asked list: nothing remains, so it shows a
      question of the whole bank and records nothing; the next question, drawn against the empty
      list with the same draws, is the same question again. */
  lemma StaleResetRepeats()
    ensures var a := FillBlankQuestion("ab", "", [Blank("a", 0)]);
            var b := FillBlankQuestion("cd", "", [Blank("c", 0)]);
            var shown := PickQuestion([a, b], [a, b], [0, 0]);
            && |Remaining([a, b], [a, b])| == 0
            && PickQuestion([a, b], [], [0, 0]) == shown
  {
    var a := FillBlankQuestion("ab", "", [Blank("a", 0)]);
    var b := FillBlankQuestion("cd", "", [Blank("c", 0)]);
    assert !NotAsked([a, b], a) && !NotAsked([a, b], b);
    RemainingNonEmpty([a, b], [a, b]);
    NothingAskedAllRemain([a, b]);
  }

  class FillInBlanks {
    const bank: seq<FillBlankQuestion>
    /** allLetters: the letter strings of the catalog, from which wrong options are drawn. */
    const letterPool: seq<string>
    var currentQuestion: Option<FillBlankQuestion>
    var options: seq<string>
    var selectedAnswer: Option<string>
    var isCorrect: Option<bool>
    var score: int
    var totalQuestions: int
    var showCelebration: bool
    var questionsAsked: seq<FillBlankQuestion>

    /** The worksheet invariant: asked questions come from the bank and never share a word; the
        score is ten per right answer, so a multiple of ten and at most ten per answer; a shown
        question comes from the bank with four distinct options including its answer; an answer
        and its verdict are recorded together and the verdict matches the answer. */
    ghost predicate Valid()
      reads this
    {
      && ValidBank(bank)
      && Distinct(letterPool) && OptionCount <= |letterPool|
      && WordsDistinct(questionsAsked)
      && (forall a :: a in questionsAsked ==> a in bank)
      && 0 <= score <= Points * totalQuestions && score % Points == 0
      && (currentQuestion.Some? ==>
            && currentQuestion.value in bank
            && |options| == OptionCount && Distinct(options)
            && CorrectLetter(currentQuestion.value) in options)
      && (selectedAnswer.Some? <==> isCorrect.Some?)
      && (isCorrect.Some? ==>
            && currentQuestion.Some?
            && (isCorrect.value <==> selectedAnswer.value == CorrectLetter(currentQuestion.value)))
    }

    /** The first render: no question yet, nothing answered. */
    constructor (questions: seq<FillBlankQuestion>)
      requires ValidBank(questions)
      ensures Valid() && bank == questions && letterPool == AllLetterNames
      ensures currentQuestion == None && options == [] && questionsAsked == []
      ensures selectedAnswer == None && isCorrect == None
      ensures score == 0 && totalQuestions == 0 && !showCelebration
    {
      bank := questions;
      letterPool := AllLetterNames;
      assert Distinct(AllLetterNames) && |AllLetterNames| == 48 by {
        AllLettersDistinct();
      }
      currentQuestion, options := None, [];
      selectedAnswer, isCorrect := None, None;
      score, totalQuestions, showCelebration := 0, 0, false;
      questionsAsked := [];
    }

    /** generateQuestion, called on mount and by nextQuestion: a question not asked before when
        there is one, its options, the answer cleared; the question is remembered as asked only
        when it was drawn from the not-yet-asked ones. */
    method GenerateQuestion(questionRolls: seq<nat>, wrongRolls: seq<nat>, optionRolls: seq<nat>)
      requires Valid()
      requires ValidRolls(questionRolls, |bank|) && ValidRolls(wrongRolls, |letterPool|)
      requires ValidRolls(optionRolls, OptionCount)
      modifies this`currentQuestion, this`options, this`selectedAnswer, this`isCorrect, this`questionsAsked
      ensures Valid()
      ensures currentQuestion == Some(PickQuestion(bank, old(questionsAsked), questionRolls))
      ensures options == OptionsFrom(letterPool, CorrectLetter(currentQuestion.value), wrongRolls, optionRolls)
      ensures selectedAnswer == None && isCorrect == None
      ensures questionsAsked == if |Remaining(bank, old(questionsAsked))| > 0
                                then old(questionsAsked) + [currentQuestion.value]
                                else old(questionsAsked)
    {
      var question := PickQuestion(bank, questionsAsked, questionRolls);
      var more := |Remaining(bank, questionsAsked)| > 0;
      currentQuestion := Some(question);
      options := OptionsFrom(letterPool, CorrectLetter(question), wrongRolls, optionRolls);
      selectedAnswer := None;
      isCorrect := None;
      if more {
        assert WordsDistinct(questionsAsked + [question]) by {
          AppendUnasked(questionsAsked, question);
        }
        questionsAsked := questionsAsked + [question];
      }
    }

    /** handleAnswer: ignored while an answer is showing or before there is a question;
        otherwise the answer is recorded and counted, the letter of the first blank scores ten,
        and a new score that is a multiple of fifty starts the celebration. */
    method HandleAnswer(letter: string)
      requires Valid()
      modifies this`selectedAnswer, this`isCorrect, this`totalQuestions, this`score, this`showCelebration
      ensures Valid()
      ensures old((selectedAnswer.Some? && selectedAnswer.value != "") || currentQuestion.None?) ==> unchanged(this)
      ensures old(!(selectedAnswer.Some? && selectedAnswer.value != "") && currentQuestion.Some?) ==>
        var right := letter == CorrectLetter(old(currentQuestion.value));
        && selectedAnswer == Some(letter)
        && isCorrect == Some(right)
        && totalQuestions == old(totalQuestions) + 1
        && score == old(score) + (if right then Points else 0)
        && showCelebration == (old(showCelebration) || (right && (old(score) + Points) % CelebrationStep == 0))
        && currentQuestion == old(currentQuestion) && options == old(options)
        && questionsAsked == old(questionsAsked)
    {
      if (selectedAnswer.Some? && selectedAnswer.value != "") || currentQuestion.None? {
        return;
      }
      selectedAnswer := Some(letter);
      totalQuestions := totalQuestions + 1;
      var right := CorrectLetter(currentQuestion.value) == letter;
      isCorrect := Some(right);
      if right {
        score := score + Points;
        if score % CelebrationStep == 0 {
          showCelebration := true;
        }
      }
    }

    /** resetGame: score, answer count and the asked list are cleared, then a question is
        generated as on mount; the celebration flag is left as it is. */
    method ResetGame(questionRolls: seq<nat>, wrongRolls: seq<nat>, optionRolls: seq<nat>)
      requires Valid()
      requires ValidRolls(questionRolls, |bank|) && ValidRolls(wrongRolls, |letterPool|)
      requires ValidRolls(optionRolls, OptionCount)
      modifies this
      ensures Valid()
      ensures score == 0 && totalQuestions == 0
      ensures currentQuestion == Some(PickQuestion(bank, [], questionRolls))
      ensures questionsAsked == [currentQuestion.value]
      ensures options == OptionsFrom(letterPool, CorrectLetter(currentQuestion.value), wrongRolls, optionRolls)
      ensures selectedAnswer == None && isCorrect == None
      ensures showCelebration == old(showCelebration)
    {
      score := 0;
      totalQuestions := 0;
      questionsAsked := [];
      assert |Remaining(bank, [])| > 0 by {
        NothingAskedAllRemain(bank);
      }
      GenerateQuestion(questionRolls, wrongRolls, optionRolls);
      assert [] + [currentQuestion.value] == [currentQuestion.value];
    }

    /** resetGame exactly as the code is written: the updates it queues take effect only after
        the handler, so the generateQuestion it calls still sees the asked list from before the
        reset. The question is drawn against that old list, and it is appended to the cleared
        list only when some question remained against the old one. */
    method ResetGameAsWritten(questionRolls: seq<nat>, wrongRolls: seq<nat>, optionRolls: seq<nat>)
      requires Valid()
      requires ValidRolls(questionRolls, |bank|) && ValidRolls(wrongRolls, |letterPool|)
      requires ValidRolls(optionRolls, OptionCount)
      modifies this
      ensures Valid()
      ensures score == 0 && totalQuestions == 0
      ensures currentQuestion == Some(PickQuestion(bank, old(questionsAsked), questionRolls))
      ensures questionsAsked == if |Remaining(bank, old(questionsAsked))| > 0 then [currentQuestion.value] else []
      ensures options == OptionsFrom(letterPool, CorrectLetter(currentQuestion.value), wrongRolls, optionRolls)
      ensures selectedAnswer == None && isCorrect == None
      ensures showCelebration == old(showCelebration)
    {
      score := 0;
      totalQuestions := 0;
      var more := |Remaining(bank, questionsAsked)| > 0;
      GenerateQuestion(questionRolls, wrongRolls, optionRolls);
      questionsAsked := if more then [currentQuestion.value] else [];
    }

    /** The asked list never outgrows the bank. */
    lemma AskedBounded()
      requires Valid()
      ensures |questionsAsked| <= |bank|
    {
      AskedAtMostBank(bank, questionsAsked);
    }
  }
}
