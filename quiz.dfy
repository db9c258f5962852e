/** The letter identification quiz: a letter is spoken, four letters are shown, and the child
    picks the one that was spoken. Score, answer count and the current streak are kept. */
module Quiz {
  import opened Wrappers
  import opened Seqs
  import opened Shuffle
  import opened Letters

  /** How many letters a question offers. */
  const OptionCount := 4

  /** Every fifth correct answer in a row is celebrated. */
  const StreakGoal := 5

  datatype QuizQuestion = QuizQuestion(correctLetter: MarathiLetter, options: seq<MarathiLetter>)

  /** A question as the quiz shows it: four letters with pairwise different names, one of which
      is the letter to identify. */
  ghost predicate WellFormed(q: QuizQuestion) {
    && |q.options| == OptionCount
    && q.correctLetter in q.options
    && Distinct(LetterNames(q.options))
  }

  /** The question generateQuestion draws from a pool of letters: shuffle the pool, take the first
      letter as the answer and the next three as the wrong options, then shuffle the four. */
  function QuestionFrom(pool: seq<MarathiLetter>, letterRolls: seq<nat>, optionRolls: seq<nat>): (q: QuizQuestion)
    requires OptionCount <= |pool| && ValidRolls(letterRolls, |pool|) && ValidRolls(optionRolls, OptionCount)
    ensures |q.options| == OptionCount && q.correctLetter in q.options
    ensures forall o :: o in q.options ==> o in pool
    ensures Distinct(pool) ==> Distinct(q.options)
    ensures Distinct(LetterNames(pool)) ==> Distinct(LetterNames(q.options))
  {
    var shuffled := Shuffled(pool, letterRolls);
    ShuffledIsPermutation(pool, letterRolls);
    var correct := shuffled[0];
    var wrong := shuffled[1..4];
    assert forall x :: x in wrong ==> x in shuffled;
    ShuffledOptionsHold(correct, wrong, optionRolls);
    QuestionFromDistinct(pool, letterRolls, optionRolls);
    var options := ShuffledOptions(correct, wrong, optionRolls);
    assert Distinct(LetterNames(pool)) ==> Distinct(LetterNames(options)) by {
      if Distinct(LetterNames(pool)) {
        NamesDetermineEntries(pool);
        assert Distinct(pool);
        SelectionKeepsNamesDistinct(pool, options);
      }
    }
    QuizQuestion(correct, options)
  }

  /** A pool without repeats gives options without repeats. */
  lemma QuestionFromDistinct(pool: seq<MarathiLetter>, letterRolls: seq<nat>, optionRolls: seq<nat>)
    requires OptionCount <= |pool| && ValidRolls(letterRolls, |pool|) && ValidRolls(optionRolls, OptionCount)
    ensures Distinct(pool) ==> Distinct(ShuffledOptions(Shuffled(pool, letterRolls)[0], Shuffled(pool, letterRolls)[1..4], optionRolls))
  {
    if Distinct(pool) {
      var shuffled := Shuffled(pool, letterRolls);
      ShuffledIsPermutation(pool, letterRolls);
      DistinctSlice(shuffled, 1, 4);
      assert shuffled[0] !in shuffled[1..4];
      ShuffledOptionsHold(shuffled[0], shuffled[1..4], optionRolls);
    }
  }

  /** The answer is the first letter of the shuffled pool and the options are the first four
      shuffled letters, reordered. */
  lemma QuestionFromPermutes(pool: seq<MarathiLetter>, letterRolls: seq<nat>, optionRolls: seq<nat>)
    requires OptionCount <= |pool| && ValidRolls(letterRolls, |pool|) && ValidRolls(optionRolls, OptionCount)
    ensures QuestionFrom(pool, letterRolls, optionRolls).correctLetter == Shuffled(pool, letterRolls)[0]
    ensures multiset(QuestionFrom(pool, letterRolls, optionRolls).options) == multiset(Shuffled(pool, letterRolls)[..OptionCount])
  {
    var shuffled := Shuffled(pool, letterRolls);
    ShuffledIsPermutation(pool, letterRolls);
    assert [shuffled[0]] + shuffled[1..4] == shuffled[..4];
    ShuffledIsPermutation([shuffled[0]] + shuffled[1..4], optionRolls);
  }

  /** generateQuestion over the whole catalog. */
  function GenerateQuestion(letterRolls: seq<nat>, optionRolls: seq<nat>): (q: QuizQuestion)
    requires ValidRolls(letterRolls, |AllLetters|) && ValidRolls(optionRolls, OptionCount)
    ensures |q.options| == OptionCount && q.correctLetter in q.options
    ensures Distinct(LetterNames(q.options))
    ensures forall o :: o in q.options ==> o in AllLetters
    ensures WellFormed(q)
  {
    assert |AllLetters| == 48 && Distinct(LetterNames(AllLetters)) by {
      AllLettersDistinct();
    }
    QuestionFrom(AllLetters, letterRolls, optionRolls)
  }

  /** In a well-formed question exactly one option carries the spoken letter's name: comparing
      names, as the quiz does, accepts the right option and only it. */
  lemma OneCorrectOption(q: QuizQuestion)
    requires WellFormed(q)
    ensures forall o :: o in q.options ==> (o.letter == q.correctLetter.letter <==> o == q.correctLetter)
  {
    NamesDetermineEntries(q.options);
  }

  class IdentificationQuiz {
    var currentQuestion: QuizQuestion
    var selectedAnswer: Option<string>
    var isCorrect: Option<bool>
    var score: int
    var totalQuestions: int
    var streak: int
    var showCelebration: bool

    /** The quiz invariant: the question is well formed; the streak never exceeds the score and
        the score never exceeds the number of answers; an answer and its verdict are recorded
        together, a right verdict continues a streak and a wrong one ends it. */
    ghost predicate Valid()
      reads this
    {
      && WellFormed(currentQuestion)
      && 0 <= streak <= score <= totalQuestions
      && (selectedAnswer.Some? <==> isCorrect.Some?)
      && (isCorrect == Some(true) ==> streak >= 1 && selectedAnswer == Some(currentQuestion.correctLetter.letter))
      && (isCorrect == Some(false) ==> streak == 0)
    }

    /** The quiz opens on a fresh question with nothing answered. */
    constructor (letterRolls: seq<nat>, optionRolls: seq<nat>)
      requires ValidRolls(letterRolls, |AllLetters|) && ValidRolls(optionRolls, OptionCount)
      ensures Valid()
      ensures currentQuestion == GenerateQuestion(letterRolls, optionRolls)
      ensures selectedAnswer == None && isCorrect == None
      ensures score == 0 && totalQuestions == 0 && streak == 0 && !showCelebration
    {
      currentQuestion := GenerateQuestion(letterRolls, optionRolls);
      selectedAnswer, isCorrect := None, None;
      score, totalQuestions, streak := 0, 0, 0;
      showCelebration := false;
    }

    /** handleAnswer: ignored while an answer is showing; otherwise the answer is recorded and
        counted, a letter with the spoken letter's name scores a point and extends the streak
        (a streak reaching a multiple of five starts the celebration), any other ends the streak. */
    method HandleAnswer(letter: MarathiLetter)
      requires Valid()
      modifies this
      ensures Valid()
      ensures currentQuestion == old(currentQuestion)
      ensures old(selectedAnswer.Some? && selectedAnswer.value != "") ==> unchanged(this)
      ensures old(selectedAnswer.None? || selectedAnswer.value == "") ==>
        var right := letter.letter == old(currentQuestion.correctLetter.letter);
        && selectedAnswer == Some(letter.letter)
        && isCorrect == Some(right)
        && totalQuestions == old(totalQuestions) + 1
        && score == old(score) + (if right then 1 else 0)
        && streak == (if right then old(streak) + 1 else 0)
        && showCelebration == (old(showCelebration) || (right && (old(streak) + 1) % StreakGoal == 0))
      ensures old(selectedAnswer.None? || selectedAnswer.value == "") && letter in currentQuestion.options ==>
        (isCorrect == Some(true) <==> letter == currentQuestion.correctLetter)
    {
      if selectedAnswer.Some? && selectedAnswer.value != "" {
        return;
      }
      assert forall o :: o in currentQuestion.options ==>
          (o.letter == currentQuestion.correctLetter.letter <==> o == currentQuestion.correctLetter) by {
        OneCorrectOption(currentQuestion);
      }
      selectedAnswer := Some(letter.letter);
      totalQuestions := totalQuestions + 1;
      if letter.letter == currentQuestion.correctLetter.letter {
        isCorrect := Some(true);
        score := score + 1;
        streak := streak + 1;
        if streak % StreakGoal == 0 {
          showCelebration := true;
        }
      } else {
        isCorrect := Some(false);
        streak := 0;
      }
    }

    /** nextQuestion: a fresh question, with the answer and verdict cleared. */
    method NextQuestion(letterRolls: seq<nat>, optionRolls: seq<nat>)
      requires Valid()
      requires ValidRolls(letterRolls, |AllLetters|) && ValidRolls(optionRolls, OptionCount)
      modifies this
      ensures Valid()
      ensures currentQuestion == GenerateQuestion(letterRolls, optionRolls)
      ensures selectedAnswer == None && isCorrect == None
      ensures score == old(score) && totalQuestions == old(totalQuestions) && streak == old(streak)
      ensures showCelebration == old(showCelebration)
    {
      currentQuestion := GenerateQuestion(letterRolls, optionRolls);
      selectedAnswer := None;
      isCorrect := None;
    }

    /** resetQuiz: a fresh question and all counters back to zero; the celebration flag is left
        as it is. */
    method ResetQuiz(letterRolls: seq<nat>, optionRolls: seq<nat>)
      requires Valid()
      requires ValidRolls(letterRolls, |AllLetters|) && ValidRolls(optionRolls, OptionCount)
      modifies this
      ensures Valid()
      ensures currentQuestion == GenerateQuestion(letterRolls, optionRolls)
      ensures selectedAnswer == None && isCorrect == None
      ensures score == 0 && totalQuestions == 0 && streak == 0
      ensures showCelebration == old(showCelebration)
    {
      currentQuestion := GenerateQuestion(letterRolls, optionRolls);
      selectedAnswer := None;
      isCorrect := None;
      score := 0;
      totalQuestions := 0;
      streak := 0;
    }
  }
}
