/** The picture match game: eight letters in turn, each shown with four letters to choose from;
    a right choice scores ten and the game advances after every answer. */
module Picture {
  import opened Wrappers
  import opened Seqs
  import opened Shuffle
  import opened Letters

  /** How many letters one game asks about. */
  const QuestionCount := 8

  /** How many letters a question offers. */
  const OptionCount := 4

  /** Points for a right answer. */
  const Points := 10

  datatype PictureQuestion = PictureQuestion(letter: MarathiLetter, options: seq<MarathiLetter>)

  /** A question as the game shows it: four letters with pairwise different names, one of them
      the letter asked about. */
  ghost predicate WellFormed(q: PictureQuestion) {
    && |q.options| == OptionCount
    && q.letter in q.options
    && Distinct(LetterNames(q.options))
  }

  /** A round: eight well-formed questions, each about a differently named letter. */
  ghost predicate QuestionSet(qs: seq<PictureQuestion>) {
    && |qs| == QuestionCount
    && (forall k :: 0 <= k < |qs| ==> WellFormed(qs[k]))
    && (forall i, j :: 0 <= i < j < |qs| ==> qs[i].letter.letter != qs[j].letter.letter)
  }

  /** The wrong options for a letter: the pool without the letters of that name, shuffled, and the
      first three of them. */
  function WrongFor(pool: seq<MarathiLetter>, target: MarathiLetter, rolls: seq<nat>): (r: seq<MarathiLetter>)
    requires Distinct(LetterNames(pool)) && OptionCount <= |pool| && ValidRolls(rolls, |pool|)
    ensures |r| == OptionCount - 1 && Distinct(r)
    ensures forall w :: w in r ==> w in pool && w.letter != target.letter
  {
    var keep := (l: MarathiLetter) => l.letter != target.letter;
    var others := Filter(pool, keep);
    assert |others| >= |pool| - 1 by {
      var names := LetterNames(pool);
      forall i, j | 0 <= i < j < |pool| ensures keep(pool[i]) || keep(pool[j]) {
        assert names[i] != names[j];
      }
      FilterDropsAtMostOne(pool, keep);
    }
    assert Distinct(others) by {
      NamesDetermineEntries(pool);
      assert Distinct(pool);
      FilterDistinct(pool, keep);
    }
    FilterMembers(pool, keep);
    ShuffledPrefixSelects(others, rolls, OptionCount - 1);
    ShuffledPrefix(others, rolls, OptionCount - 1)
  }

  /** The question for one letter: the letter and its three wrong options, shuffled together. */
  function QuestionFor(pool: seq<MarathiLetter>, target: MarathiLetter, wrongRolls: seq<nat>, optionRolls: seq<nat>): (q: PictureQuestion)
    requires Distinct(LetterNames(pool)) && OptionCount <= |pool| && target in pool
    requires ValidRolls(wrongRolls, |pool|) && ValidRolls(optionRolls, OptionCount)
    ensures q.letter == target && WellFormed(q)
    ensures forall o :: o in q.options ==> o in pool
  {
    var wrong := WrongFor(pool, target, wrongRolls);
    var options := ShuffledOptions(target, wrong, optionRolls);
    ShuffledOptionsHold(target, wrong, optionRolls);
    assert Distinct(LetterNames(options)) by {
      assert target !in wrong;
      SelectionKeepsNamesDistinct(pool, options);
    }
    PictureQuestion(target, options)
  }

  /** generateQuestions over a pool: shuffle it, keep the first eight letters and build a
      question for each. */
  function QuestionsFrom(pool: seq<MarathiLetter>, tableRolls: seq<nat>, wrongRolls: seq<seq<nat>>, optionRolls: seq<seq<nat>>): (qs: seq<PictureQuestion>)
    requires Distinct(LetterNames(pool)) && QuestionCount <= |pool| && ValidRolls(tableRolls, |pool|)
    requires |wrongRolls| >= QuestionCount && forall k :: 0 <= k < |wrongRolls| ==> ValidRolls(wrongRolls[k], |pool|)
    requires |optionRolls| >= QuestionCount && forall k :: 0 <= k < |optionRolls| ==> ValidRolls(optionRolls[k], OptionCount)
    ensures QuestionSet(qs)
    ensures forall k :: 0 <= k < |qs| ==> qs[k].letter in pool
  {
    var picks := ShuffledPrefix(pool, tableRolls, QuestionCount);
    PicksHold(pool, tableRolls, QuestionCount);
    var qs := seq(QuestionCount, k requires 0 <= k < QuestionCount => QuestionFor(pool, picks[k], wrongRolls[k], optionRolls[k]));
    assert forall k :: 0 <= k < |qs| ==> qs[k].letter == picks[k];
    qs
  }

  /** The first k letters of a shuffled pool come from the pool and carry different names. */
  lemma PicksHold(pool: seq<MarathiLetter>, tableRolls: seq<nat>, k: nat)
    requires Distinct(LetterNames(pool)) && k <= |pool| && ValidRolls(tableRolls, |pool|)
    ensures forall x :: x in ShuffledPrefix(pool, tableRolls, k) ==> x in pool
    ensures Distinct(LetterNames(ShuffledPrefix(pool, tableRolls, k)))
  {
    var picks := ShuffledPrefix(pool, tableRolls, k);
    ShuffledPrefixSelects(pool, tableRolls, k);
    assert Distinct(pool) by {
      NamesDetermineEntries(pool);
    }
    SelectionKeepsNamesDistinct(pool, picks);
  }

  /** generateQuestions proper: the pool is every vowel followed by every consonant, which is the
      whole catalog. */
  function GenerateQuestions(tableRolls: seq<nat>, wrongRolls: seq<seq<nat>>, optionRolls: seq<seq<nat>>): (qs: seq<PictureQuestion>)
    requires ValidRolls(tableRolls, |Swar + Vyanjan|)
    requires |wrongRolls| >= QuestionCount && forall k :: 0 <= k < |wrongRolls| ==> ValidRolls(wrongRolls[k], |Swar + Vyanjan|)
    requires |optionRolls| >= QuestionCount && forall k :: 0 <= k < |optionRolls| ==> ValidRolls(optionRolls[k], OptionCount)
    ensures QuestionSet(qs)
  {
    assert |AllLetters| == 48 && Distinct(LetterNames(AllLetters)) by {
      AllLettersDistinct();
    }
    QuestionsFrom(AllLetters, tableRolls, wrongRolls, optionRolls)
  }

  class PictureMatch {
    var questions: seq<PictureQuestion>
    var currentQuestion: int
    var score: int
    var selectedAnswer: Option<string>
    var isCorrect: Option<bool>
    var showCelebration: bool

    /** The game invariant: eight well-formed questions about differently named letters, the
        current index inside them; the chosen name and its verdict are recorded together and the
        verdict says whether the name is the asked letter's; the score is ten per right answer
        so far; the celebration shows only on the last question once answered. */
    ghost predicate Valid()
      reads this
    {
      && QuestionSet(questions)
      && 0 <= currentQuestion < |questions|
      && (selectedAnswer.Some? <==> isCorrect.Some?)
      && (isCorrect.Some? ==> (isCorrect.value <==> selectedAnswer.value == questions[currentQuestion].letter.letter))
      && 0 <= score && score % Points == 0
      && score <= Points * (currentQuestion + if selectedAnswer.Some? then 1 else 0)
      && (showCelebration ==> currentQuestion == |questions| - 1 && selectedAnswer.Some?)
    }

    /** The first render: a fresh round, the first question showing. */
    constructor (tableRolls: seq<nat>, wrongRolls: seq<seq<nat>>, optionRolls: seq<seq<nat>>)
      requires ValidRolls(tableRolls, |Swar + Vyanjan|)
      requires |wrongRolls| >= QuestionCount && forall k :: 0 <= k < |wrongRolls| ==> ValidRolls(wrongRolls[k], |Swar + Vyanjan|)
      requires |optionRolls| >= QuestionCount && forall k :: 0 <= k < |optionRolls| ==> ValidRolls(optionRolls[k], OptionCount)
      ensures Valid()
      ensures questions == GenerateQuestions(tableRolls, wrongRolls, optionRolls)
      ensures currentQuestion == 0 && score == 0 && selectedAnswer == None && isCorrect == None
      ensures !showCelebration
    {
      questions := GenerateQuestions(tableRolls, wrongRolls, optionRolls);
      currentQuestion, score := 0, 0;
      selectedAnswer, isCorrect := None, None;
      showCelebration := false;
    }

    /** handleAnswer: ignored once an answer is recorded; otherwise the chosen letter's name and
        the verdict are recorded and a right answer scores ten. Since the options carry different
        names, comparing names accepts exactly the asked letter among the options. */
    method HandleAnswer(option: MarathiLetter)
      requires Valid()
      modifies this
      ensures Valid()
      ensures old(selectedAnswer.Some?) ==> unchanged(this)
      ensures old(selectedAnswer.None?) ==>
        var right := option.letter == old(questions[currentQuestion].letter.letter);
        && selectedAnswer == Some(option.letter) && isCorrect == Some(right)
        && score == old(score) + (if right then Points else 0)
        && questions == old(questions) && currentQuestion == old(currentQuestion)
        && showCelebration == old(showCelebration)
      ensures old(selectedAnswer.None?) && option in questions[currentQuestion].options ==>
        (isCorrect == Some(true) <==> option == questions[currentQuestion].letter)
    {
      if selectedAnswer.Some? {
        return;
      }
      var q := questions[currentQuestion];
      assert option in q.options ==> (option.letter == q.letter.letter <==> option == q.letter) by {
        assert WellFormed(q);
        NamesDetermineEntries(q.options);
      }
      selectedAnswer := Some(option.letter);
      var right := option.letter == q.letter.letter;
      isCorrect := Some(right);
      if right {
        score := score + Points;
      }
    }

    /** The step the answer schedules: move to the next question with the answer cleared, or
        after the last question start the celebration. */
    method Advance()
      requires Valid() && selectedAnswer.Some?
      modifies this
      ensures Valid()
      ensures questions == old(questions) && score == old(score)
      ensures old(currentQuestion) < |questions| - 1 ==>
        && currentQuestion == old(currentQuestion) + 1
        && selectedAnswer == None && isCorrect == None
        && showCelebration == old(showCelebration)
      ensures old(currentQuestion) == |questions| - 1 ==>
        && currentQuestion == old(currentQuestion)
        && selectedAnswer == old(selectedAnswer) && isCorrect == old(isCorrect)
        && showCelebration
    {
      if currentQuestion < |questions| - 1 {
        currentQuestion := currentQuestion + 1;
        selectedAnswer := None;
        isCorrect := None;
      } else {
        showCelebration := true;
      }
    }

    /** resetGame: a new round and everything back to the start. */
    method ResetGame(tableRolls: seq<nat>, wrongRolls: seq<seq<nat>>, optionRolls: seq<seq<nat>>)
      requires Valid()
      requires ValidRolls(tableRolls, |Swar + Vyanjan|)
      requires |wrongRolls| >= QuestionCount && forall k :: 0 <= k < |wrongRolls| ==> ValidRolls(wrongRolls[k], |Swar + Vyanjan|)
      requires |optionRolls| >= QuestionCount && forall k :: 0 <= k < |optionRolls| ==> ValidRolls(optionRolls[k], OptionCount)
      modifies this
      ensures Valid()
      ensures questions == GenerateQuestions(tableRolls, wrongRolls, optionRolls)
      ensures currentQuestion == 0 && score == 0 && selectedAnswer == None && isCorrect == None
      ensures !showCelebration
    {
      questions := GenerateQuestions(tableRolls, wrongRolls, optionRolls);
      currentQuestion := 0;
      score := 0;
      selectedAnswer := None;
      isCorrect := None;
      showCelebration := false;
    }

    /** A game scores at most ten per question. */
    lemma ScoreBounded()
      requires Valid()
      ensures 0 <= score <= Points * QuestionCount
    {
    }
  }
}
