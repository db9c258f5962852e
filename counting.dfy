/** The counting game: a card shows some pictures, four numerals are offered, and the child picks
    how many pictures there are. A game is five such questions. */
module Counting {
  import opened Wrappers
  import opened Seqs
  import opened Shuffle

  /** A number from one to nine with its numeral, its word and as many pictures as it counts. */
  datatype CountItem = CountItem(number: string, word: string, value: int, emojis: seq<string>)

  datatype Question = Question(correct: CountItem, options: seq<CountItem>)

  /** The numbers the game asks about (marathiNumbers). */
  const Numbers: seq<CountItem> := [
    CountItem("१", "एक", 1, ["🍎"]),
    CountItem("२", "दोन", 2, ["🍊", "🍊"]),
    CountItem("३", "तीन", 3, ["🌟", "🌟", "🌟"]),
    CountItem("४", "चार", 4, ["🎈", "🎈", "🎈", "🎈"]),
    CountItem("५", "पाच", 5, ["🦋", "🦋", "🦋", "🦋", "🦋"]),
    CountItem("६", "सहा", 6, ["🌸", "🌸", "🌸", "🌸", "🌸", "🌸"]),
    CountItem("७", "सात", 7, ["⭐", "⭐", "⭐", "⭐", "⭐", "⭐", "⭐"]),
    CountItem("८", "आठ", 8, ["🍀", "🍀", "🍀", "🍀", "🍀", "🍀", "🍀", "🍀"]),
    CountItem("९", "नऊ", 9, ["🌺", "🌺", "🌺", "🌺", "🌺", "🌺", "🌺", "🌺", "🌺"])
  ]

  /** Questions in one game. */
  const QuestionCount := 5
  /** Numbers offered per question. */
  const OptionCount := 4
  /** Points for a right answer. */
  const Points := 10

  /** The n-th card shows n + 1 copies of one picture. */
  lemma NumbersTable()
    ensures |Numbers| == 9
    ensures forall i :: 0 <= i < |Numbers| ==> Numbers[i].value == i + 1
    ensures forall i :: 0 <= i < |Numbers| ==> |Numbers[i].emojis| == Numbers[i].value
    ensures forall i, k :: 0 <= i < |Numbers| && 0 <= k < |Numbers[i].emojis| ==>
      Numbers[i].emojis[k] == Numbers[i].emojis[0]
  {
  }

  /** No two items share a value. */
  ghost predicate DistinctValues(s: seq<CountItem>) {
    forall i, j :: 0 <= i < j < |s| ==> s[i].value != s[j].value
  }

  /** The table's values are one to nine, so they are distinct. */
  lemma NumbersDistinct()
    ensures |Numbers| == 9 && DistinctValues(Numbers)
  {
    NumbersTable();
  }

  /** Items with distinct values are distinct. */
  lemma DistinctValuesDistinct(s: seq<CountItem>)
    requires DistinctValues(s)
    ensures Distinct(s)
  {
  }

  /** The wrong options of a question: the first three items of the pool whose value differs
      from the answer's (not shuffled). */
  function WrongFrom(pool: seq<CountItem>, num: CountItem): (r: seq<CountItem>)
    requires DistinctValues(pool) && OptionCount <= |pool|
    ensures |r| == OptionCount - 1
    ensures forall w :: w in r ==> w in pool && w.value != num.value
    ensures DistinctValues(r)
  {
    var keep := OtherValue(num);
    FilterDropsAtMostOne(pool, keep);
    var others := Filter(pool, keep);
    FilterMembers(pool, keep);
    assert DistinctValues(others) by {
      OrderedFilterValues(pool, keep);
    }
    var r := others[..OptionCount - 1];
    assert forall w :: w in r ==> w in others;
    r
  }

  /** The test the wrong options pass: a value other than the answer's. */
  function OtherValue(num: CountItem): CountItem -> bool {
    (n: CountItem) => n.value != num.value
  }

  /** The wrong options exactly: the first three entries of the pool when none of them has the
      answer's value, and otherwise the first four entries without the one that has it, in pool
      order. */
  lemma WrongFromExact(pool: seq<CountItem>, num: CountItem)
    requires DistinctValues(pool) && OptionCount <= |pool|
    ensures (forall i :: 0 <= i < OptionCount - 1 ==> pool[i].value != num.value) ==>
      WrongFrom(pool, num) == pool[..OptionCount - 1]
    ensures forall k :: 0 <= k < OptionCount - 1 && pool[k].value == num.value ==>
      WrongFrom(pool, num) == pool[..k] + pool[k + 1..OptionCount]
  {
    var keep := OtherValue(num);
    if forall i :: 0 <= i < OptionCount - 1 ==> pool[i].value != num.value {
      FilterKeepsAllPrefix(pool, keep, OptionCount - 1);
    }
    forall k | 0 <= k < OptionCount - 1 && pool[k].value == num.value
      ensures WrongFrom(pool, num) == pool[..k] + pool[k + 1..OptionCount]
    {
      assert forall i :: 0 <= i < OptionCount && i != k ==> keep(pool[i]) by {
        forall i | 0 <= i < OptionCount && i != k ensures pool[i].value != num.value {
          assert pool[i].value != pool[k].value;
        }
      }
      FilterSkipsOne(pool, keep, k);
      var rest := pool[k + 1..];
      FilterKeepsAllPrefix(rest, keep, OptionCount - 1 - k);
      assert rest[..OptionCount - 1 - k] == pool[k + 1..OptionCount];
      var others := Filter(pool, keep);
      assert others == pool[..k] + Filter(rest, keep);
      assert others[..OptionCount - 1] == pool[..k] + Filter(rest, keep)[..OptionCount - 1 - k];
    }
  }

  /** When the entries before position k are kept and the one at k is not, filtering keeps that
      prefix and goes on after k. */
  lemma {:induction false} FilterSkipsOne(s: seq<CountItem>, keep: CountItem -> bool, k: nat)
    requires k < |s| && !keep(s[k]) && forall i :: 0 <= i < k ==> keep(s[i])
    ensures Filter(s, keep) == s[..k] + Filter(s[k + 1..], keep)
  {
    if k > 0 {
      FilterSkipsOne(s[1..], keep, k - 1);
      assert s[1..][..k - 1] == s[1..k];
      assert s[1..][k..] == s[k + 1..];
      assert s[..k] == [s[0]] + s[1..k];
    }
  }

  /** Filtering keeps distinct values distinct. */
  lemma {:induction false} OrderedFilterValues(s: seq<CountItem>, keep: CountItem -> bool)
    requires DistinctValues(s)
    ensures DistinctValues(Filter(s, keep))
  {
    if s != [] {
      OrderedFilterValues(s[1..], keep);
      FilterMembers(s[1..], keep);
      var rest := Filter(s[1..], keep);
      forall k | 0 <= k < |rest| ensures rest[k].value != s[0].value {
        assert rest[k] in s[1..];
      }
    }
  }

  /** One question: the answer with its wrong options, shuffled together. */
  function MakeQuestion(pool: seq<CountItem>, num: CountItem, rolls: seq<nat>): (q: Question)
    requires DistinctValues(pool) && OptionCount <= |pool| && ValidRolls(rolls, OptionCount)
    ensures q.correct == num && |q.options| == OptionCount && num in q.options
    ensures DistinctValues(q.options)
    ensures forall o :: o in q.options ==> o == num || (o in pool && o.value != num.value)
  {
    var wrong := WrongFrom(pool, num);
    ShuffledOptionsHold(num, wrong, rolls);
    var options := ShuffledOptions(num, wrong, rolls);
    assert DistinctValues(options) by {
      DistinctValuesDistinct(wrong);
      assert Distinct(options);
      forall i, j | 0 <= i < j < |options| ensures options[i].value != options[j].value {
        assert options[i] in options && options[j] in options;
      }
    }
    Question(num, options)
  }

  /** The answers of a game: the first five numbers of a shuffle of the pool. */
  function Picks(pool: seq<CountItem>, tableRolls: seq<nat>): (r: seq<CountItem>)
    requires DistinctValues(pool) && QuestionCount <= |pool| && ValidRolls(tableRolls, |pool|)
    ensures |r| == QuestionCount && DistinctValues(r)
    ensures forall x :: x in r ==> x in pool
  {
    DistinctValuesDistinct(pool);
    var r := ShuffledPrefix(pool, tableRolls, QuestionCount);
    ShuffledPrefixSelects(pool, tableRolls, QuestionCount);
    assert DistinctValues(r) by {
      forall i, j | 0 <= i < j < |r| ensures r[i].value != r[j].value {
        assert r[i] in pool && r[j] in pool;
      }
    }
    r
  }

  /** generateQuestions over a pool: five questions with different answers, each offering its
      answer and three other numbers. */
  function QuestionsFrom(pool: seq<CountItem>, tableRolls: seq<nat>, optionRolls: seq<seq<nat>>): (qs: seq<Question>)
    requires DistinctValues(pool) && QuestionCount <= |pool| && ValidRolls(tableRolls, |pool|)
    requires |optionRolls| >= QuestionCount && forall k :: 0 <= k < |optionRolls| ==> ValidRolls(optionRolls[k], OptionCount)
    ensures |qs| == QuestionCount
    ensures forall k :: 0 <= k < |qs| ==> WellFormed(qs[k]) && qs[k].correct in pool
    ensures forall i, j :: 0 <= i < j < |qs| ==> qs[i].correct.value != qs[j].correct.value
  {
    var picks := Picks(pool, tableRolls);
    seq(QuestionCount, k requires 0 <= k < QuestionCount => MakeQuestion(pool, picks[k], optionRolls[k]))
  }

  /** A question as the game shows it: four options with different values, one of them the
      answer. */
  ghost predicate WellFormed(q: Question) {
    |q.options| == OptionCount && q.correct in q.options && DistinctValues(q.options)
  }

  /** generateQuestions over the table. */
  function GenerateQuestions(tableRolls: seq<nat>, optionRolls: seq<seq<nat>>): (qs: seq<Question>)
    requires ValidRolls(tableRolls, |Numbers|)
    requires |optionRolls| >= QuestionCount && forall k :: 0 <= k < |optionRolls| ==> ValidRolls(optionRolls[k], OptionCount)
    ensures QuestionSet(qs)
  {
    NumbersDistinct();
    QuestionsFrom(Numbers, tableRolls, optionRolls)
  }

  /** A round of questions: five well-formed questions whose answers all differ. */
  ghost predicate QuestionSet(qs: seq<Question>) {
    && |qs| == QuestionCount
    && (forall k :: 0 <= k < |qs| ==> WellFormed(qs[k]))
    && (forall i, j :: 0 <= i < j < |qs| ==> qs[i].correct.value != qs[j].correct.value)
  }

  /** The wrong options drawn from a pool that opens with the values one to four, in that order:
      for an answer from one to three, the first four entries without the answer's; for any
      other answer, the first three entries. */
  lemma WrongFromCounted(pool: seq<CountItem>, num: CountItem)
    requires DistinctValues(pool) && OptionCount <= |pool|
    requires forall i :: 0 <= i < OptionCount ==> pool[i].value == i + 1
    ensures forall w :: w in WrongFrom(pool, num) ==> 1 <= w.value <= 4 && w.value != num.value
    ensures !(1 <= num.value <= 3) ==> WrongFrom(pool, num) == pool[..3]
    ensures !(1 <= num.value <= 3) ==> forall i :: 0 <= i < 3 ==> WrongFrom(pool, num)[i].value == i + 1
    ensures 1 <= num.value <= 3 ==> WrongFrom(pool, num) == pool[..num.value - 1] + pool[num.value..4]
  {
    WrongFromExact(pool, num);
    var wrong := WrongFrom(pool, num);
    if 1 <= num.value <= 3 {
      assert pool[num.value - 1].value == num.value;
      assert wrong == pool[..num.value - 1] + pool[num.value..4];
    } else {
      assert wrong == pool[..3];
    }
    forall w | w in wrong ensures 1 <= w.value <= 4 {
      assert w in pool[..4];
    }
  }

  /** The wrong options are not random: they are the smallest numbers other than the answer,
      in table order. For an answer from one to three they are the numbers one to four without
      it; for any other answer they are always one, two and three. */
  lemma WrongOptionsSmall(num: CountItem)
    ensures |Numbers| == 9 && DistinctValues(Numbers)
    ensures forall w :: w in WrongFrom(Numbers, num) ==> 1 <= w.value <= 4 && w.value != num.value
    ensures !(1 <= num.value <= 3) ==> WrongFrom(Numbers, num) == Numbers[..3]
    ensures !(1 <= num.value <= 3) ==> forall i :: 0 <= i < 3 ==> WrongFrom(Numbers, num)[i].value == i + 1
    ensures 1 <= num.value <= 3 ==> WrongFrom(Numbers, num) == Numbers[..num.value - 1] + Numbers[num.value..4]
  {
    NumbersDistinct();
    NumbersTable();
    WrongFromCounted(Numbers, num);
  }

  /** When the first m elements are all kept, they open the filtered sequence. */
  lemma {:induction false} FilterKeepsAllPrefix(s: seq<CountItem>, keep: CountItem -> bool, m: nat)
    requires m <= |s| && forall i :: 0 <= i < m ==> keep(s[i])
    ensures |Filter(s, keep)| >= m && Filter(s, keep)[..m] == s[..m]
  {
    if m > 0 {
      FilterKeepsAllPrefix(s[1..], keep, m - 1);
    }
  }

  class CountingGame {
    var questions: seq<Question>
    var currentQuestion: int
    var score: int
    var selectedAnswer: Option<int>
    var isCorrect: Option<bool>
    var showCelebration: bool

    /** The game invariant: five well-formed questions with different answers, the current index
        inside them; an answer and its verdict are recorded together and the verdict matches the
        answer; the score is ten per right answer so far, counting the current question only once
        it is answered; the celebration shows only on the last question once answered. */
    ghost predicate Valid()
      reads this
    {
      && QuestionSet(questions)
      && 0 <= currentQuestion < |questions|
      && (selectedAnswer.Some? <==> isCorrect.Some?)
      && (isCorrect.Some? ==> (isCorrect.value <==> selectedAnswer.value == questions[currentQuestion].correct.value))
      && 0 <= score && score % Points == 0
      && score <= Points * (currentQuestion + if selectedAnswer.Some? then 1 else 0)
      && (showCelebration ==> currentQuestion == |questions| - 1 && selectedAnswer.Some?)
    }

    /** The first render: a fresh set of questions, the first one showing. */
    constructor (tableRolls: seq<nat>, optionRolls: seq<seq<nat>>)
      requires ValidRolls(tableRolls, |Numbers|)
      requires |optionRolls| >= QuestionCount && forall k :: 0 <= k < |optionRolls| ==> ValidRolls(optionRolls[k], OptionCount)
      ensures Valid()
      ensures questions == GenerateQuestions(tableRolls, optionRolls)
      ensures currentQuestion == 0 && score == 0 && selectedAnswer == None && isCorrect == None
      ensures !showCelebration
    {
      questions := GenerateQuestions(tableRolls, optionRolls);
      currentQuestion, score := 0, 0;
      selectedAnswer, isCorrect := None, None;
      showCelebration := false;
    }

    /** handleAnswer: ignored once an answer is recorded; otherwise the answer and its verdict are
        recorded and a right answer scores ten. */
    method HandleAnswer(value: int)
      requires Valid()
      modifies this
      ensures Valid()
      ensures old(selectedAnswer.Some?) ==> unchanged(this)
      ensures old(selectedAnswer.None?) ==>
        var right := value == old(questions[currentQuestion].correct.value);
        && selectedAnswer == Some(value) && isCorrect == Some(right)
        && score == old(score) + (if right then Points else 0)
        && questions == old(questions) && currentQuestion == old(currentQuestion)
        && showCelebration == old(showCelebration)
    {
      if selectedAnswer.Some? {
        return;
      }
      selectedAnswer := Some(value);
      var right := value == questions[currentQuestion].correct.value;
      isCorrect := Some(right);
      if right {
        score := score + Points;
      }
    }

    /** The step the answer schedules: move to the next question with the answer cleared, or
        after the last question start the celebration. */
    method Advance()
      requires Valid() && selectedAnswer.Some?
      modifies this
      ensures Valid()
      ensures questions == old(questions) && score == old(score)
      ensures old(currentQuestion) < |questions| - 1 ==>
        && currentQuestion == old(currentQuestion) + 1
        && selectedAnswer == None && isCorrect == None
        && showCelebration == old(showCelebration)
      ensures old(currentQuestion) == |questions| - 1 ==>
        && currentQuestion == old(currentQuestion)
        && selectedAnswer == old(selectedAnswer) && isCorrect == old(isCorrect)
        && showCelebration
    {
      if currentQuestion < |questions| - 1 {
        currentQuestion := currentQuestion + 1;
        selectedAnswer := None;
        isCorrect := None;
      } else {
        showCelebration := true;
      }
    }

    /** resetGame: new questions and everything back to the start. */
    method ResetGame(tableRolls: seq<nat>, optionRolls: seq<seq<nat>>)
      requires Valid()
      requires ValidRolls(tableRolls, |Numbers|)
      requires |optionRolls| >= QuestionCount && forall k :: 0 <= k < |optionRolls| ==> ValidRolls(optionRolls[k], OptionCount)
      modifies this
      ensures Valid()
      ensures questions == GenerateQuestions(tableRolls, optionRolls)
      ensures currentQuestion == 0 && score == 0 && selectedAnswer == None && isCorrect == None
      ensures !showCelebration
    {
      questions := GenerateQuestions(tableRolls, optionRolls);
      currentQuestion := 0;
      score := 0;
      selectedAnswer := None;
      isCorrect := None;
      showCelebration := false;
    }

    /** A finished game scores at most ten per question. */
    lemma ScoreBounded()
      requires Valid()
      ensures 0 <= score <= Points * QuestionCount
    {
    }
  }
}
