/** The scoring engine of the result screen: the per-index counting loop,
    the cut-mark and final-score formula, the answered count taken from the
    size of the answer map, and the per-question correctness list. */
module ResultScreen {
  import opened Types

  /** How one question index is classified by the counting loop. */
  datatype Outcome = Correct | Wrong | Unanswered

  /** `studentAnswers[i]` is truthy: present and not the empty string. */
  predicate Answered(answers: StudentAnswers, i: int)
  {
    i in answers && answers[i] != ""
  }

  /** `correctAnswers[i]`: a one-character string, or undefined past the end. */
  function KeyAt(key: string, i: int): Option<string>
  {
    if 0 <= i < |key| then Some([key[i]]) else None
  }

  function OutcomeAt(key: string, answers: StudentAnswers, i: int): Outcome
  {
    if !Answered(answers, i) then Unanswered
    else if KeyAt(key, i) == Some(answers[i]) then Correct
    else Wrong
  }

  /** Number of indices in [0, n) whose outcome is `o`. */
  function CountOutcome(key: string, answers: StudentAnswers, n: int, o: Outcome): nat
    decreases n
  {
    if n <= 0 then 0
    else CountOutcome(key, answers, n - 1, o) + (if OutcomeAt(key, answers, n - 1) == o then 1 else 0)
  }

  /** The record the result screen shows (before two-decimal formatting). */
  datatype Results = Results(
    correct: nat,
    wrong: nat,
    cutMark: real,
    fixedPenalty: real,
    finalScore: real,
    notAnswered: int)

  function CutMark(cfg: ExamConfig, wrong: nat): real
  {
    wrong as real * cfg.cutMarkPerWrongAnswer
  }

  function FinalScore(cfg: ExamConfig, wrong: nat): real
  {
    cfg.totalMarks - (wrong as real + CutMark(cfg, wrong) + cfg.fixedPenalty)
  }

  /** The specification of the results computation. */
  function Score(cfg: ExamConfig, answers: StudentAnswers): (r: Results)
    ensures r.correct + r.wrong <= if cfg.totalQuestions > 0 then cfg.totalQuestions else 0
    ensures r.finalScore == cfg.totalMarks - cfg.fixedPenalty - r.wrong as real * (1.0 + cfg.cutMarkPerWrongAnswer)
  {
    CountsPartition(cfg.correctAnswers, answers, cfg.totalQuestions);
    var wrong := CountOutcome(cfg.correctAnswers, answers, cfg.totalQuestions, Wrong);
    Results(
      CountOutcome(cfg.correctAnswers, answers, cfg.totalQuestions, Correct),
      wrong,
      CutMark(cfg, wrong),
      cfg.fixedPenalty,
      FinalScore(cfg, wrong),
      cfg.totalQuestions - |answers|)
  }

  /** The counting loop of the results computation: one pass over the
      question indices. */
  method CountAnswers(key: string, answers: StudentAnswers, total: int) returns (correct: nat, wrong: nat)
    ensures correct == CountOutcome(key, answers, total, Correct)
    ensures wrong == CountOutcome(key, answers, total, Wrong)
  {
    correct, wrong := 0, 0;
    var i := 0;
    while i < total
      invariant 0 <= i && (i <= total || i == 0)
      invariant correct == CountOutcome(key, answers, i, Correct)
      invariant wrong == CountOutcome(key, answers, i, Wrong)
    {
      if i in answers && answers[i] != "" && KeyAt(key, i) == Some(answers[i]) {
        correct := correct + 1;
      } else if i in answers && answers[i] != "" {
        wrong := wrong + 1;
      }
      i := i + 1;
    }
  }

  /** The memoised results computation: the counting loop, then the cut mark
      and final score formula and the answered count. */
  method ComputeResults(cfg: ExamConfig, answers: StudentAnswers) returns (r: Results)
    ensures r == Score(cfg, answers)
  {
    var answeredCount := |answers|;
    var correct, wrong := CountAnswers(cfg.correctAnswers, answers, cfg.totalQuestions);
    var cutMark := wrong as real * cfg.cutMarkPerWrongAnswer;
    var finalScore := cfg.totalMarks - (wrong as real + cutMark + cfg.fixedPenalty);
    r := Results(correct, wrong, cutMark, cfg.fixedPenalty, finalScore, cfg.totalQuestions - answeredCount);
  }

  /** Every index below n is counted under exactly one outcome. */
  lemma {:induction false} CountsPartition(key: string, answers: StudentAnswers, n: int)
    ensures CountOutcome(key, answers, n, Correct) + CountOutcome(key, answers, n, Wrong)
            + CountOutcome(key, answers, n, Unanswered) == if n > 0 then n else 0
    decreases n
  {
    if n > 0 {
      CountsPartition(key, answers, n - 1);
    }
  }

  /** Adding index n - 1 to the range adds one index with outcome `o`
      exactly when that index has it. */
  lemma OutcomeSetStep(key: string, answers: StudentAnswers, n: int, o: Outcome)
    requires n > 0
    ensures |set i | 0 <= i < n && OutcomeAt(key, answers, i) == o|
            == |set i | 0 <= i < n - 1 && OutcomeAt(key, answers, i) == o|
               + (if OutcomeAt(key, answers, n - 1) == o then 1 else 0)
  {
    var below := set i | 0 <= i < n - 1 && OutcomeAt(key, answers, i) == o;
    var upTo := set i | 0 <= i < n && OutcomeAt(key, answers, i) == o;
    if OutcomeAt(key, answers, n - 1) == o {
      assert n - 1 !in below;
      assert upTo == below + {n - 1};
    } else {
      assert upTo == below;
    }
  }

  /** The recursive count is the size of the set of indices with that outcome. */
  lemma {:induction false} CountIsCardinality(key: string, answers: StudentAnswers, n: int, o: Outcome)
    ensures CountOutcome(key, answers, n, o) == |set i | 0 <= i < n && OutcomeAt(key, answers, i) == o|
    decreases n
  {
    if n <= 0 {
      assert (set i | 0 <= i < n && OutcomeAt(key, answers, i) == o) == {};
    } else {
      CountIsCardinality(key, answers, n - 1, o);
      OutcomeSetStep(key, answers, n, o);
    }
  }

  /** Answer maps that classify the indices below n alike give the same counts. */
  lemma {:induction false} CountsAgree(key: string, a: StudentAnswers, b: StudentAnswers, n: int, o: Outcome)
    requires forall i :: 0 <= i < n ==> OutcomeAt(key, a, i) == OutcomeAt(key, b, i)
    ensures CountOutcome(key, a, n, o) == CountOutcome(key, b, n, o)
    decreases n
  {
    if n > 0 {
      CountsAgree(key, a, b, n - 1, o);
    }
  }

  /** The entries of `answers` whose key is a question index below n. */
  function InRange(answers: StudentAnswers, n: int): (r: StudentAnswers)
    ensures r.Keys <= answers.Keys
    ensures forall k :: k in r ==> 0 <= k < n && r[k] == answers[k]
  {
    map k | k in answers && 0 <= k < n :: answers[k]
  }

  /** Keys outside [0, totalQuestions) never affect correct, wrong, the cut
      mark or the final score. */
  lemma ScoreIgnoresOutOfRangeKeys(cfg: ExamConfig, answers: StudentAnswers)
    ensures var full, kept := Score(cfg, answers), Score(cfg, InRange(answers, cfg.totalQuestions));
      full.correct == kept.correct && full.wrong == kept.wrong
      && full.cutMark == kept.cutMark && full.finalScore == kept.finalScore
  {
    var kept := InRange(answers, cfg.totalQuestions);
    forall i | 0 <= i < cfg.totalQuestions
      ensures OutcomeAt(cfg.correctAnswers, answers, i) == OutcomeAt(cfg.correctAnswers, kept, i)
    {
    }
    CountsAgree(cfg.correctAnswers, answers, kept, cfg.totalQuestions, Correct);
    CountsAgree(cfg.correctAnswers, answers, kept, cfg.totalQuestions, Wrong);
  }

  /** correct + wrong never exceeds the number of questions. */
  lemma CorrectPlusWrongBounded(cfg: ExamConfig, answers: StudentAnswers)
    ensures var r := Score(cfg, answers);
      r.correct + r.wrong <= if cfg.totalQuestions > 0 then cfg.totalQuestions else 0
  {
    CountsPartition(cfg.correctAnswers, answers, cfg.totalQuestions);
  }

  /** When every index below n has outcome o, o counts n and the others 0. */
  lemma {:induction false} UniformOutcome(key: string, answers: StudentAnswers, n: int, o: Outcome)
    requires forall i :: 0 <= i < n ==> OutcomeAt(key, answers, i) == o
    ensures forall p :: CountOutcome(key, answers, n, p) == if p == o && n > 0 then n else 0
    decreases n
  {
    if n > 0 {
      UniformOutcome(key, answers, n - 1, o);
    }
  }

  /** The empty answer map scores nothing right or wrong and only the fixed
      penalty is taken off. */
  lemma EmptyAnswersScore(cfg: ExamConfig)
    ensures Score(cfg, map[]) == Results(0, 0, 0.0, cfg.fixedPenalty,
                                         cfg.totalMarks - cfg.fixedPenalty, cfg.totalQuestions)
  {
    UniformOutcome(cfg.correctAnswers, map[], cfg.totalQuestions, Unanswered);
  }

  /** The answer map that picks the key's option at every index. */
  function KeyAnswers(key: string, n: int): (r: StudentAnswers)
    requires n <= |key|
    ensures forall i :: i in r <==> 0 <= i < n
  {
    map i | 0 <= i < n :: [key[i]]
  }

  /** The same range as a predicate: it gives the set comprehension below a
      term to trigger on, while the plain bounds give it its finiteness. */
  predicate IsIndexBelow(i: int, n: int)
  {
    0 <= i < n
  }

  /** The question indices 0 .. n-1. */
  function Indices(n: int): (r: set<int>)
    ensures forall i :: i in r <==> 0 <= i < n
  {
    set i | 0 <= i < n && IsIndexBelow(i, n)
  }

  lemma {:induction false} RangeCardinality(n: nat)
    ensures |Indices(n)| == n
  {
    if n > 0 {
      RangeCardinality(n - 1);
      assert Indices(n) == Indices(n - 1) + {n - 1};
    }
  }

  /** Answering every question with the key's option gives full marks less the
      fixed penalty, with nothing wrong and nothing unanswered. */
  lemma PerfectAnswersScore(cfg: ExamConfig)
    requires 0 <= cfg.totalQuestions <= |cfg.correctAnswers|
    ensures Score(cfg, KeyAnswers(cfg.correctAnswers, cfg.totalQuestions))
         == Results(cfg.totalQuestions, 0, 0.0, cfg.fixedPenalty,
                    cfg.totalMarks - cfg.fixedPenalty, 0)
  {
    var n := cfg.totalQuestions;
    var answers := KeyAnswers(cfg.correctAnswers, n);
    UniformOutcome(cfg.correctAnswers, answers, n, Correct);
    RangeCardinality(n);
    assert answers.Keys == Indices(n);
  }

  /** Each wrong answer costs one mark plus the cut-mark coefficient. */
  lemma WrongAnswerCost(cfg: ExamConfig, wrong: nat)
    ensures FinalScore(cfg, wrong + 1) == FinalScore(cfg, wrong) - (1.0 + cfg.cutMarkPerWrongAnswer)
  {
  }

  /** With a non-negative coefficient, more wrong answers never raise the score. */
  lemma {:induction false} FinalScoreAntitone(cfg: ExamConfig, fewer: nat, more: nat)
    requires cfg.cutMarkPerWrongAnswer >= 0.0
    requires fewer <= more
    ensures FinalScore(cfg, more) <= FinalScore(cfg, fewer)
    decreases more
  {
    if fewer < more {
      FinalScoreAntitone(cfg, fewer, more - 1);
      WrongAnswerCost(cfg, more - 1);
    }
  }

  /** When every key is a question index holding a non-empty answer, the three
      counts account for every question. */
  lemma AccountedWhenInRange(cfg: ExamConfig, answers: StudentAnswers)
    requires cfg.totalQuestions >= 0
    requires forall k :: k in answers ==> 0 <= k < cfg.totalQuestions && answers[k] != ""
    ensures var r := Score(cfg, answers);
      r.correct + r.wrong + r.notAnswered == cfg.totalQuestions
      && r.notAnswered == CountOutcome(cfg.correctAnswers, answers, cfg.totalQuestions, Unanswered)
  {
    var key, n := cfg.correctAnswers, cfg.totalQuestions;
    CountsPartition(key, answers, n);
    CountIsCardinality(key, answers, n, Unanswered);
    RangeCardinality(n);
    var range := Indices(n);
    var missing := set i | 0 <= i < n && OutcomeAt(key, answers, i) == Unanswered;
    assert range == missing + answers.Keys;
    assert missing * answers.Keys == {};
  }

  /** `studentAnswers[index] || 'N/A'`, the answer shown in the per-question list. */
  function ShownAnswer(answers: StudentAnswers, i: int): (r: string)
    ensures r != ""
    ensures r == "N/A" || (i in answers && r == answers[i])
  {
    if Answered(answers, i) then answers[i] else "N/A"
  }

  /** The per-question flag: the shown answer is strictly equal to the key's option. */
  predicate MarkedCorrect(key: string, answers: StudentAnswers, i: int)
    ensures MarkedCorrect(key, answers, i) ==> Answered(answers, i) && KeyAt(key, i) == Some(answers[i])
  {
    KeyAt(key, i) == Some(ShownAnswer(answers, i))
  }

  /** The per-question list marks exactly the questions the loop counts as
      correct, so the number of green rows is the `correct` total. */
  lemma MarkedCorrectMatchesCount(cfg: ExamConfig, answers: StudentAnswers)
    ensures forall i :: MarkedCorrect(cfg.correctAnswers, answers, i)
                        <==> OutcomeAt(cfg.correctAnswers, answers, i) == Correct
    ensures |set i | 0 <= i < cfg.totalQuestions && MarkedCorrect(cfg.correctAnswers, answers, i)|
            == Score(cfg, answers).correct
  {
    var key, n := cfg.correctAnswers, cfg.totalQuestions;
    forall i ensures MarkedCorrect(key, answers, i) <==> OutcomeAt(key, answers, i) == Correct {
      if !Answered(answers, i) && KeyAt(key, i).Some? {
        assert |KeyAt(key, i).value| == 1;
      }
    }
    CountIsCardinality(key, answers, n, Correct);
    assert (set i | 0 <= i < n && MarkedCorrect(key, answers, i))
        == (set i | 0 <= i < n && OutcomeAt(key, answers, i) == Correct);
  }

  /** The worked example: key "ABCD", one right, one wrong, one right, one
      missing; 100 marks, 0.5 per wrong answer, fixed penalty 2. */
  lemma FourQuestionExample()
    ensures Score(ExamConfig("Quiz", 10, 100.0, 4, true, 0.5, 2.0, "ABCD"),
                  map[0 := "A", 1 := "X", 2 := "C"])
         == Results(2, 1, 0.5, 2.0, 96.5, 1)
  {
    var cfg := ExamConfig("Quiz", 10, 100.0, 4, true, 0.5, 2.0, "ABCD");
    var answers := map[0 := "A", 1 := "X", 2 := "C"];
    assert OutcomeAt("ABCD", answers, 0) == Correct;
    assert OutcomeAt("ABCD", answers, 1) == Wrong;
    assert OutcomeAt("ABCD", answers, 2) == Correct;
    assert OutcomeAt("ABCD", answers, 3) == Unanswered;
    assert |answers| == 3;
  }

  /** As written, `notAnswered` is totalQuestions minus the size of the answer
      map. An exam saved with no questions (its empty key passes the length
      check) still shows one question; answering it stores index 0, and the
      result screen then reports -1 questions not answered. */
  lemma NoQuestionExamReportsNegativeNotAnswered()
    ensures Score(ExamConfig("Empty", 10, 100.0, 0, true, 0.0, 0.0, ""), map[0 := "A"]).notAnswered == -1
  {
  }

  /** The intended count of unanswered questions: indices in
      [0, totalQuestions) without a truthy answer. */
  function NotAnsweredByIndex(cfg: ExamConfig, answers: StudentAnswers): (r: nat)
    ensures r <= if cfg.totalQuestions > 0 then cfg.totalQuestions else 0
    ensures var s := Score(cfg, answers);
      s.correct + s.wrong + r == if cfg.totalQuestions > 0 then cfg.totalQuestions else 0
  {
    CountsPartition(cfg.correctAnswers, answers, cfg.totalQuestions);
    CountOutcome(cfg.correctAnswers, answers, cfg.totalQuestions, Unanswered)
  }

  /** The two counts agree whenever the answer keys are question indices with
      non-empty answers, and the per-index count never goes negative. */
  lemma NotAnsweredByIndexAgrees(cfg: ExamConfig, answers: StudentAnswers)
    requires cfg.totalQuestions >= 0
    requires forall k :: k in answers ==> 0 <= k < cfg.totalQuestions && answers[k] != ""
    ensures Score(cfg, answers).notAnswered == NotAnsweredByIndex(cfg, answers)
  {
    AccountedWhenInRange(cfg, answers);
  }

  /** The results with the intended unanswered count: the same counts, cut
      mark and final score, and an unanswered count that is never negative
      and completes correct and wrong to the number of questions. */
  function ScoreByIndex(cfg: ExamConfig, answers: StudentAnswers): (r: Results)
    ensures r.notAnswered >= 0
    ensures r.correct + r.wrong + r.notAnswered == if cfg.totalQuestions > 0 then cfg.totalQuestions else 0
    ensures r == Score(cfg, answers).(notAnswered := r.notAnswered)
  {
    Score(cfg, answers).(notAnswered := NotAnsweredByIndex(cfg, answers))
  }
}
