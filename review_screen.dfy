/** The pure part of the review screen: which rows offer an Edit button and
    what each row shows as the student's answer. The handlers themselves only
    set the shared page and question index and are methods of
    `App.ExamSession`. */
module ReviewScreen {
  import opened Types

  /** `Array.from({ length: totalQuestions })` indexed by position: one row,
      and one Edit button, per question index. A negative length gives no rows. */
  function EditTargets(totalQuestions: int): (r: seq<int>)
    ensures forall k :: 0 <= k < |r| ==> r[k] == k
    ensures |r| == if totalQuestions > 0 then totalQuestions else 0
  {
    if totalQuestions <= 0 then [] else seq(totalQuestions, k => k)
  }

  /** `studentAnswers[index] || '---'`. */
  function AnswerLabel(answers: StudentAnswers, i: int): (r: string)
    ensures r != ""
    ensures r == "---" || (i in answers && r == answers[i])
  {
    if i in answers && answers[i] != "" then answers[i] else "---"
  }

  /** With the one-letter answers the exam screen records, the label shows the
      stored answer exactly when one is recorded, and '---' exactly when none is. */
  lemma AnswerLabelShowsRecorded(answers: StudentAnswers, i: int)
    requires forall k :: k in answers ==> |answers[k]| == 1
    ensures AnswerLabel(answers, i) == "---" <==> i !in answers
    ensures i in answers ==> AnswerLabel(answers, i) == answers[i]
  {
    if i in answers {
      assert |AnswerLabel(answers, i)| == 1;
    }
  }
}
