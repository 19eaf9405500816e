/** The question editor form: reset or load from the question being edited,
    the field handlers, and the submit guard with its id-preserving merge. */
module QuestionForm {
  import opened Types
  import QuestionBank

  datatype FormData = FormData(prompt: string, options: Options, correctAnswer: Letter)

  /** `defaultFormState`. */
  function DefaultForm(): FormData
  {
    FormData("", Options("", "", "", ""), A)
  }

  /** The effect on `question`: copy the edited question's fields, or reset. */
  function FormFor(question: Option<Question>): (f: FormData)
    ensures question.None? ==> f == DefaultForm()
    ensures question.Some? ==> f.prompt == question.value.prompt && f.options == question.value.options
                               && f.correctAnswer == question.value.correctAnswer
  {
    match question
    case None => DefaultForm()
    case Some(q) => FormData(q.prompt, q.options, q.correctAnswer)
  }

  /** `{ ...prev.options, [name]: value }`. */
  function WithOption(o: Options, l: Letter, v: string): (r: Options)
    ensures forall m :: OptionText(r, m) == if m == l then v else OptionText(o, m)
  {
    match l
    case A => o.(a := v)
    case B => o.(b := v)
    case C => o.(c := v)
    case D => o.(d := v)
  }

  /** The submit guard passes: a prompt and all four options are non-empty. */
  predicate Complete(f: FormData)
  {
    f.prompt != "" && forall l :: OptionText(f.options, l) != ""
  }

  /** What `onSave` receives. */
  datatype Submission = Update(question: Question) | Add(data: QuestionBank.QuestionData)

  /** `handleSubmit`: nothing when the guard fails; otherwise the edited
      question with the form's fields spread over it, or the bare form data. */
  function SubmitOutcome(question: Option<Question>, f: FormData): (r: Option<Submission>)
    ensures r.None? <==> !Complete(f)
    ensures r.Some? ==> (r.value.Update? <==> question.Some?)
    ensures r.Some? && question.Some? ==>
      r.value.question.id == question.value.id && FormFor(Some(r.value.question)) == f
    ensures r.Some? && question.None? ==>
      r.value.data == QuestionBank.QuestionData(f.prompt, f.options, f.correctAnswer)
  {
    if f.prompt == "" || OptionText(f.options, A) == "" || OptionText(f.options, B) == ""
       || OptionText(f.options, C) == "" || OptionText(f.options, D) == "" then
      None
    else if question.Some? then
      Some(Update(question.value.(prompt := f.prompt, options := f.options, correctAnswer := f.correctAnswer)))
    else
      Some(Add(QuestionBank.QuestionData(f.prompt, f.options, f.correctAnswer)))
  }

  /** Loading a complete question into the form and submitting it unchanged
      hands back exactly that question. */
  lemma UnchangedEditResubmits(q: Question)
    requires q.prompt != "" && forall l :: OptionText(q.options, l) != ""
    ensures SubmitOutcome(Some(q), FormFor(Some(q))) == Some(Update(q))
  {
  }

  /** The form's state; `formData` is what the setter replaces. */
  class Editor {
    var formData: FormData

    /** Mounting: the default state, then the effect on `question`. */
    constructor (question: Option<Question>)
      ensures formData == FormFor(question)
    {
      formData := FormFor(question);
    }

    /** The effect when the edited question changes. */
    method Load(question: Option<Question>)
      modifies this
      ensures formData == FormFor(question)
    {
      formData := FormFor(question);
    }

    /** `handleTextChange` on the prompt field. */
    method ChangePrompt(v: string)
      modifies this
      ensures formData == old(formData).(prompt := v)
    {
      formData := formData.(prompt := v);
    }

    /** `handleOptionChange`: only the named option changes. */
    method ChangeOption(l: Letter, v: string)
      modifies this
      ensures formData.prompt == old(formData).prompt
      ensures formData.correctAnswer == old(formData).correctAnswer
      ensures forall m :: OptionText(formData.options, m) == if m == l then v else OptionText(old(formData).options, m)
    {
      formData := formData.(options := WithOption(formData.options, l, v));
    }

    /** `handleSelectChange`: only the correct answer changes. */
    method SelectCorrect(l: Letter)
      modifies this
      ensures formData == old(formData).(correctAnswer := l)
    {
      formData := formData.(correctAnswer := l);
    }

    method Submit(question: Option<Question>) returns (r: Option<Submission>)
      ensures r == SubmitOutcome(question, formData)
    {
      r := SubmitOutcome(question, formData);
    }
  }
}
