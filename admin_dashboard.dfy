/** The pure parts of the admin dashboard: the correct-answers sanitiser, the
    single-field edits of the form, and the length check and messages of
    save. The form, its message and the save itself are state of
    `App.ExamSession`. */
module AdminDashboard {
  import opened Types
  import opened Text

  /** `toUpperCase` restricted to ASCII: a-z become A-Z, anything else is kept. */
  function UpperAscii(c: char): char
  {
    if 'a' <= c <= 'z' then (c as int - 32) as char else c
  }

  predicate IsOptionChar(c: char)
  {
    'A' <= c <= 'D'
  }

  predicate IsAnswerString(s: string)
  {
    forall i :: 0 <= i < |s| ==> IsOptionChar(s[i])
  }

  /** `value.toUpperCase().replace(/[^A-D]/g, '')`. */
  function SanitizeAnswers(s: string): (r: string)
    ensures IsAnswerString(r)
    ensures |r| <= |s|
  {
    if s == [] then []
    else
      var c := UpperAscii(s[0]);
      (if IsOptionChar(c) then [c] else []) + SanitizeAnswers(s[1..])
  }

  /** The sanitiser works character by character, so it keeps the relative
      order of what it retains. */
  lemma {:induction false} SanitizeConcat(s: string, t: string)
    ensures SanitizeAnswers(s + t) == SanitizeAnswers(s) + SanitizeAnswers(t)
  {
    if s == [] {
      assert s + t == t;
    } else {
      var c := UpperAscii(s[0]);
      var head := if IsOptionChar(c) then [c] else [];
      assert (s + t)[0] == s[0] && (s + t)[1..] == s[1..] + t;
      SanitizeConcat(s[1..], t);
      calc {
        SanitizeAnswers(s + t);
        head + SanitizeAnswers(s[1..] + t);
        head + (SanitizeAnswers(s[1..]) + SanitizeAnswers(t));
        (head + SanitizeAnswers(s[1..])) + SanitizeAnswers(t);
        SanitizeAnswers(s) + SanitizeAnswers(t);
      }
    }
  }

  /** On one character: a-d become A-D, A-D are kept, everything else is dropped. */
  lemma SanitizeChar(c: char)
    ensures SanitizeAnswers([c]) == if 'a' <= c <= 'd' then [(c as int - 32) as char]
                                    else if IsOptionChar(c) then [c]
                                    else []
  {
    assert SanitizeAnswers([c]) == (if IsOptionChar(UpperAscii(c)) then [UpperAscii(c)] else []) + SanitizeAnswers([]);
  }

  /** A string is left alone by the sanitiser exactly when it is made of A-D. */
  lemma {:induction false} SanitizeFixedPoints(s: string)
    ensures SanitizeAnswers(s) == s <==> IsAnswerString(s)
  {
    if s != [] {
      SanitizeFixedPoints(s[1..]);
      if IsAnswerString(s) {
        assert IsAnswerString(s[1..]);
      }
    }
  }

  /** Sanitising twice is sanitising once. */
  lemma SanitizeIdempotent(s: string)
    ensures SanitizeAnswers(SanitizeAnswers(s)) == SanitizeAnswers(s)
  {
    SanitizeFixedPoints(SanitizeAnswers(s));
  }

  /** One change event of the form: the field named and its new value
      (numbers already converted; `Number(value)` is not part of this model). */
  datatype FieldEdit =
    | Title(title: string)
    | Time(time: int)
    | TotalMarks(totalMarks: real)
    | TotalQuestions(totalQuestions: int)
    | CutMarkPerWrongAnswer(cutMark: real)
    | FixedPenalty(fixedPenalty: real)
    | CorrectAnswers(raw: string)

  /** `{ ...prev, [name]: value }`, with the correct-answers field sanitised. */
  function ApplyEdit(form: ExamConfig, e: FieldEdit): (r: ExamConfig)
    ensures r.title == (if e.Title? then e.title else form.title)
    ensures r.time == (if e.Time? then e.time else form.time)
    ensures r.totalMarks == (if e.TotalMarks? then e.totalMarks else form.totalMarks)
    ensures r.totalQuestions == (if e.TotalQuestions? then e.totalQuestions else form.totalQuestions)
    ensures r.cutMarkPerWrongAnswer == (if e.CutMarkPerWrongAnswer? then e.cutMark else form.cutMarkPerWrongAnswer)
    ensures r.fixedPenalty == (if e.FixedPenalty? then e.fixedPenalty else form.fixedPenalty)
    ensures r.correctAnswers == (if e.CorrectAnswers? then SanitizeAnswers(e.raw) else form.correctAnswers)
    ensures r.isActive == form.isActive
    ensures IsAnswerString(form.correctAnswers) ==> IsAnswerString(r.correctAnswers)
  {
    match e
    case Title(v) => form.(title := v)
    case Time(v) => form.(time := v)
    case TotalMarks(v) => form.(totalMarks := v)
    case TotalQuestions(v) => form.(totalQuestions := v)
    case CutMarkPerWrongAnswer(v) => form.(cutMarkPerWrongAnswer := v)
    case FixedPenalty(v) => form.(fixedPenalty := v)
    case CorrectAnswers(v) => form.(correctAnswers := SanitizeAnswers(v))
  }

  const SaveSuccess: string := "Configuration saved successfully!"

  function LengthMismatchMessage(count: int, total: int): string
  {
    "Error: Correct answers count (" + IntToString(count) + ") must match total questions ("
      + IntToString(total) + ")."
  }

  /** `saveMessage.startsWith('Error')`, which colours the message red. */
  predicate IsErrorMessage(m: string)
  {
    |m| >= 5 && m[..5] == "Error"
  }

  lemma MismatchMessageNamesCounts(count: int, total: int)
    ensures Contains(LengthMismatchMessage(count, total), IntToString(count))
    ensures Contains(LengthMismatchMessage(count, total), IntToString(total))
  {
    var p1, c, p2, t, p3 := "Error: Correct answers count (", IntToString(count),
      ") must match total questions (", IntToString(total), ").";
    var m := LengthMismatchMessage(count, total);
    assert m == p1 + c + (p2 + t + p3);
    ContainsPiece(p1, c, p2 + t + p3);
    assert m == (p1 + c + p2) + t + p3;
    ContainsPiece(p1 + c + p2, t, p3);
  }

  /** The first characters of a concatenation come from its left part. */
  lemma PrefixOfConcat(a: string, b: string, k: nat)
    requires k <= |a|
    ensures (a + b)[..k] == a[..k]
  {
  }

  /** The mismatch message is coloured as an error. */
  lemma MismatchIsError(count: int, total: int)
    ensures IsErrorMessage(LengthMismatchMessage(count, total))
  {
    var p1, c, p2, t, p3 := "Error: Correct answers count (", IntToString(count),
      ") must match total questions (", IntToString(total), ").";
    PrefixOfConcat(p1, c, 5);
    PrefixOfConcat(p1 + c, p2, 5);
    PrefixOfConcat(p1 + c + p2, t, 5);
    PrefixOfConcat(p1 + c + p2 + t, p3, 5);
  }

  /** The success message is not. */
  lemma SuccessIsNotError()
    ensures !IsErrorMessage(SaveSuccess)
  {
    assert SaveSuccess[0] == 'C';
  }

  datatype SaveOutcome = Rejected(message: string) | Accepted

  function SaveMessage(o: SaveOutcome): string
  {
    match o
    case Rejected(m) => m
    case Accepted => SaveSuccess
  }

  /** The validation of `handleSave`: the answer key must have exactly one
      letter per question; otherwise the message names both counts. */
  function CheckSave(form: ExamConfig): (r: SaveOutcome)
    ensures r.Accepted? <==> |form.correctAnswers| == form.totalQuestions
    ensures IsErrorMessage(SaveMessage(r)) <==> r.Rejected?
    ensures r.Rejected? ==> Contains(r.message, IntToString(|form.correctAnswers|))
                            && Contains(r.message, IntToString(form.totalQuestions))
  {
    var count := |form.correctAnswers|;
    SuccessIsNotError();
    if count != form.totalQuestions then
      MismatchIsError(count, form.totalQuestions);
      MismatchMessageNamesCounts(count, form.totalQuestions);
      Rejected(LengthMismatchMessage(count, form.totalQuestions))
    else
      Accepted
  }

  /** Five questions with a three-letter key: rejected, naming 3 and 5. */
  lemma ShortKeyRejected(form: ExamConfig)
    requires form.totalQuestions == 5 && form.correctAnswers == "ABC"
    ensures CheckSave(form).Rejected?
    ensures Contains(CheckSave(form).message, "3") && Contains(CheckSave(form).message, "5")
  {
    assert IntToString(3) == "3";
    assert IntToString(5) == "5";
  }
}
