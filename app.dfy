/** The exam session: the state lifted into the top-level component (page,
    admin flag, answers, question index, timer) together with the state of the
    screens that edit it (the exam screen's selection, the login error, the
    dashboard's form and message), and every handler that changes it.

    `Step` is the specification of each handler on a snapshot of that state;
    `ExamSession` holds the same state in fields and its methods update them
    one setter at a time, each proved equal to `Step`. Timers are discrete
    events: `Tick` is one run of the timer effect, `Advance` the delayed
    callback of the answer handler. */
module App {
  import opened Types
  import ExamConfigStore
  import AdminLogin
  import AdminDashboard
  import ResultScreen

  /** Everything the handlers read or change. `selected` is the exam
      screen's `selectedOption`, `loginError` the login screen's `error`,
      `formData` and `saveMessage` the dashboard's, `config` the stored
      exam configuration. */
  datatype AppState = AppState(
    page: Page,
    isAdmin: bool,
    answers: StudentAnswers,
    currentQuestion: int,
    timeLeft: int,
    selected: Option<Letter>,
    loginError: string,
    formData: ExamConfig,
    saveMessage: string,
    config: ExamConfig)

  /** The administrator identifier and password the login screen compares with. */
  datatype Credentials = Credentials(id: string, password: string)

  /** The user's actions and the two timer callbacks. */
  datatype Event =
    | StartExam
    | Tick
    | Answer(option: Letter)
    | Advance
    | OpenReview
    | EditAnswer(index: int)
    | SubmitExam
    | BackToLastQuestion
    | GoHome
    | OpenAdminLogin
    | Login(id: string, password: string)
    | LeaveLogin
    | ChangeField(edit: AdminDashboard.FieldEdit)
    | Toggle(checked: bool)
    | Save
    | Logout

  /** The first render: the student home page with a fresh session. */
  function Initial(config: ExamConfig): (s: AppState)
    ensures s.page == studentHome && !s.isAdmin && s.selected.None?
    ensures s.answers == map[] && s.currentQuestion == 0 && s.timeLeft == config.time * 60
    ensures s.config == config && Consistent(s)
  {
    AppState(studentHome, false, map[], 0, config.time * 60, None, "", config, "", config)
  }

  /** The page-switch: the dashboard page shows the login form unless the
      admin flag is set. */
  function Rendered(s: AppState): (p: Page)
    ensures p == adminDashboard <==> s.page == adminDashboard && s.isAdmin
    ensures p == adminLogin <==> s.page == adminLogin || (s.page == adminDashboard && !s.isAdmin)
    ensures s.page != adminDashboard ==> p == s.page
  {
    if s.page == adminDashboard && !s.isAdmin then adminLogin else s.page
  }

  /** The relations between the fields that every handler keeps. */
  predicate Consistent(s: AppState)
  {
    var tq := s.config.totalQuestions;
    (s.isAdmin <==> s.page == adminDashboard)
    && (s.page != exam ==> s.selected.None?)
    && (s.page in {studentHome, adminLogin, adminDashboard} ==> s.answers == map[] && s.currentQuestion == 0)
    && (s.page == studentHome ==> s.timeLeft == s.config.time * 60)
    && 0 <= s.currentQuestion && (s.currentQuestion < tq || s.currentQuestion == 0)
    && (forall k :: k in s.answers ==> 0 <= k && (k < tq || k == 0) && |s.answers[k]| == 1)
    && (s.selected.Some? ==> s.currentQuestion in s.answers
                             && s.answers[s.currentQuestion] == LetterText(s.selected.value))
  }

  /** Whether the control that raises the event is on screen: the start
      button only while the exam is active, the answer buttons on the exam
      page, Edit for each listed question, the login form wherever it is
      rendered, the dashboard controls only to the administrator. Timer
      events are always possible. */
  predicate Enabled(s: AppState, e: Event)
  {
    match e
    case StartExam => s.page == studentHome && s.config.isActive
    case Tick => true
    case Answer(_) => s.page == exam
    case Advance => s.page == exam && s.selected.Some?
    case OpenReview => s.page == exam
    case EditAnswer(i) => s.page == review && 0 <= i < s.config.totalQuestions
    case SubmitExam => s.page == review
    case BackToLastQuestion => s.page == review
    case GoHome => s.page == result
    case OpenAdminLogin => s.page == studentHome
    case Login(_, _) => Rendered(s) == adminLogin
    case LeaveLogin => Rendered(s) == adminLogin
    case ChangeField(_) => Rendered(s) == adminDashboard
    case Toggle(_) => Rendered(s) == adminDashboard
    case Save => Rendered(s) == adminDashboard
    case Logout => Rendered(s) == adminDashboard
  }

  /** The timer effect's branch for the home page: a fresh timer, no answers,
      the first question. */
  function Reset(s: AppState): AppState
  {
    s.(timeLeft := s.config.time * 60, answers := map[], currentQuestion := 0)
  }

  /** Going back to the home page, where the effect resets the session. */
  function Home(s: AppState): AppState
  {
    Reset(s.(page := studentHome, selected := None))
  }

  /** What each event does. A page change unmounts the exam screen, so its
      selection is gone whenever the page changes; a change of question
      clears it as well. */
  function Step(creds: Credentials, s: AppState, e: Event): (r: AppState)
    ensures !e.Save? ==> r.config == s.config
    ensures r.isAdmin != s.isAdmin ==> e.Login? || e.Logout?
    ensures r.answers != s.answers ==> e.StartExam? || e.Tick? || e.Answer? || e.GoHome? || e.LeaveLogin? || e.Logout?
    ensures r.formData != s.formData ==> e.Login? || e.ChangeField? || e.Toggle?
  {
    match e
    case StartExam =>
      s.(timeLeft := s.config.time * 60, answers := map[], currentQuestion := 0, page := exam, selected := None)
    case Tick =>
      if s.page == studentHome then Reset(s)
      else if s.page != exam && s.page != review then s
      else if s.timeLeft <= 0 then s.(page := result, selected := None)
      else s.(timeLeft := s.timeLeft - 1)
    case Answer(option) =>
      if s.selected.Some? then s
      else s.(selected := Some(option), answers := s.answers[s.currentQuestion := LetterText(option)])
    case Advance =>
      if s.currentQuestion < s.config.totalQuestions - 1 then
        s.(currentQuestion := s.currentQuestion + 1, selected := None)
      else
        s.(page := review, selected := None)
    case OpenReview => s.(page := review, selected := None)
    case EditAnswer(i) => s.(currentQuestion := i, page := exam, selected := None)
    case SubmitExam => s.(page := result, selected := None)
    case BackToLastQuestion => s.(page := exam, selected := None)
    case GoHome => Home(s)
    case OpenAdminLogin => s.(page := adminLogin, selected := None, loginError := "")
    case Login(id, password) =>
      if AdminLogin.CredentialsMatch(id, password, creds.id, creds.password) then
        s.(isAdmin := true, page := adminDashboard, selected := None, loginError := "",
           formData := s.config, saveMessage := "")
      else
        s.(loginError := AdminLogin.InvalidCredentials)
    case LeaveLogin => Home(s)
    case ChangeField(edit) => s.(formData := AdminDashboard.ApplyEdit(s.formData, edit))
    case Toggle(checked) => s.(formData := s.formData.(isActive := checked))
    case Save =>
      var outcome := AdminDashboard.CheckSave(s.formData);
      s.(saveMessage := AdminDashboard.SaveMessage(outcome),
         config := if outcome.Accepted? then s.formData else s.config)
    case Logout => Home(s.(isAdmin := false))
  }

  /** Every enabled event keeps the state consistent. */
  lemma StepPreservesConsistent(creds: Credentials, s: AppState, e: Event)
    requires Consistent(s) && Enabled(s, e)
    ensures Consistent(Step(creds, s, e))
  {
  }

  /** A sequence of events from a state, or None when one of them is not on
      screen at its turn. */
  function Run(creds: Credentials, s: AppState, es: seq<Event>): Option<AppState>
    decreases |es|
  {
    if es == [] then Some(s)
    else if !Enabled(s, es[0]) then None
    else Run(creds, Step(creds, s, es[0]), es[1..])
  }

  lemma {:induction false} RunPreservesConsistent(creds: Credentials, s: AppState, es: seq<Event>)
    requires Consistent(s)
    ensures Run(creds, s, es).Some? ==> Consistent(Run(creds, s, es).value)
    decreases |es|
  {
    if es != [] && Enabled(s, es[0]) {
      StepPreservesConsistent(creds, s, es[0]);
      RunPreservesConsistent(creds, Step(creds, s, es[0]), es[1..]);
    }
  }

  /** Every state the application can reach from its first render is consistent. */
  lemma ReachableIsConsistent(creds: Credentials, config: ExamConfig, es: seq<Event>)
    ensures Run(creds, Initial(config), es).Some? ==> Consistent(Run(creds, Initial(config), es).value)
  {
    RunPreservesConsistent(creds, Initial(config), es);
  }

  /** In a consistent state the page switch shows the page itself: the
      dashboard is never reached without the admin flag. */
  lemma RenderedIsPage(s: AppState)
    requires Consistent(s)
    ensures Rendered(s) == s.page
  {
  }

  /** Starting the exam gives the same fresh session whatever came before,
      so starting twice is starting once. */
  lemma StartExamFresh(creds: Credentials, s: AppState)
    ensures var r := Step(creds, s, StartExam);
      r.page == exam && r.answers == map[] && r.currentQuestion == 0
      && r.timeLeft == s.config.time * 60 && r.selected.None?
    ensures Step(creds, Step(creds, s, StartExam), StartExam) == Step(creds, s, StartExam)
  {
  }

  /** On the home page the timer effect only resets; on result and admin
      pages it does nothing. */
  lemma TickOffExam(creds: Credentials, s: AppState)
    requires s.page != exam && s.page != review
    ensures s.page == studentHome ==> Step(creds, s, Tick) == Reset(s)
    ensures s.page != studentHome ==> Step(creds, s, Tick) == s
    ensures Consistent(s) ==> Step(creds, s, Tick) == s
  {
  }

  /** On the exam or review page a tick takes exactly one second off while
      time is left, and ends the exam once it is not, however many questions
      are answered. */
  lemma TickOnExam(creds: Credentials, s: AppState)
    requires s.page == exam || s.page == review
    ensures s.timeLeft > 0 ==> Step(creds, s, Tick) == s.(timeLeft := s.timeLeft - 1)
    ensures s.timeLeft <= 0 ==> Step(creds, s, Tick).page == result
    ensures Step(creds, s, Tick).answers == s.answers
  {
  }

  /** The timer never runs below zero once it starts at or above zero. */
  lemma TickKeepsTimeNonNegative(creds: Credentials, s: AppState)
    requires s.timeLeft >= 0 && s.config.time >= 0
    ensures Step(creds, s, Tick).timeLeft >= 0
  {
  }

  /** Only the first answer to a question counts until the question changes,
      and it records that question alone. */
  lemma AnswerOnce(creds: Credentials, s: AppState, option: Letter)
    ensures s.selected.Some? ==> Step(creds, s, Answer(option)) == s
    ensures s.selected.None? ==>
      var r := Step(creds, s, Answer(option));
      r.answers == s.answers[s.currentQuestion := LetterText(option)]
      && r.page == s.page && r.currentQuestion == s.currentQuestion
      && r.selected == Some(option)
  {
  }

  /** After the feedback delay the index moves on by one, or, at the last
      question, the review page opens; either way the index stays in range. */
  lemma AdvanceStaysInRange(creds: Credentials, s: AppState)
    requires 0 <= s.currentQuestion < s.config.totalQuestions
    ensures var r := Step(creds, s, Advance);
      0 <= r.currentQuestion < s.config.totalQuestions
      && (r.currentQuestion == s.currentQuestion + 1 <==> s.currentQuestion < s.config.totalQuestions - 1)
      && (s.currentQuestion == s.config.totalQuestions - 1 ==> r.page == review)
      && (s.currentQuestion < s.config.totalQuestions - 1 ==> r.page == s.page)
      && r.answers == s.answers
  {
  }

  /** Editing a question from the review page and answering it again
      overwrites that question's answer and no other. */
  lemma EditThenAnswerOverwrites(creds: Credentials, s: AppState, i: int, option: Letter)
    requires Consistent(s) && Enabled(s, EditAnswer(i))
    ensures var r := Step(creds, Step(creds, s, EditAnswer(i)), Answer(option));
      r.answers == s.answers[i := LetterText(option)] && r.page == exam && r.currentQuestion == i
  {
  }

  /** The review screen's buttons change only the page (and, for Edit, the
      index); answers are untouched. */
  lemma ReviewKeepsAnswers(creds: Credentials, s: AppState, i: int)
    ensures Step(creds, s, OpenReview).answers == s.answers
    ensures Step(creds, s, OpenReview).currentQuestion == s.currentQuestion
    ensures Step(creds, s, EditAnswer(i)).answers == s.answers
    ensures Step(creds, s, SubmitExam).answers == s.answers
    ensures Step(creds, s, SubmitExam).currentQuestion == s.currentQuestion
    ensures Step(creds, s, BackToLastQuestion).answers == s.answers
    ensures Step(creds, s, BackToLastQuestion).currentQuestion == s.currentQuestion
  {
  }

  /** Login succeeds exactly on matching credentials, opening the dashboard
      with a fresh copy of the configuration; a failure keeps page and flag
      and shows the one fixed message, whichever field was wrong. */
  lemma LoginOutcome(creds: Credentials, s: AppState, id: string, password: string)
    requires !s.isAdmin
    ensures var r := Step(creds, s, Login(id, password));
      r.isAdmin <==> id == creds.id && password == creds.password
    ensures id == creds.id && password == creds.password ==>
      var r := Step(creds, s, Login(id, password));
      r.page == adminDashboard && r.loginError == "" && r.formData == s.config
    ensures !(id == creds.id && password == creds.password) ==>
      var r := Step(creds, s, Login(id, password));
      r.page == s.page && !r.isAdmin && r.loginError == AdminLogin.InvalidCredentials
  {
  }

  /** Saving with a mismatched key keeps the configuration and reports both
      counts; saving with a matching key replaces the configuration by the
      form and reports success. */
  lemma SaveOutcome(creds: Credentials, s: AppState)
    ensures var r := Step(creds, s, Save);
      |s.formData.correctAnswers| != s.formData.totalQuestions ==>
        r.config == s.config && AdminDashboard.IsErrorMessage(r.saveMessage)
    ensures var r := Step(creds, s, Save);
      |s.formData.correctAnswers| == s.formData.totalQuestions ==>
        r.config == s.formData && r.saveMessage == AdminDashboard.SaveSuccess
  {
  }

  /** Field edits and the toggle change only the form. */
  lemma FormEditsTouchOnlyForm(creds: Credentials, s: AppState, edit: AdminDashboard.FieldEdit, checked: bool)
    ensures Step(creds, s, ChangeField(edit)) == s.(formData := Step(creds, s, ChangeField(edit)).formData)
    ensures Step(creds, s, Toggle(checked)) == s.(formData := s.formData.(isActive := checked))
  {
  }

  /** Logging out always ends on the home page without the admin flag, with
      a fresh session under the current configuration. */
  lemma LogoutLeavesAdmin(creds: Credentials, s: AppState)
    ensures var r := Step(creds, s, Logout);
      r.page == studentHome && !r.isAdmin && r.answers == map[] && r.currentQuestion == 0
      && r.timeLeft == s.config.time * 60 && r.config == s.config
  {
  }

  /** On the result page of a reachable state with at least one question,
      correct, wrong and unanswered add up to the number of questions. */
  lemma ResultAccountsForEveryQuestion(s: AppState)
    requires Consistent(s) && s.config.totalQuestions >= 1
    ensures var r := ResultScreen.Score(s.config, s.answers);
      r.correct + r.wrong + r.notAnswered == s.config.totalQuestions
  {
    ResultScreen.AccountedWhenInRange(s.config, s.answers);
  }

  /** The administrator can save an exam without questions (an empty key has
      the required length zero), a student can then answer the one question
      shown, and the result screen reports minus one unanswered question. */
  lemma EmptyExamReachesNegativeNotAnswered(creds: Credentials)
    ensures var cfg := ExamConfig("Empty", 10, 100.0, 0, true, 0.0, 0.0, "");
      AdminDashboard.CheckSave(cfg).Accepted?
      && Run(creds, Initial(cfg), [StartExam, Answer(A), Advance, SubmitExam]).Some?
      && var s := Run(creds, Initial(cfg), [StartExam, Answer(A), Advance, SubmitExam]).value;
         s.page == result && ResultScreen.Score(cfg, s.answers).notAnswered == -1
         && ResultScreen.ScoreByIndex(cfg, s.answers).notAnswered == 0
  {
    // After StartExam and Answer(A) the one answer sits at index 0; with
    // no questions, Advance opens the review page and Submit the results.
    var cfg := ExamConfig("Empty", 10, 100.0, 0, true, 0.0, 0.0, "");
    var s2 := Step(creds, Step(creds, Initial(cfg), StartExam), Answer(A));
    assert s2.answers == map[0 := "A"];
    assert Step(creds, s2, Advance).page == review;
  }

  /** The session as the application holds it: one field per piece of state,
      the configuration in the configuration hook. */
  class ExamSession {
    var page: Page
    var isAdmin: bool
    var answers: StudentAnswers
    var currentQuestion: int
    var timeLeft: int
    var selected: Option<Letter>
    var loginError: string
    var formData: ExamConfig
    var saveMessage: string
    const hook: ExamConfigStore.ConfigHook
    const creds: Credentials

    function State(): AppState
      reads this, hook
    {
      AppState(page, isAdmin, answers, currentQuestion, timeLeft, selected,
               loginError, formData, saveMessage, hook.config)
    }

    ghost predicate Valid()
      reads this, hook
    {
      Consistent(State())
    }

    /** Mounting: the configuration hook loads and initialises storage, and
        the session starts on the home page. */
    constructor (storage0: map<string, Stored<ExamConfigStore.SavedConfig>>, defaults: ExamConfig, creds: Credentials)
      ensures fresh(hook) && hook.defaults == defaults && this.creds == creds
      ensures hook.config == ExamConfigStore.LoadConfig(storage0, defaults)
      ensures hook.storage == ExamConfigStore.InitializedStorage(storage0, defaults)
      ensures State() == Initial(hook.config) && Valid()
    {
      var h := new ExamConfigStore.ConfigHook(storage0, defaults);
      hook := h;
      this.creds := creds;
      page := studentHome;
      isAdmin := false;
      answers := map[];
      currentQuestion := 0;
      timeLeft := h.config.time * 60;
      selected := None;
      loginError := "";
      formData := h.config;
      saveMessage := "";
      new;
      hook.InitializeStorage();
    }

    /** The shared reset: a fresh timer, no answers, the first question. */
    method ResetExam()
      modifies this
      ensures State() == Reset(old(State()))
    {
      timeLeft := hook.config.time * 60;
      answers := map[];
      currentQuestion := 0;
    }

    method GoToHome()
      modifies this
      ensures State() == Home(old(State()))
    {
      page := studentHome;
      selected := None;
      ResetExam();
    }

    method StartExam()
      requires Valid() && Enabled(State(), Event.StartExam)
      modifies this
      ensures Valid() && State() == Step(creds, old(State()), Event.StartExam)
    {
      StepPreservesConsistent(creds, State(), Event.StartExam);
      ResetExam();
      page := exam;
      selected := None;
    }

    method Tick()
      requires Valid()
      modifies this
      ensures Valid() && State() == Step(creds, old(State()), Event.Tick)
    {
      StepPreservesConsistent(creds, State(), Event.Tick);
      if page == studentHome {
        ResetExam();
        return;
      }
      if page != exam && page != review {
        return;
      }
      if timeLeft <= 0 {
        page := result;
        selected := None;
        return;
      }
      timeLeft := timeLeft - 1;
    }

    /** The synchronous part of the answer handler. */
    method Answer(option: Letter)
      requires Valid() && Enabled(State(), Event.Answer(option))
      modifies this
      ensures Valid() && State() == Step(creds, old(State()), Event.Answer(option))
    {
      StepPreservesConsistent(creds, State(), Event.Answer(option));
      if selected.Some? {
        return;
      }
      selected := Some(option);
      answers := answers[currentQuestion := LetterText(option)];
    }

    /** The answer handler's delayed callback. */
    method AdvanceAfterFeedback()
      requires Valid() && Enabled(State(), Event.Advance)
      modifies this
      ensures Valid() && State() == Step(creds, old(State()), Event.Advance)
    {
      StepPreservesConsistent(creds, State(), Event.Advance);
      if currentQuestion < hook.config.totalQuestions - 1 {
        currentQuestion := currentQuestion + 1;
      } else {
        page := review;
      }
      selected := None;
    }

    /** An answer followed by its callback, the delay taken as immediate; a
        second click during the delay schedules nothing. */
    method AnswerAndAdvance(option: Letter)
      requires Valid() && Enabled(State(), Event.Answer(option))
      modifies this
      ensures Valid()
      ensures old(selected).Some? ==> State() == old(State())
      ensures old(selected).None? ==>
        State() == Step(creds, Step(creds, old(State()), Event.Answer(option)), Event.Advance)
    {
      if selected.Some? {
        return;
      }
      Answer(option);
      AdvanceAfterFeedback();
    }

    method OpenReview()
      requires Valid() && Enabled(State(), Event.OpenReview)
      modifies this
      ensures Valid() && State() == Step(creds, old(State()), Event.OpenReview)
    {
      StepPreservesConsistent(creds, State(), Event.OpenReview);
      page := review;
      selected := None;
    }

    method EditAnswer(index: int)
      requires Valid() && Enabled(State(), Event.EditAnswer(index))
      modifies this
      ensures Valid() && State() == Step(creds, old(State()), Event.EditAnswer(index))
    {
      StepPreservesConsistent(creds, State(), Event.EditAnswer(index));
      currentQuestion := index;
      page := exam;
      selected := None;
    }

    method SubmitExam()
      requires Valid() && Enabled(State(), Event.SubmitExam)
      modifies this
      ensures Valid() && State() == Step(creds, old(State()), Event.SubmitExam)
    {
      StepPreservesConsistent(creds, State(), Event.SubmitExam);
      page := result;
    }

    method BackToLastQuestion()
      requires Valid() && Enabled(State(), Event.BackToLastQuestion)
      modifies this
      ensures Valid() && State() == Step(creds, old(State()), Event.BackToLastQuestion)
    {
      StepPreservesConsistent(creds, State(), Event.BackToLastQuestion);
      page := exam;
    }

    /** The result screen's home button. */
    method GoHome()
      requires Valid() && Enabled(State(), Event.GoHome)
      modifies this
      ensures Valid() && State() == Step(creds, old(State()), Event.GoHome)
    {
      StepPreservesConsistent(creds, State(), Event.GoHome);
      GoToHome();
    }

    method OpenAdminLogin()
      requires Valid() && Enabled(State(), Event.OpenAdminLogin)
      modifies this
      ensures Valid() && State() == Step(creds, old(State()), Event.OpenAdminLogin)
    {
      StepPreservesConsistent(creds, State(), Event.OpenAdminLogin);
      page := adminLogin;
      loginError := "";
    }

    method Login(id: string, password: string)
      requires Valid() && Enabled(State(), Event.Login(id, password))
      modifies this
      ensures Valid() && State() == Step(creds, old(State()), Event.Login(id, password))
    {
      StepPreservesConsistent(creds, State(), Event.Login(id, password));
      if id == creds.id && password == creds.password {
        isAdmin := true;
        page := adminDashboard;
        loginError := "";
        formData := hook.config;
        saveMessage := "";
      } else {
        loginError := AdminLogin.InvalidCredentials;
      }
    }

    /** The login screen's back button. */
    method LeaveLogin()
      requires Valid() && Enabled(State(), Event.LeaveLogin)
      modifies this
      ensures Valid() && State() == Step(creds, old(State()), Event.LeaveLogin)
    {
      StepPreservesConsistent(creds, State(), Event.LeaveLogin);
      GoToHome();
    }

    method ChangeField(edit: AdminDashboard.FieldEdit)
      requires Valid() && Enabled(State(), Event.ChangeField(edit))
      modifies this
      ensures Valid() && State() == Step(creds, old(State()), Event.ChangeField(edit))
    {
      StepPreservesConsistent(creds, State(), Event.ChangeField(edit));
      formData := AdminDashboard.ApplyEdit(formData, edit);
    }

    method Toggle(checked: bool)
      requires Valid() && Enabled(State(), Event.Toggle(checked))
      modifies this
      ensures Valid() && State() == Step(creds, old(State()), Event.Toggle(checked))
    {
      StepPreservesConsistent(creds, State(), Event.Toggle(checked));
      formData := formData.(isActive := checked);
    }

    /** The save button: a rejected form only sets the message; an accepted
        one is set and stored through the configuration hook. */
    method Save()
      requires Valid() && Enabled(State(), Event.Save)
      modifies this, hook
      ensures Valid() && State() == Step(creds, old(State()), Event.Save)
      ensures |formData.correctAnswers| == formData.totalQuestions ==>
        hook.storage == old(hook.storage)[ExamConfigStore.ConfigKey := Parsed(ExamConfigStore.AllFields(formData))]
        && ExamConfigStore.LoadConfig(hook.storage, hook.defaults) == formData
      ensures |formData.correctAnswers| != formData.totalQuestions ==> hook.storage == old(hook.storage)
    {
      StepPreservesConsistent(creds, State(), Event.Save);
      var outcome := AdminDashboard.CheckSave(formData);
      if outcome.Rejected? {
        saveMessage := outcome.message;
        return;
      }
      hook.SetAndStore(formData);
      saveMessage := AdminDashboard.SaveSuccess;
    }

    method Logout()
      requires Valid() && Enabled(State(), Event.Logout)
      modifies this
      ensures Valid() && State() == Step(creds, old(State()), Event.Logout)
    {
      StepPreservesConsistent(creds, State(), Event.Logout);
      isAdmin := false;
      GoToHome();
    }
  }
}
