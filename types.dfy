/** The records of the exam application: the exam configuration, the pages of
    the single-page application, the answer map and the question-bank record,
    plus the stored form of a local-storage item. */
module Types {

  datatype Option<+T> = None | Some(value: T)

  /** One of the four answer options of a question. */
  datatype Letter = A | B | C | D

  /** The one-character string the application uses for an option. */
  function LetterText(l: Letter): (r: string)
    ensures |r| == 1 && 'A' <= r[0] <= 'D'
  {
    match l
    case A => "A"
    case B => "B"
    case C => "C"
    case D => "D"
  }

  /** Exam parameters. `time` is in minutes; the marks and the two penalty
      coefficients are exact reals (the source uses binary floating point). */
  datatype ExamConfig = ExamConfig(
    title: string,
    time: int,
    totalMarks: real,
    totalQuestions: int,
    isActive: bool,
    cutMarkPerWrongAnswer: real,
    fixedPenalty: real,
    correctAnswers: string)

  /** The screens; the constructor names are the source's own page strings. */
  datatype Page = studentHome | exam | review | result | adminLogin | adminDashboard

  /** Question index to chosen option text. */
  type StudentAnswers = map<int, string>

  datatype Options = Options(a: string, b: string, c: string, d: string)

  function OptionText(o: Options, l: Letter): string
  {
    match l
    case A => o.a
    case B => o.b
    case C => o.c
    case D => o.d
  }

  datatype Question = Question(id: string, prompt: string, options: Options, correctAnswer: Letter)

  /** What a local-storage key holds, after JSON decoding: an empty string
      (falsy, so treated like a missing item), a text that does not parse, or
      a decoded value. */
  datatype Stored<T> = EmptyText | Unparsable | Parsed(value: T)

  /** `localStorage.getItem(key)` is truthy: present and not the empty string. */
  predicate HasItem<T>(storage: map<string, Stored<T>>, key: string)
  {
    key in storage && storage[key] != EmptyText
  }
}
