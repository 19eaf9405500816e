/** The question-bank hook: load with fallback, persist on every change,
    initialise-if-absent, and the three list operations append, map-by-id
    and filter-by-id. */
module QuestionBank {
  import opened Types
  import opened Text

  const BankKey: string := "questionBank"

  /** `Omit<Question, 'id'>`: what the form hands in for a new question. */
  datatype QuestionData = QuestionData(prompt: string, options: Options, correctAnswer: Letter)

  /** `q${new Date().getTime()}`; the clock reading is a parameter. */
  function GeneratedId(now: nat): (id: string)
    ensures |id| >= 2 && id[0] == 'q'
  {
    "q" + Decimal(now)
  }

  /** `{ id, ...questionData }`. */
  function WithId(id: string, data: QuestionData): (q: Question)
    ensures q.id == id
  {
    Question(id, data.prompt, data.options, data.correctAnswer)
  }

  /** The initial load: the stored list when there is one; the default bank
      when the item is missing, empty or does not parse. */
  function LoadBank(storage: map<string, Stored<seq<Question>>>, defaultBank: seq<Question>): (r: seq<Question>)
    ensures HasItem(storage, BankKey) && storage[BankKey].Parsed? ==> r == storage[BankKey].value
    ensures !(HasItem(storage, BankKey) && storage[BankKey].Parsed?) ==> r == defaultBank
  {
    if HasItem(storage, BankKey) && storage[BankKey].Parsed? then storage[BankKey].value else defaultBank
  }

  /** `prev.map(q => q.id === updated.id ? updated : q)`. */
  function Replaced(qs: seq<Question>, updated: Question): (r: seq<Question>)
    ensures |r| == |qs|
    ensures forall i :: 0 <= i < |qs| ==> r[i] == if qs[i].id == updated.id then updated else qs[i]
  {
    if qs == [] then []
    else [if qs[0].id == updated.id then updated else qs[0]] + Replaced(qs[1..], updated)
  }

  /** `prev.filter(q => q.id !== id)`. */
  function Removed(qs: seq<Question>, id: string): (r: seq<Question>)
    ensures forall x :: x in r ==> x in qs && x.id != id
    ensures forall x :: multiset(r)[x] == if x.id == id then 0 else multiset(qs)[x]
  {
    if qs == [] then []
    else
      assert qs == [qs[0]] + qs[1..];
      (if qs[0].id != id then [qs[0]] else []) + Removed(qs[1..], id)
  }

  /** One step of the filter: the first question is kept or dropped on its own. */
  lemma RemovedCons(q: Question, rest: seq<Question>, id: string)
    ensures Removed([q] + rest, id) == (if q.id != id then [q] else []) + Removed(rest, id)
  {
    assert ([q] + rest)[0] == q && ([q] + rest)[1..] == rest;
  }

  /** Filtering is element by element, so the kept questions stay in order. */
  lemma {:induction false} RemovedConcat(a: seq<Question>, b: seq<Question>, id: string)
    ensures Removed(a + b, id) == Removed(a, id) + Removed(b, id)
  {
    if a == [] {
      assert a + b == b;
    } else {
      var q, rest := a[0], a[1..];
      var head := if q.id != id then [q] else [];
      assert a == [q] + rest;
      assert a + b == [q] + (rest + b);
      calc {
        Removed(a + b, id);
        { RemovedCons(q, rest + b, id); }
        head + Removed(rest + b, id);
        { RemovedConcat(rest, b, id); }
        head + (Removed(rest, id) + Removed(b, id));
        (head + Removed(rest, id)) + Removed(b, id);
        { RemovedCons(q, rest, id); }
        Removed(a, id) + Removed(b, id);
      }
    }
  }

  /** Updating with an id that no question has changes nothing. */
  lemma ReplacedAbsentId(qs: seq<Question>, updated: Question)
    requires forall i :: 0 <= i < |qs| ==> qs[i].id != updated.id
    ensures Replaced(qs, updated) == qs
  {
  }

  /** Deleting an id that no question has changes nothing. */
  lemma {:induction false} RemovedAbsentId(qs: seq<Question>, id: string)
    requires forall i :: 0 <= i < |qs| ==> qs[i].id != id
    ensures Removed(qs, id) == qs
  {
    if qs != [] {
      RemovedAbsentId(qs[1..], id);
    }
  }

  /** Updating and then deleting an id is the same as deleting it. */
  lemma {:induction false} ReplaceThenRemove(qs: seq<Question>, updated: Question)
    ensures Removed(Replaced(qs, updated), updated.id) == Removed(qs, updated.id)
  {
    if qs != [] {
      var r := Replaced(qs, updated);
      assert r[1..] == Replaced(qs[1..], updated);
      ReplaceThenRemove(qs[1..], updated);
    }
  }

  /** The initialisation effect: write the default bank only when the item is
      missing or empty. */
  function InitializedStorage(storage: map<string, Stored<seq<Question>>>, defaultBank: seq<Question>)
    : (r: map<string, Stored<seq<Question>>>)
    ensures HasItem(r, BankKey)
    ensures HasItem(storage, BankKey) ==> r == storage
    ensures !HasItem(storage, BankKey) ==> r == storage[BankKey := Parsed(defaultBank)]
    ensures forall k :: k != BankKey ==> (k in r <==> k in storage) && (k in r ==> r[k] == storage[k])
  {
    if HasItem(storage, BankKey) then storage else storage[BankKey := Parsed(defaultBank)]
  }

  /** What the persist effect writes is what the next load returns. */
  lemma StoreThenLoadBank(storage: map<string, Stored<seq<Question>>>, qs: seq<Question>,
                          defaultBank: seq<Question>)
    ensures LoadBank(storage[BankKey := Parsed(qs)], defaultBank) == qs
  {
  }

  /** Initialising never changes what a later load returns. */
  lemma InitializeKeepsLoadBank(storage: map<string, Stored<seq<Question>>>, defaultBank: seq<Question>)
    ensures LoadBank(InitializedStorage(storage, defaultBank), defaultBank) == LoadBank(storage, defaultBank)
  {
  }

  /** The persist effect runs before the initialisation effect when the hook
      mounts, so by then the key is always present and initialisation writes
      nothing. */
  lemma InitializeAfterPersistIsNoOp(storage: map<string, Stored<seq<Question>>>, qs: seq<Question>,
                                     defaultBank: seq<Question>)
    ensures InitializedStorage(storage[BankKey := Parsed(qs)], defaultBank) == storage[BankKey := Parsed(qs)]
  {
  }

  /** The hook's state: the list in memory and the browser storage. Every
      change of the list is followed by the persist effect, which writes the
      list under the bank key. */
  class BankHook {
    var questions: seq<Question>
    var storage: map<string, Stored<seq<Question>>>
    const defaultBank: seq<Question>

    ghost predicate Persisted()
      reads this
    {
      BankKey in storage && storage[BankKey] == Parsed(questions)
    }

    /** Mounting: the lazy initial load, then the persist effect. */
    constructor (storage0: map<string, Stored<seq<Question>>>, defaultBank: seq<Question>)
      ensures questions == LoadBank(storage0, defaultBank)
      ensures storage == storage0[BankKey := Parsed(questions)]
      ensures this.defaultBank == defaultBank && Persisted()
    {
      this.defaultBank := defaultBank;
      questions := LoadBank(storage0, defaultBank);
      storage := storage0[BankKey := Parsed(LoadBank(storage0, defaultBank))];
    }

    /** The first-load effect; after mounting it never writes. */
    method InitializeStorage()
      modifies this
      ensures questions == old(questions)
      ensures storage == InitializedStorage(old(storage), defaultBank)
      ensures old(Persisted()) ==> storage == old(storage)
    {
      if !HasItem(storage, BankKey) {
        storage := storage[BankKey := Parsed(defaultBank)];
      }
    }

    method AddQuestion(data: QuestionData, now: nat)
      modifies this
      ensures questions == old(questions) + [WithId(GeneratedId(now), data)]
      ensures storage == old(storage)[BankKey := Parsed(questions)]
      ensures Persisted()
    {
      questions := questions + [WithId(GeneratedId(now), data)];
      storage := storage[BankKey := Parsed(questions)];
    }

    method UpdateQuestion(updated: Question)
      modifies this
      ensures questions == Replaced(old(questions), updated)
      ensures storage == old(storage)[BankKey := Parsed(questions)]
      ensures Persisted()
    {
      questions := Replaced(questions, updated);
      storage := storage[BankKey := Parsed(questions)];
    }

    method DeleteQuestion(id: string)
      modifies this
      ensures questions == Removed(old(questions), id)
      ensures storage == old(storage)[BankKey := Parsed(questions)]
      ensures Persisted()
    {
      questions := Removed(questions, id);
      storage := storage[BankKey := Parsed(questions)];
    }
  }
}
