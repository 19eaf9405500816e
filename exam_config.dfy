/** The exam-configuration hook: load from local storage merged over the
    defaults, set-and-store, and initialise-if-absent. Local storage is an
    abstract map from keys to decoded values; JSON text is not modelled. */
module ExamConfigStore {
  import opened Types

  const ConfigKey: string := "examConfig"

  /** A decoded stored configuration: each field may be missing. */
  datatype SavedConfig = SavedConfig(
    title: Option<string>,
    time: Option<int>,
    totalMarks: Option<real>,
    totalQuestions: Option<int>,
    isActive: Option<bool>,
    cutMarkPerWrongAnswer: Option<real>,
    fixedPenalty: Option<real>,
    correctAnswers: Option<string>)

  /** `{}`: the record used when there is no stored item. */
  function NoFields(): SavedConfig
  {
    SavedConfig(None, None, None, None, None, None, None, None)
  }

  /** What storing a whole configuration decodes back to. */
  function AllFields(c: ExamConfig): SavedConfig
  {
    SavedConfig(Some(c.title), Some(c.time), Some(c.totalMarks), Some(c.totalQuestions),
                Some(c.isActive), Some(c.cutMarkPerWrongAnswer), Some(c.fixedPenalty),
                Some(c.correctAnswers))
  }

  function Override<T>(fallback: T, saved: Option<T>): T
  {
    if saved.Some? then saved.value else fallback
  }

  /** `{ ...DEFAULT_EXAM_CONFIG, ...savedConfig }`: each field from the saved
      record when present, from the defaults otherwise. */
  function Merge(defaults: ExamConfig, saved: SavedConfig): (r: ExamConfig)
    ensures r.title == (if saved.title.Some? then saved.title.value else defaults.title)
    ensures r.time == (if saved.time.Some? then saved.time.value else defaults.time)
    ensures r.totalMarks == (if saved.totalMarks.Some? then saved.totalMarks.value else defaults.totalMarks)
    ensures r.totalQuestions == (if saved.totalQuestions.Some? then saved.totalQuestions.value else defaults.totalQuestions)
    ensures r.isActive == (if saved.isActive.Some? then saved.isActive.value else defaults.isActive)
    ensures r.cutMarkPerWrongAnswer == (if saved.cutMarkPerWrongAnswer.Some? then saved.cutMarkPerWrongAnswer.value else defaults.cutMarkPerWrongAnswer)
    ensures r.fixedPenalty == (if saved.fixedPenalty.Some? then saved.fixedPenalty.value else defaults.fixedPenalty)
    ensures r.correctAnswers == (if saved.correctAnswers.Some? then saved.correctAnswers.value else defaults.correctAnswers)
  {
    ExamConfig(
      Override(defaults.title, saved.title),
      Override(defaults.time, saved.time),
      Override(defaults.totalMarks, saved.totalMarks),
      Override(defaults.totalQuestions, saved.totalQuestions),
      Override(defaults.isActive, saved.isActive),
      Override(defaults.cutMarkPerWrongAnswer, saved.cutMarkPerWrongAnswer),
      Override(defaults.fixedPenalty, saved.fixedPenalty),
      Override(defaults.correctAnswers, saved.correctAnswers))
  }

  /** The initial load: a missing or empty item reads as `{}`, a parse failure
      falls back to the defaults, a decoded record is merged over them. */
  function LoadConfig(storage: map<string, Stored<SavedConfig>>, defaults: ExamConfig): (r: ExamConfig)
    ensures !HasItem(storage, ConfigKey) ==> r == defaults
    ensures HasItem(storage, ConfigKey) && storage[ConfigKey].Unparsable? ==> r == defaults
    ensures HasItem(storage, ConfigKey) && storage[ConfigKey].Parsed? ==> r == Merge(defaults, storage[ConfigKey].value)
  {
    if !HasItem(storage, ConfigKey) then
      MergeNothing(defaults);
      Merge(defaults, NoFields())
    else
      match storage[ConfigKey]
      case Parsed(saved) => Merge(defaults, saved)
      case _ => defaults
  }

  lemma MergeNothing(defaults: ExamConfig)
    ensures Merge(defaults, NoFields()) == defaults
  {
  }

  /** A whole stored configuration overrides every default. */
  lemma MergeEverything(defaults: ExamConfig, c: ExamConfig)
    ensures Merge(defaults, AllFields(c)) == c
  {
  }

  /** What set-and-store writes is what the next load returns. */
  lemma StoreThenLoad(storage: map<string, Stored<SavedConfig>>, defaults: ExamConfig, c: ExamConfig)
    ensures LoadConfig(storage[ConfigKey := Parsed(AllFields(c))], defaults) == c
  {
    MergeEverything(defaults, c);
  }

  /** The initialisation effect: write the defaults only when the item is
      missing or empty. */
  function InitializedStorage(storage: map<string, Stored<SavedConfig>>, defaults: ExamConfig)
    : (r: map<string, Stored<SavedConfig>>)
    ensures HasItem(r, ConfigKey)
    ensures HasItem(storage, ConfigKey) ==> r == storage
    ensures forall k :: k != ConfigKey ==> (k in r <==> k in storage) && (k in r ==> r[k] == storage[k])
  {
    if HasItem(storage, ConfigKey) then storage
    else storage[ConfigKey := Parsed(AllFields(defaults))]
  }

  /** Initialising never changes what a later load returns. */
  lemma InitializeKeepsLoad(storage: map<string, Stored<SavedConfig>>, defaults: ExamConfig)
    ensures LoadConfig(InitializedStorage(storage, defaults), defaults) == LoadConfig(storage, defaults)
  {
    if !HasItem(storage, ConfigKey) {
      StoreThenLoad(storage, defaults, defaults);
    }
  }

  /** The hook's state: the configuration in memory and the browser storage
      it reads and writes. */
  class ConfigHook {
    var config: ExamConfig
    var storage: map<string, Stored<SavedConfig>>
    const defaults: ExamConfig

    /** Mounting: the lazy initial load. */
    constructor (storage0: map<string, Stored<SavedConfig>>, defaults: ExamConfig)
      ensures config == LoadConfig(storage0, defaults)
      ensures storage == storage0 && this.defaults == defaults
    {
      this.defaults := defaults;
      config := LoadConfig(storage0, defaults);
      storage := storage0;
    }

    /** `setAndStoreConfig`: memory and storage both take the new value. */
    method SetAndStore(c: ExamConfig)
      modifies this
      ensures config == c
      ensures storage == old(storage)[ConfigKey := Parsed(AllFields(c))]
      ensures LoadConfig(storage, defaults) == c
    {
      config := c;
      storage := storage[ConfigKey := Parsed(AllFields(c))];
      StoreThenLoad(old(storage), defaults, c);
    }

    /** The first-load effect. */
    method InitializeStorage()
      modifies this
      ensures config == old(config)
      ensures storage == InitializedStorage(old(storage), defaults)
    {
      if !HasItem(storage, ConfigKey) {
        storage := storage[ConfigKey := Parsed(AllFields(defaults))];
      }
    }
  }
}
