/** The application's records: the explanation depth tiers and one completed lookup. */
module Types {
  import opened Wrappers

  /** The three explanation depth tiers; the source's enum values are their names in capitals. */
  datatype Level = Eli5 | Beginner | Intermediate

  /** The string value of a tier as the enum stores it (`'ELI5'`, `'BEGINNER'`, `'INTERMEDIATE'`). */
  function LevelValue(level: Level): (s: string)
    ensures s != []
    ensures '\n' !in s
  {
    match level
    case Eli5 => "ELI5"
    case Beginner => "BEGINNER"
    case Intermediate => "INTERMEDIATE"
  }

  /**
   * One completed lookup. `timestamp` is a clock reading in milliseconds;
   * `isFavorite` is an optional field that is absent until first toggled.
   */
  datatype Record = Record(
    id: string,
    definition: string,
    analogy: string,
    example: string,
    takeaway: string,
    topic: string,
    level: Level,
    timestamp: int,
    isFavorite: Option<bool>)

  /** The truth value of the optional flag: an absent flag reads as false. */
  predicate IsFavorite(r: Record) {
    r.isFavorite == Some(true)
  }

  /** Distinct tiers have distinct enum values, so the value names the tier. */
  lemma LevelValueInjective(a: Level, b: Level)
    ensures LevelValue(a) == LevelValue(b) <==> a == b
  {
  }

  /**
   * The whole application state. `error` and `result` are `None` for the
   * source's `null`; `darkMode`, `sidebarOpen` and `isAudioPlaying` are
   * presentation flags that no modelled transition changes.
   */
  datatype AppState = AppState(
    topic: string,
    level: Level,
    loading: bool,
    error: Option<string>,
    result: Option<Record>,
    history: seq<Record>,
    darkMode: bool,
    sidebarOpen: bool,
    isAudioPlaying: bool)
}
