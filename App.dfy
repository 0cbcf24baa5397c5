/**
 * The top-level component's state and its transitions. Each method is one
 * `setState` update applied atomically: it replaces the fields the update
 * spreads over `prev` and leaves every other field as it was.
 */
module App {
  import opened Wrappers
  import opened Types
  import opened History
  import opened TopicForm
  import opened GeminiService
  import Text
  import Lists

  /** The one message shown for any failure of the text service. */
  const SearchError: string := "Failed to generate explanation. Try a more specific topic!"

  /** A request for an explanation of `topic` at `level`. */
  datatype Search = Search(topic: string, level: Level)

  class AppModel {
    var topic: string
    var level: Level
    var loading: bool
    var error: Option<string>
    var result: Option<Record>
    var history: seq<Record>
    var darkMode: bool
    var sidebarOpen: bool
    var isAudioPlaying: bool

    /** The current state as one value. */
    function State(): AppState
      reads this
    {
      AppState(topic, level, loading, error, result, history, darkMode, sidebarOpen, isAudioPlaying)
    }

    /**
     * The properties the transitions maintain: the capacity bound, at most
     * one record per (topic, level), and the displayed result showing the
     * same favorite flag as the history records with its id.
     */
    ghost predicate Consistent()
      reads this
    {
      |history| <= MaxHistory && NoDuplicatePairs(history) && Synced(result, history)
    }

    /** The favorites shown in the sidebar, derived from the history whenever they are read. */
    function FavoriteRecords(): (favorites: seq<Record>)
      reads this
      ensures forall r :: r in favorites <==> r in history && IsFavorite(r)
      ensures Lists.SubsequenceOf(favorites, history)
    {
      FavoritesInHistoryOrder(history);
      Favorites(history)
    }

    /**
     * The initial state. `saved` is the stored history once read and parsed,
     * `None` when nothing is stored; `prefersDark` is the colour-scheme
     * preference of the system.
     */
    constructor (saved: Option<seq<Record>>, prefersDark: bool)
      ensures State() == AppState("", Eli5, false, None, None, saved.GetOr([]), prefersDark, false, false)
      ensures Consistent() <==> |history| <= MaxHistory && NoDuplicatePairs(history)
    {
      topic := "";
      level := Eli5;
      loading := false;
      error := None;
      result := None;
      history := saved.GetOr([]);
      darkMode := prefersDark;
      sidebarOpen := false;
      isAudioPlaying := false;
    }

    /** Back to the start page: no result, no topic, no error; history and level stay. */
    method GoHome()
      modifies this
      ensures State() == old(State()).(result := None, topic := "", error := None)
      ensures old(Consistent()) ==> Consistent()
    {
      result := None;
      topic := "";
      error := None;
    }

    /** The first update of a search: record the topic, show loading, clear the error. */
    method StartSearch(t: string)
      modifies this
      ensures State() == old(State()).(topic := t, loading := true, error := None)
      ensures old(Consistent()) ==> Consistent()
    {
      topic := t;
      loading := true;
      error := None;
    }

    /**
     * The update after the service returned `data` for `search`: the record
     * is displayed and inserted at the head of the history in place of any
     * record for the same pair, and loading ends. The error is left alone.
     */
    method CompleteSearch(search: Search, data: Record)
      modifies this
      ensures State() == old(State()).(result := Some(data), loading := false,
        history := Upsert(old(history), search.topic, search.level, data))
      ensures history[0] == data && |history| <= MaxHistory
      ensures forall i :: 1 <= i < |history| ==> !SamePair(history[i], search.topic, search.level)
      ensures old(NoDuplicatePairs(history)) && SamePair(data, search.topic, search.level) ==> NoDuplicatePairs(history)
      ensures (forall i :: 0 <= i < |old(history)| ==> old(history)[i].id != data.id) ==> Synced(result, history)
    {
      if NoDuplicatePairs(history) && SamePair(data, search.topic, search.level) {
        UpsertNoDuplicates(history, search.topic, search.level, data);
      }
      result := Some(data);
      loading := false;
      history := Upsert(history, search.topic, search.level, data);
    }

    /** The update when the service failed: loading ends with the fixed message; nothing else changes. */
    method FailSearch()
      modifies this
      ensures State() == old(State()).(loading := false, error := Some(SearchError))
      ensures old(Consistent()) ==> Consistent()
    {
      loading := false;
      error := Some(SearchError);
    }

    /**
     * The outcome of the awaited request: `reply` is the parsed reply, or
     * `None` when the call or the parse threw. `idClock` and `timeClock` are
     * the two clock readings taken while the record is assembled.
     */
    method ResolveSearch(search: Search, reply: Option<Payload>, idClock: int, timeClock: int)
      modifies this
      ensures reply.Some? ==>
        var data := AssembleRecord(reply.value, search.topic, search.level, idClock, timeClock);
        State() == old(State()).(result := Some(data), loading := false,
          history := Upsert(old(history), search.topic, search.level, data))
      ensures reply.None? ==> State() == old(State()).(loading := false, error := Some(SearchError))
      ensures old(|history| <= MaxHistory && NoDuplicatePairs(history)) ==> |history| <= MaxHistory && NoDuplicatePairs(history)
    {
      if reply.Some? {
        var data := AssembleRecord(reply.value, search.topic, search.level, idClock, timeClock);
        CompleteSearch(search, data);
      } else {
        FailSearch();
      }
    }

    /**
     * The favorite toggle for `id`: every history record with that id and
     * the displayed result, when it has that id, get the opposite flag.
     */
    method ToggleFavorite(id: string)
      modifies this
      ensures State() == old(State()).(history := ToggleInHistory(old(history), id),
        result := ToggleResult(old(result), id))
      ensures old(Consistent()) ==> Consistent()
    {
      if Consistent() {
        ToggleNoDuplicates(history, id);
        ToggleKeepsSynced(result, history, id);
      }
      history := ToggleInHistory(history, id);
      result := ToggleResult(result, id);
    }

    /**
     * The card's heart button, on the displayed record: it toggles exactly
     * that record's id, so the displayed flag flips.
     */
    method ClickFavorite()
      requires result.Some?
      modifies this
      ensures State() == old(State()).(history := ToggleInHistory(old(history), old(result).value.id),
        result := Some(Flip(old(result).value)))
      ensures old(Consistent()) ==> Consistent()
    {
      ToggleFavorite(result.value.id);
    }

    /** Opening a history record: it becomes the result and sets topic and level, without a request. */
    method SelectItem(item: Record)
      modifies this
      ensures State() == old(State()).(result := Some(item), topic := item.topic, level := item.level)
      ensures item in history && UniqueIds(history) ==> Synced(result, history)
      ensures old(|history| <= MaxHistory && NoDuplicatePairs(history)) && item in history && UniqueIds(history) ==> Consistent()
    {
      if item in history && UniqueIds(history) {
        var k :| 0 <= k < |history| && history[k] == item;
        SelectedRecordSynced(history, k);
      }
      result := Some(item);
      topic := item.topic;
      level := item.level;
    }

    /** Wiping the history after the user's confirmation; declining changes nothing. */
    method ClearHistory(confirmed: bool)
      modifies this
      ensures confirmed ==> State() == old(State()).(history := [], result := None)
      ensures !confirmed ==> State() == old(State())
      ensures confirmed ==> Consistent()
    {
      if confirmed {
        history := [];
        result := None;
      }
    }

    /**
     * Choosing a level on the selector: the level is set, and when a result
     * is displayed its topic is searched again at the new level (the first
     * update of that search is applied here, the request is returned).
     */
    method SelectLevel(l: Level) returns (search: Option<Search>)
      modifies this
      ensures old(result).None? ==> search == None && State() == old(State()).(level := l)
      ensures old(result).Some? ==>
        && search == Some(Search(old(result).value.topic, l))
        && State() == old(State()).(level := l, topic := old(result).value.topic, loading := true, error := None)
      ensures old(Consistent()) ==> Consistent()
    {
      level := l;
      search := None;
      if result.Some? {
        StartSearch(result.value.topic);
        search := Some(Search(result.value.topic, l));
      }
    }

    /**
     * Submitting the topic form with `input` typed in: a blank input does
     * nothing; otherwise the trimmed topic is searched at the current level.
     */
    method SubmitTopic(input: string) returns (search: Option<Search>)
      modifies this
      ensures search.None? <==> Text.IsBlank(input)
      ensures search.None? ==> State() == old(State())
      ensures search.Some? ==>
        && search.value == Search(Text.Trim(input), old(level))
        && State() == old(State()).(topic := Text.Trim(input), loading := true, error := None)
      ensures old(Consistent()) ==> Consistent()
    {
      search := None;
      var submitted := HandleSubmit(input);
      if submitted.Some? {
        StartSearch(submitted.value);
        search := Some(Search(submitted.value, level));
      }
    }
  }
}
