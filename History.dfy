/**
 * The bodies of the application's state updates, as pure functions over
 * the history list and the displayed result: the insert-or-replace on a
 * successful search, the favorite toggle, and the derived favorites list.
 */
module History {
  import opened Wrappers
  import opened Types
  import opened Lists

  /** The history keeps at most this many records (`slice(0, 15)`). */
  const MaxHistory: nat := 15

  /** `r` is a lookup of `topic` at `level`. */
  predicate SamePair(r: Record, topic: string, level: Level) {
    r.topic == topic && r.level == level
  }

  /** No two records of the list are lookups of the same topic at the same level. */
  predicate NoDuplicatePairs(history: seq<Record>) {
    forall i, j :: 0 <= i < j < |history| ==> !SamePair(history[j], history[i].topic, history[i].level)
  }

  /** No two records of the list share an id. */
  predicate UniqueIds(history: seq<Record>) {
    forall i, j :: 0 <= i < j < |history| ==> history[i].id != history[j].id
  }

  // ---------------------------------------------------------------------
  // Insert-or-replace after a successful search
  // ---------------------------------------------------------------------

  /** `history.filter(h => !(h.topic === topic && h.level === level))`. */
  function OtherPairs(history: seq<Record>, topic: string, level: Level): (r: seq<Record>)
    ensures forall x :: x in r <==> x in history && !SamePair(x, topic, level)
  {
    Filter(history, (h: Record) => !SamePair(h, topic, level))
  }

  /**
   * `[data, ...filteredHistory].slice(0, 15)`: the new record first, then
   * the records of other (topic, level) pairs, cut to the capacity.
   */
  function Upsert(history: seq<Record>, topic: string, level: Level, data: Record): (r: seq<Record>)
    ensures 1 <= |r| <= MaxHistory
    ensures r[0] == data
    ensures forall i :: 1 <= i < |r| ==> !SamePair(r[i], topic, level) && r[i] in history
  {
    var r := Take([data] + OtherPairs(history, topic, level), MaxHistory);
    assert forall i :: 1 <= i < |r| ==> r[i] in OtherPairs(history, topic, level) by {
      forall i | 1 <= i < |r| ensures r[i] in OtherPairs(history, topic, level) {
        assert r[i] == OtherPairs(history, topic, level)[i - 1];
      }
    }
    r
  }

  /**
   * What survives behind the new record is a prefix of the other pairs'
   * records, the newest ones: anything dropped is dropped from the tail.
   */
  lemma UpsertDropsFromTail(history: seq<Record>, topic: string, level: Level, data: Record)
    ensures var others := OtherPairs(history, topic, level);
      var r := Upsert(history, topic, level, data);
      && |r| == (if |others| < MaxHistory then |others| + 1 else MaxHistory)
      && r[1..] == others[..|r| - 1]
  {
    var others := OtherPairs(history, topic, level);
    var r := Upsert(history, topic, level, data);
    assert r == ([data] + others)[..|r|];
    assert r[1..] == ([data] + others)[1..|r|];
  }

  /** The records kept behind the new one appear in the same relative order as before. */
  lemma UpsertKeepsOrder(history: seq<Record>, topic: string, level: Level, data: Record)
    ensures SubsequenceOf(Upsert(history, topic, level, data)[1..], history)
  {
    var others := OtherPairs(history, topic, level);
    var r := Upsert(history, topic, level, data);
    UpsertDropsFromTail(history, topic, level, data);
    FilterIsSubsequence(history, (h: Record) => !SamePair(h, topic, level));
    SubsequencePrefix(others, history, |r| - 1);
  }

  /** Inserting a sixteenth new pair into a full history drops its oldest record. */
  lemma UpsertIntoFullHistory(history: seq<Record>, topic: string, level: Level, data: Record)
    requires |history| == MaxHistory
    requires forall i :: 0 <= i < |history| ==> !SamePair(history[i], topic, level)
    ensures Upsert(history, topic, level, data) == [data] + history[..MaxHistory - 1]
  {
    FilterKeepsAll(history, (h: Record) => !SamePair(h, topic, level));
    UpsertDropsFromTail(history, topic, level, data);
  }

  /** Searching a pair that is already present does not make the history longer. */
  lemma UpsertExistingPairNoGrowth(history: seq<Record>, topic: string, level: Level, data: Record)
    requires exists i :: 0 <= i < |history| && SamePair(history[i], topic, level)
    ensures |Upsert(history, topic, level, data)| <= |history|
  {
    var keep := (h: Record) => !SamePair(h, topic, level);
    var i :| 0 <= i < |history| && SamePair(history[i], topic, level);
    assert history[i] in history && !keep(history[i]);
    FilterLength(history, keep);
    UpsertDropsFromTail(history, topic, level, data);
  }

  /** In a list without duplicate pairs, a pair occurs at most once. */
  lemma {:induction false} NoDuplicatesRejectAtMostOne(history: seq<Record>, topic: string, level: Level)
    requires NoDuplicatePairs(history)
    ensures Rejected(history, (h: Record) => !SamePair(h, topic, level)) <= 1
  {
    if history != [] {
      var keep := (h: Record) => !SamePair(h, topic, level);
      assert NoDuplicatePairs(history[1..]) by {
        forall i, j | 0 <= i < j < |history[1..]|
          ensures !SamePair(history[1..][j], history[1..][i].topic, history[1..][i].level)
        {
          assert history[1..][i] == history[i + 1] && history[1..][j] == history[j + 1];
        }
      }
      NoDuplicatesRejectAtMostOne(history[1..], topic, level);
      if SamePair(history[0], topic, level) {
        forall x | x in history[1..] ensures keep(x) {
          var j :| 0 <= j < |history[1..]| && history[1..][j] == x;
          assert history[j + 1] == x;
        }
      }
    }
  }

  /**
   * Re-searching a pair that is present once in a list of at most fifteen
   * replaces its record: the length stays the same.
   */
  lemma UpsertReplaceKeepsLength(history: seq<Record>, topic: string, level: Level, data: Record)
    requires NoDuplicatePairs(history) && |history| <= MaxHistory
    requires exists i :: 0 <= i < |history| && SamePair(history[i], topic, level)
    ensures |Upsert(history, topic, level, data)| == |history|
  {
    var keep := (h: Record) => !SamePair(h, topic, level);
    var i :| 0 <= i < |history| && SamePair(history[i], topic, level);
    assert history[i] in history && !keep(history[i]);
    FilterLength(history, keep);
    NoDuplicatesRejectAtMostOne(history, topic, level);
    UpsertDropsFromTail(history, topic, level, data);
  }

  /** A sub-sequence of a list without duplicate pairs has none either. */
  lemma SubsequenceNoDuplicates(a: seq<Record>, b: seq<Record>)
    requires SubsequenceOf(a, b) && NoDuplicatePairs(b)
    ensures NoDuplicatePairs(a)
  {
    forall i, j | 0 <= i < j < |a| ensures !SamePair(a[j], a[i].topic, a[i].level) {
      SubsequencePositions(a, b, i, j);
    }
  }

  /** When the new record is a lookup of the searched pair, the list stays free of duplicate pairs. */
  lemma UpsertNoDuplicates(history: seq<Record>, topic: string, level: Level, data: Record)
    requires NoDuplicatePairs(history)
    requires SamePair(data, topic, level)
    ensures NoDuplicatePairs(Upsert(history, topic, level, data))
  {
    var r := Upsert(history, topic, level, data);
    UpsertKeepsOrder(history, topic, level, data);
    SubsequenceNoDuplicates(r[1..], history);
    forall i, j | 0 <= i < j < |r| ensures !SamePair(r[j], r[i].topic, r[i].level) {
      if i > 0 {
        assert r[i] == r[1..][i - 1] && r[j] == r[1..][j - 1];
      }
    }
  }

  /** Searching the same pair twice leaves only the second record for it, as if the first had not happened. */
  lemma UpsertSamePairTwice(history: seq<Record>, topic: string, level: Level, first: Record, second: Record)
    requires SamePair(first, topic, level)
    ensures Upsert(Upsert(history, topic, level, first), topic, level, second) == Upsert(history, topic, level, second)
  {
    var keep := (h: Record) => !SamePair(h, topic, level);
    var others := OtherPairs(history, topic, level);
    var u := Upsert(history, topic, level, first);
    UpsertDropsFromTail(history, topic, level, first);
    var kept := others[..|u| - 1];
    assert u == [first] + kept;
    assert u[1..] == kept;
    forall x | x in kept ensures keep(x) {
      assert x in others;
    }
    FilterKeepsAll(kept, keep);
    assert OtherPairs(u, topic, level) == kept;
    UpsertDropsFromTail(history, topic, level, second);
    UpsertDropsFromTail(u, topic, level, second);
  }

  /**
   * Searching a topic at one level and then at another keeps both, the
   * later one first.
   */
  lemma UpsertOtherLevelKeepsEarlier(history: seq<Record>, topic: string, l1: Level, l2: Level, a: Record, b: Record)
    requires l1 != l2 && SamePair(a, topic, l1)
    ensures var r := Upsert(Upsert(history, topic, l1, a), topic, l2, b);
      |r| >= 2 && r[0] == b && r[1] == a
  {
    var u := Upsert(history, topic, l1, a);
    assert u == [u[0]] + u[1..];
    assert OtherPairs(u, topic, l2) == [a] + OtherPairs(u[1..], topic, l2);
    UpsertDropsFromTail(u, topic, l2, b);
  }

  // ---------------------------------------------------------------------
  // Favorite toggling
  // ---------------------------------------------------------------------

  /** `{ ...item, isFavorite: !item.isFavorite }`: the flag is set to the opposite of what it read as. */
  function Flip(r: Record): (f: Record)
    ensures IsFavorite(f) == !IsFavorite(r)
    ensures f.isFavorite.Some?
    ensures f.(isFavorite := r.isFavorite) == r
  {
    r.(isFavorite := Some(!IsFavorite(r)))
  }

  /** `history.map(item => item.id === id ? flipped : item)`. */
  function ToggleInHistory(history: seq<Record>, id: string): (r: seq<Record>)
    ensures |r| == |history|
    ensures forall i :: 0 <= i < |history| ==>
      && r[i].(isFavorite := history[i].isFavorite) == history[i]
      && (IsFavorite(r[i]) <==> (IsFavorite(history[i]) != (history[i].id == id)))
      && (history[i].id != id ==> r[i] == history[i])
  {
    Map(history, (h: Record) => if h.id == id then Flip(h) else h)
  }

  /** Toggling an id that no record has leaves the history exactly as it was. */
  lemma ToggleAbsentId(history: seq<Record>, id: string)
    requires forall i :: 0 <= i < |history| ==> history[i].id != id
    ensures ToggleInHistory(history, id) == history
  {
  }

  /**
   * Toggling twice restores every flag; a record whose flag was present
   * comes back identical (an absent flag comes back as an explicit false).
   */
  lemma ToggleTwice(history: seq<Record>, id: string)
    ensures var r := ToggleInHistory(ToggleInHistory(history, id), id);
      && |r| == |history|
      && forall i :: 0 <= i < |history| ==>
           && (IsFavorite(r[i]) <==> IsFavorite(history[i]))
           && (history[i].isFavorite.Some? ==> r[i] == history[i])
  {
    var once := ToggleInHistory(history, id);
    var r := ToggleInHistory(once, id);
    forall i | 0 <= i < |history| ensures history[i].isFavorite.Some? ==> r[i] == history[i] {
      if history[i].id == id && history[i].isFavorite.Some? {
        var b := history[i].isFavorite.value;
        assert history[i].isFavorite == Some(b) && IsFavorite(history[i]) == b;
        assert once[i] == Flip(history[i]);
        assert r[i] == Flip(once[i]);
      }
    }
  }

  /** Toggling changes no topic or level, so it keeps the list free of duplicate pairs. */
  lemma ToggleNoDuplicates(history: seq<Record>, id: string)
    requires NoDuplicatePairs(history)
    ensures NoDuplicatePairs(ToggleInHistory(history, id))
  {
    var r := ToggleInHistory(history, id);
    forall i, j | 0 <= i < j < |r| ensures !SamePair(r[j], r[i].topic, r[i].level) {
      assert r[i].topic == history[i].topic && r[i].level == history[i].level;
      assert r[j].topic == history[j].topic && r[j].level == history[j].level;
    }
  }

  /** `prev.result?.id === id ? flipped : prev.result`. */
  function ToggleResult(result: Option<Record>, id: string): (r: Option<Record>)
    ensures result.Some? && result.value.id == id ==> r == Some(Flip(result.value))
    ensures result.None? || result.value.id != id ==> r == result
  {
    if result.Some? && result.value.id == id then Some(Flip(result.value)) else result
  }

  /** Every history record carrying the displayed result's id shows the same favorite flag. */
  predicate Synced(result: Option<Record>, history: seq<Record>) {
    result.Some? ==>
      forall i :: 0 <= i < |history| && history[i].id == result.value.id ==>
        IsFavorite(history[i]) == IsFavorite(result.value)
  }

  /** A toggle flips the result and its history records together, so they keep agreeing. */
  lemma ToggleKeepsSynced(result: Option<Record>, history: seq<Record>, id: string)
    requires Synced(result, history)
    ensures Synced(ToggleResult(result, id), ToggleInHistory(history, id))
  {
    var r := ToggleResult(result, id);
    var h := ToggleInHistory(history, id);
    if r.Some? {
      forall i | 0 <= i < |h| && h[i].id == r.value.id ensures IsFavorite(h[i]) == IsFavorite(r.value) {
        assert h[i].id == history[i].id;
      }
    }
  }

  /** Showing a record taken from a history whose ids are distinct keeps the two in agreement. */
  lemma SelectedRecordSynced(history: seq<Record>, k: nat)
    requires k < |history| && UniqueIds(history)
    ensures Synced(Some(history[k]), history)
  {
  }

  // ---------------------------------------------------------------------
  // The favorites list
  // ---------------------------------------------------------------------

  /** `history.filter(h => h.isFavorite)`: recomputed from the history on every read. */
  function Favorites(history: seq<Record>): (r: seq<Record>)
    ensures forall x :: x in r <==> x in history && IsFavorite(x)
  {
    Filter(history, IsFavorite)
  }

  /** The favorites appear in the order the history holds them. */
  lemma FavoritesInHistoryOrder(history: seq<Record>)
    ensures SubsequenceOf(Favorites(history), history)
  {
    FilterIsSubsequence(history, IsFavorite);
  }

  /** The favorites are as many as the history's records minus those with a false or absent flag. */
  lemma FavoritesCount(history: seq<Record>)
    ensures |Favorites(history)| == |history| - Rejected(history, IsFavorite)
    ensures (forall i :: 0 <= i < |history| ==> IsFavorite(history[i])) ==> Favorites(history) == history
  {
    FilterLength(history, IsFavorite);
    if forall i :: 0 <= i < |history| ==> IsFavorite(history[i]) {
      FilterKeepsAll(history, IsFavorite);
    }
  }
}
