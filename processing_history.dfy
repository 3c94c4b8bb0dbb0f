/**
 * The processing history panel of the frontend
 * (apps/frontend/components/ProcessingHistory.tsx): a list of at most ten
 * processed images, newest first, kept in component state and saved to
 * `localStorage` under "imageProcessingHistory" after every addition. It is
 * loaded from there when the component mounts.
 */
module ProcessingHistory {
  import opened Wrappers
  import opened HistoryJson
  import opened BrowserStorage

  const HistoryKey: string := "imageProcessingHistory"
  const MaxEntries: nat := 10

  function Min(a: int, b: int): int {
    if a <= b then a else b
  }

  /** The entry `addToHistory` builds; an omitted `hasError` becomes false. */
  function NewItem(originalUrl: string, processedUrl: string, hasError: Option<bool>, date: string): (item: HistoryItem)
    ensures item.originalUrl == originalUrl && item.processedUrl == processedUrl && item.date == date
    ensures item.hasError == Some(hasError.GetOr(false))
    ensures hasError.None? ==> item.hasError == Some(false)
  {
    HistoryItem(originalUrl, processedUrl, date, Some(hasError.GetOr(false)))
  }

  /**
   * `[item, ...history].slice(0, 10)`: the new item first, then the
   * previous entries in order, cut to ten in all.
   */
  function BoundedPrepend(item: HistoryItem, history: seq<HistoryItem>): (r: seq<HistoryItem>)
    ensures |r| == Min(|history| + 1, MaxEntries)
    ensures r[0] == item
    ensures r[1..] == history[..Min(|history|, MaxEntries - 1)]
  {
    ([item] + history)[..Min(|history| + 1, MaxEntries)]
  }

  /** The reversal of a sequence. */
  function Reversed<T>(s: seq<T>): (r: seq<T>)
    ensures |r| == |s|
  {
    if s == [] then [] else Reversed(s[1..]) + [s[0]]
  }

  /** The history after adding `items` one after another, oldest first. */
  function AddAll(history: seq<HistoryItem>, items: seq<HistoryItem>): seq<HistoryItem>
    decreases |items|
  {
    if items == [] then history else AddAll(BoundedPrepend(items[0], history), items[1..])
  }

  /**
   * After several additions the history lists the ten most recent entries,
   * newest first: the added items in reverse order, then the older history.
   */
  lemma {:induction false} AddAllNewestFirst(history: seq<HistoryItem>, items: seq<HistoryItem>)
    requires |history| <= MaxEntries
    ensures AddAll(history, items) == (Reversed(items) + history)[..Min(|items| + |history|, MaxEntries)]
    decreases |items|
  {
    if items != [] {
      var h1 := BoundedPrepend(items[0], history);
      AddAllNewestFirst(h1, items[1..]);
      var n := Min(|items| - 1 + |h1|, MaxEntries);
      var m := Min(|items| + |history|, MaxEntries);
      assert n == m;
      var rest := Reversed(items[1..]);
      assert Reversed(items) == rest + [items[0]];
      forall i | 0 <= i < m
        ensures (rest + h1)[i] == (Reversed(items) + history)[i]
      {
        if i < |rest| {
        } else if i == |rest| {
          assert h1[0] == items[0];
        } else {
          assert h1[i - |rest|] == history[i - |rest| - 1];
        }
      }
    }
  }

  /** Whatever the history held, it never exceeds ten entries after an addition. */
  lemma BoundedAfterAdd(item: HistoryItem, history: seq<HistoryItem>)
    ensures |BoundedPrepend(item, history)| <= MaxEntries
    ensures |history| < MaxEntries ==> BoundedPrepend(item, history) == [item] + history
  {
  }

  /** The history shown by the component. */
  class ProcessingHistoryPanel {
    var history: seq<HistoryItem>

    /** `useState<HistoryItem[]>([])`. */
    constructor()
      ensures history == []
    {
      history := [];
    }

    /**
     * The mount effect: a non-empty saved value that parses replaces the
     * history; an absent or empty one, a read that throws, or a value that
     * does not parse leaves it as it was.
     */
    method Mount(store: LocalStorage)
      modifies this
      ensures store.available && HistoryKey in store.entries && store.entries[HistoryKey] != ""
              && Decode(store.entries[HistoryKey]).Some? ==>
        history == Decode(store.entries[HistoryKey]).value
      ensures !(store.available && HistoryKey in store.entries && store.entries[HistoryKey] != ""
              && Decode(store.entries[HistoryKey]).Some?) ==>
        history == old(history)
    {
      var saved := store.GetItem(HistoryKey);
      if saved.Ok? && saved.value.Some? && saved.value.value != "" {
        var parsed := Decode(saved.value.value);
        if parsed.Some? {
          history := parsed.value;
        }
      }
    }

    /**
     * `addToHistory(originalUrl, processedUrl, hasError = false)`: the new
     * entry is put first and the list cut to ten; the list is then saved
     * under "imageProcessingHistory" (a failed save is ignored and touches
     * nothing else).
     */
    method AddToHistory(store: LocalStorage, originalUrl: string, processedUrl: string, hasError: Option<bool>, date: string)
      modifies this, store
      ensures history == BoundedPrepend(NewItem(originalUrl, processedUrl, hasError, date), old(history))
      ensures store.available == old(store.available)
      ensures store.available ==> store.entries == old(store.entries)[HistoryKey := Encode(history)]
      ensures !store.available ==> store.entries == old(store.entries)
    {
      var newItem := NewItem(originalUrl, processedUrl, hasError, date);
      var updatedHistory := BoundedPrepend(newItem, history);
      history := updatedHistory;
      var _ := store.SetItem(HistoryKey, Encode(updatedHistory));
    }
  }

  /** What an addition saves is what the next mount loads: the updated list itself. */
  lemma SavedHistoryReloads(history: seq<HistoryItem>, item: HistoryItem)
    ensures Decode(Encode(BoundedPrepend(item, history))) == Some(BoundedPrepend(item, history))
    ensures Encode(BoundedPrepend(item, history)) != ""
  {
    DecodeEncode(BoundedPrepend(item, history));
  }
}
