/** The session state the page keeps and persists: the heart and copy
    counters, the call history and the favourite ids (index.js:90-119,
    139-143, 330-380, 423-427). The pure transitions below are what the
    `Session` class's handlers do to its fields; the lemmas about them are the
    properties the handlers keep. */
module Session {
  import opened Services

  datatype HistoryEntry = HistoryEntry(title: string, number: string, time: string)

  /** The record written under the storage key: exactly these four fields.
      `favoriteIds` maps ids to `true`, so it is modelled as the set of its keys. */
  datatype Saved = Saved(hearts: int, copies: int, history: seq<HistoryEntry>, favoriteIds: set<int>)

  /** The most calls the history holds. */
  const HistoryLimit: nat := 5

  /** What `loadState` falls back to when nothing usable is stored. */
  function DefaultSaved(): Saved {
    Saved(0, 0, [], {})
  }

  /** The in-memory `state` object. */
  datatype State = State(hearts: int, copies: int, history: seq<HistoryEntry>,
                         favoriteIds: set<int>, services: seq<Service>)

  /** `saveState`: the catalog and the derived flags are not written. */
  function Persisted(st: State): Saved {
    Saved(st.hearts, st.copies, st.history, st.favoriteIds)
  }

  /** The `map` in `init`: every catalog entry in place, differing from it
      only in a favourite flag that says whether its id is saved. */
  function DeriveFavorites(catalog: seq<Service>, favoriteIds: set<int>): (r: seq<Service>)
    ensures |r| == |catalog|
    ensures forall i :: 0 <= i < |r| ==> r[i].(isFavorite := catalog[i].isFavorite) == catalog[i]
    ensures forall i :: 0 <= i < |r| ==> (r[i].isFavorite <==> r[i].id in favoriteIds)
  {
    seq(|catalog|, i requires 0 <= i < |catalog| =>
      catalog[i].(isFavorite := catalog[i].id in favoriteIds))
  }

  function Init(catalog: seq<Service>, saved: Saved): State {
    State(saved.hearts, saved.copies, saved.history, saved.favoriteIds,
          DeriveFavorites(catalog, saved.favoriteIds))
  }

  predicate UniqueIds(services: seq<Service>) {
    forall i, j :: 0 <= i < j < |services| ==> services[i].id != services[j].id
  }

  /** `favoriteIds` is the single source of truth for every `isFavorite`. */
  predicate FavoritesInSync(st: State) {
    forall i :: 0 <= i < |st.services| ==>
      st.services[i].isFavorite == (st.services[i].id in st.favoriteIds)
  }

  /** A saved record the page itself could have written: counters that only
      ever grew from zero, the heart count equal to the number of
      favourites, and a history within its cap. */
  predicate SavedValid(saved: Saved) {
    saved.copies >= 0 && saved.hearts == |saved.favoriteIds| && |saved.history| <= HistoryLimit
  }

  predicate Valid(st: State) {
    UniqueIds(st.services) && FavoritesInSync(st) && SavedValid(Persisted(st))
  }

  /** `findIndex`: the first position holding `id`, or -1. */
  function FindIndex(services: seq<Service>, id: int): (r: int)
    ensures -1 <= r < |services|
    ensures r == -1 <==> forall i :: 0 <= i < |services| ==> services[i].id != id
    ensures r >= 0 ==> services[r].id == id && forall i :: 0 <= i < r ==> services[i].id != id
  {
    if services == [] then -1
    else if services[0].id == id then 0
    else
      var k := FindIndex(services[1..], id);
      if k == -1 then -1 else k + 1
  }

  function Max(a: int, b: int): int {
    if a >= b then a else b
  }

  /** The heart handler: flip the flag of the first service with `id`, then
      add or remove `id` and bump or lower the counter to match. */
  function Toggled(st: State, id: int): State {
    var index := FindIndex(st.services, id);
    if index == -1 then st
    else
      var flag := !st.services[index].isFavorite;
      var services := st.services[index := st.services[index].(isFavorite := flag)];
      if flag then st.(services := services, hearts := st.hearts + 1, favoriteIds := st.favoriteIds + {id})
      else st.(services := services, hearts := Max(0, st.hearts - 1), favoriteIds := st.favoriteIds - {id})
  }

  /** The copy handler once the clipboard has answered. */
  function Copied(st: State, succeeded: bool): State {
    if succeeded then st.(copies := st.copies + 1) else st
  }

  /** `unshift` then at most one `pop`. */
  function PushCall(history: seq<HistoryEntry>, entry: HistoryEntry): seq<HistoryEntry> {
    var h := [entry] + history;
    if |h| > HistoryLimit then h[..|h| - 1] else h
  }

  /** The call handler; `time` is the formatted clock label. */
  function Called(st: State, svc: Service, time: string): State {
    st.(history := PushCall(st.history, HistoryEntry(svc.title, svc.number, time)))
  }

  /** The clear-history handler. */
  function Cleared(st: State): State {
    st.(history := [])
  }

  /** Start-up always leaves every flag in agreement with the saved ids, and a
      saved record the page wrote yields a valid session. */
  lemma InitValid(catalog: seq<Service>, saved: Saved)
    ensures FavoritesInSync(Init(catalog, saved))
    ensures UniqueIds(catalog) && SavedValid(saved) ==> Valid(Init(catalog, saved))
    ensures Init(catalog, DefaultSaved()).hearts == 0
    ensures forall i :: 0 <= i < |catalog| ==> !Init(catalog, DefaultSaved()).services[i].isFavorite
  {
  }

  /** Saving loses nothing: reloading the saved record over the same catalog
      rebuilds the very same session, since the flags are recomputed. */
  lemma ReloadRestores(st: State)
    requires FavoritesInSync(st)
    ensures Init(st.services, Persisted(st)) == st
  {
    var r := DeriveFavorites(st.services, st.favoriteIds);
    assert forall i :: 0 <= i < |r| ==> r[i] == st.services[i];
  }

  /** A heart click on an id no service has leaves everything as it was. */
  lemma ToggleUnknownId(st: State, id: int)
    requires forall i :: 0 <= i < |st.services| ==> st.services[i].id != id
    ensures Toggled(st, id) == st
  {
  }

  /** A heart click on a known id flips exactly that service's flag, moves
      `id` into or out of `favoriteIds` to match, counts the change in
      `hearts`, and keeps the session valid. */
  lemma ToggleKnownId(st: State, i: int)
    requires Valid(st) && 0 <= i < |st.services|
    ensures var id := st.services[i].id;
      var after := Toggled(st, id);
      && Valid(after)
      && |after.services| == |st.services|
      && after.services[i].isFavorite == !st.services[i].isFavorite
      && after.services[i].(isFavorite := st.services[i].isFavorite) == st.services[i]
      && (forall j :: 0 <= j < |st.services| && j != i ==> after.services[j] == st.services[j])
      && (id in after.favoriteIds <==> id !in st.favoriteIds)
      && after.favoriteIds - {id} == st.favoriteIds - {id}
      && after.hearts == (if id in st.favoriteIds then st.hearts - 1 else st.hearts + 1)
      && after.hearts >= 0
      && after.copies == st.copies && after.history == st.history
  {
    var id := st.services[i].id;
    var index := FindIndex(st.services, id);
    assert index == i;
  }

  /** The heart counter never goes below zero, whatever the saved record
      held: a removal at zero hearts leaves zero, any other click moves the
      counter by one. */
  lemma ToggleHeartsFloor(st: State, id: int)
    requires st.hearts >= 0
    ensures Toggled(st, id).hearts >= 0
    ensures var index := FindIndex(st.services, id);
      index >= 0 && st.services[index].isFavorite && st.hearts == 0 ==> Toggled(st, id).hearts == 0
    ensures var index := FindIndex(st.services, id);
      index >= 0 && st.services[index].isFavorite && st.hearts > 0 ==> Toggled(st, id).hearts == st.hearts - 1
    ensures var index := FindIndex(st.services, id);
      index >= 0 && !st.services[index].isFavorite ==> Toggled(st, id).hearts == st.hearts + 1
  {
  }

  /** Clicking the heart twice restores the session. */
  lemma ToggleTwiceRestores(st: State, id: int)
    requires Valid(st)
    ensures Toggled(Toggled(st, id), id) == st
  {
    var index := FindIndex(st.services, id);
    if index != -1 {
      ToggleKnownId(st, index);
      var once := Toggled(st, id);
      ToggleKnownId(once, index);
      var twice := Toggled(once, id);
      assert twice.services == st.services;
      assert twice.favoriteIds == st.favoriteIds;
    }
  }

  /** Only a successful copy counts, and it changes nothing but the counter. */
  lemma CopyCounts(st: State, succeeded: bool)
    requires Valid(st)
    ensures Valid(Copied(st, succeeded))
    ensures Copied(st, succeeded).copies == st.copies + (if succeeded then 1 else 0)
    ensures Copied(st, succeeded).(copies := st.copies) == st
  {
  }

  /** One call: the new entry comes first and the older entries follow in
      their order. A history below its cap grows by one; a full one, or a
      loaded one already over the cap, loses only its oldest entry. */
  lemma PushCallShape(history: seq<HistoryEntry>, entry: HistoryEntry)
    ensures var h := PushCall(history, entry);
      && |h| == (if |history| < HistoryLimit then |history| + 1 else |history|)
      && h[0] == entry
      && h[1..] == history[..|h| - 1]
  {
  }

  /** Several calls in a row, oldest first. */
  function CallAll(history: seq<HistoryEntry>, entries: seq<HistoryEntry>): seq<HistoryEntry> {
    if entries == [] then history
    else PushCall(CallAll(history, entries[..|entries| - 1]), entries[|entries| - 1])
  }

  function Min(a: int, b: int): int {
    if a <= b then a else b
  }

  /** After a run of calls the history is the most recent calls, newest
      first, followed by what was there before, cut to the cap. */
  lemma {:induction false} CallAllKeepsMostRecent(history: seq<HistoryEntry>, entries: seq<HistoryEntry>)
    requires |history| <= HistoryLimit
    ensures var h := CallAll(history, entries);
      && |h| == Min(|entries| + |history|, HistoryLimit)
      && forall k :: 0 <= k < |h| ==>
           h[k] == (if k < |entries| then entries[|entries| - 1 - k] else history[k - |entries|])
  {
    if entries != [] {
      var prefix := entries[..|entries| - 1];
      CallAllKeepsMostRecent(history, prefix);
      PushCallShape(CallAll(history, prefix), entries[|entries| - 1]);
    }
  }

  /** Six calls from an empty history keep the last five, newest first; the
      first call is gone. */
  lemma SixCalls(e1: HistoryEntry, e2: HistoryEntry, e3: HistoryEntry,
                 e4: HistoryEntry, e5: HistoryEntry, e6: HistoryEntry)
    ensures CallAll([], [e1, e2, e3, e4, e5, e6]) == [e6, e5, e4, e3, e2]
  {
    CallAllKeepsMostRecent([], [e1, e2, e3, e4, e5, e6]);
  }

  /** The handlers each keep the session valid. */
  lemma HandlersKeepValid(st: State, id: int, svc: Service, time: string)
    requires Valid(st)
    ensures Valid(Toggled(st, id))
    ensures Valid(Called(st, svc, time))
    ensures Valid(Cleared(st))
    ensures Called(st, svc, time).history[0] == HistoryEntry(svc.title, svc.number, time)
    ensures Cleared(st).history == [] && Cleared(st).(history := st.history) == st
  {
    var index := FindIndex(st.services, id);
    if index != -1 {
      ToggleKnownId(st, index);
    }
    PushCallShape(st.history, HistoryEntry(svc.title, svc.number, time));
  }

  /** The `state` object with the handlers that update it in place. */
  class Session {
    var hearts: int
    var copies: int
    var history: seq<HistoryEntry>
    var favoriteIds: set<int>
    var services: seq<Service>

    function Snapshot(): State
      reads this
    {
      State(hearts, copies, history, favoriteIds, services)
    }

    /** The loaded record followed by `init`'s favourite derivation. */
    constructor (catalog: seq<Service>, saved: Saved)
      ensures Snapshot() == Init(catalog, saved)
      ensures UniqueIds(catalog) && SavedValid(saved) ==> Valid(Snapshot())
    {
      hearts := saved.hearts;
      copies := saved.copies;
      history := saved.history;
      favoriteIds := saved.favoriteIds;
      services := DeriveFavorites(catalog, saved.favoriteIds);
      InitValid(catalog, saved);
    }

    method ToggleFavorite(id: int)
      modifies this
      ensures Snapshot() == Toggled(old(Snapshot()), id)
      ensures old(Valid(Snapshot())) ==> Valid(Snapshot())
    {
      ghost var before := Snapshot();
      var index := FindIndex(services, id);
      if index > -1 {
        services := services[index := services[index].(isFavorite := !services[index].isFavorite)];
        if services[index].isFavorite {
          hearts := hearts + 1;
          favoriteIds := favoriteIds + {id};
        } else {
          hearts := Max(0, hearts - 1);
          favoriteIds := favoriteIds - {id};
        }
      }
      if Valid(before) && index > -1 {
        ToggleKnownId(before, index);
      }
    }

    /** `succeeded` is the clipboard's answer; a failure only raises an alert. */
    method CopyFinished(succeeded: bool)
      modifies this
      ensures Snapshot() == Copied(old(Snapshot()), succeeded)
      ensures old(Valid(Snapshot())) ==> Valid(Snapshot())
    {
      if succeeded {
        copies := copies + 1;
      }
    }

    /** `time` is the clock label of the call. */
    method Call(svc: Service, time: string)
      modifies this
      ensures Snapshot() == Called(old(Snapshot()), svc, time)
      ensures old(Valid(Snapshot())) ==> Valid(Snapshot())
    {
      ghost var before := Snapshot();
      history := [HistoryEntry(svc.title, svc.number, time)] + history;
      if |history| > HistoryLimit {
        history := history[..|history| - 1];
      }
      if Valid(before) {
        PushCallShape(before.history, HistoryEntry(svc.title, svc.number, time));
      }
    }

    method ClearHistory()
      modifies this
      ensures Snapshot() == Cleared(old(Snapshot()))
      ensures old(Valid(Snapshot())) ==> Valid(Snapshot())
    {
      history := [];
    }
  }
}
