/**
 * The user-history bookkeeping of the frontend
 * (apps/frontend/components/UserHistoryManager.tsx). It records the
 * signed-in user's id under "currentUserId". When an anonymous visitor
 * signs in, it copies the anonymous history to a key of that user.
 */
module UserHistoryManager {
  import opened Wrappers
  import opened BrowserStorage
  import Strings
  import ProcessingHistory
  import ClientAuth

  const UserHistoryPrefix: string := "imageProcessingHistory_"

  /** A JavaScript id is truthy when it is present and not empty. */
  predicate Truthy(id: Option<string>) {
    id.Some? && id.value != ""
  }

  /** `getUserHistoryKey(userId)`: a key of the user's own, or the anonymous history's key. */
  function GetUserHistoryKey(userId: Option<string>): (key: string)
    ensures Truthy(userId) ==> key == UserHistoryPrefix + userId.value
    ensures !Truthy(userId) ==> key == ProcessingHistory.HistoryKey
  {
    if Truthy(userId) then UserHistoryPrefix + userId.value else ProcessingHistory.HistoryKey
  }

  /**
   * Distinct users get distinct keys, and no user's key is the anonymous
   * history's key or one of the token store's keys, so a migration never
   * overwrites those.
   */
  lemma UserKeysSeparate(a: Option<string>, b: Option<string>)
    requires Truthy(a) && Truthy(b)
    ensures GetUserHistoryKey(a) == GetUserHistoryKey(b) <==> a == b
    ensures GetUserHistoryKey(a) != ProcessingHistory.HistoryKey
    ensures GetUserHistoryKey(a) != ClientAuth.AuthTokenKey && GetUserHistoryKey(a) != ClientAuth.UserIdKey
  {
    var ka, kb := GetUserHistoryKey(a), GetUserHistoryKey(b);
    if ka == kb {
      assert a.value == ka[|UserHistoryPrefix|..] == kb[|UserHistoryPrefix|..] == b.value;
    }
    assert |ka| > |ProcessingHistory.HistoryKey|;
    assert ka[0] == 'i';
  }

  /** The key a transition writes to, with the value it writes, if any. */
  function Migration(store: LocalStorage, previousUserId: Option<string>, currentUserId: Option<string>): (m: Option<(string, string)>)
    reads store
    ensures m.Some? ==> !Truthy(previousUserId) && Truthy(currentUserId)
    ensures m.Some? ==> m.value.0 == UserHistoryPrefix + currentUserId.value && m.value.1 != ""
    ensures m.Some? ==>
      store.available && ProcessingHistory.HistoryKey in store.entries &&
      m.value.1 == store.entries[ProcessingHistory.HistoryKey]
  {
    if previousUserId != currentUserId && !Truthy(previousUserId) && Truthy(currentUserId)
       && store.available && ProcessingHistory.HistoryKey in store.entries
       && store.entries[ProcessingHistory.HistoryKey] != ""
    then Some((GetUserHistoryKey(currentUserId), store.entries[ProcessingHistory.HistoryKey]))
    else None
  }

  /** Only an anonymous-to-user transition migrates, and only a non-empty anonymous history, copied to that user's key. */
  lemma MigrationOnlyFromAnonymous(store: LocalStorage, previousUserId: Option<string>, currentUserId: Option<string>)
    ensures Migration(store, previousUserId, currentUserId).Some? ==>
      !Truthy(previousUserId) && Truthy(currentUserId) &&
      Migration(store, previousUserId, currentUserId).value.0 == UserHistoryPrefix + currentUserId.value
    ensures previousUserId == currentUserId || Truthy(previousUserId) || !Truthy(currentUserId) ==>
      Migration(store, previousUserId, currentUserId).None?
  {
  }

  /**
   * `handleUserTransition(previousUserId, currentUserId)`. Equal ids do
   * nothing. From an anonymous visitor to a user, a non-empty anonymous
   * history is copied to the user's key and the anonymous key is kept. No
   * other transition writes anything, and storage errors are swallowed.
   */
  method HandleUserTransition(store: LocalStorage, previousUserId: Option<string>, currentUserId: Option<string>)
    modifies store
    ensures store.available == old(store.available)
    ensures old(Migration(store, previousUserId, currentUserId)).Some? ==>
      var m := old(Migration(store, previousUserId, currentUserId)).value;
      store.entries == old(store.entries)[m.0 := m.1]
    ensures old(Migration(store, previousUserId, currentUserId)).None? ==> store.entries == old(store.entries)
  {
    if previousUserId == currentUserId {
      return;
    }
    if !Truthy(previousUserId) && Truthy(currentUserId) {
      var anonymousHistory := store.GetItem(ProcessingHistory.HistoryKey);
      if anonymousHistory.Err? {
        return;
      }
      if anonymousHistory.value.Some? && anonymousHistory.value.value != "" {
        var _ := store.SetItem(GetUserHistoryKey(currentUserId), anonymousHistory.value.value);
      }
    }
  }

  /** The component's one-time initialisation, with the `initialized` flag it keeps. */
  class Manager {
    var initialized: bool

    constructor()
      ensures !initialized
    {
      initialized := false;
    }

    /**
     * The effect, run with Clerk's `userId` once it `isLoaded`. The first
     * run reads "currentUserId", which throws on unavailable storage. When
     * the stored id differs it runs the transition, then stores the new id,
     * or removes the key when there is none. Later runs do nothing.
     * `threw` reports the uncaught read error.
     */
    method Initialize(store: LocalStorage, userId: Option<string>, isLoaded: bool) returns (threw: bool)
      modifies this, store
      ensures !isLoaded || old(initialized) ==>
        (!threw && initialized == old(initialized) && store.entries == old(store.entries))
      ensures isLoaded && !old(initialized) ==> initialized
      ensures isLoaded && !old(initialized) && !old(store.available) ==>
        (threw && store.entries == old(store.entries))
      ensures isLoaded && !old(initialized) && old(store.available) ==>
        (!threw && store.available &&
         (Truthy(userId) ==> ClientAuth.GetUserId(store) == userId) &&
         (userId.None? ==> ClientAuth.GetUserId(store) == None))
      ensures (isLoaded && !old(initialized) && old(store.available) &&
               old(ClientAuth.GetUserId(store)) != userId) ==>
        (var m := old(Migration(store, ClientAuth.GetUserId(store), userId));
         var migrated := if m.Some? then old(store.entries)[m.value.0 := m.value.1] else old(store.entries);
         store.entries == if Truthy(userId) then migrated[ClientAuth.UserIdKey := userId.value]
                          else migrated - {ClientAuth.UserIdKey})
      ensures (isLoaded && !old(initialized) && old(store.available) &&
               old(ClientAuth.GetUserId(store)) == userId) ==> store.entries == old(store.entries)
    {
      threw := false;
      if !isLoaded || initialized {
        return;
      }
      initialized := true;
      var read := store.GetItem(ClientAuth.UserIdKey);
      if read.Err? {
        return true;
      }
      var prevUserId := read.value;
      if prevUserId != userId {
        HandleUserTransition(store, prevUserId, userId);
        if Truthy(userId) {
          var _ := store.SetItem(ClientAuth.UserIdKey, userId.value);
        } else {
          var _ := store.RemoveItem(ClientAuth.UserIdKey);
        }
      }
    }
  }
}
