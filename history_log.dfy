/**
 * The history table of the blog app (a key-value table keyed by the pair
 * (application, history_id)) and the three operations on it: `createItem`,
 * `updateBlogStatus` and `getAllItems`. A failing call to the table is a
 * parameter; every operation rethrows it.
 */
module HistoryLog {
  import opened Wrappers

  /** A stored history record; timestamps are the ISO strings the callers pass. */
  datatype HistoryItem = HistoryItem(
    application: string,
    historyId: string,
    createdAt: string,
    updatedAt: string,
    userEmail: string,
    status: string)

  /** The `payload` of a history message. */
  datatype Payload = Payload(
    application: string,
    historyId: string,
    createdAt: string,
    updatedAt: string,
    userEmail: string,
    status: string)

  /** A history message: its payload and the user it was written for. */
  datatype Message = Message(payload: Payload, contextUser: string)

  type Key = (string, string)

  /** The partition key value every history record uses. */
  const HistoryApp: string := "history"

  function KeyOf(item: HistoryItem): Key {
    (item.application, item.historyId)
  }

  /** The item `createItem` writes: the six payload fields; `context_user` is not stored. */
  function ItemOf(p: Payload): (item: HistoryItem)
    ensures item.application == p.application && item.historyId == p.historyId
    ensures item.createdAt == p.createdAt && item.updatedAt == p.updatedAt
    ensures item.userEmail == p.userEmail && item.status == p.status
  {
    HistoryItem(p.application, p.historyId, p.createdAt, p.updatedAt, p.userEmail, p.status)
  }

  /** Success, or the table's error rethrown to the caller. */
  datatype Outcome = Done | Thrown

  /** Every item is stored under its own key. */
  predicate WellKeyed(items: map<Key, HistoryItem>) {
    forall k :: k in items ==> KeyOf(items[k]) == k
  }

  /**
   * The table after `updateBlogStatus(blogId, status, userEmail)`, where
   * `createdNow` and `now` are the two clock readings of a new record's
   * `created_at` and `updated_at` (an update reads only `now`): the record
   * of the blog gets the status; an existing record keeps its creation time
   * and e-mail; no other record changes.
   */
  function Upsert(items: map<Key, HistoryItem>, blogId: string, status: string, userEmail: string,
                  createdNow: string, now: string)
    : (m: map<Key, HistoryItem>)
    ensures m.Keys == items.Keys + {(HistoryApp, blogId)}
    ensures m[(HistoryApp, blogId)].status == status && m[(HistoryApp, blogId)].updatedAt == now
    ensures forall k :: k in items && k != (HistoryApp, blogId) ==> m[k] == items[k]
    ensures (HistoryApp, blogId) in items ==>
              m[(HistoryApp, blogId)] == items[(HistoryApp, blogId)].(status := status, updatedAt := now)
    ensures (HistoryApp, blogId) !in items ==>
              m[(HistoryApp, blogId)].createdAt == createdNow && m[(HistoryApp, blogId)].userEmail == userEmail
              && KeyOf(m[(HistoryApp, blogId)]) == (HistoryApp, blogId)
  {
    var k := (HistoryApp, blogId);
    if k in items then items[k := items[k].(status := status, updatedAt := now)]
    else items[k := HistoryItem(HistoryApp, blogId, createdNow, now, userEmail, status)]
  }

  /** The upsert keeps every record under its own key, so there is one record per blog. */
  lemma UpsertWellKeyed(items: map<Key, HistoryItem>, blogId: string, status: string, userEmail: string,
                        createdNow: string, now: string)
    requires WellKeyed(items)
    ensures WellKeyed(Upsert(items, blogId, status, userEmail, createdNow, now))
  {
  }

  /** Repeating an upsert with the same arguments changes nothing more. */
  lemma UpsertIdempotent(items: map<Key, HistoryItem>, blogId: string, status: string, userEmail: string,
                         createdNow: string, now: string)
    ensures Upsert(Upsert(items, blogId, status, userEmail, createdNow, now), blogId, status, userEmail, createdNow, now)
            == Upsert(items, blogId, status, userEmail, createdNow, now)
  {
  }

  class HistoryTable {
    var items: map<Key, HistoryItem>

    ghost predicate Valid()
      reads this
    {
      WellKeyed(items)
    }

    constructor()
      ensures Valid() && items == map[]
    {
      items := map[];
    }

    /** `createItem`: a put of the payload's six fields, replacing any item with that key. */
    method CreateItem(msg: Message, storeFails: bool) returns (r: Outcome)
      requires Valid()
      modifies this
      ensures Valid()
      ensures r == (if storeFails then Thrown else Done)
      ensures items == if storeFails then old(items)
                       else old(items)[KeyOf(ItemOf(msg.payload)) := ItemOf(msg.payload)]
    {
      if storeFails {
        return Thrown;
      }
      var item := HistoryItem(msg.payload.application, msg.payload.historyId,
                              msg.payload.createdAt, msg.payload.updatedAt,
                              msg.payload.userEmail, msg.payload.status);
      items := items[(item.application, item.historyId) := item];
      r := Done;
    }

    /**
     * `updateBlogStatus`: a get of ('history', blogId), then a put of a new
     * item when there is none, or else an update of `status` and
     * `updated_at` only. `createdNow` and `now` are the clock readings of
     * `created_at` and `updated_at`.
     */
    method UpdateBlogStatus(blogId: string, status: string, userEmail: string, createdNow: string, now: string,
                            storeFails: bool)
      returns (r: Outcome)
      requires Valid()
      modifies this
      ensures Valid()
      ensures r == (if storeFails then Thrown else Done)
      ensures items == if storeFails then old(items) else Upsert(old(items), blogId, status, userEmail, createdNow, now)
    {
      if storeFails {
        return Thrown;
      }
      var key := (HistoryApp, blogId);
      if key !in items {
        items := items[key := HistoryItem(HistoryApp, blogId, createdNow, now, userEmail, status)];
        UpsertWellKeyed(old(items), blogId, status, userEmail, createdNow, now);
        return Done;
      }
      var existing := items[key];
      items := items[key := existing.(status := status, updatedAt := now)];
      UpsertWellKeyed(old(items), blogId, status, userEmail, createdNow, now);
      r := Done;
    }

    /**
     * `getAllItems`: the query on partition 'history', i.e. every item whose
     * application is 'history', each once; the empty list when there is
     * none; `None` when the table call fails.
     */
    method GetAllItems(storeFails: bool) returns (r: Option<seq<HistoryItem>>)
      requires Valid()
      ensures r.None? <==> storeFails
      ensures r.Some? ==> forall k :: k in items ==> (items[k] in r.value <==> k.0 == HistoryApp)
      ensures r.Some? ==> forall x :: x in r.value ==> KeyOf(x) in items && items[KeyOf(x)] == x
      ensures r.Some? ==> forall i, j :: 0 <= i < j < |r.value| ==> r.value[i] != r.value[j]
    {
      if storeFails {
        return None;
      }
      var acc: seq<HistoryItem> := [];
      var todo := items.Keys;
      while todo != {}
        invariant todo <= items.Keys
        invariant forall x :: x in acc ==>
          KeyOf(x) in items && items[KeyOf(x)] == x && KeyOf(x) !in todo && x.application == HistoryApp
        invariant forall k :: k in items && k !in todo && k.0 == HistoryApp ==> items[k] in acc
        invariant forall i, j :: 0 <= i < j < |acc| ==> acc[i] != acc[j]
        decreases todo
      {
        var k :| k in todo;
        if k.0 == HistoryApp {
          acc := acc + [items[k]];
        }
        todo := todo - {k};
      }
      r := Some(acc);
    }
  }
}
