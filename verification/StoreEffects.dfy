/** What recording a model call does to all the tables at once, field by field
    (internal/storage/sqlite/store.go). */
module StoreEffects {
  import opened Basics
  import opened Text
  import opened AuditChain
  import opened Calls
  import opened StoreRuns
  import Allocations
  import AllocationEffects
  import Capacity
  import Interactions

  // The call can be recorded: it has a total that fits, names its provider and model, is
  // the first of its event, has a new id, and its keys and observations can be stored.
  predicate Recordable(db: Db, i: CallInput, id: string, keysResolve: bool) {
    && CallTotal(i).Some? && TrimSpace(i.provider) != "" && TrimSpace(i.model) != ""
    && (i.rawEventId == "" ||
        forall k :: 0 <= k < |db.calls.calls| ==> db.calls.calls[k].rawEventId != i.rawEventId)
    && 0 <= TotalTokens(db.calls.calls) && TotalTokens(db.calls.calls) + CallTotal(i).value <= MAX_INT64
    && keysResolve && (i.project == "" || i.project in db.books.projects)
    && (forall k :: 0 <= k < |db.calls.calls| ==> db.calls.calls[k].id != id)
    && Observable(i.metrics)
  }

  // The allocation of a new call: known under its session and, for a project, wholly its.
  predicate Allocated(before: Allocations.Books, after: Allocations.Books, i: CallInput, id: string, revisionId: string,
      createdAt: string) {
    && after.calls == before.calls[id := i.session]
    && if i.project == "" then after == before.(calls := after.calls)
       else |after.history| > 0 &&
            var r := after.history[|after.history| - 1];
            && AllocationEffects.Adds(before, after, r) && AllocationEffects.WholeOf(r, i.project, "direct")
            && r.id == revisionId && r.call == id && r.key == "direct:" + id && r.createdAt == createdAt
  }

  lemma FreshIdExactly(calls: seq<ModelCall>, id: string)
    ensures !Capacity.HasId(calls, id) <==> forall k :: 0 <= k < |calls| ==> calls[k].id != id
  {
  }

  lemma RecordsCall(sha: Sha, db: Db, i: CallInput, id: string, keysResolve: bool)
    requires Whole(sha, db)
    ensures var before := db.calls.calls;
            var after := Capacity.Record(db.calls, i, id, KeysResolve(db, i, keysResolve)).calls;
            if Recordable(db, i, id, keysResolve)
            then |after| == |before| + 1 && after[..|before|] == before
                 && StoresInput(after[|before|], i, id, CallTotal(i).value)
            else after == before
  {
    hide CallTotal;
    hide TotalTokens;
    hide TrimSpace;
    hide Observable;
    hide StoresInput;
    hide Recorded;
    hide Capacity.Record;
    hide Capacity.Sound;
    hide Capacity.HasId;
    var resolved := KeysResolve(db, i, keysResolve) && !Capacity.HasId(db.calls.calls, id);
    CacheSound(sha, db);
    Capacity.RecordSound(db.calls, i, id, KeysResolve(db, i, keysResolve));
    RecordedExactly(db.calls.calls, i, id, resolved);
    FreshIdExactly(db.calls.calls, id);
  }

  lemma CacheSound(sha: Sha, db: Db)
    requires Whole(sha, db)
    ensures Capacity.Sound(db.calls) && db.books.calls == SessionsOf(db.calls.calls)
  {
    hide Capacity.Sound;
  }

  // Main result: in every state a run reaches, recording a call that can be recorded adds
  // its row, the prompt that was looked up for it, and its first allocation; recording any
  // other call changes nothing but, at most, what is cached.
  lemma RecordStoresAll(sha: Sha, db: Db, i: CallInput, id: string, keysResolve: bool, source: string, upstream: string,
                        revisionId: string, createdAt: string)
    requires Whole(sha, db)
    ensures var after := Step(sha, db, RecordOp(i, id, keysResolve, source, upstream, revisionId, createdAt));
            && after.ledger == db.ledger && after.prompts.interactions == db.prompts.interactions
            && after.prompts.tools == db.prompts.tools
            && if Recordable(db, i, id, keysResolve) then
                 && |after.calls.calls| == |db.calls.calls| + 1
                 && after.calls.calls[..|db.calls.calls|] == db.calls.calls
                 && StoresInput(after.calls.calls[|db.calls.calls|], i, id, CallTotal(i).value)
                 && Allocated(db.books, after.books, i, id, revisionId, createdAt)
                 && after.prompts.calls == db.prompts.calls
                      + [Interactions.Child(i.rawEventId, i.session, upstream,
                                            Interactions.Parent(db.prompts.interactions, source, i.session, upstream))]
               else
                 after.calls.calls == db.calls.calls && after.books == db.books && after.prompts == db.prompts
  {
    hide Whole;
    hide CallTotal;
    hide TotalTokens;
    hide TrimSpace;
    hide Observable;
    hide StoresInput;
    hide Capacity.Record;
    hide Interactions.Parent;
    hide Allocations.RecordCall;
    hide Allocated;
    RecordsCall(sha, db, i, id, keysResolve);
    if Recordable(db, i, id, keysResolve) {
      AllocatesCall(sha, db, i, id, keysResolve, revisionId, createdAt);
    }
  }

  lemma AllocatesCall(sha: Sha, db: Db, i: CallInput, id: string, keysResolve: bool, revisionId: string,
      createdAt: string)
    requires Whole(sha, db) && Recordable(db, i, id, keysResolve)
    ensures Allocated(db.books, Allocations.RecordCall(sha, db.books, id, i.session, i.project, revisionId, createdAt),
                      i, id, revisionId, createdAt)
  {
    hide Whole;
    hide CallTotal;
    hide TotalTokens;
    hide TrimSpace;
    hide Observable;
    hide Allocations.RecordCall;
    hide AllocationEffects.Adds;
    hide AllocationEffects.WholeOf;
    hide SessionsOf;
    CacheSound(sha, db);
    FreshIdExactly(db.calls.calls, id);
    SessionsKeys(db.calls.calls, id);
    AllocationEffects.NewCallAdds(sha, db.books, id, i.session, i.project, revisionId, createdAt);
  }
}
