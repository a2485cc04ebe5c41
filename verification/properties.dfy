/**
  Properties of follow create and remove: guard order, idempotence, the
  auto-accept rule, the Undo messages of a remove, the per-pair state
  machine, and preservation of the store invariants.
 */
module FollowProperties {
  import opened Model
  import opened Repository
  import opened AccountFollow

  /** The calls a create makes before deciding whether anything is new. */
  const CheckCalls: set<DbCall> := {IsBlockedCall, GetAccountCall, IsFollowingCall, IsFollowRequestedCall}

  /** The calls a create makes up to and including storing the request. */
  const StoreCalls: set<DbCall> := CheckCalls + {NewIdCall, PutRequestCall}

  /** The calls a remove makes that can make it fail. */
  const RemoveCalls: set<DbCall> := {IsBlockedCall, GetRequestCall, DeleteRequestCall, GetFollowCall, DeleteFollowCall}

  /** `targetId` names a stored account, under its own id, with no block
      between it and `requester`. */
  ghost predicate Reachable(s: Store, requester: Account, targetId: AccountId) {
    && !Blocked(s, requester.id, targetId)
    && targetId in s.accounts
    && s.accounts[targetId].id == targetId
  }

  /** A create that gets past every guard: reachable, not yet related, not self. */
  ghost predicate FreshCreate(s: Store, requester: Account, form: FollowForm) {
    && Reachable(s, requester, form.id)
    && Pair(requester.id, form.id) !in s.follows
    && Pair(requester.id, form.id) !in s.requests
    && requester.id != form.id
  }

  // ---- Guards ----

  /** A block in either direction hides the target from both operations. */
  lemma BlockHidesTarget(s: Store, requester: Account, form: FollowForm, newId: string, faults: set<DbCall>)
    requires IsBlockedCall !in faults
    requires Pair(requester.id, form.id) in s.blocks || Pair(form.id, requester.id) in s.blocks
    ensures FollowCreate(s, requester, form, newId, faults) == Outcome(Err(NotFound), s, [])
    ensures FollowRemove(s, requester, form.id, faults) == Outcome(Err(NotFound), s, [])
  {
  }

  /** A target id with no account is NotFound for both operations. */
  lemma MissingTargetIsNotFound(s: Store, requester: Account, form: FollowForm, newId: string, faults: set<DbCall>)
    requires IsBlockedCall !in faults && GetAccountCall !in faults
    requires !Blocked(s, requester.id, form.id)
    requires form.id !in s.accounts
    ensures FollowCreate(s, requester, form, newId, faults) == Outcome(Err(NotFound), s, [])
    ensures FollowRemove(s, requester, form.id, faults) == Outcome(Err(NotFound), s, [])
  {
  }

  /** An existing follow or request makes create a no-op that reports the
      current relationship. The existence checks come before the self-follow
      check, so this holds for a requester and target that are the same. */
  lemma CreateExistingIsNoOp(s: Store, requester: Account, form: FollowForm, newId: string, faults: set<DbCall>)
    requires faults !! CheckCalls
    requires Reachable(s, requester, form.id)
    requires Pair(requester.id, form.id) in s.follows || Pair(requester.id, form.id) in s.requests
    ensures FollowCreate(s, requester, form, newId, faults)
         == Outcome(Ok(Relationship(form.id, Pair(requester.id, form.id) in s.follows, Pair(requester.id, form.id) in s.requests)), s, [])
  {
  }

  /** Following oneself, with no self relationship on record, is NotAcceptable. */
  lemma SelfFollowRejected(s: Store, requester: Account, form: FollowForm, newId: string, faults: set<DbCall>)
    requires faults !! CheckCalls
    requires form.id == requester.id
    requires Reachable(s, requester, form.id)
    requires Pair(requester.id, form.id) !in s.follows && Pair(requester.id, form.id) !in s.requests
    ensures FollowCreate(s, requester, form, newId, faults) == Outcome(Err(NotAcceptable), s, [])
  {
  }

  /** Creating twice converges: after a create that succeeded, a second one
      adds nothing, emits nothing and gives the same reply. */
  lemma CreateTwiceIsIdempotent(s: Store, requester: Account, form: FollowForm, id1: string, id2: string, f1: set<DbCall>, f2: set<DbCall>)
    requires form.id in s.accounts && s.accounts[form.id].id == form.id
    requires FollowCreate(s, requester, form, id1, f1).reply.Ok?
    requires f2 !! CheckCalls
    ensures var first := FollowCreate(s, requester, form, id1, f1);
            FollowCreate(first.store, requester, form, id2, f2) == Outcome(first.reply, first.store, [])
  {
  }

  /** A failing block check is Internal for both operations, whatever the store holds. */
  lemma BlockCheckFailureIsInternal(s: Store, requester: Account, form: FollowForm, newId: string, faults: set<DbCall>)
    requires IsBlockedCall in faults
    ensures FollowCreate(s, requester, form, newId, faults) == Outcome(Err(Internal), s, [])
    ensures FollowRemove(s, requester, form.id, faults) == Outcome(Err(Internal), s, [])
  {
  }

  /** In create, a target lookup failing with anything but "no entries" is
      Internal, whether or not the account exists. */
  lemma CreateLookupFailureIsInternal(s: Store, requester: Account, form: FollowForm, newId: string, faults: set<DbCall>)
    requires IsBlockedCall !in faults && GetAccountCall in faults
    requires !Blocked(s, requester.id, form.id)
    ensures FollowCreate(s, requester, form, newId, faults) == Outcome(Err(Internal), s, [])
  {
  }

  /** For a create that passes every guard, a failure of any check or of the
      id generator is Internal, with nothing changed and nothing sent. */
  lemma CreateCheckFailureIsInternal(s: Store, requester: Account, form: FollowForm, newId: string, faults: set<DbCall>)
    requires faults * (CheckCalls + {NewIdCall}) != {}
    requires FreshCreate(s, requester, form)
    ensures FollowCreate(s, requester, form, newId, faults) == Outcome(Err(Internal), s, [])
  {
  }

  // ---- Building and storing the request ----

  /** The stored request has the requester as origin, the form's target, the
      fresh id and the URI generated from both, show-reblogs on and notify
      off unless the form says otherwise. It is left pending, or accepted
      into a follow with the same fields. */
  lemma NewRequestFields(s: Store, requester: Account, form: FollowForm, newId: string, faults: set<DbCall>)
    requires faults !! StoreCalls
    requires FreshCreate(s, requester, form)
    ensures var r := FollowCreate(s, requester, form, newId, faults);
            var fr := NewFollowRequest(requester, form, newId);
            && fr.id == newId
            && fr.accountId == requester.id && fr.targetAccountId == form.id
            && fr.uri == FollowUri(requester.username, newId)
            && fr.showReblogs == (if form.reblogs.Some? then form.reblogs.value else true)
            && fr.notify == (if form.notify.Some? then form.notify.value else false)
            && ((fr.Key() in r.store.requests && r.store.requests[fr.Key()] == fr)
                || (fr.Key() in r.store.follows && r.store.follows[fr.Key()] == AcceptedFollow(fr)))
  {
  }

  /** A failure to store the request is Internal, with nothing changed and nothing sent. */
  lemma PutFailureIsInternal(s: Store, requester: Account, form: FollowForm, newId: string, faults: set<DbCall>)
    requires faults !! (CheckCalls + {NewIdCall})
    requires PutRequestCall in faults
    requires FreshCreate(s, requester, form)
    ensures FollowCreate(s, requester, form, newId, faults) == Outcome(Err(Internal), s, [])
  {
  }

  // ---- Auto-accept ----

  /** A local, unlocked target accepts at once: the pair ends up following,
      nothing is pending and nothing is sent. */
  lemma AutoAcceptedFollow(s: Store, requester: Account, form: FollowForm, newId: string, faults: set<DbCall>)
    requires faults !! (StoreCalls + {AcceptRequestCall})
    requires FreshCreate(s, requester, form)
    requires s.accounts[form.id].AutoAccepts()
    ensures var r := FollowCreate(s, requester, form, newId, faults);
            var p := Pair(requester.id, form.id);
            && r.reply == Ok(Relationship(form.id, true, false))
            && p !in r.store.requests
            && p in r.store.follows
            && r.store.follows[p] == AcceptedFollow(NewFollowRequest(requester, form, newId))
            && r.dispatched == []
  {
  }

  /** A remote or locked target leaves the request pending and sends exactly
      one Create carrying it. */
  lemma PendingRequestDispatched(s: Store, requester: Account, form: FollowForm, newId: string, faults: set<DbCall>)
    requires faults !! StoreCalls
    requires FreshCreate(s, requester, form)
    requires !s.accounts[form.id].AutoAccepts()
    ensures var r := FollowCreate(s, requester, form, newId, faults);
            var p := Pair(requester.id, form.id);
            var fr := NewFollowRequest(requester, form, newId);
            && r.reply == Ok(Relationship(form.id, false, true))
            && p in r.store.requests && r.store.requests[p] == fr
            && p !in r.store.follows
            && r.dispatched == [Dispatch(ActivityFollow, ActivityCreate, RequestModel(fr), requester, Some(s.accounts[form.id]))]
  {
  }

  /** When accepting fails the stored request stays pending, the reply is
      Internal and nothing is sent. */
  lemma AcceptFailureLeavesRequest(s: Store, requester: Account, form: FollowForm, newId: string, faults: set<DbCall>)
    requires faults !! StoreCalls
    requires AcceptRequestCall in faults
    requires FreshCreate(s, requester, form)
    requires s.accounts[form.id].AutoAccepts()
    ensures var r := FollowCreate(s, requester, form, newId, faults);
            var p := Pair(requester.id, form.id);
            && r.reply == Err(Internal)
            && p in r.store.requests && r.store.requests[p] == NewFollowRequest(requester, form, newId)
            && r.dispatched == []
  {
  }

  // ---- Remove ----

  /** The account a remove passes to its Undo messages: none when the
      lookup failed, which the remove ignores. */
  function RemoveTarget(s: Store, targetId: AccountId, faults: set<DbCall>): Option<Account> {
    if GetAccountCall in faults || targetId !in s.accounts then None else Some(s.accounts[targetId])
  }

  /** Remove deletes the pair's request and, independently, its follow, and
      sends one Undo per deleted record, carrying that record's URI, the
      request's first. This holds also when the target lookup failed with an
      error other than "no entries": the Undos then carry no target account. */
  lemma RemoveCleansBoth(s: Store, requester: Account, targetId: AccountId, faults: set<DbCall>)
    requires faults !! RemoveCalls
    requires !Blocked(s, requester.id, targetId)
    requires targetId in s.accounts || GetAccountCall in faults
    ensures var r := FollowRemove(s, requester, targetId, faults);
            var p := Pair(requester.id, targetId);
            var target := RemoveTarget(s, targetId, faults);
            && r.reply == Ok(Relationship(targetId, false, false))
            && p !in r.store.requests && p !in r.store.follows
            && r.dispatched
               == (if p in s.requests then [UndoDispatch(requester, targetId, s.requests[p].uri, target)] else [])
                + (if p in s.follows then [UndoDispatch(requester, targetId, s.follows[p].uri, target)] else [])
  {
  }

  /** Deleting by the id of the pair's request deletes that request only. */
  lemma DeleteRequestRemovesOnlyPair(s: Store, p: Pair, faults: set<DbCall>)
    requires UniqueIds(s)
    requires p in s.requests && DeleteRequestCall !in faults
    ensures DeleteRequest(s, s.requests[p].id, faults) == Some(s.(requests := s.requests - {p}))
  {
    var r := DeleteRequest(s, s.requests[p].id, faults).value;
    assert r.requests == s.requests - {p} by {
      forall q | q in s.requests && q != p
        ensures q in r.requests
      {
        assert s.requests[q].id != s.requests[p].id;
      }
    }
  }

  /** Deleting by the id of the pair's follow deletes that follow only. */
  lemma DeleteFollowRemovesOnlyPair(s: Store, p: Pair, faults: set<DbCall>)
    requires UniqueIds(s)
    requires p in s.follows && DeleteFollowCall !in faults
    ensures DeleteFollow(s, s.follows[p].id, faults) == Some(s.(follows := s.follows - {p}))
  {
    var r := DeleteFollow(s, s.follows[p].id, faults).value;
    assert r.follows == s.follows - {p} by {
      forall q | q in s.follows && q != p
        ensures q in r.follows
      {
        assert s.follows[q].id != s.follows[p].id;
      }
    }
  }

  /** With ids unique, remove changes no record but the pair's own. */
  lemma RemoveTouchesOnlyPair(s: Store, requester: Account, targetId: AccountId, faults: set<DbCall>)
    requires UniqueIds(s)
    ensures var r := FollowRemove(s, requester, targetId, faults);
            var p := Pair(requester.id, targetId);
            && r.store.requests - {p} == s.requests - {p}
            && r.store.follows - {p} == s.follows - {p}
  {
    var p := Pair(requester.id, targetId);
    var fr := GetRequest(s, p, faults);
    if fr.Found? && DeleteRequestCall !in faults {
      DeleteRequestRemovesOnlyPair(s, p, faults);
      var s1 := s.(requests := s.requests - {p});
      assert UniqueIds(s1);
      if p in s1.follows && GetFollowCall !in faults && DeleteFollowCall !in faults {
        DeleteFollowRemovesOnlyPair(s1, p, faults);
      }
    } else if p in s.follows && GetFollowCall !in faults && DeleteFollowCall !in faults {
      DeleteFollowRemovesOnlyPair(s, p, faults);
    }
  }

  /** Removing where there is nothing changes nothing and sends nothing. */
  lemma RemoveWithoutRelationshipIsNoOp(s: Store, requester: Account, targetId: AccountId, faults: set<DbCall>)
    requires IsBlockedCall !in faults
    requires !Blocked(s, requester.id, targetId)
    requires targetId in s.accounts || GetAccountCall in faults
    requires Pair(requester.id, targetId) !in s.requests && Pair(requester.id, targetId) !in s.follows
    ensures FollowRemove(s, requester, targetId, faults) == Outcome(Ok(Relationship(targetId, false, false)), s, [])
  {
  }

  /** A failing lookup of the pair's request counts as "no request": the
      request survives and no Undo is sent for it. */
  lemma RemoveLookupErrorKeepsRequest(s: Store, requester: Account, targetId: AccountId, faults: set<DbCall>)
    requires faults !! {IsBlockedCall, GetFollowCall, DeleteFollowCall}
    requires GetRequestCall in faults
    requires !Blocked(s, requester.id, targetId)
    requires targetId in s.accounts || GetAccountCall in faults
    requires Pair(requester.id, targetId) in s.requests
    ensures var r := FollowRemove(s, requester, targetId, faults);
            && r.reply.Ok?
            && r.store.requests == s.requests
            && |r.dispatched| == (if Pair(requester.id, targetId) in s.follows then 1 else 0)
  {
  }

  /** A failure deleting the follow aborts with Internal after the request
      was already deleted; nothing is sent. */
  lemma RemoveFollowDeleteFailureKeepsRequestDeletion(s: Store, requester: Account, targetId: AccountId, faults: set<DbCall>)
    requires faults !! {IsBlockedCall, GetRequestCall, DeleteRequestCall, GetFollowCall}
    requires DeleteFollowCall in faults
    requires !Blocked(s, requester.id, targetId)
    requires targetId in s.accounts || GetAccountCall in faults
    requires Pair(requester.id, targetId) in s.requests && Pair(requester.id, targetId) in s.follows
    ensures var r := FollowRemove(s, requester, targetId, faults);
            && r.reply == Err(Internal)
            && Pair(requester.id, targetId) !in r.store.requests
            && r.store.follows == s.follows
            && r.dispatched == []
  {
  }

  /** A failure deleting the pair's request aborts with Internal before the
      follow is looked at: nothing changes and nothing is sent. */
  lemma RemoveRequestDeleteFailureIsInternal(s: Store, requester: Account, targetId: AccountId, faults: set<DbCall>)
    requires faults !! {IsBlockedCall, GetRequestCall}
    requires DeleteRequestCall in faults
    requires !Blocked(s, requester.id, targetId)
    requires targetId in s.accounts || GetAccountCall in faults
    requires Pair(requester.id, targetId) in s.requests
    ensures FollowRemove(s, requester, targetId, faults) == Outcome(Err(Internal), s, [])
  {
  }

  /** Removing twice converges: the second remove changes and sends nothing. */
  lemma RemoveTwiceIsIdempotent(s: Store, requester: Account, targetId: AccountId, f1: set<DbCall>, f2: set<DbCall>)
    requires f1 !! {GetRequestCall, GetFollowCall}
    requires FollowRemove(s, requester, targetId, f1).reply.Ok?
    requires IsBlockedCall !in f2
    requires targetId in s.accounts || GetAccountCall in f2
    ensures var first := FollowRemove(s, requester, targetId, f1);
            FollowRemove(first.store, requester, targetId, f2) == Outcome(first.reply, first.store, [])
  {
    var first := FollowRemove(s, requester, targetId, f1);
    RemoveWithoutRelationshipIsNoOp(first.store, requester, targetId, f2);
  }

  // ---- Create followed by remove ----

  /** Requesting a locked or remote account and then removing the follow
      leaves no record for the pair, and sends a Create and then an Undo
      for the same URI. */
  lemma CreateThenRemovePending(s: Store, requester: Account, form: FollowForm, newId: string)
    requires FreshCreate(s, requester, form)
    requires !s.accounts[form.id].AutoAccepts()
    ensures var c := FollowCreate(s, requester, form, newId, {});
            var d := FollowRemove(c.store, requester, form.id, {});
            var p := Pair(requester.id, form.id);
            var fr := NewFollowRequest(requester, form, newId);
            && d.reply == Ok(Relationship(form.id, false, false))
            && p !in d.store.requests && p !in d.store.follows
            && c.dispatched + d.dispatched
               == [CreateDispatch(fr, requester, s.accounts[form.id]),
                   UndoDispatch(requester, form.id, fr.uri, Some(s.accounts[form.id]))]
  {
  }

  /** Following a local unlocked account and then unfollowing sends one
      Undo carrying the URI generated when the follow was created. */
  lemma CreateThenRemoveAccepted(s: Store, requester: Account, form: FollowForm, newId: string)
    requires FreshCreate(s, requester, form)
    requires s.accounts[form.id].AutoAccepts()
    ensures var c := FollowCreate(s, requester, form, newId, {});
            var d := FollowRemove(c.store, requester, form.id, {});
            var p := Pair(requester.id, form.id);
            && d.reply == Ok(Relationship(form.id, false, false))
            && p !in d.store.requests && p !in d.store.follows
            && c.dispatched + d.dispatched
               == [UndoDispatch(requester, form.id, FollowUri(requester.username, newId), Some(s.accounts[form.id]))]
  {
  }

  // ---- Per-pair state machine ----

  datatype FollowState = NoFollow | Requested | Following

  /** The state of the pair `p`; a follow wins should both records exist. */
  function PairState(s: Store, p: Pair): FollowState {
    if p in s.follows then Following
    else if p in s.requests then Requested
    else NoFollow
  }

  /** Create moves NoFollow to Following for a target that auto-accepts and
      to Requested otherwise, and leaves the other states alone. */
  lemma CreateTransition(s: Store, requester: Account, form: FollowForm, newId: string)
    requires Reachable(s, requester, form.id)
    requires requester.id != form.id
    ensures var p := Pair(requester.id, form.id);
            var after := FollowCreate(s, requester, form, newId, {}).store;
            PairState(after, p)
            == (if PairState(s, p) != NoFollow then PairState(s, p)
                else if s.accounts[form.id].AutoAccepts() then Following
                else Requested)
  {
  }

  /** Remove moves every state to NoFollow. */
  lemma RemoveTransition(s: Store, requester: Account, targetId: AccountId)
    requires Reachable(s, requester, targetId)
    ensures PairState(FollowRemove(s, requester, targetId, {}).store, Pair(requester.id, targetId)) == NoFollow
  {
  }

  // ---- Invariants ----

  /** Storing a fresh, self-consistent request for an unrelated pair keeps the invariants. */
  lemma PutFreshPreservesInvariant(s: Store, fr: FollowRequest, faults: set<DbCall>)
    requires Invariant(s)
    requires PutRequestCall !in faults
    requires fr.Key() !in s.requests && fr.Key() !in s.follows
    requires fr.accountId != fr.targetAccountId
    requires fr.id !in UsedIds(s)
    ensures Invariant(PutRequest(s, fr, faults).value)
  {
  }

  /** Accepting a pending request keeps the invariants. */
  lemma AcceptPreservesInvariant(s: Store, origin: AccountId, target: AccountId, faults: set<DbCall>)
    requires Invariant(s)
    requires AcceptRequest(s, origin, target, faults).Some?
    ensures Invariant(AcceptRequest(s, origin, target, faults).value)
  {
  }

  /** Create keeps the store invariants, whatever fails, given a fresh id. */
  lemma CreatePreservesInvariant(s: Store, requester: Account, form: FollowForm, newId: string, faults: set<DbCall>)
    requires Invariant(s)
    requires newId !in UsedIds(s)
    ensures Invariant(FollowCreate(s, requester, form, newId, faults).store)
  {
    var r := FollowCreate(s, requester, form, newId, faults);
    if r.store != s {
      var fr := NewFollowRequest(requester, form, newId);
      assert form.id in s.accounts && fr.Key() !in s.requests && fr.Key() !in s.follows;
      PutFreshPreservesInvariant(s, fr, faults);
      var s1 := PutRequest(s, fr, faults).value;
      if r.store != s1 {
        AcceptPreservesInvariant(s1, requester.id, form.id, faults);
      }
    }
  }

  /** Remove keeps the store invariants, whatever fails. */
  lemma RemovePreservesInvariant(s: Store, requester: Account, targetId: AccountId, faults: set<DbCall>)
    requires Invariant(s)
    ensures Invariant(FollowRemove(s, requester, targetId, faults).store)
  {
  }
}
