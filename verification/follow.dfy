/**
  The follow processor: creating a follow (or follow request) from a
  requesting account to a target, and removing it again. Each operation is
  a pure transition from a store to a reply, the store afterwards and the
  messages handed to the federation workers, in the order they are queued.
 */
module AccountFollow {
  import opened Model
  import opened Repository

  /** The request a create stores: show-reblogs defaults to on and notify to
      off, each replaced by the form's value when the form carries one. */
  function NewFollowRequest(requester: Account, form: FollowForm, newId: string): FollowRequest {
    FollowRequest(
      newId,
      requester.id,
      form.id,
      FollowUri(requester.username, newId),
      if form.reblogs.Some? then form.reblogs.value else true,
      if form.notify.Some? then form.notify.value else false)
  }

  /** Asks the workers to federate a new follow request. */
  function CreateDispatch(fr: FollowRequest, requester: Account, target: Account): Dispatch {
    Dispatch(ActivityFollow, ActivityCreate, RequestModel(fr), requester, Some(target))
  }

  /** Asks the workers to federate the undoing of the record with `uri`. */
  function UndoDispatch(requester: Account, targetId: AccountId, uri: Uri, target: Option<Account>): Dispatch {
    Dispatch(ActivityFollow, ActivityUndo, UndoModel(requester.id, targetId, uri), requester, target)
  }

  /** A successful outcome: the relationship as the store `s` holds it. */
  function Answer(s: Store, requester: Account, targetId: AccountId, dispatched: seq<Dispatch>): Outcome {
    Outcome(Ok(RelationshipOf(s, requester.id, targetId)), s, dispatched)
  }

  /** A failed outcome leaving `s` as it is and emitting nothing. */
  function Failed(s: Store, code: ErrorCode): Outcome {
    Outcome(Err(code), s, [])
  }

  /** `requester` follows the account `form.id`. */
  function FollowCreate(s: Store, requester: Account, form: FollowForm, newId: string, faults: set<DbCall>): (r: Outcome)
    // only the requester's record for this target may change
    ensures r.store.accounts == s.accounts && r.store.blocks == s.blocks
    ensures r.store.requests - {Pair(requester.id, form.id)} == s.requests - {Pair(requester.id, form.id)}
    ensures r.store.follows - {Pair(requester.id, form.id)} == s.follows - {Pair(requester.id, form.id)}
    // the reply reflects the store after the call
    ensures r.reply.Ok? ==> r.reply.relationship == RelationshipOf(r.store, requester.id, form.id)
    // a block, in either direction, and a missing target are both NotFound
    ensures r.reply == Err(NotFound) <==>
              IsBlockedCall !in faults
              && (Blocked(s, requester.id, form.id) || (GetAccountCall !in faults && form.id !in s.accounts))
    ensures r.reply == Err(NotFound) ==> r.store == s
    ensures r.reply == Err(NotAcceptable) ==>
              form.id in s.accounts && s.accounts[form.id].id == requester.id && r.store == s
    // Internal only ever comes from a failing call
    ensures faults == {} ==> r.reply != Err(Internal)
    // at most one message: the Create of the request left pending
    ensures r.reply.Err? ==> r.dispatched == []
    ensures |r.dispatched| <= 1
    ensures r.dispatched != [] ==>
              && form.id in s.accounts
              && !s.accounts[form.id].AutoAccepts()
              && Pair(requester.id, form.id) in r.store.requests
              && r.dispatched == [CreateDispatch(r.store.requests[Pair(requester.id, form.id)], requester, s.accounts[form.id])]
  {
    if IsBlockedCall in faults then Failed(s, Internal)
    else if Blocked(s, requester.id, form.id) then Failed(s, NotFound)
    else match GetAccount(s, form.id, faults)
      case NoEntries => Failed(s, NotFound)
      case DbError => Failed(s, Internal)
      case Found(target) =>
        var p := Pair(requester.id, target.id);
        if IsFollowingCall in faults then Failed(s, Internal)
        else if p in s.follows then Answer(s, requester, form.id, [])
        else if IsFollowRequestedCall in faults then Failed(s, Internal)
        else if p in s.requests then Answer(s, requester, form.id, [])
        else if requester.id == target.id then Failed(s, NotAcceptable)
        else if NewIdCall in faults then Failed(s, Internal)
        else
          var fr := NewFollowRequest(requester, form, newId);
          match PutRequest(s, fr, faults)
          case None => Failed(s, Internal)
          case Some(s1) =>
            if target.AutoAccepts() then
              match AcceptRequest(s1, requester.id, form.id, faults)
              case None => Failed(s1, Internal)
              case Some(s2) => Answer(s2, requester, form.id, [])
            else
              Answer(s1, requester, form.id, [CreateDispatch(fr, requester, target)])
  }

  /** `requester` stops following, or withdraws its request to follow,
      the account `targetId`. */
  function FollowRemove(s: Store, requester: Account, targetId: AccountId, faults: set<DbCall>): (r: Outcome)
    // accounts and blocks are untouched; records are only ever deleted
    ensures r.store.accounts == s.accounts && r.store.blocks == s.blocks
    ensures forall q :: q in r.store.requests ==> q in s.requests && r.store.requests[q] == s.requests[q]
    ensures forall q :: q in r.store.follows ==> q in s.follows && r.store.follows[q] == s.follows[q]
    // the reply reflects the store after the call
    ensures r.reply.Ok? ==> r.reply.relationship == RelationshipOf(r.store, requester.id, targetId)
    // a block, in either direction, and a missing target are both NotFound
    ensures r.reply == Err(NotFound) <==>
              IsBlockedCall !in faults
              && (Blocked(s, requester.id, targetId) || (GetAccountCall !in faults && targetId !in s.accounts))
    ensures r.reply == Err(NotFound) ==> r.store == s
    ensures faults == {} ==> r.reply != Err(Internal)
    ensures r.reply != Err(NotAcceptable)
    // a successful remove leaves nothing it could see for the pair
    ensures r.reply.Ok? && GetRequestCall !in faults ==> Pair(requester.id, targetId) !in r.store.requests
    ensures r.reply.Ok? && GetFollowCall !in faults ==> Pair(requester.id, targetId) !in r.store.follows
    // one Undo per record removed, nothing on failure
    ensures r.reply.Err? ==> r.dispatched == []
    ensures |r.dispatched| <= 2
    ensures forall d :: d in r.dispatched ==>
              && d.objectType == ActivityFollow && d.activityType == ActivityUndo && d.origin == requester
              && d.model.UndoModel? && d.model.accountId == requester.id && d.model.targetAccountId == targetId
  {
    if IsBlockedCall in faults then Failed(s, Internal)
    else if Blocked(s, requester.id, targetId) then Failed(s, NotFound)
    else
      var lookup := GetAccount(s, targetId, faults);
      if lookup.NoEntries? then Failed(s, NotFound)
      else
        // any other lookup error is ignored and the target stays unknown
        var target := if lookup.Found? then Some(lookup.value) else None;
        var p := Pair(requester.id, targetId);
        // any lookup error counts as "no such record"
        var fr := GetRequest(s, p, faults);
        var s1 := if fr.Found? then DeleteRequest(s, fr.value.id, faults) else Some(s);
        if s1.None? then Failed(s, Internal)
        else
          var f := GetFollow(s1.value, p, faults);
          var s2 := if f.Found? then DeleteFollow(s1.value, f.value.id, faults) else s1;
          if s2.None? then Failed(s1.value, Internal)
          else
            var undoRequest := if fr.Found? then [UndoDispatch(requester, targetId, fr.value.uri, target)] else [];
            var undoFollow := if f.Found? then [UndoDispatch(requester, targetId, f.value.uri, target)] else [];
            Answer(s2.value, requester, targetId, undoRequest + undoFollow)
  }
}
