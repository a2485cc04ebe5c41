/**
  Sequences of follow operations: the store they leave, the messages they
  queue and the replies they give, and the invariants that hold throughout.
 */
module FollowTrace {
  import opened Model
  import opened AccountFollow
  import opened FollowProperties

  /** One call into the follow processor, with the id the generator hands out
      to a create and the calls that fail during it. */
  datatype Call =
    | CreateCall(requester: Account, form: FollowForm, newId: string, faults: set<DbCall>)
    | RemoveCall(requester: Account, targetId: AccountId, faults: set<DbCall>)

  function Apply(s: Store, c: Call): Outcome {
    match c
    case CreateCall(requester, form, newId, faults) => FollowCreate(s, requester, form, newId, faults)
    case RemoveCall(requester, targetId, faults) => FollowRemove(s, requester, targetId, faults)
  }

  /** The store after a run, every message queued in order, and every reply. */
  datatype History = History(store: Store, outbox: seq<Dispatch>, replies: seq<Reply>)

  function Run(s: Store, calls: seq<Call>): (h: History)
    ensures |h.replies| == |calls|
    // the engine never changes accounts or blocks
    ensures h.store.accounts == s.accounts && h.store.blocks == s.blocks
    // every message is about a follow, and each call queues at most two
    ensures forall d :: d in h.outbox ==> d.objectType == ActivityFollow
    ensures |h.outbox| <= 2 * |calls|
    decreases |calls|
  {
    if calls == [] then History(s, [], [])
    else
      var o := Apply(s, calls[0]);
      var rest := Run(o.store, calls[1..]);
      History(rest.store, o.dispatched + rest.outbox, [o.reply] + rest.replies)
  }

  /** Every create in the run is handed an id not yet used in the store it runs on. */
  ghost predicate FreshIds(s: Store, calls: seq<Call>)
    decreases |calls|
  {
    calls == []
    || (&& (calls[0].CreateCall? ==> calls[0].newId !in UsedIds(s))
        && FreshIds(Apply(s, calls[0]).store, calls[1..]))
  }

  /** Any run with fresh ids keeps the store invariants: records under their
      own keys, no self follows, no pair both pending and accepted, unique ids. */
  lemma {:induction false} RunPreservesInvariant(s: Store, calls: seq<Call>)
    requires Invariant(s)
    requires FreshIds(s, calls)
    ensures Invariant(Run(s, calls).store)
    decreases |calls|
  {
    if calls != [] {
      match calls[0] {
        case CreateCall(requester, form, newId, faults) =>
          CreatePreservesInvariant(s, requester, form, newId, faults);
        case RemoveCall(requester, targetId, faults) =>
          RemovePreservesInvariant(s, requester, targetId, faults);
      }
      RunPreservesInvariant(Apply(s, calls[0]).store, calls[1..]);
    }
  }

  /** A remove with nothing to remove may be repeated any number of times:
      a run of such removes changes nothing and queues nothing. */
  lemma {:induction false} RepeatedRemoveIsNoOp(s: Store, requester: Account, targetId: AccountId, n: nat)
    requires !Blocked(s, requester.id, targetId) && targetId in s.accounts
    requires Pair(requester.id, targetId) !in s.requests && Pair(requester.id, targetId) !in s.follows
    ensures var h := Run(s, seq(n, _ => RemoveCall(requester, targetId, {})));
            h.store == s && h.outbox == []
            && forall i :: 0 <= i < n ==> h.replies[i] == Ok(Relationship(targetId, false, false))
    decreases n
  {
    var calls := seq(n, _ => RemoveCall(requester, targetId, {}));
    if n > 0 {
      RemoveWithoutRelationshipIsNoOp(s, requester, targetId, {});
      RepeatedRemoveIsNoOp(s, requester, targetId, n - 1);
      assert calls[1..] == seq(n - 1, _ => RemoveCall(requester, targetId, {}));
    }
  }

  /** A run of three calls, spelled out step by step. */
  lemma RunOfThree(s: Store, c1: Call, c2: Call, c3: Call)
    ensures var o1 := Apply(s, c1);
            var o2 := Apply(o1.store, c2);
            var o3 := Apply(o2.store, c3);
            Run(s, [c1, c2, c3])
            == History(o3.store, o1.dispatched + o2.dispatched + o3.dispatched, [o1.reply, o2.reply, o3.reply])
  {
    var o1 := Apply(s, c1);
    var o2 := Apply(o1.store, c2);
    var o3 := Apply(o2.store, c3);
    assert [c3][1..] == [];
    assert Run(o2.store, [c3]) == History(o3.store, o3.dispatched, [o3.reply]);
    assert [c2, c3][1..] == [c3];
    assert Run(o1.store, [c2, c3]) == History(o3.store, o2.dispatched + o3.dispatched, [o2.reply, o3.reply]);
    assert [c1, c2, c3][1..] == [c2, c3];
    assert o1.dispatched + (o2.dispatched + o3.dispatched) == o1.dispatched + o2.dispatched + o3.dispatched;
  }

  /** Requesting a locked or remote account b, then following a local
      unlocked account c, then removing the follow of b: the requester ends
      up following c only, and the outbox holds the Create for b and then
      the Undo for b, both with the URI generated for b's request. */
  lemma ThreeStepScenario(s: Store, a: Account, b: FollowForm, c: FollowForm, idB: string, idC: string)
    requires FreshCreate(s, a, b) && FreshCreate(s, a, c)
    requires b.id != c.id
    requires !s.accounts[b.id].AutoAccepts() && s.accounts[c.id].AutoAccepts()
    ensures var h := Run(s, [CreateCall(a, b, idB, {}), CreateCall(a, c, idC, {}), RemoveCall(a, b.id, {})]);
            var frB := NewFollowRequest(a, b, idB);
            && PairState(h.store, Pair(a.id, b.id)) == NoFollow
            && PairState(h.store, Pair(a.id, c.id)) == Following
            && h.outbox == [CreateDispatch(frB, a, s.accounts[b.id]), UndoDispatch(a, b.id, frB.uri, Some(s.accounts[b.id]))]
            && h.replies == [Ok(Relationship(b.id, false, true)), Ok(Relationship(c.id, true, false)), Ok(Relationship(b.id, false, false))]
  {
    RunOfThree(s, CreateCall(a, b, idB, {}), CreateCall(a, c, idC, {}), RemoveCall(a, b.id, {}));
    PendingRequestDispatched(s, a, b, idB, {});
    var o1 := FollowCreate(s, a, b, idB, {});
    assert FreshCreate(o1.store, a, c);
    AutoAcceptedFollow(o1.store, a, c, idC, {});
    var o2 := FollowCreate(o1.store, a, c, idC, {});
    assert o2.store.requests[Pair(a.id, b.id)] == NewFollowRequest(a, b, idB);
    assert Pair(a.id, b.id) !in o2.store.follows;
    RemoveCleansBoth(o2.store, a, b.id, {});
    var o3 := FollowRemove(o2.store, a, b.id, {});
    assert o3.store.follows == o2.store.follows;
  }
}
