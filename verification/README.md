# Follow create / remove in GoToSocial, modelled in Dafny

This project models the account follow processor of GoToSocial
(`internal/processing/account/follow.go`), the code that runs when a user
follows or unfollows another account. It proves properties of that model.

- **FollowCreate** first checks for a block in either direction, then loads the
  target account. It checks for an existing follow and then an existing follow
  request, and after that for a self-follow. If every check passes, it builds and
  stores a follow request. A local, unlocked target accepts the request at once.
  Any other target leaves it pending, and a `Create`/`Follow` message goes to the
  client-API worker queue.
- **FollowRemove** checks for a block and loads the target. It then deletes the
  pair's pending request and, independently, its accepted follow. It queues one
  `Undo`/`Follow` message for each record it deleted.

Each operation is a pure transition
`(Store, inputs, faults) -> Outcome(reply, store afterwards, messages queued)`:

- `model.dfy` (module `Model`) defines the entities and the store invariants:
  accounts, follow requests, follows, blocks, dispatch messages, replies and
  error codes.
- `repository.dfy` (module `Repository`) defines the database calls the processor
  makes, as functions over the abstract store.
- `follow.dfy` (module `AccountFollow`) defines `FollowCreate` and `FollowRemove`.
- `properties.dfy` (module `FollowProperties`) holds lemmas about guard order,
  idempotence, auto-accept, remove, the per-pair state machine and the
  invariants.
- `trace.dfy` (module `FollowTrace`) runs sequences of calls and proves that the
  invariants hold along any run.

Every database or id-generator call that can fail is a `DbCall`. The set
`faults` passed to an operation names the calls that fail during it. So every
error branch in follow.go is part of the model, except the error returns of
`RelationshipGet`, and none is excluded by a precondition. Errors are the three codes the source produces: `NotFound`,
`NotAcceptable` and `Internal`.

Some source behaviours are modelled as written, deliberately:

- If `FollowRemove` fails to look up the target with an error other than "no
  entries", it ignores the error. It goes on with no target account, so its Undo
  messages carry `None` as the target.
- `FollowRemove` treats every error from its record lookups as "no such record".
- If deleting the follow fails, `FollowRemove` returns `Internal`. The request it
  already deleted stays deleted, and no message is queued.
- An insert failure of the new request is `Internal`. It is never mapped to the
  "already exists" reply.
- A block or a missing target is reported before a self-follow. So is an existing
  relationship, which includes an existing self relationship.

Three more facts about the code that the model keeps:

- A remove whose target account does not exist returns `NotFound`
  (follow.go:136-140); it does not go on to clean up.
- A failed insert of the new request, including one refused for a duplicate
  key, is `Internal` (follow.go:98-99).
- Following oneself is `NotAcceptable` only after the block, target and
  existing-record checks have passed (follow.go:38-72).

## Model

| member | source | states |
|---|---|---|
| AccountFollow.FollowCreate | internal/processing/account/follow.go:36-122 | Only the requester's record for this target can change, and accounts and blocks never change. An Ok reply is the relationship in the store afterwards. The reply is NotFound exactly when the block check succeeds and finds a block in either direction, or when the lookup succeeds and finds no target; the store is then unchanged. NotAcceptable only for the requester's own account, with nothing changed. Internal only when some call failed. A failure queues nothing. At most one message is queued: the Create for the request left pending at a target that does not auto-accept |
| AccountFollow.FollowRemove | internal/processing/account/follow.go:125-205 | Accounts and blocks are untouched and records are only deleted, never changed. An Ok reply is the relationship afterwards. NotFound exactly for a block in either direction or a missing target, with the store unchanged. Never NotAcceptable, and Internal only when some call failed. A success leaves no request (or follow) for the pair unless its lookup failed. At most two messages are queued, each an Undo of a Follow from the requester, for this pair |
| Repository.GetAccount | internal/processing/account/follow.go:45-51 | A found account is the stored one. "No entries" is returned exactly when the lookup did not fail and the id is absent |
| Repository.GetRequest | internal/processing/account/follow.go:146-150 | A found request is the one stored for the pair. When the lookup does not fail, a stored request is always found |
| Repository.GetFollow | internal/processing/account/follow.go:161-165 | A found follow is the one stored for the pair. When the lookup does not fail, a stored follow is always found |
| Repository.PutRequest | internal/processing/account/follow.go:97-100 | Fails exactly when the insert fails. Otherwise the request is stored under its pair and nothing else changes |
| Repository.AcceptRequest | internal/processing/account/follow.go:104-106 | Succeeds only if a request is pending for the pair, and always does when the call does not fail. It leaves a follow with the request's id and URI in its place, and nothing else changes. The database's implementation is not part of this model, so this is a stated assumption, which also keeps the request's show-reblogs and notify flags |
| Repository.DeleteRequest | internal/processing/account/follow.go:152-154 | Fails exactly when the delete fails. Otherwise it removes exactly the requests with the given id, leaves the others as they were, and touches no other table |
| Repository.DeleteFollow | internal/processing/account/follow.go:167-169 | Fails exactly when the delete fails. Otherwise it removes exactly the follows with the given id, leaves the others as they were, and touches no other table |
| FollowProperties.BlockHidesTarget | internal/processing/account/follow.go:38-42 | A block in either direction makes both create and remove return NotFound, with the store unchanged and no message |
| FollowProperties.MissingTargetIsNotFound | internal/processing/account/follow.go:44-49 | A target id with no account makes both create and remove return NotFound, with the store unchanged and no message |
| FollowProperties.CreateExistingIsNoOp | internal/processing/account/follow.go:53-67 | An existing follow or request makes create return the current relationship, with no change and no message. This holds even when requester and target are the same, because these checks come before the self check |
| FollowProperties.SelfFollowRejected | internal/processing/account/follow.go:69-72 | Following oneself with nothing on record is NotAcceptable, with no change and no message |
| FollowProperties.CreateTwiceIsIdempotent | internal/processing/account/follow.go:53-67 | A second create after a successful one gives the same reply, adds no record and queues nothing |
| FollowProperties.NewRequestFields | internal/processing/account/follow.go:80-95 | The new request has origin = requester, target = the form's id, the fresh id and the URI generated from the username and id. Show-reblogs is true and notify false unless the form gives a value. It is stored pending, or as the follow the assumed accept makes from it; that the follow keeps the request's flags comes from that assumption, not from follow.go |
| FollowProperties.BlockCheckFailureIsInternal | internal/processing/account/follow.go:38-39 | A failing block check makes both create and remove return Internal, with nothing changed and nothing queued, whatever the store holds (remove: follow.go:127-130) |
| FollowProperties.CreateLookupFailureIsInternal | internal/processing/account/follow.go:45-51 | In create, a target lookup failing with anything but "no entries" is Internal, with nothing changed and nothing queued, whether or not the account exists |
| FollowProperties.CreateCheckFailureIsInternal | internal/processing/account/follow.go:53-78 | For a create that passes every guard, a failure of the block check, the target lookup, the follow check, the request check or the id generator is Internal, with nothing changed and nothing queued |
| FollowProperties.RemoveRequestDeleteFailureIsInternal | internal/processing/account/follow.go:152-154 | A failure deleting the pair's request is Internal before the follow is looked at: nothing changes and nothing is queued |
| FollowProperties.PutFailureIsInternal | internal/processing/account/follow.go:97-100 | If storing the request fails, the reply is Internal, nothing changes and nothing is queued |
| FollowProperties.AutoAcceptedFollow | internal/processing/account/follow.go:102-109 | A local, unlocked target ends with a follow for the pair and no request. The reply reports following, and no message is queued. The follow equals the one the assumed accept makes from the new request (same id, URI and flags) |
| FollowProperties.PendingRequestDispatched | internal/processing/account/follow.go:111-121 | A remote or locked target ends with the request pending and no follow. The reply reports requested, and exactly one Create/Follow message is queued, carrying that request, the requester and the target |
| FollowProperties.AcceptFailureLeavesRequest | internal/processing/account/follow.go:102-106 | If accepting fails, the reply is Internal, the stored request stays pending and nothing is queued |
| FollowProperties.RemoveCleansBoth | internal/processing/account/follow.go:135-204 | Remove deletes the pair's request and its follow. The reply reports neither. One Undo per deleted record is queued, with that record's URI, the request's Undo first. After a failed, non-"no entries" target lookup the Undos carry no target account |
| FollowProperties.DeleteRequestRemovesOnlyPair | internal/processing/account/follow.go:152 | With unique ids, deleting by the id of the pair's request removes that request only |
| FollowProperties.DeleteFollowRemovesOnlyPair | internal/processing/account/follow.go:167 | With unique ids, deleting by the id of the pair's follow removes that follow only |
| FollowProperties.RemoveTouchesOnlyPair | internal/processing/account/follow.go:143-171 | With unique ids, remove changes no request or follow other than the pair's own |
| FollowProperties.RemoveWithoutRelationshipIsNoOp | internal/processing/account/follow.go:143-204 | Remove with no request and no follow for the pair changes nothing, queues nothing, and reports neither following nor requested |
| FollowProperties.RemoveLookupErrorKeepsRequest | internal/processing/account/follow.go:147-156 | A failing request lookup counts as "no request". The request survives and no Undo is queued for it |
| FollowProperties.RemoveFollowDeleteFailureKeepsRequestDeletion | internal/processing/account/follow.go:152-169 | If deleting the follow fails, the reply is Internal. The request already deleted stays deleted, the follows are unchanged and nothing is queued |
| FollowProperties.RemoveTwiceIsIdempotent | internal/processing/account/follow.go:143-204 | A second remove after a successful one gives the same reply, changes nothing and queues nothing |
| FollowProperties.CreateThenRemovePending | internal/processing/account/follow.go:102-201 | Requesting a locked or remote account and then removing leaves no record for the pair. The messages queued are a Create and then an Undo, both with the request's URI |
| FollowProperties.CreateThenRemoveAccepted | internal/processing/account/follow.go:102-201 | Following a local unlocked account and then removing queues exactly one Undo. It carries the URI generated at create, which the accepted follow keeps |
| FollowProperties.CreateTransition | internal/processing/account/follow.go:53-121 | Per pair, create moves NoFollow to Following for a target that auto-accepts and to Requested otherwise. It leaves Requested and Following as they are |
| FollowProperties.RemoveTransition | internal/processing/account/follow.go:143-171 | Per pair, a remove with no failing call moves every state to NoFollow |
| FollowProperties.PutFreshPreservesInvariant | internal/processing/account/follow.go:82-100 | Storing a non-self request under a fresh id, for a pair with no record, keeps the store invariants |
| FollowProperties.AcceptPreservesInvariant | internal/processing/account/follow.go:104 | Accepting a pending request keeps the store invariants |
| FollowProperties.CreatePreservesInvariant | internal/processing/account/follow.go:36-122 | Whatever fails, create with a fresh id keeps the invariants. Each record sits under its own key, no account follows itself, no pair is both pending and accepted, and ids are unique |
| FollowProperties.RemovePreservesInvariant | internal/processing/account/follow.go:125-205 | Whatever fails, remove keeps the same invariants |
| FollowTrace.Run | internal/processing/account/follow.go:36-205 | Over any run of creates and removes, there is one reply per call and accounts and blocks never change. Every queued message has object type Follow, and each call queues at most two |
| FollowTrace.RunPreservesInvariant | internal/processing/account/follow.go:36-205 | Any run in which each create gets a fresh id keeps the store invariants |
| FollowTrace.RepeatedRemoveIsNoOp | internal/processing/account/follow.go:143-204 | Any number of removes where nothing exists change nothing, queue nothing, and each report neither following nor requested |
| FollowTrace.ThreeStepScenario | internal/processing/account/follow.go:36-205 | Request a locked or remote b, follow a local unlocked c, then remove b. The requester ends up following c only. The outbox is the Create for b and then the Undo for b, both with b's request URI |

## Left out

- Request context and cancellation: `context.Context` has no meaning at this level.
- Id generation: the new request's id is a parameter, and a failing generator is the `NewIdCall` fault. Freshness of the id is a hypothesis of the invariant lemmas. The time ordering of ULIDs is not modelled.
- URI generation: `Uri.FollowUri(username, id)` stands for the generated follow URI. Its text format is not modelled; only the fact that it is determined by, and determines, username and id is used.
- Repository.AcceptRequest: the database's accept operation is not part of this model. Its definition assumes the request is replaced by a follow with the same id, URI and flags.
- `RelationshipGet` is not part of this model. The reply is a snapshot holding only `following` and `requested`, computed from the store afterwards. That call cannot fail in the model.
- Worker queue: enqueueing only appends to the list of messages returned. Asynchronous delivery and the worker pool are concurrency and are left out.
- Concurrent creates and database uniqueness constraints: calls are sequential. A request stored for a pair replaces any request already there. Insert failures are never turned into the "already exists" reply, just as in the code.
- Error message texts and the HTTP statuses behind the error codes.
