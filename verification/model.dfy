/**
  Entities of the follow-relationship engine: accounts, pending follow
  requests, accepted follows, blocks, the dispatch messages handed to the
  federation workers, and the reply returned to the API caller.
 */
module Model {

  type AccountId = string

  datatype Option<T> = None | Some(value: T)

  /** An account; an empty `domain` marks a local account. */
  datatype Account = Account(id: AccountId, username: string, domain: string, locked: bool) {
    /** Follows of this account are accepted without the owner's approval. */
    predicate AutoAccepts() {
      !locked && domain == ""
    }
  }

  /** A federation object URI. The text format of generated follow URIs is
      outside the model; what matters is that a generated URI is determined
      by, and determines, the follower's username and the follow id. */
  datatype Uri = FollowUri(username: string, followId: string) | OpaqueUri(text: string)

  /** An ordered (origin, target) pair of account ids. */
  datatype Pair = Pair(origin: AccountId, target: AccountId)

  /** A pending follow, awaiting acceptance by the target. */
  datatype FollowRequest = FollowRequest(
    id: string,
    accountId: AccountId,
    targetAccountId: AccountId,
    uri: Uri,
    showReblogs: bool,
    notify: bool)
  {
    function Key(): Pair { Pair(accountId, targetAccountId) }
  }

  /** An accepted follow. */
  datatype Follow = Follow(
    id: string,
    accountId: AccountId,
    targetAccountId: AccountId,
    uri: Uri,
    showReblogs: bool,
    notify: bool)
  {
    function Key(): Pair { Pair(accountId, targetAccountId) }
  }

  /** The database as far as this engine sees it. `blocks` holds directed
      (blocker, blocked) pairs; requests and follows are keyed by their
      (account, target account) pair. */
  datatype Store = Store(
    accounts: map<AccountId, Account>,
    blocks: set<Pair>,
    requests: map<Pair, FollowRequest>,
    follows: map<Pair, Follow>)

  /** The API form of a follow: target id and optional overrides. */
  datatype FollowForm = FollowForm(id: AccountId, reblogs: Option<bool>, notify: Option<bool>)

  /** ActivityStreams names used in dispatch messages. */
  datatype ApType = ActivityFollow | ActivityCreate | ActivityUndo

  /** The model carried by a dispatch: the new request itself, or the
      transient follow-shaped record of an Undo, which holds only the two
      account ids and the URI of the removed record. */
  datatype Payload =
    | RequestModel(request: FollowRequest)
    | UndoModel(accountId: AccountId, targetAccountId: AccountId, uri: Uri)

  /** A message handed to the client-API worker queue. `target` is absent when
      the target account could not be loaded. */
  datatype Dispatch = Dispatch(
    objectType: ApType,
    activityType: ApType,
    model: Payload,
    origin: Account,
    target: Option<Account>)

  datatype ErrorCode = NotFound | NotAcceptable | Internal

  /** The relationship snapshot returned to the caller. */
  datatype Relationship = Relationship(id: AccountId, following: bool, requested: bool)

  datatype Reply = Ok(relationship: Relationship) | Err(code: ErrorCode)

  /** The result of one operation: reply, store afterwards, messages emitted. */
  datatype Outcome = Outcome(reply: Reply, store: Store, dispatched: seq<Dispatch>)

  /** Every database or id-generator call the engine makes that can fail. */
  datatype DbCall =
    | IsBlockedCall
    | GetAccountCall
    | IsFollowingCall
    | IsFollowRequestedCall
    | NewIdCall
    | PutRequestCall
    | AcceptRequestCall
    | GetRequestCall
    | DeleteRequestCall
    | GetFollowCall
    | DeleteFollowCall

  /** The result of a point lookup: found, absent, or a database error. */
  datatype Lookup<+T> = Found(value: T) | NoEntries | DbError

  /** A block exists between `a` and `b`, in either direction. */
  predicate Blocked(s: Store, a: AccountId, b: AccountId) {
    Pair(a, b) in s.blocks || Pair(b, a) in s.blocks
  }

  /** The relationship of `origin` towards `target` as the store holds it. */
  function RelationshipOf(s: Store, origin: AccountId, target: AccountId): Relationship {
    Relationship(target, Pair(origin, target) in s.follows, Pair(origin, target) in s.requests)
  }

  /** All ids of stored requests and follows. */
  function UsedIds(s: Store): set<string> {
    (set p | p in s.requests :: s.requests[p].id) + (set p | p in s.follows :: s.follows[p].id)
  }

  // ---- Store invariants ----

  /** Every record sits under its own id or pair. */
  ghost predicate WellKeyed(s: Store) {
    && (forall id :: id in s.accounts ==> s.accounts[id].id == id)
    && (forall p :: p in s.requests ==> s.requests[p].Key() == p)
    && (forall p :: p in s.follows ==> s.follows[p].Key() == p)
  }

  /** No account requests or follows itself. */
  ghost predicate NoSelfFollow(s: Store) {
    && (forall p :: p in s.requests ==> p.origin != p.target)
    && (forall p :: p in s.follows ==> p.origin != p.target)
  }

  /** A pair is either pending or accepted, never both. */
  predicate Exclusive(s: Store) {
    s.requests.Keys !! s.follows.Keys
  }

  /** Ids are unique across both tables. */
  ghost predicate UniqueIds(s: Store) {
    && (forall p, q :: p in s.requests && q in s.requests && s.requests[p].id == s.requests[q].id ==> p == q)
    && (forall p, q :: p in s.follows && q in s.follows && s.follows[p].id == s.follows[q].id ==> p == q)
    && (forall p, q :: p in s.requests && q in s.follows ==> s.requests[p].id != s.follows[q].id)
  }

  ghost predicate Invariant(s: Store) {
    WellKeyed(s) && NoSelfFollow(s) && Exclusive(s) && UniqueIds(s)
  }
}
