/** The lock actor as a value: what one activation holds, and what each of its turns does to it. */
module GrainModel {
  import opened Common
  import opened Domain

  /**
   * `cached` is the lock loaded on activation, `accesses` the in-memory list, and `pending` the
   * local count of a flush that is suspended at its await, if there is one.
   */
  datatype GrainState = GrainState(cached: Option<Lock>, accesses: seq<Entry>, pending: Option<nat>)

  function Activated(locks: Locks, key: string): GrainState {
    GrainState(FindLock(locks, key), [], None)
  }

  /** Any role of the lock is among the requester's roles. */
  function Decide(lock: Lock, roles: seq<string>): AccessResult {
    if exists r :: r in lock.roles && r in roles then Granted else Denied
  }

  /** A lock opens exactly if the two role lists meet. */
  lemma DecidedByCommonRole(lock: Lock, roles: seq<string>)
    ensures Decide(lock, roles) == if (set r | r in lock.roles) * (set r | r in roles) != {} then Granted else Denied
  {
    if r :| r in lock.roles && r in roles {
      assert r in (set r | r in lock.roles) * (set r | r in roles);
    }
  }

  /** The reply to a request. */
  function Answer(g: GrainState, roles: seq<string>): AccessResult {
    match g.cached
    case None => Denied
    case Some(lock) => Decide(lock, roles)
  }

  /** The grain after a request: on an existing lock one entry is appended. */
  function Requested(g: GrainState, requester: Option<string>, roles: seq<string>, employee: Option<string>, now: int)
    : GrainState
  {
    match g.cached
    case None => g
    case Some(lock) =>
      g.(accesses := g.accesses + [Entry(lock.id, now, Decide(lock, roles), requester, employee)])
  }

  /** The messages a request hands to the connector. */
  function Outgoing(g: GrainState, roles: seq<string>): seq<Message> {
    match g.cached
    case None => []
    case Some(lock) => [Message(lock.id, Decide(lock, roles))]
  }

  /** The flush up to its await. With an empty list it returns at once. */
  function FlushStarted(g: GrainState): GrainState {
    if g.accesses == [] then g else g.(pending := Some(|g.accesses|))
  }

  /** The flush after its await: the first `pending` entries go (removing more than there are would throw). */
  function FlushResumed(g: GrainState): GrainState {
    if g.pending.Some? && g.pending.value <= |g.accesses|
    then g.(accesses := g.accesses[g.pending.value..], pending := None)
    else g.(pending := None)
  }

  /** The flush when its save throws: the list keeps every entry. */
  function FlushFaulted(g: GrainState): GrainState {
    g.(pending := None)
  }
}
