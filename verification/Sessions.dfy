/**
 * Administrator sessions with a rolling lifetime: an in-memory cache over a persistent store whose
 * cleanup is throttled. The cache refines a store-only implementation.
 *
 * Tokens stand for their digests; `csrfOf` is the keyed derivation of the CSRF token. Times are
 * integers, so the store's timestamps are exact.
 */
module Sessions {
  import opened Wrappers

  datatype Session = Session(csrf: string, expiresAt: int, lastSeenAt: int)

  datatype Stored = Stored(expiresAt: int, lastSeenAt: int)

  datatype Settings = Settings(ttl: int, pruneInterval: int, persistent: bool, csrfOf: string -> string)

  datatype State = State(cache: map<string, Session>, store: map<string, Stored>, lastPruneAt: Option<int>)

  datatype Answer = Accepted(csrf: string, expiresAt: int, renewed: bool) | SessionFailed | CsrfInvalid

  // ----- what each operation does -----

  function LiveCache(cache: map<string, Session>, now: int): map<string, Session> {
    map t | t in cache && cache[t].expiresAt > now :: cache[t]
  }

  function LiveStore(store: map<string, Stored>, now: int): map<string, Stored> {
    map t | t in store && store[t].expiresAt > now :: store[t]
  }

  function Prune(c: Settings, s: State, now: int, force: bool): State {
    var s' := s.(cache := LiveCache(s.cache, now));
    if !c.persistent || (!force && s.lastPruneAt.Some? && now - s.lastPruneAt.value < c.pruneInterval) then s'
    else s'.(lastPruneAt := Some(now), store := LiveStore(s.store, now))
  }

  function Create(c: Settings, s: State, token: string, now: int): State {
    var s' := Prune(c, s, now, false);
    s'.(cache := s'.cache[token := Session(c.csrfOf(token), now + c.ttl, now)],
        store := if c.persistent then s'.store[token := Stored(now + c.ttl, now)] else s'.store)
  }

  /** Fill the cache from the store when the token is only there and has not expired. */
  function Load(c: Settings, s: State, token: string, now: int): State {
    if token !in s.cache && c.persistent && token in s.store && s.store[token].expiresAt > now then
      var p := s.store[token];
      s.(cache := s.cache[token := Session(c.csrfOf(token), p.expiresAt,
                                           if p.lastSeenAt == 0 then now else p.lastSeenAt)])
    else s
  }

  predicate CsrfOk(csrf: Option<string>, expected: string) {
    csrf.Some? && csrf.value != "" && csrf.value == expected
  }

  function Authenticate(c: Settings, s: State, token: Option<string>, csrf: Option<string>, requireCsrf: bool, now: int)
    : (State, Answer)
  {
    if token == None || token.value == "" then (s, SessionFailed)
    else
      var t := token.value;
      var s' := Load(c, Prune(c, s, now, false), t, now);
      if t !in s'.cache || s'.cache[t].expiresAt <= now then (s', SessionFailed)
      else if requireCsrf && !CsrfOk(csrf, s'.cache[t].csrf) then (s', CsrfInvalid)
      else
        var session := s'.cache[t];
        (s'.(cache := s'.cache[t := Session(session.csrf, now + c.ttl, now)],
             store := if c.persistent then s'.store[t := Stored(now + c.ttl, now)] else s'.store),
         Accepted(session.csrf, now + c.ttl, now + c.ttl > session.expiresAt))
  }

  function Revoke(c: Settings, s: State, token: Option<string>): State {
    if token == None || token.value == "" then s
    else s.(cache := s.cache - {token.value}, store := if c.persistent then s.store - {token.value} else s.store)
  }

  function RevokeAll(c: Settings, s: State): State {
    s.(cache := map[], store := if c.persistent then map[] else s.store)
  }

  // ----- the manager -----

  class SessionManager {
    const settings: Settings
    var sessions: map<string, Session>
    var stored: map<string, Stored>   // the session store, which outlives the manager
    var lastPruneAt: Option<int>

    function Snapshot(): State
      reads this
    {
      State(sessions, stored, lastPruneAt)
    }

    constructor (settings: Settings, stored: map<string, Stored>)
      ensures this.settings == settings && Snapshot() == State(map[], stored, None)
    {
      this.settings := settings;
      this.stored := stored;
      sessions := map[];
      lastPruneAt := None;
    }

    method PruneLocked(now: int, force: bool)
      modifies this
      ensures Snapshot() == Prune(settings, old(Snapshot()), now, force)
    {
      sessions := map t | t in sessions && sessions[t].expiresAt > now :: sessions[t];
      if !settings.persistent {
        return;
      }
      if !force && lastPruneAt.Some? && now - lastPruneAt.value < settings.pruneInterval {
        return;
      }
      lastPruneAt := Some(now);
      stored := map t | t in stored && stored[t].expiresAt > now :: stored[t];
    }

    /** `token` is the freshly drawn random token. */
    method CreateSession(token: string, now: int) returns (csrf: string, expiresAt: int)
      modifies this
      ensures Snapshot() == Create(settings, old(Snapshot()), token, now)
      ensures csrf == settings.csrfOf(token) && expiresAt == now + settings.ttl
    {
      csrf := settings.csrfOf(token);
      expiresAt := now + settings.ttl;
      PruneLocked(now, false);
      sessions := sessions[token := Session(csrf, expiresAt, now)];
      if settings.persistent {
        stored := stored[token := Stored(expiresAt, now)];
      }
    }

    method AuthenticateSession(token: Option<string>, csrf: Option<string>, requireCsrf: bool, now: int)
      returns (answer: Answer)
      modifies this
      ensures (Snapshot(), answer) == Authenticate(settings, old(Snapshot()), token, csrf, requireCsrf, now)
    {
      if token == None || token.value == "" {
        return SessionFailed;
      }
      var t := token.value;
      PruneLocked(now, false);
      if t !in sessions && settings.persistent && t in stored {
        var p := stored[t];
        if p.expiresAt > now {
          var lastSeen := if p.lastSeenAt == 0 then now else p.lastSeenAt;
          sessions := sessions[t := Session(settings.csrfOf(t), p.expiresAt, lastSeen)];
        }
      }
      if t !in sessions || sessions[t].expiresAt <= now {
        return SessionFailed;
      }
      if requireCsrf {
        if csrf == None || csrf.value == "" {
          return CsrfInvalid;
        }
        if csrf.value != sessions[t].csrf {
          return CsrfInvalid;
        }
      }
      var oldExpiry := sessions[t].expiresAt;
      var csrfToken := sessions[t].csrf;
      sessions := sessions[t := Session(csrfToken, now + settings.ttl, now)];
      if settings.persistent {
        stored := stored[t := Stored(now + settings.ttl, now)];
      }
      return Accepted(csrfToken, now + settings.ttl, now + settings.ttl > oldExpiry);
    }

    method RevokeSession(token: Option<string>)
      modifies this
      ensures Snapshot() == Revoke(settings, old(Snapshot()), token)
    {
      if token == None || token.value == "" {
        return;
      }
      sessions := sessions - {token.value};
      if settings.persistent {
        stored := stored - {token.value};
      }
    }

    method RevokeAllSessions()
      modifies this
      ensures Snapshot() == RevokeAll(settings, old(Snapshot()))
    {
      sessions := map[];
      if settings.persistent {
        stored := map[];
      }
    }
  }

  // ----- the store-only implementation -----

  datatype Op =
    | DoCreate(newToken: string, now: int)
    | DoAuthenticate(token: Option<string>, csrf: Option<string>, requireCsrf: bool, now: int)
    | DoRevoke(token: Option<string>, now: int)
    | DoRevokeAll(now: int)
    | DoPrune(now: int)
    | Restart(now: int)   // the process restarts: the cache and the prune timer are lost

  function Step(c: Settings, s: State, op: Op): (State, Option<Answer>) {
    match op
    case DoCreate(token, now) => (Create(c, s, token, now), None)
    case DoAuthenticate(token, csrf, requireCsrf, now) =>
      var (s', a) := Authenticate(c, s, token, csrf, requireCsrf, now);
      (s', Some(a))
    case DoRevoke(token, _) => (Revoke(c, s, token), None)
    case DoRevokeAll(_) => (RevokeAll(c, s), None)
    case DoPrune(now) => (Prune(c, s, now, true), None)
    case Restart(_) => (State(map[], s.store, None), None)
  }

  /** The reference: one table from token to expiry, no cache, no cleanup. */
  function RefStep(c: Settings, ref: map<string, int>, op: Op): (map<string, int>, Option<Answer>) {
    match op
    case DoCreate(token, now) => (ref[token := now + c.ttl], None)
    case DoAuthenticate(token, csrf, requireCsrf, now) =>
      if token == None || token.value == "" || token.value !in ref || ref[token.value] <= now then
        (ref, Some(SessionFailed))
      else if requireCsrf && !CsrfOk(csrf, c.csrfOf(token.value)) then (ref, Some(CsrfInvalid))
      else
        (ref[token.value := now + c.ttl],
         Some(Accepted(c.csrfOf(token.value), now + c.ttl, now + c.ttl > ref[token.value])))
    case DoRevoke(token, _) => (if token == None || token.value == "" then ref else ref - {token.value}, None)
    case DoRevokeAll(_) => (map[], None)
    case DoPrune(_) => (ref, None)
    case Restart(_) => (ref, None)
  }

  function Answers(c: Settings, s: State, ops: seq<Op>): (r: seq<Option<Answer>>)
    ensures |r| == |ops|
    decreases |ops|
  {
    if ops == [] then [] else [Step(c, s, ops[0]).1] + Answers(c, Step(c, s, ops[0]).0, ops[1..])
  }

  function RefAnswers(c: Settings, ref: map<string, int>, ops: seq<Op>): (r: seq<Option<Answer>>)
    ensures |r| == |ops|
    decreases |ops|
  {
    if ops == [] then [] else [RefStep(c, ref, ops[0]).1] + RefAnswers(c, RefStep(c, ref, ops[0]).0, ops[1..])
  }

  /**
   * Store and reference agree. The store holds nothing else than the reference does, the cache nothing
   * else than the store, and the store still holds all that expires later than any clock reading so far.
   */
  ghost predicate Agree(c: Settings, s: State, ref: map<string, int>, latest: int) {
    && (forall t :: t in s.store ==> t in ref && ref[t] == s.store[t].expiresAt)
    && (forall t :: t in s.cache ==>
          t in s.store && s.store[t].expiresAt == s.cache[t].expiresAt && s.cache[t].csrf == c.csrfOf(t))
    && (forall t :: t in ref && ref[t] > latest ==> t in s.store)
  }

  lemma PruneAgrees(c: Settings, s: State, ref: map<string, int>, latest: int, now: int, force: bool)
    requires c.persistent && Agree(c, s, ref, latest)
    ensures Agree(c, Prune(c, s, now, force), ref, Max(latest, now))
    ensures forall t :: t in s.store && s.store[t].expiresAt > now ==> t in Prune(c, s, now, force).store
    ensures forall t :: t in Prune(c, s, now, force).store ==> t in s.store
    ensures forall t :: t in Prune(c, s, now, force).cache ==> Prune(c, s, now, force).cache[t].expiresAt > now
  {
  }

  /** After pruning and loading, the cache holds the token exactly when the store had it unexpired. */
  lemma LoadAgrees(c: Settings, s: State, ref: map<string, int>, latest: int, t: string, now: int)
    requires c.persistent && Agree(c, s, ref, latest)
    ensures var s1 := Load(c, Prune(c, s, now, false), t, now);
            && Agree(c, s1, ref, Max(latest, now))
            && (t in s1.cache && s1.cache[t].expiresAt > now <==> t in s.store && s.store[t].expiresAt > now)
            && (t in s1.cache && s1.cache[t].expiresAt > now ==> s1.cache[t].expiresAt == ref[t])
  {
    PruneAgrees(c, s, ref, latest, now, false);
  }

  /** Extending a session on both sides keeps the agreement. */
  lemma ExtensionAgrees(c: Settings, s: State, ref: map<string, int>, latest: int, t: string, now: int)
    requires c.persistent && Agree(c, s, ref, latest)
    ensures Agree(c, s.(cache := s.cache[t := Session(c.csrfOf(t), now + c.ttl, now)],
                        store := s.store[t := Stored(now + c.ttl, now)]), ref[t := now + c.ttl], latest)
  {
  }

  /** This operation is asked about a session that has not expired and that the store no longer holds. */
  predicate Forgotten(s: State, ref: map<string, int>, op: Op) {
    && op.DoAuthenticate? && op.token.Some? && op.token.value != ""
    && op.token.value in ref && ref[op.token.value] > op.now && op.token.value !in s.store
  }

  lemma AuthenticationRefines(c: Settings, s: State, ref: map<string, int>, latest: int, t: string,
                              csrf: Option<string>, requireCsrf: bool, now: int)
    requires c.persistent && Agree(c, s, ref, latest) && t != ""
    ensures var op := DoAuthenticate(Some(t), csrf, requireCsrf, now);
            && (Step(c, s, op).1 == RefStep(c, ref, op).1 <==> !Forgotten(s, ref, op))
            && (!Forgotten(s, ref, op) ==> Agree(c, Step(c, s, op).0, RefStep(c, ref, op).0, Max(latest, now)))
  {
    LoadAgrees(c, s, ref, latest, t, now);
    ExtensionAgrees(c, Load(c, Prune(c, s, now, false), t, now), ref, Max(latest, now), t, now);
  }

  /**
   * One operation at a time, whatever the clock says: it gets the same answer exactly if it is not
   * asked about an unexpired session that is no longer stored; and then agreement is kept.
   */
  lemma StepRefines(c: Settings, s: State, ref: map<string, int>, latest: int, op: Op)
    requires c.persistent && Agree(c, s, ref, latest)
    ensures Step(c, s, op).1 == RefStep(c, ref, op).1 <==> !Forgotten(s, ref, op)
    ensures !Forgotten(s, ref, op) ==> Agree(c, Step(c, s, op).0, RefStep(c, ref, op).0, Max(latest, op.now))
  {
    match op
    case DoCreate(token, now) =>
      PruneAgrees(c, s, ref, latest, now, false);
      ExtensionAgrees(c, Prune(c, s, now, false), ref, Max(latest, now), token, now);
    case DoAuthenticate(token, csrf, requireCsrf, now) =>
      if token.Some? && token.value != "" {
        AuthenticationRefines(c, s, ref, latest, token.value, csrf, requireCsrf, now);
      }
    case DoRevoke(_, _) =>
    case DoRevokeAll(_) =>
    case DoPrune(now) => PruneAgrees(c, s, ref, latest, now, true);
    case Restart(_) =>
  }

  /**
   * No authentication reads a clock earlier than the expiry of its session when an earlier operation
   * has read that expiry or a later time.
   */
  predicate InTime(c: Settings, ref: map<string, int>, latest: int, ops: seq<Op>)
    decreases |ops|
  {
    ops != [] ==>
      var op := ops[0];
      && (op.DoAuthenticate? && op.token.Some? && op.token.value in ref && ref[op.token.value] <= latest ==>
            ref[op.token.value] <= op.now)
      && InTime(c, RefStep(c, ref, op).0, Max(latest, op.now), ops[1..])
  }

  predicate Monotone(now: int, ops: seq<Op>)
    decreases |ops|
  {
    ops != [] ==> ops[0].now >= now && Monotone(ops[0].now, ops[1..])
  }

  /** So it is if the clock never steps back. */
  lemma {:induction false} MonotoneIsInTime(c: Settings, ref: map<string, int>, now: int, ops: seq<Op>)
    requires Monotone(now, ops)
    ensures InTime(c, ref, now, ops)
    decreases |ops|
  {
    if ops != [] {
      MonotoneIsInTime(c, RefStep(c, ref, ops[0]).0, ops[0].now, ops[1..]);
    }
  }

  /**
   * Refinement: with a persistent store, any sequence of creations, authentications, revocations,
   * prunings and restarts gets exactly the answers of the store-only implementation, the credentials'
   * expiry and CSRF token included, even if the clock steps back, as long as it does not step back
   * over the expiry of a session that is then used.
   */
  lemma {:induction false} CacheRefinesStore(c: Settings, s: State, ref: map<string, int>, latest: int, ops: seq<Op>)
    requires c.persistent && Agree(c, s, ref, latest) && InTime(c, ref, latest, ops)
    ensures Answers(c, s, ops) == RefAnswers(c, ref, ops)
    decreases |ops|
  {
    if ops != [] {
      StepRefines(c, s, ref, latest, ops[0]);
      CacheRefinesStore(c, Step(c, s, ops[0]).0, RefStep(c, ref, ops[0]).0, Max(latest, ops[0].now), ops[1..]);
    }
  }

  function Expiries(store: map<string, Stored>): map<string, int> { map t | t in store :: store[t].expiresAt }

  /** The refinement starts with a new manager over any store, so that a restart at any time is covered too. */
  lemma NewManagerRefinesStore(c: Settings, store: map<string, Stored>, now: int, ops: seq<Op>)
    requires c.persistent && Monotone(now, ops)
    ensures Answers(c, State(map[], store, None), ops) == RefAnswers(c, Expiries(store), ops)
  {
    MonotoneIsInTime(c, Expiries(store), now, ops);
    CacheRefinesStore(c, State(map[], store, None), Expiries(store), now, ops);
  }

  /**
   * When the clock steps back over an expiry the answers may differ: a session that pruning has
   * removed from the store is rejected although the store-only implementation accepts it.
   */
  lemma BackwardClockBreaksRefinement(c: Settings, s: State, ref: map<string, int>, token: string,
                                      created: int, pruned: int, seen: int)
    requires c.persistent && token != "" && created + c.ttl <= pruned && seen < created + c.ttl
    ensures var ops := [DoCreate(token, created), DoPrune(pruned), DoAuthenticate(Some(token), None, false, seen)];
            Answers(c, s, ops)[2] == Some(SessionFailed) && RefAnswers(c, ref, ops)[2] != Some(SessionFailed)
  {
    var ops := [DoCreate(token, created), DoPrune(pruned), DoAuthenticate(Some(token), None, false, seen)];
    var s1 := Step(c, s, ops[0]).0;
    var s2 := Step(c, s1, ops[1]).0;
    assert token !in s2.cache && token !in s2.store;
    assert ops[1..] == [ops[1], ops[2]] && ops[1..][1..] == [ops[2]];
    assert Answers(c, s2, [ops[2]]) == [Some(SessionFailed)];
    assert Answers(c, s1, ops[1..]) == [None, Some(SessionFailed)];
    assert Answers(c, s, ops) == [None, None, Some(SessionFailed)];
    var r1 := RefStep(c, ref, ops[0]).0;
    assert RefAnswers(c, r1, [ops[2]])[0].value.Accepted?;
    assert RefAnswers(c, r1, ops[1..]) == [None] + RefAnswers(c, r1, [ops[2]]);
    assert RefAnswers(c, ref, ops) == [None] + RefAnswers(c, r1, ops[1..]);
  }

  // ----- what the answers mean -----

  /** The operation ends the session, if there is one. */
  predicate Revokes(op: Op, t: string) { op.DoRevokeAll? || (op.DoRevoke? && t != "" && op.token == Some(t)) }

  /** The operation opens the session, or is accepted with it. */
  predicate Uses(op: Op, answer: Option<Answer>, t: string) {
    || (op.DoCreate? && op.newToken == t)
    || (op.DoAuthenticate? && op.token == Some(t) && answer.Some? && answer.value.Accepted?)
  }

  /** When the session expires, seen before operation `i`: the lifetime counts from its last use, unless it was revoked. */
  function ExpiryBefore(c: Settings, store: map<string, Stored>, ops: seq<Op>, answers: seq<Option<Answer>>, i: nat, t: string)
    : Option<int>
    requires i <= |ops| == |answers|
  {
    if i == 0 then if t in store then Some(store[t].expiresAt) else None
    else if Revokes(ops[i - 1], t) then None
    else if Uses(ops[i - 1], answers[i - 1], t) then Some(ops[i - 1].now + c.ttl)
    else ExpiryBefore(c, store, ops, answers, i - 1, t)
  }

  /** The answer, given when the session expires. */
  ghost predicate Answered(c: Settings, op: Op, expiry: Option<int>, answer: Option<Answer>)
    requires op.DoAuthenticate? && op.token.Some?
  {
    var t := op.token.value;
    if t == "" || expiry == None || expiry.value <= op.now then answer == Some(SessionFailed)
    else if op.requireCsrf && (op.csrf != Some(c.csrfOf(t)) || c.csrfOf(t) == "") then answer == Some(CsrfInvalid)
    else answer == Some(Accepted(c.csrfOf(t), op.now + c.ttl, expiry.value < op.now + c.ttl))
  }

  function RefAfter(c: Settings, ref: map<string, int>, ops: seq<Op>, i: nat): map<string, int>
    requires i <= |ops|
  {
    if i == 0 then ref else RefStep(c, RefAfter(c, ref, ops, i - 1), ops[i - 1]).0
  }

  lemma {:induction false} RefAfterFirst(c: Settings, ref: map<string, int>, ops: seq<Op>, i: nat)
    requires 0 < i <= |ops|
    ensures RefAfter(c, ref, ops, i) == RefAfter(c, RefStep(c, ref, ops[0]).0, ops[1..], i - 1)
    decreases i
  {
    if i > 1 {
      RefAfterFirst(c, ref, ops, i - 1);
    }
  }

  lemma {:induction false} RefAnswerAt(c: Settings, ref: map<string, int>, ops: seq<Op>, i: nat)
    requires i < |ops|
    ensures RefAnswers(c, ref, ops)[i] == RefStep(c, RefAfter(c, ref, ops, i), ops[i]).1
    decreases i
  {
    if i > 0 {
      RefAnswerAt(c, RefStep(c, ref, ops[0]).0, ops[1..], i - 1);
      RefAfterFirst(c, ref, ops, i);
    }
  }

  lemma {:induction false} RefKnowsExpiry(c: Settings, store: map<string, Stored>, ops: seq<Op>, i: nat, t: string)
    requires i <= |ops|
    ensures var ref, e := RefAfter(c, Expiries(store), ops, i),
                          ExpiryBefore(c, store, ops, RefAnswers(c, Expiries(store), ops), i, t);
            if e.Some? then t in ref && ref[t] == e.value else t !in ref
    decreases i
  {
    if i > 0 {
      RefKnowsExpiry(c, store, ops, i - 1, t);
      RefAnswerAt(c, Expiries(store), ops, i - 1);
    }
  }

  /**
   * Over any operations and restarts, while the clock does not step back: a session is accepted exactly
   * while less than its lifetime has passed since it was opened or last accepted, unless it has been
   * revoked since, and, where that is asked for, with its CSRF token.
   */
  lemma SessionsLastFromTheirLastUse(c: Settings, store: map<string, Stored>, now: int, ops: seq<Op>, i: nat)
    requires c.persistent && Monotone(now, ops) && i < |ops| && ops[i].DoAuthenticate? && ops[i].token.Some?
    ensures var answers := Answers(c, State(map[], store, None), ops);
            Answered(c, ops[i], ExpiryBefore(c, store, ops, answers, i, ops[i].token.value), answers[i])
  {
    NewManagerRefinesStore(c, store, now, ops);
    RefKnowsExpiry(c, store, ops, i, ops[i].token.value);
    RefAnswerAt(c, Expiries(store), ops, i);
  }

  // ----- without a store -----

  ghost predicate AgreeAlone(c: Settings, s: State, ref: map<string, int>, latest: int) {
    && (forall t :: t in s.cache ==> t in ref && ref[t] == s.cache[t].expiresAt && s.cache[t].csrf == c.csrfOf(t))
    && (forall t :: t in ref && ref[t] > latest ==> t in s.cache)
  }

  lemma StepRefinesAlone(c: Settings, s: State, ref: map<string, int>, latest: int, op: Op)
    requires !c.persistent && AgreeAlone(c, s, ref, latest) && op.now >= latest && !op.Restart?
    ensures Step(c, s, op).1 == RefStep(c, ref, op).1
    ensures AgreeAlone(c, Step(c, s, op).0, RefStep(c, ref, op).0, op.now)
  {
  }

  /** Without a store the cache alone gives the same answers, up to a restart. */
  lemma {:induction false} CacheAloneRefines(c: Settings, s: State, ref: map<string, int>, now: int, ops: seq<Op>)
    requires !c.persistent && AgreeAlone(c, s, ref, now) && Monotone(now, ops)
    requires forall i :: 0 <= i < |ops| ==> !ops[i].Restart?
    ensures Answers(c, s, ops) == RefAnswers(c, ref, ops)
    decreases |ops|
  {
    if ops != [] {
      StepRefinesAlone(c, s, ref, now, ops[0]);
      CacheAloneRefines(c, Step(c, s, ops[0]).0, RefStep(c, ref, ops[0]).0, ops[0].now, ops[1..]);
    }
  }

  // ----- cleaning up -----

  /** What the last cleanup left behind: it was not later than now, and nothing stored had expired by then. */
  ghost predicate Tidy(s: State, now: int) {
    s.lastPruneAt.Some? ==> s.lastPruneAt.value <= now && forall t :: t in s.store ==> s.store[t].expiresAt > s.lastPruneAt.value
  }

  /** Creating a session, authenticating with a token and pruning clean up, the first two if it is time. */
  predicate Cleans(op: Op) {
    op.DoCreate? || op.DoPrune? || (op.DoAuthenticate? && op.token.Some? && op.token.value != "")
  }

  /**
   * After each of these operations nothing is stored that expired a prune interval ago or earlier, and
   * after a forced cleanup nothing that has expired; but when the last cleanup was less than an interval
   * ago, no other session is deleted.
   */
  lemma ExpiredSessionsAreCleanedUp(c: Settings, s: State, now: int, op: Op)
    requires c.persistent && c.ttl > 0 && c.pruneInterval > 0 && Tidy(s, now) && op.now >= now
    ensures var s' := Step(c, s, op).0;
            && Tidy(s', op.now)
            && (Cleans(op) ==> forall t :: t in s'.store ==> s'.store[t].expiresAt > op.now - c.pruneInterval)
            && (op.DoPrune? ==> forall t :: t in s'.store ==> s'.store[t].expiresAt > op.now)
    ensures s.lastPruneAt.Some? && op.now < s.lastPruneAt.value + c.pruneInterval && (op.DoCreate? || op.DoAuthenticate?) ==>
              && Step(c, s, op).0.lastPruneAt == s.lastPruneAt
              && forall t :: t in s.store ==> t in Step(c, s, op).0.store
  {
  }

  /** Along any run, unless the clock steps back, the store stays that tidy. */
  lemma {:induction false} StoreStaysTidy(c: Settings, s: State, now: int, ops: seq<Op>, op: Op)
    requires c.persistent && c.ttl > 0 && c.pruneInterval > 0 && Tidy(s, now) && Monotone(now, ops + [op])
    ensures var before := After(c, s, ops);
            Cleans(op) ==> forall t :: t in Step(c, before, op).0.store ==>
                                         Step(c, before, op).0.store[t].expiresAt > op.now - c.pruneInterval
    decreases |ops|
  {
    hide Step, Cleans, Tidy;
    assert (ops + [op])[0] == if ops == [] then op else ops[0];
    if ops == [] {
      ExpiredSessionsAreCleanedUp(c, s, now, op);
    } else {
      assert (ops + [op])[1..] == ops[1..] + [op];
      ExpiredSessionsAreCleanedUp(c, s, now, ops[0]);
      StoreStaysTidy(c, Step(c, s, ops[0]).0, ops[0].now, ops[1..], op);
      assert After(c, s, ops) == After(c, Step(c, s, ops[0]).0, ops[1..]);
    }
  }

  function After(c: Settings, s: State, ops: seq<Op>): State
    decreases |ops|
  {
    if ops == [] then s else After(c, Step(c, s, ops[0]).0, ops[1..])
  }
}
