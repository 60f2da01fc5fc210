/**
 The session cache while sessions move between tenants.  A request that misses the cache reads the
 tenant and stores it later.  A migration writes one tombstone per captured session inside its
 transaction, and only then commits, which is when the new tenant becomes visible.  Entries and
 tombstones expire at any moment.
 */
module SessionCache {

  type Token = nat
  type TenantId = nat
  type Reader = nat
  type MoveId = nat

  datatype Entry = Cached(tenant: TenantId) | Tombstone

  /** What a request that missed the cache has read and not stored yet. */
  datatype Reading = Reading(token: Token, tenant: TenantId)

  /** A migration under way: the sessions whose tenant it changes, and the tombstones still to be written. */
  datatype Move = Move(tokens: set<Token>, todo: set<Token>, to: TenantId)

  /** `db` is the tenant that a request would read for each session now. */
  datatype State = State(
    db: map<Token, TenantId>, cache: map<Token, Entry>, reading: map<Reader, Reading>, moves: map<MoveId, Move>)

  datatype Step =
    | Look(reader: Reader, token: Token)
    | Store(reader: Reader)
    | GiveUp(reader: Reader)
    | Begin(id: MoveId, tokens: set<Token>, captured: set<Token>, to: TenantId)
    | Invalidate(id: MoveId, token: Token)
    | Lose(id: MoveId, token: Token)    // the tombstone write failed
    | Commit(id: MoveId)
    | Rollback(id: MoveId)
    | Expire(token: Token)

  /** A tombstone reads as a miss. */
  predicate Misses(st: State, token: Token) {
    token !in st.cache || st.cache[token].Tombstone?
  }

  /** A migration commits once every tombstone has been written or has failed. */
  predicate CanCommit(st: State, id: MoveId) {
    id in st.moves && st.moves[id].todo == {}
  }

  predicate IsTodo(st: State, id: MoveId, token: Token) {
    id in st.moves && token in st.moves[id].todo
  }

  function Done(st: State, id: MoveId, token: Token): map<MoveId, Move>
    requires id in st.moves
  {
    st.moves[id := st.moves[id].(todo := st.moves[id].todo - {token})]
  }

  function Next(st: State, step: Step): State {
    match step
    case Look(reader, token) =>
      if token in st.db && Misses(st, token) && reader !in st.reading
      then st.(reading := st.reading[reader := Reading(token, st.db[token])]) else st
    case Store(reader) =>
      if reader !in st.reading then st
      else
        var seen := st.reading[reader];
        // SET ... NX: an entry or a tombstone that is there stays
        st.(reading := st.reading - {reader},
            cache := if seen.token in st.cache then st.cache else st.cache[seen.token := Cached(seen.tenant)])
    case GiveUp(reader) => st.(reading := st.reading - {reader})
    case Begin(id, tokens, captured, to) =>
      if id in st.moves || !(captured <= tokens <= st.db.Keys) then st
      else st.(moves := st.moves[id := Move(tokens, captured, to)])
    case Invalidate(id, token) =>
      if IsTodo(st, id, token) then st.(cache := st.cache[token := Tombstone], moves := Done(st, id, token)) else st
    case Lose(id, token) => if IsTodo(st, id, token) then st.(moves := Done(st, id, token)) else st
    case Commit(id) =>
      if !CanCommit(st, id) then st
      else
        var move := st.moves[id];
        st.(db := map t | t in st.db :: if t in move.tokens then move.to else st.db[t], moves := st.moves - {id})
    case Rollback(id) => st.(moves := st.moves - {id})
    case Expire(token) => st.(cache := st.cache - {token})
  }

  function Run(st: State, steps: seq<Step>): State
    decreases |steps|
  {
    if steps == [] then st else Run(Next(st, steps[0]), steps[1..])
  }

  ghost predicate Valid(st: State) {
    && (forall t :: t in st.cache ==> t in st.db)
    && (forall r :: r in st.reading ==> st.reading[r].token in st.db)
    && (forall m :: m in st.moves ==> st.moves[m].todo <= st.moves[m].tokens <= st.db.Keys)
  }

  lemma {:induction false} NextKeepsValid(st: State, step: Step)
    requires Valid(st)
    ensures Valid(Next(st, step)) && Next(st, step).db.Keys == st.db.Keys
  {
  }

  // ----- what can go wrong for a session ------------------------------------------------------------------

  /** The session is cached with a tenant other than `now`. */
  predicate CachedOther(st: State, t: Token, now: TenantId) {
    t in st.cache && st.cache[t].Cached? && st.cache[t].tenant != now
  }

  /** A request still holds a tenant other than `now` for the session. */
  ghost predicate ReaderOther(st: State, t: Token, now: TenantId) {
    exists r :: r in st.reading && st.reading[r].token == t && st.reading[r].tenant != now
  }

  predicate HasTombstone(st: State, t: Token) {
    t in st.cache && st.cache[t].Tombstone?
  }

  /** With tenant `now`, the session is not cached wrongly and a tombstone stands in the way of every late reader. */
  ghost predicate FineFor(st: State, t: Token, now: TenantId) {
    !CachedOther(st, t, now) && (ReaderOther(st, t, now) ==> HasTombstone(st, t))
  }

  ghost predicate IsFine(st: State, t: Token)
    requires t in st.db
  {
    FineFor(st, t, st.db[t])
  }

  /** The cache would serve the session with a tenant it no longer has. */
  predicate IsStale(st: State, t: Token) {
    t in st.db && CachedOther(st, t, st.db[t])
  }

  ghost predicate Safe(st: State) {
    forall t :: t in st.db ==> IsFine(st, t)
  }

  /**
   The two ways out of safety for a session: a commit that moves it while it is still cached with,
   or still being read with, another tenant and no tombstone stands in the way; and a tombstone that
   expires while a late reader is still on its way.
   */
  ghost predicate BreaksFor(st: State, step: Step, t: Token)
    requires t in st.db
  {
    match step
    case Commit(id) => CanCommit(st, id) && t in st.moves[id].tokens && !FineFor(st, t, st.moves[id].to)
    case Expire(u) => t == u && HasTombstone(st, t) && ReaderOther(st, t, st.db[t])
    case _ => false
  }

  ghost predicate Breaks(st: State, step: Step) {
    exists t :: t in st.db && BreaksFor(st, step, t)
  }

  lemma {:induction false} FewerReaders(st: State, after: State, t: Token, now: TenantId)
    requires forall r :: r in after.reading && after.reading[r].token == t && after.reading[r].tenant != now
                         ==> r in st.reading && st.reading[r] == after.reading[r]
    ensures ReaderOther(after, t, now) ==> ReaderOther(st, t, now)
  {
  }

  lemma {:induction false} LookKeeps(st: State, reader: Reader, token: Token, t: Token)
    requires t in st.db && IsFine(st, t)
    ensures IsFine(Next(st, Look(reader, token)), t)
  {
    FewerReaders(st, Next(st, Look(reader, token)), t, st.db[t]);
  }

  lemma {:induction false} StoreKeeps(st: State, reader: Reader, t: Token)
    requires t in st.db && IsFine(st, t)
    ensures IsFine(Next(st, Store(reader)), t)
  {
    FewerReaders(st, Next(st, Store(reader)), t, st.db[t]);
  }

  lemma {:induction false} GiveUpKeeps(st: State, reader: Reader, t: Token)
    requires t in st.db && IsFine(st, t)
    ensures IsFine(Next(st, GiveUp(reader)), t)
  {
    FewerReaders(st, Next(st, GiveUp(reader)), t, st.db[t]);
  }

  /** Whether a session is fine depends on the cache, the readers and the tenant, and on nothing else. */
  lemma {:induction false} SameFine(st: State, after: State, t: Token, now: TenantId)
    requires after.reading == st.reading && (t in after.cache <==> t in st.cache) && (t in st.cache ==> after.cache[t] == st.cache[t])
    ensures FineFor(after, t, now) <==> FineFor(st, t, now)
  {
    assert ReaderOther(after, t, now) <==> ReaderOther(st, t, now);
  }

  /** The exact effect of a step on one session. */
  lemma {:induction false} SessionStaysFineIff(st: State, step: Step, t: Token)
    requires Valid(st) && Safe(st) && t in st.db && t in Next(st, step).db
    ensures IsFine(Next(st, step), t) <==> !BreaksFor(st, step, t)
  {
    assert IsFine(st, t);
    var after := Next(st, step);
    match step
    case Look(reader, token) => LookKeeps(st, reader, token, t);
    case Store(reader) => StoreKeeps(st, reader, t);
    case GiveUp(reader) => GiveUpKeeps(st, reader, t);
    case Begin(_, _, _, _) => SameFine(st, after, t, st.db[t]);
    case Invalidate(_, token) =>
      if token != t {
        SameFine(st, after, t, st.db[t]);
      }
    case Lose(_, _) => SameFine(st, after, t, st.db[t]);
    case Commit(id) =>
      SameFine(st, after, t, st.db[t]);
      if CanCommit(st, id) {
        SameFine(st, after, t, st.moves[id].to);
      }
    case Rollback(_) => SameFine(st, after, t, st.db[t]);
    case Expire(token) =>
      if token != t {
        SameFine(st, after, t, st.db[t]);
      } else {
        assert ReaderOther(after, t, st.db[t]) <==> ReaderOther(st, t, st.db[t]);
      }
  }

  /** From a safe state a step leads to a safe state exactly when it is not one of the two. */
  lemma {:induction false} StepIsSafeIff(st: State, step: Step)
    requires Valid(st) && Safe(st)
    ensures Safe(Next(st, step)) <==> !Breaks(st, step)
  {
    NextKeepsValid(st, step);
    forall t | t in st.db
      ensures IsFine(Next(st, step), t) <==> !BreaksFor(st, step, t)
    {
      SessionStaysFineIff(st, step, t);
    }
  }

  // ----- over every run -------------------------------------------------------------------------------------

  ghost predicate SafeThroughout(st: State, steps: seq<Step>)
    decreases |steps|
  {
    Safe(st) && (steps == [] || SafeThroughout(Next(st, steps[0]), steps[1..]))
  }

  ghost predicate NothingBreaks(st: State, steps: seq<Step>)
    decreases |steps|
  {
    steps == [] || (!Breaks(st, steps[0]) && NothingBreaks(Next(st, steps[0]), steps[1..]))
  }

  /** A run stays safe exactly when none of its steps is one of the two. */
  lemma {:induction false} RunIsSafeIff(st: State, steps: seq<Step>)
    requires Valid(st) && Safe(st)
    ensures SafeThroughout(st, steps) <==> NothingBreaks(st, steps)
    decreases |steps|
  {
    if steps != [] {
      var next := Next(st, steps[0]);
      NextKeepsValid(st, steps[0]);
      StepIsSafeIff(st, steps[0]);
      if Safe(next) {
        RunIsSafeIff(next, steps[1..]);
      }
    }
  }

  lemma {:induction false} RunKeepsSafe(st: State, steps: seq<Step>)
    requires Valid(st) && SafeThroughout(st, steps)
    ensures Valid(Run(st, steps)) && Safe(Run(st, steps))
    decreases |steps|
  {
    if steps != [] {
      NextKeepsValid(st, steps[0]);
      RunKeepsSafe(Next(st, steps[0]), steps[1..]);
    }
  }

  /** After such a run nothing stale is cached. */
  lemma {:induction false} NothingIsStale(st: State, steps: seq<Step>, t: Token)
    requires Valid(st) && Safe(st) && NothingBreaks(st, steps)
    ensures !IsStale(Run(st, steps), t)
  {
    RunIsSafeIff(st, steps);
    RunKeepsSafe(st, steps);
    assert t in Run(st, steps).db ==> IsFine(Run(st, steps), t);
  }

  /** Safety is not more than is needed: a session that is not fine can go stale within two steps. */
  lemma {:induction false} UnsafeCanGoStale(st: State, t: Token)
    requires Valid(st) && t in st.db && !IsFine(st, t)
    ensures exists steps: seq<Step> :: |steps| <= 2 && IsStale(Run(st, steps), t)
  {
    if IsStale(st, t) {
      assert IsStale(Run(st, []), t);
    } else {
      var r :| r in st.reading && st.reading[r].token == t && st.reading[r].tenant != st.db[t];
      var expired := Next(st, Expire(t));
      RunCons(st, Expire(t), [Store(r)]);
      RunCons(expired, Store(r), []);
      assert [Store(r)] + [] == [Store(r)];
      assert IsStale(Run(st, [Expire(t)] + [Store(r)]), t);
    }
  }

  // ----- a migration whose tombstones stand until it commits ----------------------------------------------------

  /** The tombstones the migration has dealt with so far still stand. */
  ghost predicate Armed(st: State, id: MoveId)
    requires id in st.moves
  {
    forall t :: t in st.moves[id].tokens && t !in st.moves[id].todo ==> HasTombstone(st, t)
  }

  /** What takes a tombstone away from a migration: losing the write, and expiry before the commit. */
  predicate Disarms(st: State, id: MoveId, step: Step)
    requires id in st.moves
  {
    match step
    case Lose(m, t) => m == id && t in st.moves[id].todo && !HasTombstone(st, t)
    case Expire(t) => t in st.moves[id].tokens && t !in st.moves[id].todo && HasTombstone(st, t)
    case _ => false
  }

  /** No other step does, whoever reads, stores, or migrates meanwhile. */
  lemma {:induction false} StaysArmedIff(st: State, id: MoveId, step: Step)
    requires Valid(st) && id in st.moves && Armed(st, id) && id in Next(st, step).moves
    ensures Armed(Next(st, step), id) <==> !Disarms(st, id, step)
  {
    if Disarms(st, id, step) {
      assert step.token in Next(st, step).moves[id].tokens && step.token !in Next(st, step).moves[id].todo;
      assert !HasTombstone(Next(st, step), step.token);
    }
  }

  /** A migration that captured every session it moves, and starts, has no tombstone to lose yet. */
  lemma {:induction false} BeginsArmed(st: State, id: MoveId, tokens: set<Token>, to: TenantId)
    requires id !in st.moves && tokens <= st.db.Keys
    ensures var after := Next(st, Begin(id, tokens, tokens, to)); id in after.moves && Armed(after, id)
  {
  }

  /** Such a migration can commit safely, whoever is still reading. */
  lemma {:induction false} ArmedCommitIsSafe(st: State, id: MoveId)
    requires Valid(st) && Safe(st) && CanCommit(st, id) && Armed(st, id)
    ensures Safe(Next(st, Commit(id)))
  {
    StepIsSafeIff(st, Commit(id));
  }

  ghost predicate AllArmed(st: State) {
    forall m :: m in st.moves ==> Armed(st, m)
  }

  /**
   What operations owe the cache: a migration captures every session it moves, its tombstones are
   written and stand until it commits, and none expires under a late reader.
   */
  ghost predicate Careful(st: State, step: Step) {
    && (step.Begin? ==> step.captured == step.tokens)
    && (forall m :: m in st.moves ==> !Disarms(st, m, step))
    && (step.Expire? && step.token in st.db ==> !BreaksFor(st, step, step.token))
  }

  ghost predicate CarefulRun(st: State, steps: seq<Step>)
    decreases |steps|
  {
    steps == [] || (Careful(st, steps[0]) && CarefulRun(Next(st, steps[0]), steps[1..]))
  }

  lemma {:induction false} CarefulStepKeeps(st: State, step: Step)
    requires Valid(st) && Safe(st) && AllArmed(st) && Careful(st, step)
    ensures Safe(Next(st, step)) && AllArmed(Next(st, step))
  {
    var after := Next(st, step);
    forall m | m in after.moves
      ensures Armed(after, m)
    {
      if m in st.moves {
        StaysArmedIff(st, m, step);
      } else {
        BeginsArmed(st, m, step.tokens, step.to);
      }
    }
    StepIsSafeIff(st, step);
    if step.Commit? && CanCommit(st, step.id) {
      ArmedCommitIsSafe(st, step.id);
    }
  }

  /** Under every interleaving of requests, careful operation keeps the cache safe, so nothing stale is ever served. */
  lemma {:induction false} CarefulRunsAreSafe(st: State, steps: seq<Step>, t: Token)
    requires Valid(st) && Safe(st) && AllArmed(st) && CarefulRun(st, steps)
    ensures SafeThroughout(st, steps) && !IsStale(Run(st, steps), t)
    decreases |steps|
  {
    if steps == [] {
      assert t in st.db ==> IsFine(st, t);
    } else {
      NextKeepsValid(st, steps[0]);
      CarefulStepKeeps(st, steps[0]);
      CarefulRunsAreSafe(Next(st, steps[0]), steps[1..], t);
    }
  }

  // ----- runs that go wrong ----------------------------------------------------------------------------------------

  lemma {:induction false} RunCons(st: State, step: Step, rest: seq<Step>)
    ensures Run(st, [step] + rest) == Run(Next(st, step), rest)
  {
    assert ([step] + rest)[1..] == rest;
  }

  /** Session 7 of tenant 1, perhaps cached, and a migration of it to tenant 2. */
  const ONE := map[7 := 1]
  const TWO := map[7 := 2]
  const OLD := map[7 := Cached(1)]
  const LATE := map[5 := Reading(7, 1)]

  function Started(cache: map<Token, Entry>, reading: map<Reader, Reading>, todo: set<Token>): State {
    State(ONE, cache, reading, map[9 := Move({7}, todo, 2)])
  }

  lemma {:induction false} CommitMoves(cache: map<Token, Entry>, reading: map<Reader, Reading>)
    ensures Next(Started(cache, reading, {}), Commit(9)) == State(TWO, cache, reading, map[])
  {
    assert Started(cache, reading, {}).moves - {9} == map[];
  }

  lemma {:induction false} InvalidateWrites(reading: map<Reader, Reading>)
    ensures Next(Started(map[], reading, {7}), Invalidate(9, 7)) == Started(map[7 := Tombstone], reading, {})
  {
    assert {7} - {7} == {};
    assert Done(Started(map[], reading, {7}), 9, 7) == map[9 := Move({7}, {}, 2)];
  }

  lemma {:induction false} BeginStarts(cache: map<Token, Entry>, reading: map<Reader, Reading>, captured: set<Token>)
    requires captured <= {7}
    ensures Next(State(ONE, cache, reading, map[]), Begin(9, {7}, captured, 2)) == Started(cache, reading, captured)
  {
  }

  /** The session is cached, and the tombstone is lost. */
  lemma {:induction false} LostTombstoneServesTheOldTenant()
    ensures var st := State(ONE, OLD, map[], map[]);
            Valid(st) && Safe(st) && IsStale(Run(st, [Begin(9, {7}, {7}, 2)] + ([Lose(9, 7)] + ([Commit(9)] + []))), 7)
  {
    var st := State(ONE, OLD, map[], map[]);
    BeginStarts(OLD, map[], {7});
    RunCons(st, Begin(9, {7}, {7}, 2), [Lose(9, 7)] + ([Commit(9)] + []));
    assert Next(Started(OLD, map[], {7}), Lose(9, 7)) == Started(OLD, map[], {});
    RunCons(Started(OLD, map[], {7}), Lose(9, 7), [Commit(9)] + []);
    CommitMoves(OLD, map[]);
    RunCons(Started(OLD, map[], {}), Commit(9), []);
  }

  /** The session is cached, and the migration did not capture it. */
  lemma {:induction false} UncapturedSessionServesTheOldTenant()
    ensures var st := State(ONE, OLD, map[], map[]);
            Valid(st) && Safe(st) && IsStale(Run(st, [Begin(9, {7}, {}, 2)] + ([Commit(9)] + [])), 7)
  {
    var st := State(ONE, OLD, map[], map[]);
    BeginStarts(OLD, map[], {});
    RunCons(st, Begin(9, {7}, {}, 2), [Commit(9)] + []);
    CommitMoves(OLD, map[]);
    RunCons(Started(OLD, map[], {}), Commit(9), []);
  }

  lemma {:induction false} EarlyExpiry()
    ensures Next(Started(map[7 := Tombstone], map[], {}), Expire(7)) == Started(map[], map[], {})
    ensures Next(Started(map[], map[], {}), Look(5, 7)) == Started(map[], LATE, {})
    ensures Next(Started(map[], LATE, {}), Store(5)) == Started(OLD, map[], {})
    ensures IsStale(State(TWO, OLD, map[], map[]), 7)
  {
  }

  /** The tombstone expires before the commit, and a request caches the tenant that is still visible. */
  lemma {:induction false} TombstoneExpiresBeforeTheCommit()
    ensures var st := State(ONE, map[], map[], map[]);
            Valid(st) && Safe(st)
            && IsStale(Run(st, [Begin(9, {7}, {7}, 2)] + ([Invalidate(9, 7)] + ([Expire(7)] + ([Look(5, 7)] + ([Store(5)] + ([Commit(9)] + [])))))), 7)
  {
    var st := State(ONE, map[], map[], map[]);
    BeginStarts(map[], map[], {7});
    RunCons(st, Begin(9, {7}, {7}, 2), [Invalidate(9, 7)] + ([Expire(7)] + ([Look(5, 7)] + ([Store(5)] + ([Commit(9)] + [])))));
    InvalidateWrites(map[]);
    RunCons(Started(map[], map[], {7}), Invalidate(9, 7), [Expire(7)] + ([Look(5, 7)] + ([Store(5)] + ([Commit(9)] + []))));
    EarlyExpiry();
    RunCons(Started(map[7 := Tombstone], map[], {}), Expire(7), [Look(5, 7)] + ([Store(5)] + ([Commit(9)] + [])));
    RunCons(Started(map[], map[], {}), Look(5, 7), [Store(5)] + ([Commit(9)] + []));
    RunCons(Started(map[], LATE, {}), Store(5), [Commit(9)] + []);
    CommitMoves(OLD, map[]);
    RunCons(Started(OLD, map[], {}), Commit(9), []);
  }

  /** A request reads the old tenant, and stores it only after the commit and the end of the tombstone. */
  lemma {:induction false} SlowReaderOutlivesTheTombstone()
    ensures var st := State(ONE, map[], LATE, map[]);
            Valid(st) && Safe(st)
            && IsStale(Run(st, [Begin(9, {7}, {7}, 2)] + ([Invalidate(9, 7)] + ([Commit(9)] + ([Expire(7)] + ([Store(5)] + []))))), 7)
  {
    var st := State(ONE, map[], LATE, map[]);
    BeginStarts(map[], LATE, {7});
    RunCons(st, Begin(9, {7}, {7}, 2), [Invalidate(9, 7)] + ([Commit(9)] + ([Expire(7)] + ([Store(5)] + []))));
    InvalidateWrites(LATE);
    RunCons(Started(map[], LATE, {7}), Invalidate(9, 7), [Commit(9)] + ([Expire(7)] + ([Store(5)] + [])));
    CommitMoves(map[7 := Tombstone], LATE);
    RunCons(Started(map[7 := Tombstone], LATE, {}), Commit(9), [Expire(7)] + ([Store(5)] + []));
    RunCons(State(TWO, map[7 := Tombstone], LATE, map[]), Expire(7), [Store(5)] + []);
    RunCons(State(TWO, map[], LATE, map[]), Store(5), []);
    LateStore();
    OpenReaderIsSafe();
  }

  lemma {:induction false} LateStore()
    ensures Next(State(TWO, map[7 := Tombstone], LATE, map[]), Expire(7)) == State(TWO, map[], LATE, map[])
    ensures Next(State(TWO, map[], LATE, map[]), Store(5)) == State(TWO, OLD, map[], map[])
    ensures IsStale(State(TWO, OLD, map[], map[]), 7)
  {
  }

  lemma {:induction false} OpenReaderIsSafe()
    ensures Valid(State(ONE, map[], LATE, map[])) && Safe(State(ONE, map[], LATE, map[]))
  {
  }
}
