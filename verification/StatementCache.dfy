/** The double-checked cache of prepared statements, with lookups and closes running at the same time.
    A thread's step is what it does between two releases of the mutex, or one call outside it. Models
    machineStatement and machineStatements.close of internal/storage/mysqlstore/machine_statements.go. */
module StatementCache {
  import opened Ordering

  type Query = nat
  type Statement = nat
  type Thread = nat

  /** Where a call has come to. `late` records that it began after some close had taken the lock. */
  datatype Call =
    | Looking(query: Query, late: bool)                                     // before the first lock
    | Preparing(query: Query, late: bool)                                   // missed; preparing outside the lock
    | Holding(query: Query, late: bool, own: Statement)                     // prepared; before the second lock
    | Discarding(query: Query, late: bool, own: Statement, result: Option<Statement>) // lost; about to close its own
    | Returned(query: Query, late: bool, result: Option<Statement>)
    | Closing(pending: set<Statement>)
    | Closed

  /** Who is responsible for a statement. */
  datatype Place = Cached(query: Query) | Held(thread: Thread) | Doomed(thread: Thread) | Gone

  /** `cache` and `closed` are the program's; `closes` counts the Close calls on each prepared statement;
      `installed` and `places` only record history. */
  datatype State = State(closed: bool, cache: map<Query, Statement>, calls: map<Thread, Call>,
                         closes: map<Statement, nat>, installed: map<Query, Statement>, places: map<Statement, Place>)

  datatype Step =
    | StartLookup(thread: Thread, query: Query)
    | Peek(thread: Thread)
    | Prepare(thread: Thread, fresh_: Statement)
    | PrepareFails(thread: Thread)
    | Settle(thread: Thread)
    | Discard(thread: Thread)
    | StartClose(thread: Thread)
    | CloseOne(thread: Thread, statement: Statement)
    | EndClose(thread: Thread)

  predicate At(s: State, t: Thread) {
    t in s.calls
  }

  predicate Enabled(s: State, step: Step) {
    match step
    case StartLookup(t, _) => t !in s.calls
    case Peek(t) => At(s, t) && s.calls[t].Looking?
    case Prepare(t, p) => At(s, t) && s.calls[t].Preparing? && p !in s.closes
    case PrepareFails(t) => At(s, t) && s.calls[t].Preparing?
    case Settle(t) => At(s, t) && s.calls[t].Holding?
    case Discard(t) => At(s, t) && s.calls[t].Discarding? && s.calls[t].own in s.closes
    case StartClose(t) => t !in s.calls
    case CloseOne(t, p) => At(s, t) && s.calls[t].Closing? && p in s.calls[t].pending && p in s.closes
    case EndClose(t) => At(s, t) && s.calls[t].Closing? && s.calls[t].pending == {}
  }

  function Move(s: State, t: Thread, call: Call): State {
    s.(calls := s.calls[t := call])
  }

  function CloseStatement(s: State, p: Statement): State
    requires p in s.closes
  {
    s.(closes := s.closes[p := s.closes[p] + 1], places := s.places[p := Gone])
  }

  function Apply(s: State, step: Step): State
    requires Enabled(s, step)
  {
    match step
    case StartLookup(t, q) => Move(s, t, Looking(q, s.closed))
    case Peek(t) =>
      var c := s.calls[t];
      if s.closed then Move(s, t, Returned(c.query, c.late, None))
      else if c.query in s.cache then Move(s, t, Returned(c.query, c.late, Some(s.cache[c.query])))
      else Move(s, t, Preparing(c.query, c.late))
    case Prepare(t, p) =>
      var c := s.calls[t];
      Move(s, t, Holding(c.query, c.late, p)).(closes := s.closes[p := 0], places := s.places[p := Held(t)])
    case PrepareFails(t) => Move(s, t, Returned(s.calls[t].query, s.calls[t].late, None))
    case Settle(t) =>
      var c := s.calls[t];
      if s.closed then Move(s, t, Discarding(c.query, c.late, c.own, None))
      else if c.query in s.cache then Move(s, t, Discarding(c.query, c.late, c.own, Some(s.cache[c.query])))
      else Move(s, t, Returned(c.query, c.late, Some(c.own))).(
        cache := s.cache[c.query := c.own], installed := s.installed[c.query := c.own],
            places := s.places[c.own := Cached(c.query)])
    case Discard(t) =>
      var c := s.calls[t];
      Move(CloseStatement(s, c.own), t, Returned(c.query, c.late, c.result))
    case StartClose(t) =>
      Move(s, t, Closing(s.cache.Values)).(
        closed := true, cache := map[],
        places := map p | p in s.places :: if s.places[p].Cached? then Doomed(t) else s.places[p])
    case CloseOne(t, p) => Move(CloseStatement(s, p), t, Closing(s.calls[t].pending - {p}))
    case EndClose(t) => Move(s, t, Closed)
  }

  // ----- The invariant -----

  /** The statement a lookup has prepared and is still responsible for. */
  function OwnOf(c: Call): Option<Statement> {
    if c.Holding? || c.Discarding? then Some(c.own) else None
  }

  function PendingOf(c: Call): set<Statement> {
    if c.Closing? then c.pending else {}
  }

  /** A statement is closed once when it is gone, and never before. */
  ghost predicate Counted(s: State) {
    && s.places.Keys == s.closes.Keys
    && (forall p | p in s.places :: s.closes[p] == if s.places[p].Gone? then 1 else 0)
  }

  /** Each statement has exactly one place: in the cache under its query, ... */
  ghost predicate Placed(s: State) {
    && (forall q | q in s.cache :: s.cache[q] in s.places && s.places[s.cache[q]] == Cached(q))
    && (forall p | p in s.places && s.places[p].Cached? ::
         s.places[p].query in s.cache
         && s.cache[s.places[p].query] == p)
  }

  /** ... with the call that prepared it, ... */
  ghost predicate Owned(s: State) {
    && (forall t | t in s.calls && OwnOf(s.calls[t]).Some? ::
          OwnOf(s.calls[t]).value in s.places && s.places[OwnOf(s.calls[t]).value] == Held(t))
    && (forall p | p in s.places && s.places[p].Held? ::
          s.places[p].thread in s.calls && OwnOf(s.calls[s.places[p].thread]) == Some(p))
  }

  /** ... or with the close that took it. */
  ghost predicate Condemned(s: State) {
    && (forall t, p | t in s.calls && p in PendingOf(s.calls[t]) :: p in s.places && s.places[p] == Doomed(t))
    && (forall p | p in s.places && s.places[p].Doomed? ::
          s.places[p].thread in s.calls && p in PendingOf(s.calls[s.places[p].thread]))
  }

  /** What a lookup has returned or is about to return. */
  predicate Gives(c: Call, q: Query, p: Statement) {
    (c.Returned? || c.Discarding?) && c.query == q && c.result == Some(p)
  }

  ghost predicate Agreed(s: State) {
    && (!s.closed ==> s.installed == s.cache)
    && (s.closed ==> s.cache == map[])
    && (forall t, q, p | t in s.calls && Gives(s.calls[t], q, p) :: q in s.installed && s.installed[q] == p)
  }

  predicate IsLate(c: Call) {
    !c.Closing? && !c.Closed? && c.late
  }

  /** A lookup that began after a close can only be about to fail. */
  ghost predicate LateFails(s: State) {
    forall t | t in s.calls && IsLate(s.calls[t]) ::
      s.closed && (s.calls[t].Looking? || (s.calls[t].Returned? && s.calls[t].result.None?))
  }

  ghost predicate Invariant(s: State) {
    Counted(s) && Placed(s) && Owned(s) && Condemned(s) && Agreed(s) && LateFails(s)
  }

  const START := State(false, map[], map[], map[], map[], map[])

  lemma StartInvariant()
    ensures Invariant(START)
  {
  }

  // ----- Every step keeps it -----

  lemma CachedValues(s: State)
    requires Placed(s)
    ensures forall p :: p in s.cache.Values <==> p in s.places && s.places[p].Cached?
  {
    forall p | p in s.places && s.places[p].Cached? ensures p in s.cache.Values {
      assert s.places[p].query in s.cache.Keys;
    }
  }

  /** The statement a step handles is where its call says. */
  lemma ConcernedPlaces(s: State, step: Step)
    requires Invariant(s) && Enabled(s, step)
    ensures step.Settle? || step.Discard? ==>
              s.calls[step.thread].own in s.places && s.places[s.calls[step.thread].own] == Held(step.thread)
    ensures step.CloseOne? ==> step.statement in s.places && s.places[step.statement] == Doomed(step.thread)
  {
    hide Agreed, LateFails, Counted, Placed;
    var t := step.thread;
    assert step.Settle? || step.Discard? ==> OwnOf(s.calls[t]) == Some(s.calls[t].own);
    assert step.CloseOne? ==> step.statement in PendingOf(s.calls[t]);
  }

  predicate Idle(step: Step) {
    step.StartLookup? || step.Peek? || step.PrepareFails? || step.EndClose?
  }

  /** Steps that handle no statement only move their call along. */
  lemma IdleMoves(s: State, step: Step)
    requires Enabled(s, step) && Idle(step)
    ensures var call := Apply(s, step).calls[step.thread];
            Apply(s, step) == Move(s, step.thread, call) && OwnOf(call) == None && PendingOf(call) == {}
    ensures step.thread in s.calls ==> OwnOf(s.calls[step.thread]) == None && PendingOf(s.calls[step.thread]) == {}
  {
  }

  lemma IdleKeeps(s: State, step: Step)
    requires Counted(s) && Placed(s) && Owned(s) && Condemned(s) && Enabled(s, step) && Idle(step)
    ensures Counted(Apply(s, step)) && Placed(Apply(s, step)) && Owned(Apply(s, step)) && Condemned(Apply(s, step))
  {
    hide Enabled, Apply, OwnOf, PendingOf;
    IdleMoves(s, step);
  }

  lemma KeepsCounted(s: State, step: Step)
    requires Invariant(s) && Enabled(s, step) && !Idle(step)
    ensures Counted(Apply(s, step))
  {
    hide Agreed, LateFails, Owned, Condemned, Placed;
    ConcernedPlaces(s, step);
  }

  lemma SettleKeepsPlaced(s: State, step: Step)
    requires Invariant(s) && Enabled(s, step) && step.Settle?
    ensures Placed(Apply(s, step))
  {
    hide Agreed, LateFails, Owned, Condemned, Counted;
    ConcernedPlaces(s, step);
  }

  lemma KeepsPlaced(s: State, step: Step)
    requires Invariant(s) && Enabled(s, step) && !Idle(step)
    ensures Placed(Apply(s, step))
  {
    hide Agreed, LateFails, Owned, Condemned;
    ConcernedPlaces(s, step);
    if step.Settle? {
      SettleKeepsPlaced(s, step);
    }
  }

  lemma CloseKeepsOwned(s: State, step: Step)
    requires Invariant(s) && Enabled(s, step) && (step.StartClose? || step.CloseOne?)
    ensures Owned(Apply(s, step))
  {
    hide Agreed, LateFails, Condemned, Placed, Counted;
    ConcernedPlaces(s, step);
  }

  lemma LookupKeepsOwned(s: State, step: Step)
    requires Invariant(s) && Enabled(s, step) && (step.Settle? || step.Discard?)
    ensures Owned(Apply(s, step))
  {
    hide Agreed, LateFails, Condemned, Placed, Counted;
    ConcernedPlaces(s, step);
  }

  lemma KeepsOwned(s: State, step: Step)
    requires Invariant(s) && Enabled(s, step) && !Idle(step)
    ensures Owned(Apply(s, step))
  {
    if step.Prepare? {
      hide Agreed, LateFails, Condemned, Placed;
    } else {
      hide Invariant, Apply, Owned;
      if step.Settle? || step.Discard? {
        LookupKeepsOwned(s, step);
      } else {
        CloseKeepsOwned(s, step);
      }
    }
  }

  lemma CloseOneKeepsCondemned(s: State, step: Step)
    requires Invariant(s) && Enabled(s, step) && step.CloseOne?
    ensures Condemned(Apply(s, step))
  {
    hide Agreed, LateFails, Owned, Placed, Counted;
    ConcernedPlaces(s, step);
  }

  lemma SettleKeepsCondemned(s: State, step: Step)
    requires Invariant(s) && Enabled(s, step) && step.Settle?
    ensures Condemned(Apply(s, step))
  {
    hide Agreed, LateFails, Owned, Placed, Counted;
    ConcernedPlaces(s, step);
  }

  lemma DiscardKeepsCondemned(s: State, step: Step)
    requires Invariant(s) && Enabled(s, step) && step.Discard?
    ensures Condemned(Apply(s, step))
  {
    hide Agreed, LateFails, Owned, Placed, Counted;
    ConcernedPlaces(s, step);
  }

  lemma PrepareKeepsCondemned(s: State, step: Step)
    requires Counted(s) && Condemned(s) && Enabled(s, step) && step.Prepare?
    ensures Condemned(Apply(s, step))
  {
  }

  lemma LookupKeepsCondemned(s: State, step: Step)
    requires Invariant(s) && Enabled(s, step) && (step.Prepare? || step.Settle? || step.Discard?)
    ensures Condemned(Apply(s, step))
  {
    hide Enabled, Apply, Condemned, Counted;
    match step
    case Settle(_) => SettleKeepsCondemned(s, step);
    case Discard(_) => DiscardKeepsCondemned(s, step);
    case _ => PrepareKeepsCondemned(s, step);
  }

  lemma KeepsCondemned(s: State, step: Step)
    requires Invariant(s) && Enabled(s, step) && !Idle(step)
    ensures Condemned(Apply(s, step))
  {
    hide Enabled, Apply, Condemned, Placed;
    if step.StartClose? {
      CloseCondemns(s, step);
    } else if step.CloseOne? {
      CloseOneKeepsCondemned(s, step);
    } else {
      LookupKeepsCondemned(s, step);
    }
  }

  /** A close takes over what is cached. */
  lemma CloseCondemns(s: State, step: Step)
    requires Placed(s) && Condemned(s) && Enabled(s, step) && step.StartClose?
    ensures Condemned(Apply(s, step))
  {
    CachedValues(s);
  }

  lemma KeepsAgreed(s: State, step: Step)
    requires Invariant(s) && Enabled(s, step)
    ensures Agreed(Apply(s, step)) && LateFails(Apply(s, step))
  {
    hide Invariant, Enabled, Apply, Agreed, LateFails;
    LateStillFails(s, step);
    if step.Settle? || step.Discard? {
      LookupKeepsAgreed(s, step);
    } else {
      OthersKeepAgreed(s, step);
    }
  }

  lemma LookupKeepsAgreed(s: State, step: Step)
    requires Invariant(s) && Enabled(s, step) && (step.Settle? || step.Discard?)
    ensures Agreed(Apply(s, step))
  {
    hide Counted, Placed, Owned, Condemned, LateFails;
    var t := step.thread;
    if step.Discard? {
      assert forall q, p :: Gives(Apply(s, step).calls[t], q, p) <==> Gives(s.calls[t], q, p);
    }
  }

  lemma OthersKeepAgreed(s: State, step: Step)
    requires Invariant(s) && Enabled(s, step) && !step.Settle? && !step.Discard?
    ensures Agreed(Apply(s, step))
  {
    hide Counted, Placed, Owned, Condemned, LateFails;
  }

  lemma LateStillFails(s: State, step: Step)
    requires Invariant(s) && Enabled(s, step)
    ensures LateFails(Apply(s, step))
  {
    hide Counted, Placed, Owned, Condemned, Agreed;
  }

  lemma StepKeeps(s: State, step: Step)
    requires Invariant(s) && Enabled(s, step)
    ensures Invariant(Apply(s, step))
  {
    hide Enabled, Apply, Counted, Placed, Owned, Condemned, Agreed, LateFails, Idle;
    if Idle(step) {
      IdleKeeps(s, step);
    } else {
      KeepsCounted(s, step);
      KeepsPlaced(s, step);
      KeepsOwned(s, step);
      KeepsCondemned(s, step);
    }
    KeepsAgreed(s, step);
  }

  ghost predicate IsRun(states: seq<State>, steps: seq<Step>) {
    && |states| == |steps| + 1 && states[0] == START
    && forall i | 0 <= i < |steps| :: Enabled(states[i], steps[i]) && states[i + 1] == Apply(states[i], steps[i])
  }

  lemma {:induction false} RunKeeps(states: seq<State>, steps: seq<Step>, i: nat)
    requires IsRun(states, steps) && i < |states|
    ensures Invariant(states[i])
  {
    hide Invariant, Enabled, Apply;
    if i == 0 {
      StartInvariant();
    } else {
      RunKeeps(states, steps, i - 1);
      StepKeeps(states[i - 1], steps[i - 1]);
    }
  }

  // ----- What callers may rely on -----

  predicate Lookup(s: State, t: Thread, q: Query, result: Option<Statement>) {
    t in s.calls && s.calls[t].Returned? && s.calls[t].query == q && s.calls[t].result == result
  }

  /** All lookups of a query that ever succeed return the same statement, and as long as no close has
      begun that statement is open. */
  lemma LookupsAgree(states: seq<State>, steps: seq<Step>, i: nat, t: Thread, u: Thread, q: Query, p: Statement,
                     r: Statement)
    requires IsRun(states, steps) && i < |states|
    requires Lookup(states[i], t, q, Some(p)) && Lookup(states[i], u, q, Some(r))
    ensures p == r
    ensures !states[i].closed ==> p in states[i].closes && states[i].closes[p] == 0
  {
    RunKeeps(states, steps, i);
    assert Gives(states[i].calls[t], q, p) && Gives(states[i].calls[u], q, r);
  }

  predicate Installs(s: State, step: Step) {
    step.Settle? && Enabled(s, step) && !s.closed && s.calls[step.thread].query !in s.cache
  }

  /** A query's statement is installed at most once in a run. */
  lemma InstalledOnce(states: seq<State>, steps: seq<Step>, i: nat, j: nat)
    requires IsRun(states, steps) && i < j < |steps| && Installs(states[i], steps[i]) && Installs(states[j], steps[j])
    ensures states[i].calls[steps[i].thread].query != states[j].calls[steps[j].thread].query
  {
    hide Placed, Owned, Condemned, LateFails;
    var q := states[i].calls[steps[i].thread].query;
    InstalledStays(states, steps, q, i + 1, j);
    RunKeeps(states, steps, j);
  }

  lemma {:induction false} InstalledStays(states: seq<State>, steps: seq<Step>, q: Query, i: nat, j: nat)
    requires IsRun(states, steps) && i <= j < |states| && q in states[i].installed
    ensures q in states[j].installed
    decreases j - i
  {
    hide Enabled, Apply;
    if i < j {
      InstalledStays(states, steps, q, i, j - 1);
      StepKeepsInstalled(states[j - 1], steps[j - 1], q);
    }
  }

  lemma StepKeepsInstalled(s: State, step: Step, q: Query)
    requires Enabled(s, step) && q in s.installed
    ensures q in Apply(s, step).installed
  {
  }

  /** No lookup that starts after a close has begun succeeds. */
  lemma NoneAfterClose(states: seq<State>, steps: seq<Step>, i: nat, j: nat, q: Query)
    requires IsRun(states, steps) && i < j < |states| && states[i].closed && steps[i].StartLookup?
    ensures !exists p :: Lookup(states[j], steps[i].thread, q, Some(p))
  {
    hide Placed, Owned, Condemned, Agreed;
    StaysLate(states, steps, steps[i].thread, i + 1, j);
    RunKeeps(states, steps, j);
  }

  lemma {:induction false} StaysLate(states: seq<State>, steps: seq<Step>, t: Thread, i: nat, j: nat)
    requires IsRun(states, steps) && i <= j < |states| && t in states[i].calls && IsLate(states[i].calls[t])
    ensures t in states[j].calls && IsLate(states[j].calls[t])
    decreases j - i
  {
    hide Enabled, Apply, IsLate;
    if i < j {
      StaysLate(states, steps, t, i, j - 1);
      StepStaysLate(states[j - 1], steps[j - 1], t);
    }
  }

  lemma ClosingLeavesCalls(s: State, p: Statement)
    requires p in s.closes
    ensures CloseStatement(s, p).calls == s.calls
  {
  }

  lemma StepStaysLate(s: State, step: Step, t: Thread)
    requires Enabled(s, step) && t in s.calls && IsLate(s.calls[t])
    ensures t in Apply(s, step).calls && IsLate(Apply(s, step).calls[t])
  {
    hide CloseStatement;
    forall p | p in s.closes ensures CloseStatement(s, p).calls == s.calls {
      ClosingLeavesCalls(s, p);
    }
  }

  predicate Quiet(s: State) {
    forall t | t in s.calls :: s.calls[t].Returned? || s.calls[t].Closed?
  }

  /** Once every call has ended after a close, every statement ever prepared has been closed exactly
      once; at no time has any been closed twice. */
  lemma EverythingClosedOnce(states: seq<State>, steps: seq<Step>, i: nat)
    requires IsRun(states, steps) && i < |states|
    ensures forall p | p in states[i].closes :: states[i].closes[p] <= 1
    ensures states[i].closed && Quiet(states[i]) ==> forall p | p in states[i].closes :: states[i].closes[p] == 1
  {
    hide LateFails;
    RunKeeps(states, steps, i);
    var s := states[i];
    if s.closed && Quiet(s) {
      forall p | p in s.closes ensures s.places[p].Gone? {
      }
    }
  }

  // ----- Lookups get their statement -----

  /** The call fails, or is about to. */
  predicate Fails(c: Call) {
    (c.Returned? || c.Discarding?) && c.result.None?
  }

  /** A step moves its own call only. */
  lemma CallsMove(s: State, step: Step)
    requires Enabled(s, step)
    ensures var now := Apply(s, step);
            step.thread in now.calls && now.calls == s.calls[step.thread := now.calls[step.thread]]
  {
    hide CloseStatement;
    forall p | p in s.closes ensures CloseStatement(s, p).calls == s.calls {
      ClosingLeavesCalls(s, p);
    }
  }

  /** What becomes of a call in one step of its own. */
  ghost predicate Follows(c: Call, d: Call) {
    match c
    case Looking(_, _) => d.Preparing? || d.Returned?
    case Preparing(_, _) => d.Holding? || d.Returned?
    case Holding(_, _, _) => d.Discarding? || d.Returned?
    case Discarding(_, _, _, result) => d.Returned? && d.result == result
    case Closing(pending) => d.Closed? || exists p :: p in pending && d == Closing(pending - {p})
    case _ => false
  }

  lemma OwnStep(s: State, step: Step)
    requires Enabled(s, step) && step.thread in s.calls
    ensures step.thread in Apply(s, step).calls
    ensures Follows(s.calls[step.thread], Apply(s, step).calls[step.thread])
  {
    hide CloseStatement;
    if step.CloseOne? || step.Discard? {
      hide Follows;
      ClosingStep(s, step);
    }
  }

  lemma ClosingStep(s: State, step: Step)
    requires Enabled(s, step) && (step.CloseOne? || step.Discard?)
    ensures step.thread in Apply(s, step).calls
    ensures Follows(s.calls[step.thread], Apply(s, step).calls[step.thread])
  {
  }

  lemma FailingStep(s: State, step: Step)
    requires Enabled(s, step) && step.thread in Apply(s, step).calls && Fails(Apply(s, step).calls[step.thread])
    ensures s.closed || step.PrepareFails? || (step.thread in s.calls && Fails(s.calls[step.thread]))
  {
    if step.Discard? || step.CloseOne? {
      hide Fails;
      ClosingStep(s, step);
      FailsAlong(s.calls[step.thread], Apply(s, step).calls[step.thread]);
    }
  }

  lemma FailsAlong(c: Call, d: Call)
    requires Follows(c, d) && Fails(d) && (c.Discarding? || c.Closing?)
    ensures Fails(c)
  {
  }

  lemma ClosedStays(s: State, step: Step)
    requires Enabled(s, step)
    ensures s.closed ==> Apply(s, step).closed
  {
  }

  /** A lookup fails only when the cache has been closed or its own preparation has failed. */
  lemma {:induction false} FailsForAReason(states: seq<State>, steps: seq<Step>, i: nat, t: Thread)
    requires IsRun(states, steps) && i < |states| && t in states[i].calls && Fails(states[i].calls[t])
    ensures states[i].closed || PrepareFails(t) in steps[..i]
  {
    hide Enabled, Apply, Fails;
    if i > 0 {
      var s, step := states[i - 1], steps[i - 1];
      assert steps[..i] == steps[..i - 1] + [step];
      CallsMove(s, step);
      ClosedStays(s, step);
      if step.thread == t {
        FailingStep(s, step);
        if step.PrepareFails? {
          assert step == PrepareFails(t);
        }
      }
      if t in s.calls && Fails(s.calls[t]) {
        FailsForAReason(states, steps, i - 1, t);
      }
    }
  }

  /** As long as the cache is open, a lookup of what is cached returns that at once, and one that has prepared a
      statement goes on to return the cached one or, if there is none, its own, which is cached from then on. */
  lemma OpenLookup(s: State, t: Thread)
    requires !s.closed && t in s.calls
    ensures var c := s.calls[t];
            c.Looking? && c.query in s.cache ==>
              Lookup(Apply(s, Peek(t)), t, c.query, Some(s.cache[c.query])) && Apply(s, Peek(t)).cache == s.cache
    ensures var c := s.calls[t];
            c.Holding? ==>
              var now := Apply(s, Settle(t));
              var p := if c.query in s.cache then s.cache[c.query] else c.own;
              && Gives(now.calls[t], c.query, p) && now.cache == s.cache[c.query := p]
              && (now.calls[t].Returned? <==> c.query !in s.cache)
              && (now.calls[t].Discarding? ==> now.calls[t].own == c.own)
  {
    assert forall q | q in s.cache :: s.cache[q := s.cache[q]] == s.cache;
  }

  /** The step takes a call that has begun further. */
  predicate Completes(s: State, step: Step, t: Thread) {
    step.thread == t && Enabled(s, step) && !step.StartLookup? && !step.StartClose?
  }

  /** In every reachable state, a call that has not ended can take a step, whatever the others do. */
  lemma NeverStuck(states: seq<State>, steps: seq<Step>, i: nat, t: Thread)
    requires IsRun(states, steps) && i < |states| && t in states[i].calls
    requires !states[i].calls[t].Returned? && !states[i].calls[t].Closed?
    ensures exists step :: Completes(states[i], step, t)
  {
    hide Placed, Agreed, LateFails;
    RunKeeps(states, steps, i);
    var s := states[i];
    match s.calls[t]
    case Looking(_, _) => assert Completes(s, Peek(t), t);
    case Preparing(_, _) => assert Completes(s, PrepareFails(t), t);
    case Holding(_, _, _) => assert Completes(s, Settle(t), t);
    case Discarding(_, _, own, _) =>
      assert OwnOf(s.calls[t]) == Some(own);
      assert Completes(s, Discard(t), t);
    case Closing(pending) =>
      if pending == {} {
        assert Completes(s, EndClose(t), t);
      } else {
        var p :| p in pending;
        assert p in PendingOf(s.calls[t]);
        assert Completes(s, CloseOne(t, p), t);
      }
  }

  /** The steps a call has left at most. */
  function Left(c: Call): nat {
    match c
    case Looking(_, _) => 4
    case Preparing(_, _) => 3
    case Holding(_, _, _) => 2
    case Discarding(_, _, _, _) => 1
    case Closing(pending) => |pending| + 1
    case _ => 0
  }

  lemma FewerLeft(c: Call, d: Call)
    requires Follows(c, d)
    ensures Left(d) < Left(c)
  {
    if c.Closing? && d.Closing? {
      var p :| p in c.pending && d == Closing(c.pending - {p});
      assert c.pending == c.pending - {p} + {p};
    }
  }

  /** Each step brings its call nearer to its end and leaves the other calls where they are. */
  lemma StepsRunOut(s: State, step: Step)
    requires Enabled(s, step)
    ensures var now := Apply(s, step);
            && s.calls.Keys <= now.calls.Keys
            && (forall t | t in s.calls && t != step.thread :: now.calls[t] == s.calls[t])
            && (step.thread in s.calls ==> Left(now.calls[step.thread]) < Left(s.calls[step.thread]))
  {
    hide Enabled, Apply, Left, Follows;
    CallsMove(s, step);
    if step.thread in s.calls {
      OwnStep(s, step);
      FewerLeft(s.calls[step.thread], Apply(s, step).calls[step.thread]);
    }
  }
}
