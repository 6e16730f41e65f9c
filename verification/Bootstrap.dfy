/**
 The one-shot bootstrap: processes that know the cookie race for a control descriptor, a guard closes the window,
 and the daemon reports ready. Every access to the claim state is one atomic step; steps interleave freely.
 */
module Bootstrap {

  datatype Claim = Unclaimed | Claiming | Delivered | Ready | Closed

  /** Where a claimant stands, from the cookie check in the probe to the end of its task work. */
  datatype Stage =
    | Checked      // cookie matched, claim not yet tried
    | Claimed      // claim won, session not yet queued
    | Queued       // task work pending
    | Installed    // descriptor installed, not yet marked delivered
    | Holding      // marked delivered, descriptor not yet copied out
    | CopyFailed   // copy failed and descriptor closed, mark not yet undone
    | Failing      // no descriptor, last compare-and-swap still to come
    | Done         // descriptor delivered
    | Dropped      // gave up

  /** The guard between its read of the claim state and its compare-and-swap; then clearing up. */
  datatype Guard = Waiting | Decided(seen: Claim) | Closing | Stopped

  datatype State = State(
    claim: Claim, cookie: bool, sessions: map<nat, Stage>, guard: Guard, readies: nat, closings: nat)

  function Init(): State { State(Unclaimed, true, map[], Waiting, 0, 0) }

  datatype Event =
    | Check(id: nat)
    | TryClaim(id: nat)
    | QueueOk(id: nat)
    | QueueFail(id: nat)
    | InstallOk(id: nat)
    | InstallFail(id: nat)
    | Deliver(id: nat)
    | CopyOk(id: nat)
    | CopyFail(id: nat)
    | Undo(id: nat)
    | Finish(id: nat)
    | ClearCookie(id: nat)
    | DaemonReady
    | GuardRead
    | GuardClose
    | GuardClear

  predicate At(s: State, id: nat, stage: Stage) { id in s.sessions && s.sessions[id] == stage }

  predicate Enabled(s: State, e: Event) {
    match e
    case Check(id) => s.cookie && id !in s.sessions
    case TryClaim(id) => At(s, id, Checked)
    case QueueOk(id) => At(s, id, Claimed)
    case QueueFail(id) => At(s, id, Claimed)
    case InstallOk(id) => At(s, id, Queued)
    case InstallFail(id) => At(s, id, Queued)
    case Deliver(id) => At(s, id, Installed)
    case CopyOk(id) => At(s, id, Holding)
    case CopyFail(id) => At(s, id, Holding)
    case Undo(id) => At(s, id, CopyFailed)
    case Finish(id) => At(s, id, Failing)
    case ClearCookie(id) => At(s, id, Done)
    case DaemonReady => true
    case GuardRead => s.guard == Waiting
    case GuardClose => s.guard.Decided?
    case GuardClear => s.guard == Closing
  }

  function Move(s: State, id: nat, stage: Stage): State { s.(sessions := s.sessions[id := stage]) }

  /** The claim state after an atomic compare-and-swap. */
  function Swap(c: Claim, expected: Claim, next: Claim): Claim { if c == expected then next else c }

  /** After a failed queueing the code stores `Unclaimed` whatever the state is; `checked` replaces that
      store by a compare-and-swap. */
  function Next(s: State, e: Event, checked: bool): State
    requires Enabled(s, e)
  {
    match e
    case Check(id) => Move(s, id, Checked)
    case TryClaim(id) =>
      if s.claim == Unclaimed then Move(s.(claim := Claiming), id, Claimed) else Move(s, id, Dropped)
    case QueueOk(id) => Move(s, id, Queued)
    case QueueFail(id) =>
      Move(s.(claim := if checked then Swap(s.claim, Claiming, Unclaimed) else Unclaimed), id, Dropped)
    case InstallOk(id) => Move(s, id, Installed)
    case InstallFail(id) => Move(s, id, Failing)
    case Deliver(id) =>
      if s.claim == Claiming then Move(s.(claim := Delivered), id, Holding) else Move(s, id, Failing)
    case CopyOk(id) => Move(s, id, Done)
    case CopyFail(id) => Move(s, id, CopyFailed)
    case Undo(id) => Move(s.(claim := Swap(s.claim, Delivered, Unclaimed)), id, Failing)
    case Finish(id) => Move(s.(claim := Swap(s.claim, Claiming, Unclaimed)), id, Dropped)
    case ClearCookie(_) => s.(cookie := false)
    case DaemonReady => if s.claim == Delivered then s.(claim := Ready, readies := s.readies + 1) else s
    case GuardRead => s.(guard := if s.claim == Ready || s.claim == Closed then Stopped else Decided(s.claim))
    case GuardClose =>
      if s.claim == s.guard.seen then s.(claim := Closed, guard := Closing, closings := s.closings + 1)
      else s.(guard := Waiting)
    case GuardClear => s.(cookie := false, guard := Stopped)
  }

  // --------------------------------------------------------------- invariant

  /** A session that has taken the delivery and not given it back. */
  predicate Holds(st: Stage) { st == Holding || st == CopyFailed || st == Done }

  predicate HoldersUnique(s: State) {
    forall i, j :: i in s.sessions && j in s.sessions && Holds(s.sessions[i]) && Holds(s.sessions[j]) ==> i == j
  }

  predicate SomeHolder(s: State) { exists i :: i in s.sessions && Holds(s.sessions[i]) }

  predicate Open(c: Claim) { c == Unclaimed || c == Claiming }

  predicate Inv(s: State) {
    && HoldersUnique(s)
    && (Open(s.claim) ==> !SomeHolder(s))
    && (s.claim == Delivered ==> SomeHolder(s))
    && s.readies == (if s.claim == Ready then 1 else 0)
    && s.closings == (if s.claim == Closed then 1 else 0)
    && (s.guard.Decided? ==> s.guard.seen != Ready && s.guard.seen != Closed)
  }

  /** A queueing failure finds the claim still open. */
  predicate ResetHarmless(s: State, e: Event) { e.QueueFail? ==> Open(s.claim) }

  lemma HoldersAfterMove(s: State, s': State, id: nat, stage: Stage)
    requires s'.sessions == s.sessions[id := stage]
    ensures HoldersUnique(s) && (Holds(stage) ==> (id in s.sessions && Holds(s.sessions[id])) || !SomeHolder(s)) ==>
              HoldersUnique(s')
    ensures !Holds(stage) && !SomeHolder(s) ==> !SomeHolder(s')
    ensures Holds(stage) ==> SomeHolder(s')
    ensures !(id in s.sessions && Holds(s.sessions[id])) && SomeHolder(s) ==> SomeHolder(s')
    ensures !Holds(stage) && id in s.sessions && Holds(s.sessions[id]) && HoldersUnique(s) ==> !SomeHolder(s')
  {
    if Holds(stage) { assert id in s'.sessions && Holds(s'.sessions[id]); }
    if SomeHolder(s) {
      var i :| i in s.sessions && Holds(s.sessions[i]);
      if i != id { assert i in s'.sessions && Holds(s'.sessions[i]); }
    }
  }

  lemma EarlyStepKeepsInv(s: State, e: Event, checked: bool)
    requires Inv(s) && Enabled(s, e) && (checked || ResetHarmless(s, e))
    requires e.Check? || e.TryClaim? || e.QueueOk? || e.QueueFail? || e.InstallOk? || e.InstallFail?
    ensures Inv(Next(s, e, checked))
  {
    var s' := Next(s, e, checked);
    HoldersAfterMove(s, s', e.id, s'.sessions[e.id]);
  }

  lemma LateStepKeepsInv(s: State, e: Event, checked: bool)
    requires Inv(s) && Enabled(s, e)
    requires e.Deliver? || e.CopyOk? || e.CopyFail? || e.Undo? || e.Finish?
    ensures Inv(Next(s, e, checked))
  {
    var s' := Next(s, e, checked);
    HoldersAfterMove(s, s', e.id, s'.sessions[e.id]);
  }

  lemma OtherStepKeepsInv(s: State, e: Event, checked: bool)
    requires Inv(s) && Enabled(s, e)
    requires e.ClearCookie? || e.DaemonReady? || e.GuardRead? || e.GuardClose? || e.GuardClear?
    ensures Inv(Next(s, e, checked))
  {
    assert Next(s, e, checked).sessions == s.sessions;
  }

  /** Every step keeps the invariant, if the store after a failed queueing is checked or harmless. */
  lemma StepKeepsInv(s: State, e: Event, s': State, checked: bool)
    requires Inv(s) && Enabled(s, e) && (checked || ResetHarmless(s, e)) && s' == Next(s, e, checked)
    ensures Inv(s')
  {
    if e.Check? || e.TryClaim? || e.QueueOk? || e.QueueFail? || e.InstallOk? || e.InstallFail? {
      EarlyStepKeepsInv(s, e, checked);
    } else if e.Deliver? || e.CopyOk? || e.CopyFail? || e.Undo? || e.Finish? {
      LateStepKeepsInv(s, e, checked);
    } else {
      OtherStepKeepsInv(s, e, checked);
    }
  }

  /** The unconditional store keeps the invariant exactly when the claim is still open. */
  lemma ResetKeepsInvIff(s: State, id: nat)
    requires Inv(s) && At(s, id, Claimed)
    ensures Inv(Next(s, QueueFail(id), false)) <==> Open(s.claim)
  {
    HoldersAfterMove(s, Next(s, QueueFail(id), false), id, Dropped);
  }

  // -------------------------------------------------------------------- runs

  /** State `i + 1` follows by event `i`. */
  predicate Follows(states: seq<State>, events: seq<Event>, checked: bool, i: int)
    requires 0 <= i < |events| < |states|
  {
    Enabled(states[i], events[i]) && states[i + 1] == Next(states[i], events[i], checked)
  }

  /** A run from the initial state, one state before each event and one after the last. */
  predicate Run(states: seq<State>, events: seq<Event>, checked: bool) {
    && |states| == |events| + 1 && states[0] == Init()
    && forall i {:trigger Follows(states, events, checked, i)} :: 0 <= i < |events| ==>
         Follows(states, events, checked, i)
  }

  predicate Harmless(states: seq<State>, events: seq<Event>)
    requires |states| == |events| + 1
  {
    forall i :: 0 <= i < |events| ==> ResetHarmless(states[i], events[i])
  }

  lemma {:induction false} RunKeepsInv(states: seq<State>, events: seq<Event>, checked: bool, n: nat)
    requires Run(states, events, checked) && (checked || Harmless(states, events)) && n < |states|
    ensures Inv(states[n])
    decreases n
  {
    if n > 0 {
      RunKeepsInv(states, events, checked, n - 1);
      assert Follows(states, events, checked, n - 1);
      StepKeepsInv(states[n - 1], events[n - 1], states[n], checked);
    }
  }

  /** Ready and closed are final. */
  lemma {:induction false} VerdictIsFinal(states: seq<State>, events: seq<Event>, checked: bool, i: nat, j: nat)
    requires Run(states, events, checked) && (checked || Harmless(states, events)) && i <= j < |states|
    requires states[i].claim == Ready || states[i].claim == Closed
    ensures states[j].claim == states[i].claim
    decreases j
  {
    if i < j {
      VerdictIsFinal(states, events, checked, i, j - 1);
      RunKeepsInv(states, events, checked, j - 1);
      assert Follows(states, events, checked, j - 1);
      VerdictStep(states[j - 1], events[j - 1], checked);
    }
  }

  lemma VerdictStep(s: State, e: Event, checked: bool)
    requires Inv(s) && Enabled(s, e) && (checked || ResetHarmless(s, e)) && !Open(s.claim) && s.claim != Delivered
    ensures Next(s, e, checked).claim == s.claim
  {
  }

  // The same exactly, for every run of the code as it is.

  predicate Final(c: Claim) { c == Ready || c == Closed }

  /** The guard acts only on a claim that it did not read as final. */
  predicate GuardHonest(s: State) { s.guard.Decided? ==> !Final(s.guard.seen) }

  lemma {:induction false} RunHonest(states: seq<State>, events: seq<Event>, checked: bool, n: nat)
    requires Run(states, events, checked) && n < |states|
    ensures GuardHonest(states[n])
    decreases n
  {
    if n > 0 {
      RunHonest(states, events, checked, n - 1);
      assert Follows(states, events, checked, n - 1);
    }
  }

  lemma FinalStepIff(s: State, e: Event, checked: bool)
    requires GuardHonest(s) && Enabled(s, e) && Final(s.claim)
    ensures Next(s, e, checked).claim != s.claim <==> e.QueueFail? && !checked
  {
  }

  /** One step leaves ready or closed exactly when it is a failed queueing that stores without checking. */
  lemma VerdictChangesIff(states: seq<State>, events: seq<Event>, checked: bool, i: nat)
    requires Run(states, events, checked) && i < |events| && Final(states[i].claim)
    ensures states[i + 1].claim != states[i].claim <==> events[i].QueueFail? && !checked
  {
    RunHonest(states, events, checked, i);
    assert Follows(states, events, checked, i);
    FinalStepIff(states[i], events[i], checked);
  }

  predicate Stands(states: seq<State>, i: nat, j: nat)
    requires i <= j < |states|
  {
    forall k :: i <= k <= j ==> states[k].claim == states[i].claim
  }

  predicate NoneFails(events: seq<Event>, i: nat, j: nat)
    requires i <= j <= |events|
  {
    forall k :: i <= k < j ==> !events[k].QueueFail?
  }

  /** So a verdict stands over a stretch of a run if and only if no queueing fails in it, or the store is checked. */
  lemma {:induction false} VerdictStandsIff(states: seq<State>, events: seq<Event>, checked: bool, i: nat, j: nat)
    requires Run(states, events, checked) && i <= j < |states| && Final(states[i].claim)
    ensures Stands(states, i, j) <==> checked || NoneFails(events, i, j)
    decreases j
  {
    if i < j {
      VerdictStandsIff(states, events, checked, i, j - 1);
      if Stands(states, i, j - 1) {
        VerdictChangesIff(states, events, checked, j - 1);
        assert states[j - 1].claim == states[i].claim;
      } else {
        assert !Stands(states, i, j);
      }
    }
  }

  /** A successful ready and a fail-closed never both happen, and neither happens twice. */
  lemma OneVerdict(states: seq<State>, events: seq<Event>, checked: bool, n: nat)
    requires Run(states, events, checked) && (checked || Harmless(states, events)) && n < |states|
    ensures states[n].readies + states[n].closings <= 1
  {
    RunKeepsInv(states, events, checked, n);
  }

  lemma DoneStep(s: State, e: Event, checked: bool, id: nat)
    requires Enabled(s, e) && At(s, id, Done)
    ensures At(Next(s, e, checked), id, Done)
  {
  }

  lemma {:induction false} DoneIsFinal(states: seq<State>, events: seq<Event>, checked: bool, i: nat, j: nat, id: nat)
    requires Run(states, events, checked) && i <= j < |states| && At(states[i], id, Done)
    ensures At(states[j], id, Done)
    decreases j
  {
    if i < j {
      DoneIsFinal(states, events, checked, i, j - 1, id);
      assert Follows(states, events, checked, j - 1);
      DoneStep(states[j - 1], events[j - 1], checked, id);
    }
  }

  /** At most one descriptor is ever delivered, however far apart in the run. */
  lemma OneDelivery(states: seq<State>, events: seq<Event>, checked: bool, i: nat, j: nat, a: nat, b: nat)
    requires Run(states, events, checked) && (checked || Harmless(states, events)) && i <= j < |states|
    requires At(states[i], a, Done) && At(states[j], b, Done)
    ensures a == b
  {
    DoneIsFinal(states, events, checked, i, j, a);
    RunKeepsInv(states, events, checked, j);
  }

  // ------------------------------------------------------ claims are given back

  /** A session that has won the claim and not yet delivered or given up. */
  predicate Working(st: Stage) { st == Claimed || st == Queued || st == Installed || st == Failing }

  predicate ClaimIsWorked(s: State) {
    s.claim == Claiming ==> exists id :: id in s.sessions && Working(s.sessions[id])
  }

  lemma WorkedStep(s: State, e: Event, checked: bool)
    requires ClaimIsWorked(s) && Enabled(s, e)
    ensures ClaimIsWorked(Next(s, e, checked))
  {
    var s' := Next(s, e, checked);
    if s'.claim == Claiming {
      if s.claim == Claiming {
        var id :| id in s.sessions && Working(s.sessions[id]);
        assert id in s'.sessions && Working(s'.sessions[id]);
      } else {
        assert e.TryClaim? && Working(s'.sessions[e.id]);
      }
    }
  }

  /** In every run, checked or not, the claim is never stuck: while it is being claimed some session is at work. */
  lemma {:induction false} ClaimNeverStuck(states: seq<State>, events: seq<Event>, checked: bool, n: nat)
    requires Run(states, events, checked) && n < |states|
    ensures ClaimIsWorked(states[n])
    decreases n
  {
    if n > 0 {
      ClaimNeverStuck(states, events, checked, n - 1);
      assert Follows(states, events, checked, n - 1);
      WorkedStep(states[n - 1], events[n - 1], checked);
    }
  }

  /** A state after events that follow each other undisturbed. */
  predicate Leads(s: State, events: seq<Event>, s': State)
    decreases |events|
  {
    if events == [] then s' == s
    else Enabled(s, events[0]) && Leads(Next(s, events[0], false), events[1..], s')
  }

  lemma LeadsOn(s: State, e: Event, events: seq<Event>, s': State)
    requires Enabled(s, e) && Leads(Next(s, e, false), events, s')
    ensures Leads(s, [e] + events, s')
  {
    assert ([e] + events)[1..] == events;
  }

  lemma {:induction false} LeadsThrough(s: State, a: seq<Event>, m: State, b: seq<Event>, s': State)
    requires Leads(s, a, m) && Leads(m, b, s')
    ensures Leads(s, a + b, s')
    decreases |a|
  {
    if a == [] {
      assert a + b == b;
    } else {
      LeadsThrough(Next(s, a[0], false), a[1..], m, b, s');
      assert (a + b)[1..] == a[1..] + b;
    }
  }

  lemma ClaimAndInstall(s: State, id: nat) returns (m: State)
    requires s.claim == Unclaimed && s.cookie && id !in s.sessions
    ensures Leads(s, [Check(id), TryClaim(id), QueueOk(id), InstallOk(id)], m)
    ensures m.claim == Claiming && At(m, id, Installed) && m.readies == s.readies
  {
    var t1 := Next(s, Check(id), false);
    var t2 := Next(t1, TryClaim(id), false);
    var t3 := Next(t2, QueueOk(id), false);
    m := Next(t3, InstallOk(id), false);
    LeadsOn(t3, InstallOk(id), [], m);
    assert [InstallOk(id)] + [] == [InstallOk(id)];
    LeadsOn(t2, QueueOk(id), [InstallOk(id)], m);
    LeadsOn(t1, TryClaim(id), [QueueOk(id)] + [InstallOk(id)], m);
    LeadsOn(s, Check(id), [TryClaim(id)] + ([QueueOk(id)] + [InstallOk(id)]), m);
    assert [Check(id)] + ([TryClaim(id)] + ([QueueOk(id)] + [InstallOk(id)]))
        == [Check(id), TryClaim(id), QueueOk(id), InstallOk(id)];
  }

  lemma DeliverAndReady(m: State, id: nat) returns (s': State)
    requires m.claim == Claiming && At(m, id, Installed)
    ensures Leads(m, [Deliver(id), CopyOk(id), DaemonReady, ClearCookie(id)], s')
    ensures s'.claim == Ready && s'.readies == m.readies + 1 && At(s', id, Done) && !s'.cookie
  {
    var t1 := Next(m, Deliver(id), false);
    var t2 := Next(t1, CopyOk(id), false);
    var t3 := Next(t2, DaemonReady, false);
    s' := Next(t3, ClearCookie(id), false);
    LeadsOn(t3, ClearCookie(id), [], s');
    assert [ClearCookie(id)] + [] == [ClearCookie(id)];
    LeadsOn(t2, DaemonReady, [ClearCookie(id)], s');
    LeadsOn(t1, CopyOk(id), [DaemonReady] + [ClearCookie(id)], s');
    LeadsOn(m, Deliver(id), [CopyOk(id)] + ([DaemonReady] + [ClearCookie(id)]), s');
    assert [Deliver(id)] + ([CopyOk(id)] + ([DaemonReady] + [ClearCookie(id)]))
        == [Deliver(id), CopyOk(id), DaemonReady, ClearCookie(id)];
  }

  /** A session that meets an open claim and is not disturbed delivers its descriptor; the daemon's ready then counts,
      and the cookie is cleared. */
  lemma UndisturbedDelivers(s: State, id: nat) returns (s': State)
    requires s.claim == Unclaimed && s.cookie && id !in s.sessions
    ensures Leads(s, [Check(id), TryClaim(id), QueueOk(id), InstallOk(id)]
                     + [Deliver(id), CopyOk(id), DaemonReady, ClearCookie(id)], s')
    ensures s'.claim == Ready && s'.readies == s.readies + 1 && At(s', id, Done) && !s'.cookie
  {
    var m := ClaimAndInstall(s, id);
    s' := DeliverAndReady(m, id);
    LeadsThrough(s, [Check(id), TryClaim(id), QueueOk(id), InstallOk(id)], m,
                 [Deliver(id), CopyOk(id), DaemonReady, ClearCookie(id)], s');
  }

  /** Wherever a session fails, undisturbed, the claim is open again afterwards: at queueing, at installing, or at
      copying the descriptor out. */
  lemma FailuresGiveBack(s: State, id: nat)
    requires s.claim == Claiming && At(s, id, Claimed)
    ensures Enabled(s, QueueFail(id)) && Next(s, QueueFail(id), false).claim == Unclaimed
    ensures exists s' :: Leads(s, [QueueOk(id), InstallFail(id), Finish(id)], s') && s'.claim == Unclaimed
    ensures exists s' :: Leads(s, [QueueOk(id), InstallOk(id), Deliver(id), CopyFail(id), Undo(id)], s')
              && s'.claim == Unclaimed
  {
    var q := Next(s, QueueOk(id), false);
    var f1 := Next(q, InstallFail(id), false);
    var f2 := Next(f1, Finish(id), false);
    LeadsOn(f1, Finish(id), [], f2);
    assert [Finish(id)] + [] == [Finish(id)];
    LeadsOn(q, InstallFail(id), [Finish(id)], f2);
    LeadsOn(s, QueueOk(id), [InstallFail(id)] + [Finish(id)], f2);
    assert [QueueOk(id)] + ([InstallFail(id)] + [Finish(id)]) == [QueueOk(id), InstallFail(id), Finish(id)];
    CopyFailureGivesBack(s, id);
  }

  lemma CopyFailureGivesBack(s: State, id: nat)
    requires s.claim == Claiming && At(s, id, Claimed)
    ensures exists s' :: Leads(s, [QueueOk(id), InstallOk(id), Deliver(id), CopyFail(id), Undo(id)], s')
              && s'.claim == Unclaimed
  {
    var t1 := Next(s, QueueOk(id), false);
    var t2 := Next(t1, InstallOk(id), false);
    var t3 := Next(t2, Deliver(id), false);
    var t4 := Next(t3, CopyFail(id), false);
    var t5 := Next(t4, Undo(id), false);
    LeadsOn(t4, Undo(id), [], t5);
    assert [Undo(id)] + [] == [Undo(id)];
    LeadsOn(t3, CopyFail(id), [Undo(id)], t5);
    LeadsOn(t2, Deliver(id), [CopyFail(id)] + [Undo(id)], t5);
    LeadsOn(t1, InstallOk(id), [Deliver(id)] + ([CopyFail(id)] + [Undo(id)]), t5);
    LeadsOn(s, QueueOk(id), [InstallOk(id)] + ([Deliver(id)] + ([CopyFail(id)] + [Undo(id)])), t5);
    assert [QueueOk(id)] + ([InstallOk(id)] + ([Deliver(id)] + ([CopyFail(id)] + [Undo(id)])))
        == [QueueOk(id), InstallOk(id), Deliver(id), CopyFail(id), Undo(id)];
  }

  /** The guard, undisturbed, closes every claim that has no verdict, and clears the cookie. */
  lemma GuardCloses(s: State)
    requires s.guard == Waiting && !Final(s.claim)
    ensures exists s' :: Leads(s, [GuardRead, GuardClose, GuardClear], s')
              && s'.claim == Closed && s'.closings == s.closings + 1 && !s'.cookie && s'.sessions == s.sessions
  {
    var t1 := Next(s, GuardRead, false);
    var t2 := Next(t1, GuardClose, false);
    var t3 := Next(t2, GuardClear, false);
    LeadsOn(t2, GuardClear, [], t3);
    assert [GuardClear] + [] == [GuardClear];
    LeadsOn(t1, GuardClose, [GuardClear], t3);
    LeadsOn(s, GuardRead, [GuardClose] + [GuardClear], t3);
    assert [GuardRead] + ([GuardClose] + [GuardClear]) == [GuardRead, GuardClose, GuardClear];
  }

  /** Once the cookie is cleared no process passes the check any more. */
  lemma {:induction false} NoneAfterCookie(states: seq<State>, events: seq<Event>, checked: bool, i: nat, j: nat)
    requires Run(states, events, checked) && i < j <= |events| && (events[i].ClearCookie? || events[i].GuardClear?)
    ensures !states[j].cookie && (j < |events| ==> !events[j].Check?)
    decreases j
  {
    if i < j - 1 { NoneAfterCookie(states, events, checked, i, j - 1); }
    assert Follows(states, events, checked, j - 1);
    if j < |events| { assert Follows(states, events, checked, j); }
  }

  // ------------------------------------------------- what the store can undo

  /** A set of states that holds the initial one and, with a state, every state the code as it is steps to. */
  ghost predicate StepClosed(R: State -> bool) {
    R(Init()) && forall s, e :: R(s) && Enabled(s, e) ==> R(Next(s, e, false))
  }

  lemma Steps(R: State -> bool, s: State, e: Event)
    requires StepClosed(R) && R(s) && Enabled(s, e)
    ensures R(Next(s, e, false))
  {
  }

  /** Some run of the code as it is ends in `s`. */
  ghost predicate Reachable(s: State) {
    exists states: seq<State>, events: seq<Event> :: Run(states, events, false) && states[|events|] == s
  }

  lemma ReachableStep(s: State, e: Event)
    requires Reachable(s) && Enabled(s, e)
    ensures Reachable(Next(s, e, false))
  {
    var states: seq<State>, events: seq<Event> :| Run(states, events, false) && states[|events|] == s;
    var states', events' := states + [Next(s, e, false)], events + [e];
    forall i | 0 <= i < |events'| ensures Follows(states', events', false, i) {
      if i < |events| { assert Follows(states, events, false, i); }
    }
    assert Run(states', events', false) && states'[|events'|] == Next(s, e, false);
  }

  lemma ReachableClosed()
    ensures StepClosed(s => Reachable(s))
  {
    assert Run([Init()], [], false);
    forall s, e | Reachable(s) && Enabled(s, e) ensures Reachable(Next(s, e, false)) { ReachableStep(s, e); }
  }

  /** A session that has checked the cookie can claim and deliver while the claim is free. */
  function HoldingBy(s: State, id: nat): State { Move(s.(claim := Delivered), id, Holding) }

  lemma HoldingReached(R: State -> bool, s: State, id: nat)
    requires StepClosed(R) && R(s) && At(s, id, Checked) && s.claim == Unclaimed
    ensures R(HoldingBy(s, id))
  {
    var s1 := Move(s.(claim := Claiming), id, Claimed);
    Steps(R, s, TryClaim(id));
    var s2 := Move(s1, id, Queued);
    Steps(R, s1, QueueOk(id));
    var s3 := Move(s2, id, Installed);
    Steps(R, s2, InstallOk(id));
    Steps(R, s3, Deliver(id));
    assert Next(s3, Deliver(id), false).sessions == HoldingBy(s, id).sessions;
  }

  lemma DeliveryReached(R: State -> bool, s: State, id: nat)
    requires StepClosed(R) && R(s) && At(s, id, Checked) && s.claim == Unclaimed
    ensures R(Move(HoldingBy(s, id), id, Done))
  {
    HoldingReached(R, s, id);
    Steps(R, HoldingBy(s, id), CopyOk(id));
  }

  predicate LastThreeChecked(s: State) { At(s, 2, Checked) && At(s, 3, Checked) && At(s, 4, Checked) }

  predicate AllChecked(s: State) { At(s, 1, Checked) && LastThreeChecked(s) }

  predicate Untouched(s: State) { s.claim == Unclaimed && s.guard == Waiting && s.readies == s.closings == 0 }

  predicate ClosedOnly(s: State) { s.claim == Closed && s.closings == 1 && s.readies == 0 }

  /** Four sessions have read the cookie. */
  lemma CheckedReached(R: State -> bool)
    requires StepClosed(R)
    ensures exists s :: R(s) && AllChecked(s) && Untouched(s)
  {
    var s1 := Move(Init(), 1, Checked);
    Steps(R, Init(), Check(1));
    var s2 := Move(s1, 2, Checked);
    Steps(R, s1, Check(2));
    var s3 := Move(s2, 3, Checked);
    Steps(R, s2, Check(3));
    var s4 := Move(s3, 4, Checked);
    Steps(R, s3, Check(4));
    assert R(s4) && AllChecked(s4);
  }

  /** The guard closes while the first session is between its claim and its queueing. */
  lemma ClosedReached(R: State -> bool)
    requires StepClosed(R)
    ensures exists s :: R(s) && ClosedOnly(s) && At(s, 1, Claimed) && At(s, 2, Checked)
  {
    CheckedReached(R);
    var s :| R(s) && AllChecked(s) && Untouched(s);
    var s1 := Move(s.(claim := Claiming), 1, Claimed);
    Steps(R, s, TryClaim(1));
    var s2 := s1.(guard := Decided(Claiming));
    Steps(R, s1, GuardRead);
    var s3 := s2.(claim := Closed, guard := Closing, closings := 1);
    Steps(R, s2, GuardClose);
    assert R(s3) && s3.claim == Closed && At(s3, 1, Claimed) && At(s3, 2, Checked);
  }

  lemma BothVerdictsReached(R: State -> bool)
    requires StepClosed(R)
    ensures exists s :: R(s) && s.readies == 1 && s.closings == 1
  {
    ClosedReached(R);
    var s :| R(s) && ClosedOnly(s) && At(s, 1, Claimed) && At(s, 2, Checked);
    var s1 := Move(s.(claim := Unclaimed), 1, Dropped);
    Steps(R, s, QueueFail(1));
    DeliveryReached(R, s1, 2);
    var s2 := Move(HoldingBy(s1, 2), 2, Done);
    var s3 := s2.(claim := Ready, readies := 1);
    Steps(R, s2, DaemonReady);
    assert R(s3);
  }

  /** With the unconditional store, the guard can fail closed and the daemon still become ready. */
  lemma ClosedThenReady()
    ensures exists s :: Reachable(s) && s.readies == 1 && s.closings == 1
  {
    ReachableClosed();
    BothVerdictsReached(s => Reachable(s));
  }

  lemma CopyFailReached(R: State -> bool)
    requires StepClosed(R)
    ensures exists s :: R(s) && s.claim == Unclaimed && At(s, 1, Failing) && LastThreeChecked(s)
  {
    CheckedReached(R);
    var s :| R(s) && AllChecked(s) && Untouched(s);
    HoldingReached(R, s, 1);
    var s1 := HoldingBy(s, 1);
    var s2 := Move(s1, 1, CopyFailed);
    Steps(R, s1, CopyFail(1));
    var s3 := Move(s2.(claim := Unclaimed), 1, Failing);
    Steps(R, s2, Undo(1));
    assert R(s3) && At(s3, 1, Failing) && LastThreeChecked(s3);
  }

  lemma ThirdReached(R: State -> bool)
    requires StepClosed(R)
    ensures exists s :: R(s) && At(s, 2, Claimed) && At(s, 3, Done) && At(s, 4, Checked)
  {
    CopyFailReached(R);
    var s :| R(s) && s.claim == Unclaimed && At(s, 1, Failing) && LastThreeChecked(s);
    var s1 := Move(s.(claim := Claiming), 2, Claimed);
    Steps(R, s, TryClaim(2));
    var s2 := Move(s1.(claim := Unclaimed), 1, Dropped);
    Steps(R, s1, Finish(1));
    DeliveryReached(R, s2, 3);
    var s3 := Move(HoldingBy(s2, 3), 3, Done);
    assert R(s3) && At(s3, 2, Claimed) && At(s3, 3, Done) && At(s3, 4, Checked);
  }

  lemma BothDeliveriesReached(R: State -> bool)
    requires StepClosed(R)
    ensures exists s :: R(s) && At(s, 3, Done) && At(s, 4, Done)
  {
    ThirdReached(R);
    var s :| R(s) && At(s, 2, Claimed) && At(s, 3, Done) && At(s, 4, Checked);
    var s1 := Move(s.(claim := Unclaimed), 2, Dropped);
    Steps(R, s, QueueFail(2));
    DeliveryReached(R, s1, 4);
    var s2 := Move(HoldingBy(s1, 4), 4, Done);
    assert R(s2) && At(s2, 3, Done) && At(s2, 4, Done);
  }

  /** And two descriptors can be delivered: a failed copy lets its session's last compare-and-swap release
      another session's claim, whose failed queueing then resets a third session's delivery. */
  lemma TwoDelivered()
    ensures exists s :: Reachable(s) && At(s, 3, Done) && At(s, 4, Done)
  {
    ReachableClosed();
    BothDeliveriesReached(s => Reachable(s));
  }
}
