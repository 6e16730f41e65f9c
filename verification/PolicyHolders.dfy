/**
 The holder lists that keep grants until they are released: native entries, module
 holders, their timeouts and explicit restores, as atomic steps that may interleave
 in any order. A step is one critical section or one call into the ledger.
 */
module PolicyHolders {
  import opened PolicyLedger
  import opened PolicyGrants

  datatype Option<T> = None | Some(value: T)

  datatype Kind = Native | Module

  /** Where an entry is linked: on its kind's list, on the private list of a thread that took it, on that list
      with its timer cancelled, or nowhere. */
  datatype Link = Listed | Taken(thread: nat) | Cancelled(thread: nat) | Unlinked

  /** The timeout: not yet scheduled, scheduled, its callback before its critical section, its callback about to
      restore, or nothing of it left. */
  datatype Timer = Unarmed | Armed | Running | Restoring | Idle

  /** An entry keeps its contents when it is freed, so that a step that touches a freed entry can be seen. */
  datatype Entry = Entry(kind: Kind, tgid: int, token: nat, pending: bool, link: Link, timer: Timer, freed: bool)

  /** Where a grant is: with the thread that obtained it, stored in an entry, lost by a failed restore, released. */
  datatype Place = InHand | Held(entry: nat) | Leaked | Released

  datatype Sys = Sys(w: World, entries: map<nat, Entry>, place: map<nat, Place>)

  datatype Event =
    | Allow(id: nat, req: LoadRequest, ok: bool)
    | Execmem(id: nat, src: nat, tclass: nat, av: Mask, ok: bool)
    | Drop(id: nat, ok: bool)                                    // restored by the thread that has it
    | Publish(id: nat, tgid: int, entry: nat, thread: nat)       // locked: take the old entries, insert the new
    | Arm(entry: nat)                                            // the timer of a published entry is scheduled
    | ModuleInsert(id: nat, tgid: int, entry: nat, ok: bool)     // locked: insert and schedule, or restore
    | TimerFire(entry: nat)                                      // the callback starts
    | TimerLock(entry: nat)                                      // locked: the callback decides
    | TimerRestore(entry: nat, ok: bool)                         // the callback restores and frees
    | Claim(kind: Kind, tgid: int, thread: nat)                  // locked: a process's entries are taken
    | ClaimAll(kind: Kind, thread: nat)                          // locked: all entries are taken
    | Cancel(entry: nat)                                         // the taker cancels the timer and waits for it
    | Reap(entry: nat, ok: bool)                                 // the taker restores and frees

  function IndexOf(ts: seq<Token>, id: nat): (i: nat)
    ensures i <= |ts|
    ensures i < |ts| ==> ts[i].id == id
    ensures i == |ts| ==> forall j :: 0 <= j < |ts| ==> ts[j].id != id
  {
    if ts == [] then 0
    else if ts[0].id == id then 0
    else
      var i := IndexOf(ts[1..], id);
      assert forall j :: 1 <= j < |ts| ==> ts[j] == ts[1..][j - 1];
      i + 1
  }

  /** Hand a grant back to the ledger, which becomes `after`; callers drop the state whatever restore returns. */
  function ReleaseToken(s: Sys, id: nat, after: World): Sys {
    s.(w := after, place := s.place[id := if |after.tokens| < |s.w.tokens| then Released else Leaked])
  }

  /** The entry is on the list searched, and meets the search. */
  predicate Matches(e: Entry, kind: Kind, tgid: int, all: bool) {
    e.kind == kind && e.link == Listed && (all || (e.tgid == tgid && (kind == Module ==> e.pending)))
  }

  function TakenBy(e: Entry, thread: nat): Entry { e.(pending := false, link := Taken(thread)) }

  function ClaimWhere(entries: map<nat, Entry>, kind: Kind, tgid: int, all: bool, thread: nat): map<nat, Entry> {
    map x | x in entries :: if Matches(entries[x], kind, tgid, all) then TakenBy(entries[x], thread) else entries[x]
  }

  function StateOf(ts: seq<Token>, id: nat): LoadPolicy {
    var i := IndexOf(ts, id);
    if i < |ts| then ts[i].state else ZERO_STATE
  }

  /** A pending module holder of the same process for the same file and directory keys. */
  predicate HasTwin(s: Sys, tgid: int, p: LoadPolicy) {
    exists x :: x in s.entries && s.entries[x].kind == Module && s.entries[x].link == Listed && s.entries[x].pending
      && s.entries[x].tgid == tgid && SameKeys(StateOf(s.w.tokens, s.entries[x].token), p)
  }

  predicate SameKeys(a: LoadPolicy, b: LoadPolicy) {
    a.srcType == b.srcType && a.tgtType == b.tgtType && a.targetClass == b.targetClass && a.dirClass == b.dirClass
  }

  /** What the acting thread or callback has reached in its own code; nothing here asks whether an entry is freed. */
  predicate Enabled(s: Sys, e: Event) {
    match e
    case Allow(id, _, _) => id !in s.place
    case Execmem(id, _, _, _, _) => id in s.place && s.place[id] == InHand
    case Drop(id, _) => id in s.place && s.place[id] == InHand
    case Publish(id, _, x, _) => id in s.place && s.place[id] == InHand && x !in s.entries
    case Arm(x) => x in s.entries && s.entries[x].timer == Unarmed
    case ModuleInsert(id, _, x, _) => id in s.place && s.place[id] == InHand && x !in s.entries
    case TimerFire(x) => x in s.entries && s.entries[x].timer == Armed
    case TimerLock(x) => x in s.entries && s.entries[x].timer == Running
    case TimerRestore(x, _) => x in s.entries && s.entries[x].timer == Restoring
    case Claim(_, _, _) => true
    case ClaimAll(_, _) => true
    case Cancel(x) =>
      x in s.entries && s.entries[x].link.Taken? && s.entries[x].timer != Running && s.entries[x].timer != Restoring
    case Reap(x, _) => x in s.entries && s.entries[x].link.Cancelled?
  }

  /** The grant an event hands back to the ledger, if any. */
  function Handed(s: Sys, e: Event): Option<nat>
    requires Enabled(s, e)
  {
    match e
    case Drop(id, _) => Some(id)
    case ModuleInsert(id, tgid, _, _) => if HasTwin(s, tgid, StateOf(s.w.tokens, id)) then Some(id) else None
    case TimerRestore(x, _) => Some(s.entries[x].token)
    case Reap(x, _) => Some(s.entries[x].token)
    case _ => None
  }

  /** The ledger call an event makes, if any. */
  function LedgerOp(s: Sys, e: Event): Option<Op>
    requires Enabled(s, e)
  {
    match e
    case Allow(id, req, ok) => Some(OpAllow(id, req, ok))
    case Execmem(id, src, tclass, av, ok) => Some(OpExecmem(IndexOf(s.w.tokens, id), src, tclass, av, ok))
    case _ =>
      if Handed(s, e).Some? then Some(OpRestore(IndexOf(s.w.tokens, Handed(s, e).value), RestoreOk(e))) else None
  }

  function RestoreOk(e: Event): bool {
    match e
    case Drop(_, ok) => ok
    case ModuleInsert(_, _, _, ok) => ok
    case TimerRestore(_, ok) => ok
    case Reap(_, ok) => ok
    case _ => true
  }

  function LedgerAfter(s: Sys, e: Event): World
    requires Shaped(s.w.rules) && Enabled(s, e)
  {
    match LedgerOp(s, e) case None => s.w case Some(op) => Step(s.w, op)
  }

  function NewEntry(kind: Kind, tgid: int, id: nat, timer: Timer): Entry {
    Entry(kind, tgid, id, true, Listed, timer, false)
  }

  /** The critical section of the timeout: it takes a pending entry off its list and leaves any other alone. */
  function LockEntry(e: Entry): Entry {
    if e.pending then e.(pending := false, link := Unlinked, timer := Restoring) else e.(timer := Idle)
  }

  /** Cancelling stops a scheduled timer; one not yet scheduled it does not know about. */
  function CancelEntry(e: Entry): Entry {
    var thread := if e.link.Taken? then e.link.thread else 0;
    e.(link := Cancelled(thread), timer := if e.timer == Armed then Idle else e.timer)
  }

  /** Freed by the thread that took it: the timer is left as it is. */
  function ReapEntry(e: Entry): Entry { e.(link := Unlinked, freed := true) }

  /** Freed as the last act of its own callback. */
  function ExpireEntry(e: Entry): Entry { e.(freed := true, timer := Idle) }

  function Put(s: Sys, x: nat, e: Entry): Sys { s.(entries := s.entries[x := e]) }

  /** The entries and places after an event whose ledger call, if any, leaves the ledger as `after`. */
  function Next(s: Sys, e: Event, after: World): Sys
    requires Enabled(s, e)
  {
    match e
    case Allow(id, _, _) =>
      if |after.tokens| > |s.w.tokens| then s.(w := after, place := s.place[id := InHand]) else s.(w := after)
    case Execmem(_, _, _, _, _) => s.(w := after)
    case Drop(id, _) => ReleaseToken(s, id, after)
    case Publish(id, tgid, x, thread) =>
      s.(entries := ClaimWhere(s.entries, Native, tgid, false, thread)[x := NewEntry(Native, tgid, id, Unarmed)],
         place := s.place[id := Held(x)])
    case Arm(x) => Put(s, x, s.entries[x].(timer := Armed))
    case ModuleInsert(id, tgid, x, _) =>
      if Handed(s, e).Some? then ReleaseToken(s, id, after)
      else s.(entries := s.entries[x := NewEntry(Module, tgid, id, Armed)], place := s.place[id := Held(x)])
    case TimerFire(x) => Put(s, x, s.entries[x].(timer := Running))
    case TimerLock(x) => Put(s, x, LockEntry(s.entries[x]))
    case TimerRestore(x, _) => Put(ReleaseToken(s, s.entries[x].token, after), x, ExpireEntry(s.entries[x]))
    case Claim(kind, tgid, thread) => s.(entries := ClaimWhere(s.entries, kind, tgid, false, thread))
    case ClaimAll(kind, thread) => s.(entries := ClaimWhere(s.entries, kind, 0, true, thread))
    case Cancel(x) => Put(s, x, CancelEntry(s.entries[x]))
    case Reap(x, _) => Put(ReleaseToken(s, s.entries[x].token, after), x, ReapEntry(s.entries[x]))
  }

  // -------------------------------------------------------------- invariant

  ghost predicate DistinctIds(ts: seq<Token>) {
    forall i, j :: 0 <= i < j < |ts| ==> ts[i].id != ts[j].id
  }

  /** Grants the ledger counts are exactly those not released. */
  ghost predicate PlacesAgree(s: Sys) {
    && DistinctIds(s.w.tokens)
    && (forall i :: 0 <= i < |s.w.tokens| ==> s.w.tokens[i].id in s.place && s.place[s.w.tokens[i].id] != Released)
    && (forall id :: id in s.place && s.place[id] != Released ==> IndexOf(s.w.tokens, id) < |s.w.tokens|)
  }

  /** One owner at a time: the list, the thread that took the entry, or the callback that will restore it. */
  predicate OneOwner(e: Entry) {
    && (e.pending <==> e.link == Listed)
    && (e.freed ==> e.link == Unlinked && e.timer != Restoring)
    && (e.timer == Restoring ==> e.link == Unlinked)
    && (e.link == Unlinked && !e.freed ==> e.timer == Restoring)
  }

  /** Live entries and held grants name each other. */
  ghost predicate EntriesAgree(entries: map<nat, Entry>, place: map<nat, Place>) {
    && (forall x :: x in entries ==> entries[x].token in place && OneOwner(entries[x]))
    && (forall x :: x in entries && !entries[x].freed ==> place[entries[x].token] == Held(x))
    && (forall id :: id in place && place[id].Held? ==>
          place[id].entry in entries && entries[place[id].entry].token == id && !entries[place[id].entry].freed)
  }

  ghost predicate Agree(s: Sys) {
    PlacesAgree(s) && EntriesAgree(s.entries, s.place)
  }

  ghost predicate Inv(orig: Policy, s: Sys) {
    && Ledger(orig, s.w) && Clean(s.w.tokens)
    && Agree(s)
  }

  ghost predicate Admitted(s: Sys, e: Event)
    requires Shaped(s.w.rules) && Enabled(s, e)
  {
    match LedgerOp(s, e) case None => true case Some(op) => Admissible(s.w, op)
  }

  /** How a ledger call changes the list of outstanding grants. */
  ghost predicate TokensFit(ts: seq<Token>, ts': seq<Token>, op: Option<Op>) {
    match op
    case None => ts' == ts
    case Some(OpAllow(id, _, _)) =>
      ts' == ts || (|ts'| == |ts| + 1 && ts' == ts + [ts'[|ts|]] && ts'[|ts|].id == id)
    case Some(OpExecmem(_, _, _, _, _)) =>
      |ts'| == |ts| && forall i :: 0 <= i < |ts| ==> ts'[i].id == ts[i].id
    case Some(OpRestore(i, _)) => ts' == ts || (i < |ts| && ts' == Remove(ts, i))
  }

  lemma LedgerCall(orig: Policy, s: Sys, e: Event)
    requires Ledger(orig, s.w) && Clean(s.w.tokens) && Enabled(s, e) && Admitted(s, e)
    ensures var after := LedgerAfter(s, e);
            && Ledger(orig, after) && Clean(after.tokens)
            && TokensFit(s.w.tokens, after.tokens, LedgerOp(s, e))
  {
    match LedgerOp(s, e)
    case None =>
    case Some(op) => StepKeepsLedger(orig, s.w, op);
  }

  lemma {:induction false} RemoveIndex(ts: seq<Token>, i: nat, id: nat)
    requires i < |ts| && DistinctIds(ts)
    ensures DistinctIds(Remove(ts, i))
    ensures IndexOf(ts, ts[i].id) == i
    ensures id != ts[i].id && IndexOf(ts, id) < |ts| ==> IndexOf(Remove(ts, i), id) < |Remove(ts, i)|
    ensures forall j :: 0 <= j < |Remove(ts, i)| ==> Remove(ts, i)[j] in ts && Remove(ts, i)[j].id != ts[i].id
  {
    var rest := Remove(ts, i);
    var m := IndexOf(ts, ts[i].id);
    assert m == i;
    assert forall j :: 0 <= j < |rest| ==> rest[j] == if j < i then ts[j] else ts[j + 1];
    if id != ts[i].id && IndexOf(ts, id) < |ts| {
      var n := IndexOf(ts, id);
      assert rest[if n < i then n else n - 1].id == id;
    }
  }

  /** Releasing a live grant keeps everything but its place. */
  lemma ReleasePlaces(s: Sys, id: nat, after: World)
    requires PlacesAgree(s) && id in s.place && s.place[id] != Released
    requires after.tokens == s.w.tokens || after.tokens == Remove(s.w.tokens, IndexOf(s.w.tokens, id))
    ensures var s' := ReleaseToken(s, id, after);
            && PlacesAgree(s')
            && s'.entries == s.entries
            && s'.place == s.place[id := s'.place[id]] && (s'.place[id] == Released || s'.place[id] == Leaked)
  {
    var ts := s.w.tokens;
    var i := IndexOf(ts, id);
    var s' := ReleaseToken(s, id, after);
    if |s'.w.tokens| < |ts| {
      RemoveIndex(ts, i, id);
      forall other | other in s'.place && s'.place[other] != Released
        ensures IndexOf(s'.w.tokens, other) < |s'.w.tokens|
      {
        RemoveIndex(ts, i, other);
      }
    }
  }

  lemma IndexOfAppend(ts: seq<Token>, t: Token, id: nat)
    ensures IndexOf(ts + [t], id) < |ts + [t]| <==> IndexOf(ts, id) < |ts| || t.id == id
  {
    var i := IndexOf(ts + [t], id);
    if i < |ts| { assert (ts + [t])[i] == ts[i]; }
    if IndexOf(ts, id) < |ts| { assert (ts + [t])[IndexOf(ts, id)].id == id; }
    assert (ts + [t])[|ts|] == t;
  }

  lemma SameIds(ts: seq<Token>, ts': seq<Token>, id: nat)
    requires |ts| == |ts'| && forall i :: 0 <= i < |ts| ==> ts[i].id == ts'[i].id
    ensures IndexOf(ts, id) == IndexOf(ts', id)
  {
    if ts != [] {
      assert forall i :: 0 <= i < |ts[1..]| ==> ts[1..][i] == ts[i + 1] && ts'[1..][i] == ts'[i + 1];
      SameIds(ts[1..], ts'[1..], id);
    }
  }

  /** A new grant, in hand. */
  lemma NewPlace(s: Sys, id: nat, t: Token, after: World)
    requires PlacesAgree(s) && id !in s.place && t.id == id && after.tokens == s.w.tokens + [t]
    ensures PlacesAgree(s.(w := after, place := s.place[id := InHand]))
  {
    forall i | 0 <= i < |s.w.tokens| ensures s.w.tokens[i].id != id { assert s.w.tokens[i].id in s.place; }
    forall x | x == id || (x in s.place && s.place[x] != Released) ensures IndexOf(after.tokens, x) < |after.tokens| {
      IndexOfAppend(s.w.tokens, t, x);
    }
  }

  lemma AllowKeeps(s: Sys, e: Event, after: World)
    requires Agree(s) && e.Allow? && Enabled(s, e) && TokensFit(s.w.tokens, after.tokens, LedgerOp(s, e))
    ensures Agree(Next(s, e, after))
  {
    if |after.tokens| > |s.w.tokens| {
      NewPlace(s, e.id, after.tokens[|s.w.tokens|], after);
    }
  }

  lemma ExecmemKeeps(s: Sys, e: Event, after: World)
    requires Agree(s) && e.Execmem? && Enabled(s, e) && TokensFit(s.w.tokens, after.tokens, LedgerOp(s, e))
    ensures Agree(Next(s, e, after))
  {
    forall id | id in s.place && s.place[id] != Released ensures IndexOf(after.tokens, id) < |after.tokens| {
      SameIds(s.w.tokens, after.tokens, id);
    }
  }

  lemma PlaceMoved(s: Sys, id: nat, p: Place)
    requires PlacesAgree(s) && id in s.place && s.place[id] != Released && p != Released
    ensures PlacesAgree(s.(place := s.place[id := p]))
  {
  }

  lemma EntriesFree(s: Sys, entries: map<nat, Entry>)
    requires PlacesAgree(s)
    ensures PlacesAgree(s.(entries := entries))
  {
  }

  /** Freeing a live entry whose grant left for `p`. */
  lemma EntryFreed(entries: map<nat, Entry>, place: map<nat, Place>, x: nat, e: Entry, p: Place)
    requires EntriesAgree(entries, place) && x in entries && !entries[x].freed && !p.Held?
    requires e.token == entries[x].token && e.freed && OneOwner(e)
    ensures EntriesAgree(entries[x := e], place[e.token := p])
  {
  }

  lemma FreeKeeps(s: Sys, x: nat, e: Entry, after: World)
    requires Agree(s) && x in s.entries && !s.entries[x].freed
    requires e.token == s.entries[x].token && e.freed && OneOwner(e)
    requires after.tokens == s.w.tokens || after.tokens == Remove(s.w.tokens, IndexOf(s.w.tokens, e.token))
    ensures Agree(Put(ReleaseToken(s, e.token, after), x, e))
  {
    ReleasePlaces(s, e.token, after);
    var s' := ReleaseToken(s, e.token, after);
    EntryFreed(s.entries, s.place, x, e, s'.place[e.token]);
    EntriesFree(s', Put(s', x, e).entries);
  }

  lemma StoreKeeps(entries: map<nat, Entry>, place: map<nat, Place>, id: nat, x: nat,
                   kind: Kind, tgid: int, timer: Timer)
    requires EntriesAgree(entries, place) && id in place && place[id] == InHand && x !in entries && timer != Restoring
    ensures EntriesAgree(entries[x := NewEntry(kind, tgid, id, timer)], place[id := Held(x)])
  {
  }

  lemma ClaimKeeps(entries: map<nat, Entry>, place: map<nat, Place>, kind: Kind, tgid: int, all: bool, thread: nat)
    requires EntriesAgree(entries, place)
    ensures EntriesAgree(ClaimWhere(entries, kind, tgid, all, thread), place)
  {
  }

  /** Changing an entry short of freeing it. */
  lemma EntryChange(s: Sys, x: nat, e: Entry)
    requires Agree(s) && x in s.entries && OneOwner(e)
    requires e.token == s.entries[x].token && (e.freed <==> s.entries[x].freed)
    ensures Agree(Put(s, x, e))
  {
    EntriesFree(s, Put(s, x, e).entries);
  }

  lemma InsertKeeps(s: Sys, id: nat, x: nat, entries: map<nat, Entry>, kind: Kind, tgid: int, timer: Timer)
    requires Agree(s) && id in s.place && s.place[id] == InHand && timer != Restoring
    requires EntriesAgree(entries, s.place) && x !in entries
    ensures Agree(s.(entries := entries[x := NewEntry(kind, tgid, id, timer)], place := s.place[id := Held(x)]))
  {
    StoreKeeps(entries, s.place, id, x, kind, tgid, timer);
    PlaceMoved(s, id, Held(x));
    EntriesFree(s.(place := s.place[id := Held(x)]), entries[x := NewEntry(kind, tgid, id, timer)]);
  }

  lemma DropKeeps(s: Sys, id: nat, after: World)
    requires Agree(s) && id in s.place && s.place[id] == InHand
    requires after.tokens == s.w.tokens || after.tokens == Remove(s.w.tokens, IndexOf(s.w.tokens, id))
    ensures Agree(ReleaseToken(s, id, after))
  {
    ReleasePlaces(s, id, after);
  }

  /** A taken entry, and one whose callback will restore it, have not been freed. */
  lemma OwnedIsLive(s: Sys, x: nat)
    requires Agree(s) && x in s.entries && (s.entries[x].link != Unlinked || s.entries[x].timer == Restoring)
    ensures !s.entries[x].freed && s.entries[x].token in s.place && s.place[s.entries[x].token] == Held(x)
  {
  }

  lemma StepKeepsAgreement(s: Sys, e: Event, after: World)
    requires Agree(s) && Enabled(s, e) && TokensFit(s.w.tokens, after.tokens, LedgerOp(s, e))
    ensures Agree(Next(s, e, after))
  {
    match e
    case Allow(_, _, _) => AllowKeeps(s, e, after);
    case Execmem(_, _, _, _, _) => ExecmemKeeps(s, e, after);
    case Drop(id, ok) => DropKeeps(s, id, after);
    case Publish(id, tgid, x, thread) =>
      ClaimKeeps(s.entries, s.place, Native, tgid, false, thread);
      InsertKeeps(s, id, x, ClaimWhere(s.entries, Native, tgid, false, thread), Native, tgid, Unarmed);
    case ModuleInsert(id, tgid, x, ok) =>
      if Handed(s, e).Some? { DropKeeps(s, id, after); }
      else { InsertKeeps(s, id, x, s.entries, Module, tgid, Armed); }
    case Arm(x) => EntryChange(s, x, s.entries[x].(timer := Armed));
    case TimerFire(x) => EntryChange(s, x, s.entries[x].(timer := Running));
    case TimerLock(x) => EntryChange(s, x, LockEntry(s.entries[x]));
    case Cancel(x) => EntryChange(s, x, CancelEntry(s.entries[x]));
    case TimerRestore(x, ok) =>
      OwnedIsLive(s, x);
      FreeKeeps(s, x, ExpireEntry(s.entries[x]), after);
    case Reap(x, ok) =>
      OwnedIsLive(s, x);
      FreeKeeps(s, x, ReapEntry(s.entries[x]), after);
    case Claim(kind, tgid, thread) =>
      ClaimKeeps(s.entries, s.place, kind, tgid, false, thread);
      EntriesFree(s, Next(s, e, after).entries);
    case ClaimAll(kind, thread) =>
      ClaimKeeps(s.entries, s.place, kind, 0, true, thread);
      EntriesFree(s, Next(s, e, after).entries);
  }

  lemma NextLedger(s: Sys, e: Event, after: World)
    requires Agree(s) && Enabled(s, e)
    ensures Next(s, e, after).w == if LedgerOp(s, e).Some? then after else s.w
  {
  }

  lemma StepKeepsInv(orig: Policy, s: Sys, e: Event)
    requires Inv(orig, s) && Enabled(s, e) && Admitted(s, e)
    ensures Inv(orig, Next(s, e, LedgerAfter(s, e)))
  {
    var after := LedgerAfter(s, e);
    LedgerCall(orig, s, e);
    NextLedger(s, e, after);
    StepKeepsAgreement(s, e, after);
  }

  // --------------------------------------------------------------- every run

  /** One step of a run: the event is enabled and its ledger call admissible. */
  ghost predicate StepOf(s: Sys, e: Event, s': Sys)
    requires Shaped(s.w.rules)
  {
    Enabled(s, e) && Admitted(s, e) && s' == Next(s, e, LedgerAfter(s, e))
  }

  /** State `i + 1` follows by event `i`. (Every table reached has the right shape; the steps are only defined for
      such tables.) */
  ghost predicate Follows(trace: seq<Sys>, events: seq<Event>, i: int)
    requires 0 <= i < |events| < |trace|
  {
    Shaped(trace[i].w.rules) ==> StepOf(trace[i], events[i], trace[i + 1])
  }

  ghost predicate IsRun(orig: Policy, trace: seq<Sys>, events: seq<Event>) {
    && |trace| == |events| + 1
    && trace[0] == Sys(Initial(orig), map[], map[])
    && forall i {:trigger Follows(trace, events, i)} :: 0 <= i < |events| ==> Follows(trace, events, i)
  }

  lemma {:induction false} RunKeepsInv(orig: Policy, trace: seq<Sys>, events: seq<Event>, i: nat)
    requires IsRun(orig, trace, events) && i <= |events|
    ensures Inv(orig, trace[i])
    decreases i
  {
    if i == 0 {
      InitialLedger(orig);
    } else {
      RunKeepsInv(orig, trace, events, i - 1);
      assert Follows(trace, events, i - 1);
      StepKeepsInv(orig, trace[i - 1], events[i - 1]);
    }
  }

  /** Event `i` of a run, with what is known before it. */
  lemma RunStep(orig: Policy, trace: seq<Sys>, events: seq<Event>, i: nat)
    requires IsRun(orig, trace, events) && i < |events|
    ensures Inv(orig, trace[i]) && StepOf(trace[i], events[i], trace[i + 1])
  {
    RunKeepsInv(orig, trace, events, i);
    assert Follows(trace, events, i);
  }

  /** The event hands the grant back to the ledger. */
  ghost predicate HandsBack(s: Sys, e: Event, id: nat) { Enabled(s, e) && Handed(s, e) == Some(id) }

  /** Whatever hands a grant back, the grant is outstanding then: the ledger counts it, and it is in the thread's
      hand or in a live entry. */
  lemma HandedIsOutstanding(orig: Policy, trace: seq<Sys>, events: seq<Event>, i: nat, id: nat)
    requires IsRun(orig, trace, events) && i < |events| && HandsBack(trace[i], events[i], id)
    ensures var s := trace[i];
            && IndexOf(s.w.tokens, id) < |s.w.tokens|
            && id in s.place && (s.place[id] == InHand || s.place[id].Held?)
  {
    RunKeepsInv(orig, trace, events, i);
    match events[i]
    case TimerRestore(x, _) => OwnedIsLive(trace[i], x);
    case Reap(x, _) => OwnedIsLive(trace[i], x);
    case _ =>
  }

  predicate Gone(s: Sys, id: nat) { id in s.place && (s.place[id] == Released || s.place[id] == Leaked) }

  /** Handing a grant back is what makes it gone, and nothing brings it back. */
  lemma GoneStep(s: Sys, e: Event, after: World, s': Sys, id: nat)
    requires Agree(s) && Enabled(s, e) && s' == Next(s, e, after)
    ensures Gone(s', id) <==> Gone(s, id) || HandsBack(s, e, id)
  {
    match e
    case TimerRestore(x, _) => OwnedIsLive(s, x);
    case Reap(x, _) => OwnedIsLive(s, x);
    case _ =>
  }

  lemma RunGone(orig: Policy, trace: seq<Sys>, events: seq<Event>, i: nat, id: nat)
    requires IsRun(orig, trace, events) && i < |events|
    ensures Gone(trace[i + 1], id) <==> Gone(trace[i], id) || HandsBack(trace[i], events[i], id)
  {
    RunStep(orig, trace, events, i);
    GoneStep(trace[i], events[i], LedgerAfter(trace[i], events[i]), trace[i + 1], id);
  }

  lemma StillGone(orig: Policy, trace: seq<Sys>, events: seq<Event>, i: nat, id: nat)
    requires IsRun(orig, trace, events) && i < |events| && Gone(trace[i], id)
    ensures Gone(trace[i + 1], id)
  {
    RunGone(orig, trace, events, i, id);
  }

  lemma {:induction false} GoneStays(orig: Policy, trace: seq<Sys>, events: seq<Event>, i: nat, j: nat, id: nat)
    requires IsRun(orig, trace, events) && i <= j <= |events| && Gone(trace[i], id)
    ensures Gone(trace[j], id)
    decreases j
  {
    if i < j {
      GoneStays(orig, trace, events, i, j - 1, id);
      StillGone(orig, trace, events, j - 1, id);
    }
  }

  /** No two events of a run hand back the same grant. */
  lemma HandedAtMostOnce(orig: Policy, trace: seq<Sys>, events: seq<Event>, i: nat, j: nat, id: nat)
    requires IsRun(orig, trace, events) && i < |events| && j < |events|
    requires HandsBack(trace[i], events[i], id) && HandsBack(trace[j], events[j], id)
    ensures i == j
  {
    if i < j { NotHandedAgain(orig, trace, events, i, j, id); }
    if j < i { NotHandedAgain(orig, trace, events, j, i, id); }
  }

  lemma NotHandedAgain(orig: Policy, trace: seq<Sys>, events: seq<Event>, i: nat, j: nat, id: nat)
    requires IsRun(orig, trace, events) && i < j < |events| && HandsBack(trace[i], events[i], id)
    ensures !HandsBack(trace[j], events[j], id)
  {
    RunGone(orig, trace, events, i, id);
    GoneStays(orig, trace, events, i + 1, j, id);
    if HandsBack(trace[j], events[j], id) { HandedIsOutstanding(orig, trace, events, j, id); }
  }

  /** A grant that is gone was handed back by some event. */
  lemma {:induction false} GoneWasHanded(orig: Policy, trace: seq<Sys>, events: seq<Event>, n: nat, id: nat)
    requires IsRun(orig, trace, events) && n <= |events| && Gone(trace[n], id)
    ensures exists i :: 0 <= i < n && HandsBack(trace[i], events[i], id)
    decreases n
  {
    if n > 0 {
      RunGone(orig, trace, events, n - 1, id);
      if Gone(trace[n - 1], id) {
        GoneWasHanded(orig, trace, events, n - 1, id);
      } else {
        assert HandsBack(trace[n - 1], events[n - 1], id);
      }
    }
  }

  predicate Drained(s: Sys) {
    && (forall x :: x in s.entries ==> s.entries[x].freed)
    && (forall id :: id in s.place ==> s.place[id] != InHand)
  }

  /** In every interleaving that has drained, each grant ever made was handed back by exactly one event. */
  lemma ReleasedExactlyOnce(orig: Policy, trace: seq<Sys>, events: seq<Event>, n: nat, id: nat)
    requires IsRun(orig, trace, events) && n <= |events| && Drained(trace[n]) && id in trace[n].place
    ensures exists i :: 0 <= i < n && HandsBack(trace[i], events[i], id)
    ensures forall i, j :: 0 <= i < j < |events| && HandsBack(trace[i], events[i], id) ==>
              !HandsBack(trace[j], events[j], id)
  {
    RunKeepsInv(orig, trace, events, n);
    GoneWasHanded(orig, trace, events, n, id);
    forall i, j | 0 <= i < j < |events| && HandsBack(trace[i], events[i], id)
      ensures !HandsBack(trace[j], events[j], id)
    {
      NotHandedAgain(orig, trace, events, i, j, id);
    }
  }

  predicate NothingLeaked(s: Sys) {
    forall id :: id in s.place ==> s.place[id] != Leaked
  }

  lemma LiveGrant(s: Sys)
    requires PlacesAgree(s) && s.w.tokens != []
    ensures exists id :: id in s.place && s.place[id] != Released
  {
    assert s.w.tokens[0].id in s.place;
  }

  /** Once all entries drained, the ledger is empty if and only if no restore failed, and then the owner's
      policy is back and every slot is free. */
  lemma DrainedRestoresOwner(orig: Policy, trace: seq<Sys>, events: seq<Event>, i: nat)
    requires IsRun(orig, trace, events) && i <= |events| && Drained(trace[i])
    ensures trace[i].w.tokens == [] <==> NothingLeaked(trace[i])
    ensures NothingLeaked(trace[i]) ==>
              && (forall k :: Av(trace[i].w.policy, k) == Av(orig, k))
              && (forall r :: 0 <= r < |trace[i].w.rules| ==> !trace[i].w.rules[r].used)
  {
    RunKeepsInv(orig, trace, events, i);
    var s := trace[i];
    if NothingLeaked(s) {
      assert forall id :: id in s.place ==> s.place[id] == Released;
      if s.w.tokens != [] { LiveGrant(s); }
      DrainedLedger(orig, s.w);
    }
  }

  // ------------------------------------------------------- whose entries are taken

  /** The event takes a listed entry `e`, numbered `x`, off its list: its own timeout, a publication or claim by its own
      process, or a claim of everything of its kind. */
  predicate Unlists(event: Event, x: nat, e: Entry) {
    match event
    case TimerLock(y) => y == x
    case Publish(_, tgid, _, _) => e.kind == Native && e.tgid == tgid
    case Claim(kind, tgid, _) => e.kind == kind && e.tgid == tgid
    case ClaimAll(kind, _) => e.kind == kind
    case _ => false
  }

  function Taker(event: Event): Option<nat> {
    match event
    case Publish(_, _, _, thread) => Some(thread)
    case Claim(_, _, thread) => Some(thread)
    case ClaimAll(_, thread) => Some(thread)
    case _ => None
  }

  lemma UnlistStep(s: Sys, e: Event, after: World, s': Sys, x: nat)
    requires Agree(s) && Enabled(s, e) && s' == Next(s, e, after) && x in s.entries
    ensures x in s'.entries
    ensures var was, now := s.entries[x], s'.entries[x];
            && now.kind == was.kind && now.tgid == was.tgid && now.token == was.token
            && (now.link == Listed <==> was.link == Listed && !Unlists(e, x, was))
            && (was.link == Listed && Unlists(e, x, was) && Taker(e).Some? ==>
                  now == was.(pending := false, link := Taken(Taker(e).value)))
            && (!Names(e, x) && !(was.link == Listed && Unlists(e, x, was)) ==> now == was)
  {
    assert OneOwner(s.entries[x]);
  }

  /** In every run, an entry is listed until its own timeout, a publication or claim by its own process, or a claim of
      everything of its kind; the thread that takes it changes nothing else of it, and no other entry changes unless the
      event works on that one. Kind, process and grant of an entry never change. */
  lemma ListedUntilTaken(orig: Policy, trace: seq<Sys>, events: seq<Event>, i: nat, x: nat)
    requires IsRun(orig, trace, events) && i < |events| && x in trace[i].entries
    ensures x in trace[i + 1].entries
    ensures var was, now, e := trace[i].entries[x], trace[i + 1].entries[x], events[i];
            && now.kind == was.kind && now.tgid == was.tgid && now.token == was.token
            && (now.link == Listed <==> was.link == Listed && !Unlists(e, x, was))
            && (was.link == Listed && Unlists(e, x, was) && Taker(e).Some? ==>
                  now == was.(pending := false, link := Taken(Taker(e).value)))
            && (!Names(e, x) && !(was.link == Listed && Unlists(e, x, was)) ==> now == was)
  {
    RunStep(orig, trace, events, i);
    UnlistStep(trace[i], events[i], LedgerAfter(trace[i], events[i]), trace[i + 1], x);
  }

  /** A new entry is the one just published or inserted, listed and pending for the process and grant named. */
  lemma OnlyInsertedAppear(orig: Policy, trace: seq<Sys>, events: seq<Event>, i: nat, x: nat)
    requires IsRun(orig, trace, events) && i < |events| && x !in trace[i].entries && x in trace[i + 1].entries
    ensures match events[i]
            case Publish(id, tgid, y, _) => y == x && trace[i + 1].entries[x] == NewEntry(Native, tgid, id, Unarmed)
            case ModuleInsert(id, tgid, y, _) => y == x && trace[i + 1].entries[x] == NewEntry(Module, tgid, id, Armed)
            case _ => false
  {
    RunStep(orig, trace, events, i);
  }

  /** After a claim nothing of that kind and process is listed or pending; after a publication, only the new entry. */
  lemma ClaimTakesAll(orig: Policy, trace: seq<Sys>, events: seq<Event>, i: nat, x: nat)
    requires IsRun(orig, trace, events) && i < |events| && x in trace[i + 1].entries
    ensures var e := trace[i + 1].entries[x];
            match events[i]
            case Claim(kind, tgid, _) => e.kind == kind && e.tgid == tgid ==> e.link != Listed && !e.pending
            case ClaimAll(kind, _) => e.kind == kind ==> e.link != Listed && !e.pending
            case Publish(_, tgid, y, _) =>
              e.kind == Native && e.tgid == tgid && x != y ==> e.link != Listed && !e.pending
            case _ => true
  {
    RunKeepsInv(orig, trace, events, i + 1);
    assert OneOwner(trace[i + 1].entries[x]);
    if x in trace[i].entries {
      ListedUntilTaken(orig, trace, events, i, x);
    } else {
      OnlyInsertedAppear(orig, trace, events, i, x);
    }
  }

  /** Tokens `i` and `j` of the ledger are the grants `a` and `b`, for the same file and directory keys. */
  predicate AlikeAt(ts: seq<Token>, i: int, j: int, a: nat, b: nat) {
    && 0 <= i < |ts| && 0 <= j < |ts| && ts[i].id == a && ts[j].id == b
    && ts[i].state.srcType == ts[j].state.srcType && ts[i].state.tgtType == ts[j].state.tgtType
    && ts[i].state.targetClass == ts[j].state.targetClass && ts[i].state.dirClass == ts[j].state.dirClass
  }

  /** A listed entry of the process's modules already holds a grant for the same keys. */
  ghost predicate AlreadyHeld(s: Sys, tgid: int, id: nat, x: nat) {
    && x in s.entries && s.entries[x].kind == Module && s.entries[x].link == Listed && s.entries[x].tgid == tgid
    && exists i, j :: AlikeAt(s.w.tokens, i, j, s.entries[x].token, id)
  }

  /** A module's grant is stored, unless its own process already holds one for the same keys; then it is handed back. */
  lemma ModuleStoredIff(orig: Policy, trace: seq<Sys>, events: seq<Event>, n: nat, id: nat, tgid: int, x: nat, ok: bool)
    requires IsRun(orig, trace, events) && n < |events| && events[n] == ModuleInsert(id, tgid, x, ok)
    ensures x in trace[n + 1].entries && id in trace[n + 1].place && trace[n + 1].place[id] == Held(x)
            <==> forall y :: !AlreadyHeld(trace[n], tgid, id, y)
    ensures HandsBack(trace[n], events[n], id) <==> exists y :: AlreadyHeld(trace[n], tgid, id, y)
  {
    RunStep(orig, trace, events, n);
    TwinIsHeld(trace[n], tgid, id);
    GoneStep(trace[n], events[n], LedgerAfter(trace[n], events[n]), trace[n + 1], id);
  }

  lemma TwinIsHeld(s: Sys, tgid: int, id: nat)
    requires Agree(s) && id in s.place && s.place[id] == InHand
    ensures HasTwin(s, tgid, StateOf(s.w.tokens, id)) <==> exists y :: AlreadyHeld(s, tgid, id, y)
  {
    var ts := s.w.tokens;
    var j := IndexOf(ts, id);
    forall y | y in s.entries && s.entries[y].link == Listed
      ensures SameKeys(StateOf(ts, s.entries[y].token), StateOf(ts, id))
              <==> exists i, j :: AlikeAt(ts, i, j, s.entries[y].token, id)
    {
      assert OneOwner(s.entries[y]) && s.place[s.entries[y].token] == Held(y);
      var i := IndexOf(ts, s.entries[y].token);
      if SameKeys(StateOf(ts, s.entries[y].token), StateOf(ts, id)) {
        assert AlikeAt(ts, i, j, s.entries[y].token, id);
      }
      forall i', j' | AlikeAt(ts, i', j', s.entries[y].token, id) ensures i' == i && j' == j {}
    }
    forall y | y in s.entries ensures s.entries[y].link == Listed <==> s.entries[y].pending {
      assert OneOwner(s.entries[y]);
    }
    if HasTwin(s, tgid, StateOf(ts, id)) {
      var y :| y in s.entries && s.entries[y].kind == Module && s.entries[y].link == Listed && s.entries[y].pending
               && s.entries[y].tgid == tgid && SameKeys(StateOf(ts, s.entries[y].token), StateOf(ts, id));
      assert AlreadyHeld(s, tgid, id, y);
    }
  }

  // ------------------------------------------------------------- freed entries

  /** The event works on the entry itself, or on the work item inside it. */
  predicate Names(e: Event, x: nat) {
    match e
    case Arm(y) => y == x
    case TimerFire(y) => y == x
    case TimerLock(y) => y == x
    case TimerRestore(y, _) => y == x
    case Cancel(y) => y == x
    case Reap(y, _) => y == x
    case _ => false
  }

  /** Neither the thread that took an entry nor the callback that won it ever works on a freed entry. */
  lemma OwnersFindLiveEntries(orig: Policy, trace: seq<Sys>, events: seq<Event>, i: nat, x: nat)
    requires IsRun(orig, trace, events) && i < |events| && Names(events[i], x)
    requires events[i].TimerRestore? || events[i].Cancel? || events[i].Reap?
    ensures x in trace[i].entries && !trace[i].entries[x].freed
  {
    RunStep(orig, trace, events, i);
    OwnedIsLive(trace[i], x);
  }

  /** The event takes entry `x` off its list. */
  predicate Takes(s: Sys, e: Event, x: nat) {
    && x in s.entries
    && match e
       case Publish(_, tgid, _, _) => Matches(s.entries[x], Native, tgid, false)
       case Claim(kind, tgid, _) => Matches(s.entries[x], kind, tgid, false)
       case ClaimAll(kind, _) => Matches(s.entries[x], kind, 0, true)
       case _ => false
  }

  /** It does so before the entry's publisher has scheduled its timer. */
  predicate TakesEarly(s: Sys, e: Event, x: nat) { Takes(s, e, x) && s.entries[x].timer == Unarmed }

  /** Only a listed entry still has its timer to come, and none is left once it was cancelled or freed. */
  predicate Quiet(e: Entry) {
    && (e.timer == Unarmed ==> e.link == Listed)
    && (e.link.Cancelled? || e.freed ==> e.timer == Idle)
  }

  lemma QuietStep(s: Sys, e: Event, after: World, s': Sys, x: nat)
    requires Agree(s) && Enabled(s, e) && s' == Next(s, e, after) && x in s'.entries
    requires x in s.entries ==> Quiet(s.entries[x]) && !TakesEarly(s, e, x)
    ensures Quiet(s'.entries[x])
  {
    if x in s.entries { assert OneOwner(s.entries[x]); }
  }

  lemma RunQuiet(orig: Policy, trace: seq<Sys>, events: seq<Event>, i: nat, x: nat)
    requires IsRun(orig, trace, events) && i < |events| && x in trace[i + 1].entries
    requires x in trace[i].entries ==> Quiet(trace[i].entries[x]) && !TakesEarly(trace[i], events[i], x)
    ensures Quiet(trace[i + 1].entries[x])
  {
    RunStep(orig, trace, events, i);
    QuietStep(trace[i], events[i], LedgerAfter(trace[i], events[i]), trace[i + 1], x);
  }

  /** An entry that is not quiet was taken early. */
  lemma {:induction false} NotQuietWasTakenEarly(orig: Policy, trace: seq<Sys>, events: seq<Event>, n: nat, x: nat)
    requires IsRun(orig, trace, events) && n <= |events| && x in trace[n].entries && !Quiet(trace[n].entries[x])
    ensures exists i :: 0 <= i < n && TakesEarly(trace[i], events[i], x)
    decreases n
  {
    if n > 0 {
      if x in trace[n - 1].entries && !Quiet(trace[n - 1].entries[x]) {
        NotQuietWasTakenEarly(orig, trace, events, n - 1, x);
      } else if !TakesEarly(trace[n - 1], events[n - 1], x) {
        RunQuiet(orig, trace, events, n - 1, x);
      }
    }
  }

  /** A step works on a freed entry, or a thread frees one whose timer is scheduled or running, only after that entry
      was taken between its insertion and the scheduling of its timer. */
  lemma FreedOnlyAfterEarlyTake(orig: Policy, trace: seq<Sys>, events: seq<Event>, n: nat, x: nat)
    requires IsRun(orig, trace, events) && n < |events| && Names(events[n], x) && x in trace[n].entries
    requires trace[n].entries[x].freed || (events[n].Reap? && trace[n].entries[x].timer != Idle)
    ensures exists i :: 0 <= i < n && TakesEarly(trace[i], events[i], x)
  {
    RunStep(orig, trace, events, n);
    NamedIsNotQuiet(trace[n], events[n], x);
    NotQuietWasTakenEarly(orig, trace, events, n, x);
  }

  lemma NamedIsNotQuiet(s: Sys, e: Event, x: nat)
    requires Agree(s) && Enabled(s, e) && Names(e, x) && x in s.entries
    requires s.entries[x].freed || (e.Reap? && s.entries[x].timer != Idle)
    ensures !Quiet(s.entries[x])
  {
  }

  /** What an event makes of the entry it works on. */
  function Worked(e: Event, entry: Entry): Entry {
    match e
    case Arm(_) => entry.(timer := Armed)
    case TimerFire(_) => entry.(timer := Running)
    case TimerLock(_) => LockEntry(entry)
    case TimerRestore(_, _) => ExpireEntry(entry)
    case Cancel(_) => CancelEntry(entry)
    case Reap(_, _) => ReapEntry(entry)
    case _ => entry
  }

  lemma WorkedOn(s: Sys, e: Event, after: World, x: nat)
    requires Enabled(s, e) && x in s.entries
    ensures var s' := Next(s, e, after);
            && x in s'.entries && (Names(e, x) ==> s'.entries[x] == Worked(e, s.entries[x]))
            && (TakesEarly(s, e, x) ==> s'.entries[x].link.Taken? && s'.entries[x].timer == Unarmed)
  {
  }

  /** One more step, and what it makes of entry `x`. */
  lemma Extended(orig: Policy, trace: seq<Sys>, events: seq<Event>, e: Event, x: nat) returns (trace': seq<Sys>)
    requires IsRun(orig, trace, events) && Enabled(trace[|events|], e) && x in trace[|events|].entries
    requires Names(e, x) || TakesEarly(trace[|events|], e, x)
    ensures IsRun(orig, trace', events + [e]) && |trace'| == |events| + 2
    ensures trace'[|events|] == trace[|events|] && x in trace'[|events| + 1].entries
    ensures var was, now := trace[|events|].entries[x], trace'[|events| + 1].entries[x];
            if Names(e, x) then now == Worked(e, was) else now.link.Taken? && now.timer == Unarmed
  {
    RunKeepsInv(orig, trace, events, |events|);
    var s := trace[|events|];
    var after := LedgerAfter(s, e);
    WorkedOn(s, e, after, x);
    Appended(orig, trace, events, e, Next(s, e, after));
    trace' := trace + [Next(s, e, after)];
  }

  lemma Appended(orig: Policy, trace: seq<Sys>, events: seq<Event>, e: Event, s': Sys)
    requires IsRun(orig, trace, events) && Shaped(trace[|events|].w.rules) && StepOf(trace[|events|], e, s')
    ensures IsRun(orig, trace + [s'], events + [e])
  {
    var trace', events' := trace + [s'], events + [e];
    forall i | 0 <= i < |events'| ensures Follows(trace', events', i) {
      if i < |events| { assert Follows(trace, events, i); }
    }
  }

  /** The last event of the run schedules the timer of an entry that was freed before. */
  ghost predicate ArmsFreed(orig: Policy, trace: seq<Sys>, events: seq<Event>, x: nat) {
    && IsRun(orig, trace, events) && events != [] && events[|events| - 1] == Arm(x)
    && x in trace[|events| - 1].entries && trace[|events| - 1].entries[x].freed
  }

  /** And every such early take can end that way: cancelling finds no timer, the entry is freed, and then its timer
      is scheduled. */
  lemma EarlyTakeCanFreeFirst(orig: Policy, trace: seq<Sys>, events: seq<Event>, e: Event, x: nat)
    requires IsRun(orig, trace, events)
    requires Enabled(trace[|events|], e) && TakesEarly(trace[|events|], e, x)
    ensures exists trace': seq<Sys> ::
              ArmsFreed(orig, trace', events + [e] + [Cancel(x)] + [Reap(x, true)] + [Arm(x)], x)
  {
    var t1 := Extended(orig, trace, events, e, x);
    var e1 := events + [e];
    var t2 := Extended(orig, t1, e1, Cancel(x), x);
    var e2 := e1 + [Cancel(x)];
    var t3 := Extended(orig, t2, e2, Reap(x, true), x);
    var e3 := e2 + [Reap(x, true)];
    var t4 := Extended(orig, t3, e3, Arm(x), x);
    assert ArmsFreed(orig, t4, e3 + [Arm(x)], x);
  }

  /** The grant is stored in an entry of process `tgid`, whose timer is not scheduled yet. */
  lemma PublishedRun(orig: Policy, r: LoadRequest, tgid: int, x: nat, thread: nat) returns (trace: seq<Sys>)
    requires r.fileAv != {} && r.dirAv == {} && r.tmpfsAv == {}
    ensures IsRun(orig, trace, [Allow(0, r, true), Publish(0, tgid, x, thread)])
    ensures x in trace[2].entries && trace[2].entries[x] == NewEntry(Native, tgid, 0, Unarmed)
  {
    OneFileGrant(orig, r);
    InitialLedger(orig);
    var allow, publish := Allow(0, r, true), Publish(0, tgid, x, thread);
    var s0 := Sys(Initial(orig), map[], map[]);
    var s1 := Next(s0, allow, LedgerAfter(s0, allow));
    var s2 := Next(s1, publish, LedgerAfter(s1, publish));
    assert StepOf(s0, allow, s1) && StepOf(s1, publish, s2);
    trace := [s0, s1, s2];
  }

  /** Such a run exists, for every owner's policy, file and process: the process's entries are claimed after the
      insertion, and the entry is freed before its publisher schedules its timer. */
  lemma FreedThenScheduled(orig: Policy, r: LoadRequest, tgid: int, x: nat, publisher: nat, taker: nat)
    requires r.fileAv != {} && r.dirAv == {} && r.tmpfsAv == {}
    ensures exists trace: seq<Sys> ::
              ArmsFreed(orig, trace, [Allow(0, r, true), Publish(0, tgid, x, publisher), Claim(Native, tgid, taker),
                                      Cancel(x), Reap(x, true), Arm(x)], x)
  {
    var events := [Allow(0, r, true), Publish(0, tgid, x, publisher)];
    var trace := PublishedRun(orig, r, tgid, x, publisher);
    EarlyTakeCanFreeFirst(orig, trace, events, Claim(Native, tgid, taker), x);
    assert events + [Claim(Native, tgid, taker)] + [Cancel(x)] + [Reap(x, true)] + [Arm(x)]
        == [Allow(0, r, true), Publish(0, tgid, x, publisher), Claim(Native, tgid, taker),
            Cancel(x), Reap(x, true), Arm(x)];
  }
}
