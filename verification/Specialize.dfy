/**
 The specialize pipeline: children forked from a zygote are tracked until freed, the first drop to an app uid
 makes an event, events wait in a ring, and one work item emits them.
 */
module Specialize {

  datatype Phase = Forked | Specialized

  /** A tracked child; pid 0 marks a free slot. `life` numbers the forks, so that a reused pid is told apart. */
  datatype Child = Child(pid: nat, uid: nat, phase: Phase, life: nat)

  /** A specialize event, and the life it reports. */
  datatype Notice = Notice(pid: nat, uid: nat, appid: nat, life: nat)

  const CHILDREN: nat := 512
  const RING: nat := 128
  const NO_UID: nat := 0xffff_ffff

  // ---------------------------------------------------------------- children

  function SlotOf(cs: seq<Child>, pid: nat, i: nat): (r: int)
    ensures r == -1 || (i <= r < |cs| && cs[r].pid == pid && forall j :: i <= j < r ==> cs[j].pid != pid)
    ensures r == -1 ==> forall j :: i <= j < |cs| ==> cs[j].pid != pid
    decreases |cs| - i
  {
    if i >= |cs| then -1 else if cs[i].pid == pid then i else SlotOf(cs, pid, i + 1)
  }

  function Track(cs: seq<Child>, pid: nat, life: nat): (r: seq<Child>)
    ensures |r| == |cs|
  {
    var free := SlotOf(cs, 0, 0);
    if SlotOf(cs, pid, 0) >= 0 || free < 0 then cs else cs[free := Child(pid, NO_UID, Forked, life)]
  }

  function Untrack(cs: seq<Child>, pid: nat): (r: seq<Child>)
    ensures |r| == |cs|
  {
    var i := SlotOf(cs, pid, 0);
    if i < 0 then cs else cs[i := cs[i].(pid := 0)]
  }

  /** Only app uids that are not isolated specialize a child. */
  predicate AppUid(uid: nat) { uid >= 10000 && uid % 100000 < 90000 }

  predicate Specializes(cs: seq<Child>, pid: nat, uid: nat) {
    AppUid(uid) && SlotOf(cs, pid, 0) >= 0 && cs[SlotOf(cs, pid, 0)].phase == Forked
  }

  function Marked(cs: seq<Child>, pid: nat, uid: nat): (r: seq<Child>)
    requires Specializes(cs, pid, uid)
    ensures |r| == |cs|
  {
    var i := SlotOf(cs, pid, 0);
    cs[i := cs[i].(uid := uid, phase := Specialized)]
  }

  // ------------------------------------------------------------------- world

  /** The work function: not running, at the top of its loop, holding a popped event, holding a count of
      dropped events to report, or past its last pop. */
  datatype Worker = Idle | Looping | Emitting(n: Notice) | Reporting(count: nat) | Leaving

  /** `inFlight` are events between the two locks; `toSchedule` counts producers that still have to call
      schedule_work; `scheduled` is the work item's own pending bit. The last five fields are history. */
  datatype World = World(
    children: seq<Child>, inFlight: multiset<Notice>,
    pending: seq<Notice>, dropped: nat, workQueued: bool,
    toSchedule: nat, scheduled: bool, worker: Worker,
    lives: nat, born: seq<Notice>, accepted: seq<Notice>, lost: seq<Notice>, emitted: seq<Notice>, reported: nat)

  function Init(): World {
    World(seq(CHILDREN, _ => Child(0, 0, Forked, 0)), multiset{}, [], 0, false, 0, false, Idle, 0, [], [], [], [], 0)
  }

  datatype Event =
    | Fork(pid: nat)
    | Free(pid: nat)
    | SetUid(pid: nat, uid: nat)
    | Enqueue(n: Notice)
    | Schedule
    | Start
    | Pop
    | Emit
    | Report
    | Leave

  predicate Enabled(w: World, e: Event) {
    match e
    case Fork(pid) => pid != 0
    case Free(pid) => pid != 0
    case SetUid(pid, uid) => pid != 0
    case Enqueue(n) => n in w.inFlight
    case Schedule => w.toSchedule > 0
    case Start => w.scheduled && w.worker == Idle
    case Pop => w.worker == Looping
    case Emit => w.worker.Emitting?
    case Report => w.worker.Reporting?
    case Leave => w.worker == Leaving
  }

  function AfterFork(w: World, pid: nat): World {
    w.(children := Track(w.children, pid, w.lives), lives := w.lives + 1)
  }

  function AfterSetUid(w: World, pid: nat, uid: nat): World {
    if !Specializes(w.children, pid, uid) then w
    else
      var n := Notice(pid, uid, uid % 100000, w.children[SlotOf(w.children, pid, 0)].life);
      w.(children := Marked(w.children, pid, uid), inFlight := w.inFlight + multiset{n}, born := w.born + [n])
  }

  /** The ring holds one event fewer than it has places. */
  predicate Full(w: World) { |w.pending| >= RING - 1 }

  function AfterEnqueue(w: World, n: Notice): World
    requires n in w.inFlight
  {
    var stored := if Full(w) then w.(dropped := w.dropped + 1, lost := w.lost + [n])
                  else w.(pending := w.pending + [n], accepted := w.accepted + [n]);
    stored.(inFlight := w.inFlight - multiset{n}, workQueued := true,
            toSchedule := if w.workQueued then w.toSchedule else w.toSchedule + 1)
  }

  function AfterPop(w: World): World {
    if w.pending != [] then w.(pending := w.pending[1..], worker := Emitting(w.pending[0]))
    else if w.dropped > 0 then w.(dropped := 0, worker := Reporting(w.dropped))
    else w.(workQueued := false, worker := Leaving)
  }

  function Next(w: World, e: Event): World
    requires Enabled(w, e)
  {
    match e
    case Fork(pid) => AfterFork(w, pid)
    case Free(pid) => w.(children := Untrack(w.children, pid))
    case SetUid(pid, uid) => AfterSetUid(w, pid, uid)
    case Enqueue(n) => AfterEnqueue(w, n)
    case Schedule => w.(toSchedule := w.toSchedule - 1, scheduled := true)
    case Start => w.(scheduled := false, worker := Looping)
    case Pop => AfterPop(w)
    case Emit => w.(worker := Looping, emitted := w.emitted + [w.worker.n])
    case Report => w.(worker := Looping, reported := w.reported + w.worker.count)
    case Leave => w.(worker := Idle)
  }

  // -------------------------------------------------------------- invariants

  function Held(k: Worker): seq<Notice> { if k.Emitting? then [k.n] else [] }
  function Counted(k: Worker): nat { if k.Reporting? then k.count else 0 }
  function Running(k: Worker): nat { if k.Looping? || k.Emitting? || k.Reporting? then 1 else 0 }
  function Bit(b: bool): nat { if b then 1 else 0 }

  /** The flag stands for exactly one wakeup on its way: about to be scheduled, scheduled, or running. */
  predicate WakeupInv(w: World) {
    && Bit(w.workQueued) == w.toSchedule + Bit(w.scheduled) + Running(w.worker)
    && (w.pending != [] || w.dropped > 0 ==> w.workQueued)
  }

  /** Events are emitted in the order they were queued, and every drop is counted until it is reported. */
  predicate QueueInv(w: World) {
    && |w.pending| < RING
    && w.accepted == w.emitted + Held(w.worker) + w.pending
    && |w.lost| == w.reported + Counted(w.worker) + w.dropped
    && multiset(w.born) == w.inFlight + multiset(w.accepted) + multiset(w.lost)
  }

  predicate SlotsDistinct(cs: seq<Child>, lives: nat) {
    && (forall i :: 0 <= i < |cs| && cs[i].pid != 0 ==> cs[i].life < lives)
    && (forall i, j :: 0 <= i < j < |cs| && cs[i].pid != 0 && cs[j].pid != 0 ==>
          cs[i].pid != cs[j].pid && cs[i].life != cs[j].life)
  }

  predicate Unreported(c: Child) { c.pid != 0 && c.phase == Forked }

  /** No life is reported twice, and a child that has not specialized has not been reported. */
  predicate LivesInv(w: World) {
    && |w.children| == CHILDREN && SlotsDistinct(w.children, w.lives)
    && (forall k :: 0 <= k < |w.born| ==> w.born[k].life < w.lives)
    && (forall k, m :: 0 <= k < m < |w.born| ==> w.born[k].life != w.born[m].life)
    && (forall i, k :: 0 <= i < |w.children| && 0 <= k < |w.born| && Unreported(w.children[i]) ==>
          w.children[i].life != w.born[k].life)
  }

  predicate Inv(w: World) { WakeupInv(w) && QueueInv(w) && LivesInv(w) }

  lemma EnqueueKeepsQueue(w: World, n: Notice)
    requires QueueInv(w) && n in w.inFlight
    ensures QueueInv(AfterEnqueue(w, n))
  {
    if !Full(w) {
      assert w.emitted + Held(w.worker) + w.pending + [n] == w.emitted + Held(w.worker) + (w.pending + [n]);
    }
  }

  lemma PopKeepsQueue(w: World)
    requires QueueInv(w) && w.worker == Looping
    ensures QueueInv(AfterPop(w))
  {
    if w.pending != [] {
      assert w.pending == [w.pending[0]] + w.pending[1..];
      assert w.emitted + [] + w.pending == w.emitted + [w.pending[0]] + w.pending[1..];
    }
  }

  lemma SetUidKeepsLives(w: World, pid: nat, uid: nat)
    requires LivesInv(w) && pid != 0
    ensures LivesInv(AfterSetUid(w, pid, uid))
  {
  }

  lemma ForkKeepsLives(w: World, pid: nat)
    requires LivesInv(w) && pid != 0
    ensures LivesInv(AfterFork(w, pid))
  {
  }

  lemma EmitKeepsQueue(w: World)
    requires QueueInv(w) && w.worker.Emitting?
    ensures QueueInv(Next(w, Emit))
  {
    assert w.emitted + [w.worker.n] + [] + w.pending == w.emitted + [w.worker.n] + w.pending;
  }

  lemma SetUidKeepsQueue(w: World, pid: nat, uid: nat)
    requires QueueInv(w)
    ensures QueueInv(AfterSetUid(w, pid, uid))
  {
  }

  lemma StepKeepsQueue(w: World, e: Event)
    requires QueueInv(w) && Enabled(w, e)
    ensures QueueInv(Next(w, e))
  {
    match e
    case Enqueue(n) => EnqueueKeepsQueue(w, n);
    case Pop => PopKeepsQueue(w);
    case Emit => EmitKeepsQueue(w);
    case SetUid(pid, uid) => SetUidKeepsQueue(w, pid, uid);
    case _ =>
  }

  lemma FreeKeepsLives(w: World, pid: nat)
    requires LivesInv(w)
    ensures LivesInv(w.(children := Untrack(w.children, pid)))
  {
  }

  lemma SameLives(w: World, w': World)
    requires LivesInv(w) && w'.children == w.children && w'.lives == w.lives && w'.born == w.born
    ensures LivesInv(w')
  {
  }

  lemma StepKeepsLives(w: World, e: Event)
    requires LivesInv(w) && Enabled(w, e)
    ensures LivesInv(Next(w, e))
  {
    match e
    case Fork(pid) => ForkKeepsLives(w, pid);
    case SetUid(pid, uid) => SetUidKeepsLives(w, pid, uid);
    case Free(pid) => FreeKeepsLives(w, pid);
    case _ => SameLives(w, Next(w, e));
  }

  lemma StepKeepsWakeup(w: World, e: Event)
    requires WakeupInv(w) && Enabled(w, e)
    ensures WakeupInv(Next(w, e))
  {
  }

  predicate Step(w: World, e: Event, w': World) { Enabled(w, e) && w' == Next(w, e) }

  lemma InitQueue()
    ensures QueueInv(Init())
  {
    assert Init().emitted + Held(Init().worker) + Init().pending == [];
  }

  lemma InitLives()
    ensures LivesInv(Init())
  {
  }

  lemma StepKeepsInv(w: World, e: Event, w': World)
    requires Inv(w) && Step(w, e, w')
    ensures Inv(w')
  {
    StepKeepsQueue(w, e);
    StepKeepsLives(w, e);
    StepKeepsWakeup(w, e);
  }

  // -------------------------------------------------------------------- runs

  predicate Run(worlds: seq<World>, events: seq<Event>) {
    && |worlds| == |events| + 1 && worlds[0] == Init()
    && forall i :: 0 <= i < |events| ==> Step(worlds[i], events[i], worlds[i + 1])
  }

  lemma {:induction false} RunKeepsQueue(worlds: seq<World>, events: seq<Event>, n: nat)
    requires Run(worlds, events) && n < |worlds|
    ensures QueueInv(worlds[n])
    decreases n
  {
    if n == 0 {
      InitQueue();
    } else {
      RunKeepsQueue(worlds, events, n - 1);
      assert Step(worlds[n - 1], events[n - 1], worlds[n - 1 + 1]);
      StepKeepsQueue(worlds[n - 1], events[n - 1]);
    }
  }

  lemma {:induction false} RunKeepsLives(worlds: seq<World>, events: seq<Event>, n: nat)
    requires Run(worlds, events) && n < |worlds|
    ensures LivesInv(worlds[n])
    decreases n
  {
    if n == 0 {
      InitLives();
    } else {
      RunKeepsLives(worlds, events, n - 1);
      assert Step(worlds[n - 1], events[n - 1], worlds[n - 1 + 1]);
      StepKeepsLives(worlds[n - 1], events[n - 1]);
    }
  }

  lemma {:induction false} RunKeepsWakeup(worlds: seq<World>, events: seq<Event>, n: nat)
    requires Run(worlds, events) && n < |worlds|
    ensures WakeupInv(worlds[n])
    decreases n
  {
    if n == 0 {
      assert WakeupInv(Init());
    } else {
      RunKeepsWakeup(worlds, events, n - 1);
      assert Step(worlds[n - 1], events[n - 1], worlds[n - 1 + 1]);
      StepKeepsWakeup(worlds[n - 1], events[n - 1]);
    }
  }

  lemma RunKeepsInv(worlds: seq<World>, events: seq<Event>, n: nat)
    requires Run(worlds, events) && n < |worlds|
    ensures Inv(worlds[n])
  {
    RunKeepsQueue(worlds, events, n);
    RunKeepsLives(worlds, events, n);
    RunKeepsWakeup(worlds, events, n);
  }

  /** In every run: what was queued is emitted, held, pending or dropped; emission is in queue order; drops are
      all counted; and each life has at most one event. */
  lemma Conservation(worlds: seq<World>, events: seq<Event>, n: nat)
    requires Run(worlds, events) && n < |worlds|
    ensures var w := worlds[n];
            && w.emitted <= w.accepted
            && |w.accepted| + |w.lost|
               == |w.emitted| + |Held(w.worker)| + |w.pending| + w.dropped + Counted(w.worker) + w.reported
            && multiset(w.born) == w.inFlight + multiset(w.accepted) + multiset(w.lost)
            && forall k, m :: 0 <= k < m < |w.born| ==> w.born[k].life != w.born[m].life
  {
    RunKeepsInv(worlds, events, n);
  }

  /** A queued event is dropped exactly when 127 are pending; otherwise it joins the end of the queue. */
  lemma DroppedIffFull(worlds: seq<World>, events: seq<Event>, n: nat)
    requires Run(worlds, events) && n < |events| && events[n].Enqueue?
    ensures var w, w' := worlds[n], worlds[n + 1];
            && (w'.lost != w.lost <==> |w.pending| == 127)
            && (w'.lost != w.lost ==> w'.lost == w.lost + [events[n].n] && w'.pending == w.pending)
            && (w'.lost == w.lost ==> w'.pending == w.pending + [events[n].n])
  {
    RunKeepsInv(worlds, events, n);
    assert Step(worlds[n], events[n], worlds[n + 1]);
  }

  // ------------------------------------------------------- who is tracked

  predicate Tracks(w: World, i: int, pid: nat) { 0 <= i < |w.children| && w.children[i].pid == pid }

  /** In every run, a fork that is not tracked yet takes a free slot, if there is one, as a new child. */
  lemma ForkMeaning(worlds: seq<World>, events: seq<Event>, n: nat)
    requires Run(worlds, events) && n < |events| && events[n].Fork?
    ensures var w, w', pid := worlds[n], worlds[n + 1], events[n].pid;
            if (exists i :: Tracks(w, i, pid)) || (forall i :: !Tracks(w, i, 0)) then w'.children == w.children
            else exists i :: Tracks(w, i, 0) && w'.children == w.children[i := Child(pid, NO_UID, Forked, w.lives)]
  {
    assert Step(worlds[n], events[n], worlds[n + 1]);
    var w, pid := worlds[n], events[n].pid;
    if SlotOf(w.children, pid, 0) >= 0 { assert Tracks(w, SlotOf(w.children, pid, 0), pid); }
    if SlotOf(w.children, 0, 0) >= 0 { assert Tracks(w, SlotOf(w.children, 0, 0), 0); }
  }

  /** A freed process is tracked by no slot afterwards, its slot is free, and no other slot changes; so its pid is
      tracked anew at its next fork, with a life of its own. */
  lemma FreeMeaning(worlds: seq<World>, events: seq<Event>, n: nat, i: int)
    requires Run(worlds, events) && n < |events| && events[n].Free? && 0 <= i < CHILDREN
    ensures |worlds[n].children| == |worlds[n + 1].children| == CHILDREN
    ensures var w, w', pid := worlds[n], worlds[n + 1], events[n].pid;
            if Tracks(w, i, pid) then w'.children[i].pid == 0 else w'.children[i] == w.children[i]
  {
    RunKeepsLives(worlds, events, n);
    RunKeepsLives(worlds, events, n + 1);
    assert Step(worlds[n], events[n], worlds[n + 1]);
  }

  /** A change of uid makes an event exactly when it is to an app uid that is not isolated, from 10000 up and with the
      last five digits below 90000, and the process is tracked and has not had one: the event names the process, its
      uid and its app id. */
  lemma SetUidMeaning(worlds: seq<World>, events: seq<Event>, n: nat, i: int)
    requires Run(worlds, events) && n < |events| && events[n].SetUid?
    ensures var w, w', pid, uid := worlds[n], worlds[n + 1], events[n].pid, events[n].uid;
            && (Tracks(w, i, pid) && w.children[i].phase == Forked && 10000 <= uid && uid % 100000 < 90000 ==>
                  && w'.born == w.born + [Notice(pid, uid, uid % 100000, w.children[i].life)]
                  && w'.inFlight == w.inFlight + multiset{Notice(pid, uid, uid % 100000, w.children[i].life)}
                  && w'.children == w.children[i := w.children[i].(uid := uid, phase := Specialized)])
            && (uid < 10000 || uid % 100000 >= 90000 ==> w' == w)
            && ((forall j :: Tracks(w, j, pid) ==> w.children[j].phase == Specialized) ==> w' == w)
  {
    RunKeepsLives(worlds, events, n);
    assert Step(worlds[n], events[n], worlds[n + 1]);
    var w, pid := worlds[n], events[n].pid;
    if SlotOf(w.children, pid, 0) >= 0 { assert Tracks(w, SlotOf(w.children, pid, 0), pid); }
  }

  // ------------------------------------------------------- no wakeup is lost

  predicate Waiting(w: World) { w.pending != [] || w.dropped > 0 }

  /** The next step of the work item and those who schedule it, with no new events. */
  function WorkStep(w: World): Event {
    if w.toSchedule > 0 then Schedule
    else match w.worker
      case Idle => Start
      case Looping => Pop
      case Emitting(_) => Emit
      case Reporting(_) => Report
      case Leaving => Leave
  }

  /** How many such steps are left until the work function returns with nothing to do. */
  function StepsLeft(w: World): nat {
    2 * |w.pending| + 2 * Bit(w.dropped > 0) + Bit(w.workQueued)
    + (match w.worker case Idle => 0 case Looping => 1 case Emitting(_) => 2 case Reporting(_) => 2 case Leaving => 1)
    + 2 * Bit(w.scheduled) + 3 * w.toSchedule
  }

  predicate Settled(w: World) { !w.workQueued && w.worker == Idle }

  lemma WorkStepProgress(w: World)
    requires Inv(w) && !Settled(w)
    ensures Enabled(w, WorkStep(w)) && StepsLeft(Next(w, WorkStep(w))) < StepsLeft(w)
  {
  }

  /** The world after the work item alone has run until it settles. */
  ghost function Drained(w: World): World
    requires Inv(w)
    decreases StepsLeft(w)
  {
    if Settled(w) then w
    else
      WorkStepProgress(w);
      StepKeepsInv(w, WorkStep(w), Next(w, WorkStep(w)));
      Drained(Next(w, WorkStep(w)))
  }

  /** From every reachable world the work item, left alone, emits every queued event in order and reports every
      drop: no wakeup is ever lost. */
  lemma {:induction false} NothingLeftBehind(w: World)
    requires Inv(w)
    ensures var d := Drained(w);
            && !Waiting(d) && d.worker == Idle
            && d.emitted == w.accepted && d.accepted == w.accepted
            && d.reported == |w.lost| && d.lost == w.lost
    decreases StepsLeft(w)
  {
    if !Settled(w) {
      WorkStepProgress(w);
      StepKeepsInv(w, WorkStep(w), Next(w, WorkStep(w)));
      NothingLeftBehind(Next(w, WorkStep(w)));
    }
  }

  // ----------------------------------------------------------------- the code

  /** The table of tracked children. */
  class Children {
    const slots: array<Child>

    ghost predicate Valid()
      reads this
    {
      slots.Length == CHILDREN
    }

    constructor ()
      ensures Valid() && fresh(slots) && slots[..] == Init().children
    {
      slots := new Child[CHILDREN](_ => Child(0, 0, Forked, 0));
    }

    method FindSlot(pid: nat) returns (r: int)
      requires Valid()
      ensures r == SlotOf(slots[..], pid, 0)
    {
      for i := 0 to CHILDREN
        invariant SlotOf(slots[..], pid, i) == SlotOf(slots[..], pid, 0)
      {
        if slots[i].pid == pid { return i; }
      }
      return -1;
    }

    method TrackChild(pid: nat, life: nat)
      requires Valid()
      modifies slots
      ensures slots[..] == Track(old(slots[..]), pid, life)
    {
      var i := FindSlot(pid);
      if i < 0 {
        i := FindSlot(0);
        if i >= 0 { slots[i] := Child(pid, NO_UID, Forked, life); }
      }
    }

    method OnFree(pid: nat) returns (tracked: bool)
      requires Valid()
      modifies slots
      ensures tracked <==> SlotOf(old(slots[..]), pid, 0) >= 0
      ensures slots[..] == Untrack(old(slots[..]), pid)
    {
      var i := FindSlot(pid);
      tracked := i >= 0;
      if tracked { slots[i] := slots[i].(pid := 0); }
    }

    /** Answers with an event for exactly the first app uid of a child's life. */
    method OnSetResUid(pid: nat, uid: nat) returns (specialized: bool, n: Notice)
      requires Valid()
      modifies slots
      ensures specialized <==> Specializes(old(slots[..]), pid, uid)
      ensures specialized ==>
                && slots[..] == Marked(old(slots[..]), pid, uid)
                && n == Notice(pid, uid, uid % 100000, old(slots[..])[SlotOf(old(slots[..]), pid, 0)].life)
      ensures !specialized ==> slots[..] == old(slots[..])
    {
      specialized, n := false, Notice(pid, uid, 0, 0);
      if uid < 10000 || uid % 100000 >= 90000 { return; }
      var i := FindSlot(pid);
      if i >= 0 && slots[i].phase == Forked {
        slots[i] := slots[i].(uid := uid, phase := Specialized);
        specialized, n := true, Notice(pid, uid, uid % 100000, slots[i].life);
      }
    }
  }

  /** The `n` events from place `tail` on, going round. */
  function RingContents(s: seq<Notice>, tail: nat, n: nat): (c: seq<Notice>)
    requires |s| == RING && tail < RING && n <= RING
    ensures |c| == n
  {
    seq(n, k requires 0 <= k < n => s[if tail + k < RING then tail + k else tail + k - RING])
  }

  lemma RingPush(s: seq<Notice>, tail: nat, n: nat, head: nat, x: Notice)
    requires |s| == RING && tail < RING && n < RING - 1
    requires head == if tail + n < RING then tail + n else tail + n - RING
    ensures RingContents(s[head := x], tail, n + 1) == RingContents(s, tail, n) + [x]
  {
  }

  lemma MoveOne(a: seq<Notice>, b: seq<Notice>)
    requires b != []
    ensures a + b == (a + [b[0]]) + b[1..]
  {
  }

  lemma RingPop(s: seq<Notice>, tail: nat, n: nat)
    requires |s| == RING && tail < RING && 0 < n < RING
    ensures RingContents(s, tail, n)[0] == s[tail]
    ensures RingContents(s, (tail + 1) % RING, n - 1) == RingContents(s, tail, n)[1..]
  {
  }

  /** The ring of events: `head` is where the next goes, `tail` the oldest; equal when empty. */
  class Ring {
    const slots: array<Notice>
    var head: nat
    var tail: nat
    var dropped: nat
    var workQueued: bool

    ghost predicate Valid()
      reads this
    {
      slots.Length == RING && head < RING && tail < RING
    }

    function Length(): (n: nat)
      requires Valid()
      reads this
      ensures n < RING
    {
      if head >= tail then head - tail else head + RING - tail
    }

    /** The pending events, oldest first. */
    ghost function Contents(): (c: seq<Notice>)
      requires Valid()
      reads this, slots
      ensures |c| == Length()
    {
      RingContents(slots[..], tail, Length())
    }

    constructor ()
      ensures Valid() && fresh(slots) && Contents() == [] && dropped == 0 && !workQueued
    {
      slots := new Notice[RING](_ => Notice(0, 0, 0, 0));
      head, tail, dropped, workQueued := 0, 0, 0, false;
    }

    /** Stores the event unless 127 are pending; asks to be scheduled if no wakeup is on its way. */
    method Queue(n: Notice) returns (schedule: bool)
      requires Valid()
      modifies this, slots
      ensures Valid() && workQueued && schedule == !old(workQueued)
      ensures if |old(Contents())| >= RING - 1
              then Contents() == old(Contents()) && dropped == old(dropped) + 1
              else Contents() == old(Contents()) + [n] && dropped == old(dropped)
    {
      var next := (head + 1) % RING;
      if next == tail {
        dropped := dropped + 1;
      } else {
        RingPush(slots[..], tail, Length(), head, n);
        slots[head] := n;
        head := next;
      }
      schedule := !workQueued;
      workQueued := true;
    }

    /** Takes the oldest event; with none, the drop count; with neither, the wakeup is used up. */
    method Take() returns (n: Notice, found: bool, lost: nat)
      requires Valid()
      modifies this
      ensures Valid() && found == (old(Contents()) != [])
      ensures found ==> n == old(Contents())[0] && Contents() == old(Contents())[1..]
                        && dropped == old(dropped) && workQueued == old(workQueued)
      ensures !found ==> Contents() == [] && lost == old(dropped) && dropped == 0
                         && workQueued == (old(workQueued) && lost != 0)
    {
      n, lost := Notice(0, 0, 0, 0), 0;
      found := tail != head;
      if found {
        RingPop(slots[..], tail, Length());
        n := slots[tail];
        tail := (tail + 1) % RING;
      } else {
        lost := dropped;
        dropped := 0;
        if lost == 0 { workQueued := false; }
      }
    }

    /** The work function with no producers running: everything pending is emitted in order, and the drops reported. */
    method Work() returns (emitted: seq<Notice>, reported: nat)
      requires Valid()
      modifies this
      ensures Valid() && emitted == old(Contents()) && reported == old(dropped)
      ensures Contents() == [] && dropped == 0 && !workQueued
    {
      emitted, reported := [], 0;
      while true
        invariant Valid()
        invariant emitted + Contents() == old(Contents()) && reported + dropped == old(dropped)
        decreases Length(), dropped, workQueued
      {
        ghost var before := Contents();
        var n, found, lost := Take();
        if found {
          MoveOne(emitted, before);
          emitted := emitted + [n];
        } else if lost != 0 {
          reported := reported + lost;
        } else {
          break;
        }
      }
    }
  }
}
