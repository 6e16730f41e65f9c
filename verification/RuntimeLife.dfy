/**
 The life of one record: what a process that begins is given, that its state changes take effect and only they do, and
 that beginning, redirecting and reporting with the generation handed out ends with the record injected.
 */
module RuntimeLife {
  import opened RuntimeTable

  /** Slot `i` holds the base record of the process, first seen, under generation `g`. */
  predicate Holds(rs: seq<Record>, i: nat, b: Begun, g: nat) {
    && i < |rs|
    && rs[i].pid == b.pid && rs[i].start == b.start && rs[i].kind == b.kind && rs[i].moduleId == ""
    && rs[i].abi == b.abi && rs[i].targetType == b.targetType && rs[i].flags == b.flags
    && rs[i].process == b.process && rs[i].target == b.target
    && rs[i].state == Detected && rs[i].generation == g
  }

  /** The base record of an earlier process in the same place: a zygote of that name and ABI, or a native process with
      the same pid. */
  predicate Predecessor(r: Record, b: Begun) {
    && r.pid != 0 && r.moduleId == "" && r.kind == b.kind
    && (if b.kind == Zygote then r.target == b.target && r.abi == b.abi else r.pid == b.pid)
  }

  /** All other records stay, except that some are marked exited. */
  predicate OthersStay(rs: seq<Record>, rs': seq<Record>, i: nat) {
    && |rs'| == |rs|
    && forall j :: 0 <= j < |rs| && j != i ==> rs'[j] == rs[j] || rs'[j] == rs[j].(state := Exited)
  }

  lemma PredecessorIsKey(r: Record, b: Begun)
    requires b.pid != 0 && b.kind != NoKind
    ensures Predecessor(r, b) <==> Matches(BaseKey(b), r)
  {
  }

  /** A process that is given a generation has a record with that generation, in its predecessor's slot if there is one
      and else in one that was free, exited or a module's. Only a zygote's predecessor is counted as a restart. */
  lemma BegunRecord(t: Table, b: Begun, dead: set<nat>) returns (i: nat)
    requires Inv(t) && b.pid != 0 && b.kind != NoKind && Begin(t, b, dead).1 != 0
    ensures var (t', g) := Begin(t, b, dead);
            && Holds(t'.records, i, b, g) && OthersStay(t.records, t'.records, i)
            && (forall j :: 0 <= j < |t.records| && Predecessor(t.records[j], b) ==> j == i)
            && t'.records[i].restarts == (if b.kind == Zygote && Predecessor(t.records[i], b)
                                          then (t.records[i].restarts + 1) % 0x1_0000_0000 else 0)
            && (Predecessor(t.records[i], b) || t.records[i].pid == 0 || t.records[i].moduleId != ""
                || t.records[i].state == Exited || i in dead)
  {
    var t2 := Prepared(t, b, dead);
    PreparedEffect(t, b, dead);
    RestatedKeepsInv(t, t2);
    BeginSlotMeaning(t2, b);
    i := BeginSlot(t2, b);
    forall j | 0 <= j < |t.records| ensures Predecessor(t.records[j], b) <==> Matches(BaseKey(b), t2.records[j]) {
      PredecessorIsKey(t2.records[j], b);
    }
  }

  // ---------------------------------------------------------- state changes

  /** The base record of that pid and generation in slot `i`. */
  predicate IsFor(rs: seq<Record>, i: nat, pid: nat, g: nat) {
    i < |rs| && rs[i].pid == pid && rs[i].generation == g && rs[i].moduleId == ""
  }

  predicate FirstFor(rs: seq<Record>, i: nat, pid: nat, g: nat) {
    IsFor(rs, i, pid, g) && forall j: nat :: j < i ==> !IsFor(rs, j, pid, g)
  }

  /** A state change takes effect on the first base record of the pid and generation, and on nothing else. */
  lemma SetStateMeaning(t: Table, pid: nat, g: nat, state: State, i: nat)
    requires g != 0 && FirstFor(t.records, i, pid, g)
    ensures SetState(t, pid, g, state).records == t.records[i := t.records[i].(state := state)]
  {
    FirstMeaning(t.records, BaseOf(pid, g), 0);
    var f := First(t.records, BaseOf(pid, g), 0);
    assert f >= 0 && IsFor(t.records, f, pid, g);
  }

  lemma SetStateOfNone(t: Table, pid: nat, g: nat, state: State)
    requires g == 0 || forall j :: !IsFor(t.records, j, pid, g)
    ensures SetState(t, pid, g, state) == t
  {
    FirstMeaning(t.records, BaseOf(pid, g), 0);
    if g != 0 && First(t.records, BaseOf(pid, g), 0) >= 0 {
      var j: nat := First(t.records, BaseOf(pid, g), 0);
      assert IsFor(t.records, j, pid, g);
    }
  }

  /** Until the counter wraps, the pid and generation handed out name the new record alone. */
  lemma NamesOne(t: Table, pid: nat, g: nat, i: nat, j: nat)
    requires Inv(t) && t.ticks <= MAX_GENERATION && pid != 0
    requires IsFor(t.records, i, pid, g) && IsFor(t.records, j, pid, g)
    ensures i == j
  {
  }

  /** The state a step gives a base record that keeps its slot: what its own state change says, injected by a report of
      its pid and generation after redirection, or the one it had. */
  predicate StateFollows(e: Event, a: Record, state: State) {
    || state == a.state
    || e == OnSetState(a.pid, a.generation, state)
    || (e.OnReport? && e.q.pid == a.pid && e.q.generation == a.generation && Running(a) && state == Injected)
  }

  /** In every step, a live base record keeps its slot and contents unless its process is found dead or begins again,
      and its state changes only by its own state change or report. */
  lemma StateKept(t: Table, e: Event, i: nat)
    requires Inv(t) && Allowed(e) && i < |t.records| && IsBase(t.records[i]) && t.records[i].state != Exited
    requires !FoundDead(t, e, i) && !(e.OnBegin? && Predecessor(t.records[i], e.b))
    ensures var a, c := t.records[i], Step(t, e).records[i]; c == a.(state := c.state) && StateFollows(e, a, c.state)
  {
    if e.OnBegin? { PredecessorIsKey(t.records[i], e.b); }
    BaseSurvives(t, e, i);
    match e
    case OnBegin(b, dead) =>
      PreparedEffect(t, b, dead);
      RestatedKeepsInv(t, Prepared(t, b, dead));
      BeginSlotMeaning(Prepared(t, b, dead), b);
    case OnSetState(pid, generation, state) => SetStateRestates(t, pid, generation, state);
    case OnReport(q, alive, start, dead, baseDead) => ReportState(t, e, i);
    case OnQuery(dead) => RefreshEffect(t, dead, 0);
  }

  lemma ReportState(t: Table, e: Event, i: nat)
    requires Inv(t) && e.OnReport? && i < |t.records| && IsBase(t.records[i]) && t.records[i].state != Exited
    requires !FoundDead(t, e, i)
    ensures StateFollows(e, t.records[i], Step(t, e).records[i].state)
  {
    var q := e.q;
    if !Malformed(q) && e.alive {
      var t1 := Refresh(t, e.dead, 0);
      RefreshEffect(t, e.dead, 0);
      RestatedKeepsInv(t, t1);
      FirstMeaning(t1.records, LiveBase(q.pid, e.start, q.kind, q.generation), 0);
      var base := BaseSlot(t1, e.start, q);
      if base >= 0 && !e.baseDead && Running(t1.records[base]) { InjectingState(t1, base, q, i); }
    }
  }

  lemma InjectingState(t: Table, base: nat, q: Reported, i: nat)
    requires Inv(t) && !Malformed(q) && base < |t.records| && t.records[base].moduleId == ""
    requires i < |t.records| && IsBase(t.records[i]) && t.records[i].state != Exited
    ensures Injecting(t, base, q).0.records[i].state == if i == base then Injected else t.records[i].state
  {
    SetAtKeepsInv(t, base, Injected);
    if q.kind == Native { ModuleSlotMeaning(SetAt(t, base, Injected), base, q); }
  }

  // ------------------------------------------------------------- a whole life

  /** No slot but `i` is free, exited or dead. */
  predicate Full(rs: seq<Record>, i: nat, dead: set<nat>) {
    forall j: nat :: j < |rs| && j != i ==> rs[j].pid != 0 && rs[j].state != Exited && j !in dead
  }

  predicate IsModuleOf(rs: seq<Record>, j: nat, pid: nat, id: string) {
    j < |rs| && rs[j].pid == pid && rs[j].kind == Native && rs[j].moduleId == id
  }

  predicate NoModuleOf(rs: seq<Record>, pid: nat, id: string) {
    forall j: nat :: j < |rs| ==> !IsModuleOf(rs, j, pid, id)
  }

  /** Some other slot can take a module's record. */
  predicate CanTake(rs: seq<Record>, i: nat, dead: set<nat>) {
    !Full(rs, i, dead) || exists j: nat :: j < |rs| && j != i && rs[j].moduleId != ""
  }

  /** The module has an injected record of the base's process and generation. */
  ghost predicate Recorded(rs: seq<Record>, base: Record, id: string) {
    exists j: nat :: IsModuleOf(rs, j, base.pid, id) && rs[j].generation == base.generation && rs[j].start == base.start
      && rs[j].state == Injected
  }

  /** Slot `s` is the first module slot of lowest generation below `n`, not counting `i`; -1 if there is none. */
  predicate Oldest(rs: seq<Record>, i: int, s: int, n: nat)
    requires n <= |rs|
  {
    && -1 <= s < n && s != i && (s >= 0 ==> rs[s].moduleId != "")
    && forall j :: 0 <= j < n && j != i && rs[j].moduleId != "" ==>
         s >= 0 && rs[s].generation <= rs[j].generation && (j < s ==> rs[s].generation < rs[j].generation)
  }

  lemma {:induction false} PickOldest(rs: seq<Record>, exclude: nat, n: nat, mod: int)
    requires n <= |rs| && Oldest(rs, exclude, mod, n) && Full(rs, exclude, {})
    ensures Oldest(rs, exclude, Pick(rs, exclude, n, -1, mod), |rs|)
    decreases |rs| - n
  {
    if n < |rs| {
      if n == exclude {
        PickOldest(rs, exclude, n + 1, mod);
      } else {
        PickOldest(rs, exclude, n + 1, if rs[n].moduleId != "" && Older(rs, n, mod) then n else mod);
      }
    }
  }

  /** The table is full, the module has no record, and the one that would make room is the same process's own. */
  predicate Displaces(rs: seq<Record>, i: nat, dead: set<nat>, id: string, s: int)
    requires i < |rs|
  {
    && Full(rs, i, dead) && NoModuleOf(rs, rs[i].pid, id)
    && 0 <= s && Oldest(rs, i, s, |rs|)
    && rs[s].generation == rs[i].generation && rs[s].start == rs[i].start && rs[s].state == Injected
  }

  /** A report that names the redirected or injected record of a live process is answered, and the record is injected; a
      native module is turned away only if no slot can take its record. */
  lemma ReportInjects(t: Table, q: Reported, start: nat, dead: set<nat>, i: nat)
    requires Inv(t) && !Malformed(q) && i < |t.records| && i !in dead && Running(t.records[i])
    requires FirstFor(t.records, i, q.pid, q.generation) && t.records[i].kind == q.kind && t.records[i].start == start
    ensures var (t', reply) := Report(t, q, true, start, dead, false);
            && t'.records[i] == t.records[i].(state := Injected)
            && reply == (if q.kind == Zygote || CanTake(t.records, i, dead) then Done else NoSpace)
  {
    FoundBase(t, q, start, dead, i);
    var t1 := Refresh(t, dead, 0);
    InjectedBase(t, t1, i, q);
    if q.kind == Native { ModulePlace(t, q, dead, i); }
  }

  lemma FoundBase(t: Table, q: Reported, start: nat, dead: set<nat>, i: nat)
    requires Inv(t) && !Malformed(q) && i < |t.records| && i !in dead && Running(t.records[i])
    requires FirstFor(t.records, i, q.pid, q.generation) && t.records[i].kind == q.kind && t.records[i].start == start
    ensures var t1 := Refresh(t, dead, 0);
            && Inv(t1) && Restated(t.records, t1.records) && t.ticks <= t1.ticks && t1.records[i] == t.records[i]
            && Report(t, q, true, start, dead, false) == Injecting(t1, i, q)
  {
    var t1 := Refresh(t, dead, 0);
    RefreshEffect(t, dead, 0);
    RestatedKeepsInv(t, t1);
    FirstMeaning(t1.records, LiveBase(q.pid, start, q.kind, q.generation), 0);
    var f := BaseSlot(t1, start, q);
    assert f >= 0;
    assert IsFor(t.records, f, q.pid, q.generation);
  }

  lemma FirstModule(rs: seq<Record>, pid: nat, id: string)
    ensures var r := First(rs, ModuleOf(pid, id), 0);
            if NoModuleOf(rs, pid, id) then r == -1 else r >= 0 && IsModuleOf(rs, r, pid, id)
  {
    var r := First(rs, ModuleOf(pid, id), 0);
    FirstMeaning(rs, ModuleOf(pid, id), 0);
    if r >= 0 {
      assert IsModuleOf(rs, r, pid, id);
    } else {
      forall j: nat | j < |rs| ensures !IsModuleOf(rs, j, pid, id) { assert !Matches(ModuleOf(pid, id), rs[j]); }
    }
  }

  lemma SameModules(rs: seq<Record>, rs': seq<Record>, pid: nat, id: string)
    requires Restated(rs, rs')
    ensures NoModuleOf(rs', pid, id) <==> NoModuleOf(rs, pid, id)
  {
    forall j: nat ensures IsModuleOf(rs', j, pid, id) <==> IsModuleOf(rs, j, pid, id) {
      if j < |rs| { assert rs'[j] == rs[j].(state := rs'[j].state); }
    }
  }

  lemma SameOldest(rs: seq<Record>, rs': seq<Record>, i: int, s: int)
    requires Restated(rs, rs')
    ensures Oldest(rs', i, s, |rs'|) <==> Oldest(rs, i, s, |rs|)
  {
    forall j | 0 <= j < |rs| ensures rs'[j].moduleId == rs[j].moduleId && rs'[j].generation == rs[j].generation {
      assert rs'[j] == rs[j].(state := rs'[j].state);
    }
  }

  /** Which slot a module's record gets. */
  lemma SlotChoice(t: Table, i: nat, q: Reported)
    requires Unique(t.records) && i < |t.records| && t.records[i].moduleId == "" && q.pid != 0 && q.moduleId != ""
    ensures var s, rs := ModuleSlot(t, i, q), t.records;
            && s != i && (s >= 0 <==> CanTake(rs, i, {}))
            && (!NoModuleOf(rs, q.pid, q.moduleId) ==> s >= 0 && IsModuleOf(rs, s, q.pid, q.moduleId))
            && (NoModuleOf(rs, q.pid, q.moduleId) ==>
                  if Full(rs, i, {}) then Oldest(rs, i, s, |rs|)
                  else s >= 0 && (rs[s].pid == 0 || rs[s].state == Exited))
  {
    ModuleSlotMeaning(t, i, q);
    FirstModule(t.records, q.pid, q.moduleId);
    PickMeaning(t.records, i, 0, -1, -1);
    if Full(t.records, i, {}) {
      PickOldest(t.records, i, 0, -1);
    } else {
      var j: nat :| j < |t.records| && j != i && !(t.records[j].pid != 0 && t.records[j].state != Exited);
      assert Reusable(t.records[j]);
    }
  }

  /** The table as it is when the module's slot is chosen. */
  function Injected1(t: Table, dead: set<nat>, i: nat): Table
    requires i < |t.records|
  {
    SetAt(Refresh(t, dead, 0), i, Injected)
  }

  lemma ModulePlace(t: Table, q: Reported, dead: set<nat>, i: nat)
    requires Inv(t) && !Malformed(q) && q.kind == Native && i < |t.records| && IsFor(t.records, i, q.pid, q.generation)
    ensures var t2, rs := Injected1(t, dead, i), t.records;
            var s := ModuleSlot(t2, i, q);
            && s != i && (s >= 0 <==> CanTake(rs, i, dead))
            && (!NoModuleOf(rs, q.pid, q.moduleId) ==> s >= 0 && IsModuleOf(rs, s, q.pid, q.moduleId))
            && (NoModuleOf(rs, q.pid, q.moduleId) ==>
                  if Full(rs, i, dead) then Oldest(rs, i, s, |rs|)
                  else s >= 0 && (t2.records[s].pid == 0 || t2.records[s].state == Exited))
  {
    var t2 := Injected1(t, dead, i);
    InjectedTable(t, dead, i);
    SlotChoice(t2, i, q);
    SameModules(t.records, t2.records, q.pid, q.moduleId);
    SameOldest(t.records, t2.records, i, ModuleSlot(t2, i, q));
  }

  lemma InjectedTable(t: Table, dead: set<nat>, i: nat)
    requires Inv(t) && i < |t.records|
    ensures var t2 := Injected1(t, dead, i);
            && Inv(t2) && Restated(t.records, t2.records) && t2.records[i].state == Injected
            && (forall j: nat :: j < |t.records| && j != i ==>
                  t2.records[j].state == if t.records[j].pid != 0 && j in dead then Exited else t.records[j].state)
            && (Full(t2.records, i, {}) <==> Full(t.records, i, dead))
  {
    var t1 := Refresh(t, dead, 0);
    RefreshEffect(t, dead, 0);
    RestatedKeepsInv(t, t1);
    SetAtKeepsInv(t1, i, Injected);
  }

  /** A free slot has never been used: slots are overwritten, not emptied. */
  predicate FreeEmpty(rs: seq<Record>) { forall j :: 0 <= j < |rs| && rs[j].pid == 0 ==> rs[j] == Empty() }

  lemma FreeStep(t: Table, e: Event)
    requires Inv(t) && Allowed(e) && FreeEmpty(t.records)
    ensures FreeEmpty(Step(t, e).records)
  {
    match e
    case OnBegin(b, dead) =>
      RefreshEffect(t, dead, 0);
      RetireEffect(Refresh(t, dead, 0), b.pid, 0);
    case OnSetState(pid, generation, state) => FirstMeaning(t.records, BaseOf(pid, generation), 0);
    case OnReport(_, _, _, _, _) => FreeReport(t, e);
    case OnQuery(dead) => RefreshEffect(t, dead, 0);
  }

  lemma FreeReport(t: Table, e: Event)
    requires e.OnReport? && FreeEmpty(t.records)
    ensures FreeEmpty(Step(t, e).records)
  {
    var q, t1 := e.q, Refresh(t, e.dead, 0);
    RefreshEffect(t, e.dead, 0);
    FirstMeaning(t1.records, LiveBase(q.pid, e.start, q.kind, q.generation), 0);
    var base := BaseSlot(t1, e.start, q);
    if !Malformed(q) && e.alive && base >= 0 { FreeInjecting(t1, base, q); }
  }

  lemma FreeInjecting(t: Table, base: nat, q: Reported)
    requires base < |t.records| && t.records[base].pid != 0 && FreeEmpty(t.records)
    ensures FreeEmpty(Injecting(t, base, q).0.records)
  {
  }

  lemma {:induction false} FreeInRuns(events: seq<Event>, n: nat)
    requires n <= |events| && AllAllowed(events)
    ensures FreeEmpty(After(events, n).records)
  {
    if n > 0 {
      FreeInRuns(events, n - 1);
      RunKeepsInv(events, n - 1);
      FreeStep(After(events, n - 1), events[n - 1]);
    }
  }

  /** A native module's report answered done leaves the module recorded, unless the table is full, the module had no
      record, and the record that would make room for it is an injected one of the same process: that one is taken for
      the module's own, and the module is not recorded. */
  lemma RecordedIff(t: Table, q: Reported, start: nat, dead: set<nat>, i: nat)
    requires Inv(t) && !Malformed(q) && q.kind == Native && i < |t.records| && i !in dead && Running(t.records[i])
    requires FirstFor(t.records, i, q.pid, q.generation) && t.records[i].kind == Native && t.records[i].start == start
    requires FreeEmpty(t.records)
    requires Report(t, q, true, start, dead, false).1 == Done
    ensures Recorded(Report(t, q, true, start, dead, false).0.records, t.records[i], q.moduleId)
            <==> forall s :: !Displaces(t.records, i, dead, q.moduleId, s)
  {
    FoundBase(t, q, start, dead, i);
    ReportInjects(t, q, start, dead, i);
    ModulePlace(t, q, dead, i);
    InjectedTable(t, dead, i);
    var t2 := Injected1(t, dead, i);
    var s: nat := ModuleSlot(t2, i, q);
    assert Report(t, q, true, start, dead, false).0 == WriteModule(t2, i, s, q.moduleId);
    SameModules(t.records, t2.records, q.pid, q.moduleId);
    assert t2.records[s] == t.records[s].(state := t2.records[s].state);
    WrittenIff(t2, i, s, q);
    DisplacedIs(t, q, dead, i, s);
  }

  lemma DisplacedIs(t: Table, q: Reported, dead: set<nat>, i: nat, s: nat)
    requires Inv(t) && i < |t.records| && s < |t.records| && s != i && IsFor(t.records, i, q.pid, q.generation)
    requires FreeEmpty(t.records) && q.generation != 0
    requires NoModuleOf(t.records, q.pid, q.moduleId) || IsModuleOf(t.records, s, q.pid, q.moduleId)
    requires NoModuleOf(t.records, q.pid, q.moduleId) && Full(t.records, i, dead) ==>
               Oldest(t.records, i, s, |t.records|)
    requires NoModuleOf(t.records, q.pid, q.moduleId) && !Full(t.records, i, dead) ==>
               t.records[s].pid == 0 || Injected1(t, dead, i).records[s].state == Exited
    ensures var b, m := t.records[i], Injected1(t, dead, i).records[s];
            (exists s' :: Displaces(t.records, i, dead, q.moduleId, s'))
            <==> && !IsModuleOf(t.records, s, q.pid, q.moduleId)
                 && m.generation == b.generation && m.state == Injected && m.start == b.start
  {
    InjectedTable(t, dead, i);
    var m := Injected1(t, dead, i).records[s];
    assert m == t.records[s].(state := m.state);
    if IsModuleOf(t.records, s, q.pid, q.moduleId) {
      assert forall s' :: !Displaces(t.records, i, dead, q.moduleId, s');
    } else if !Full(t.records, i, dead) {
      assert t.records[s].pid == 0 ==> m.generation == 0;
    } else {
      assert t.records[s].state == m.state;
      forall s' | Displaces(t.records, i, dead, q.moduleId, s') ensures s' == s {}
      if m.generation == t.records[i].generation && m.state == Injected && m.start == t.records[i].start {
        assert Displaces(t.records, i, dead, q.moduleId, s);
      }
    }
  }

  lemma WrittenIff(t: Table, i: nat, s: nat, q: Reported)
    requires i < |t.records| && s < |t.records| && s != i && IsFor(t.records, i, q.pid, q.generation)
    requires t.records[i].kind == Native && q.moduleId != ""
    requires IsModuleOf(t.records, s, q.pid, q.moduleId) || NoModuleOf(t.records, q.pid, q.moduleId)
    ensures var b, m := t.records[i], t.records[s];
            Recorded(WriteModule(t, i, s, q.moduleId).records, b, q.moduleId)
            <==> || IsModuleOf(t.records, s, q.pid, q.moduleId)
                 || m.generation != b.generation || m.state != Injected || m.start != b.start
  {
    var b, m, rs' := t.records[i], t.records[s], WriteModule(t, i, s, q.moduleId).records;
    if m.generation != b.generation || m.state != Injected || m.start != b.start
       || IsModuleOf(t.records, s, q.pid, q.moduleId) {
      assert IsModuleOf(rs', s, b.pid, q.moduleId);
    }
  }

  /** Beginning, redirecting with the generation handed out and reporting with it injects the record, whatever the table
      was before. */
  lemma BeginRedirectReport(t: Table, b: Begun, dead: set<nat>, q: Reported, dead': set<nat>) returns (i: nat)
    requires Inv(t) && b.pid != 0 && b.kind != NoKind && Begin(t, b, dead).1 != 0
    requires Begin(t, b, dead).0.ticks <= MAX_GENERATION
    requires q.pid == b.pid && q.generation == Begin(t, b, dead).1 && q.kind == b.kind && !Malformed(q)
    requires forall j: nat :: Holds(Begin(t, b, dead).0.records, j, b, q.generation) ==> j !in dead'
    ensures var t1 := Begin(t, b, dead).0;
            var t2 := SetState(t1, b.pid, q.generation, Redirected);
            var (t3, reply) := Report(t2, q, true, b.start, dead', false);
            && Holds(t1.records, i, b, q.generation)
            && t2.records == t1.records[i := t1.records[i].(state := Redirected)]
            && t3.records[i] == t1.records[i].(state := Injected)
            && reply == (if b.kind == Zygote || CanTake(t1.records, i, dead') then Done else NoSpace)
  {
    i := BegunRecord(t, b, dead);
    BeginKeepsInv(t, b, dead);
    var t1, g := Begin(t, b, dead).0, q.generation;
    forall j: nat | IsFor(t1.records, j, b.pid, g) ensures j == i { NamesOne(t1, b.pid, g, i, j); }
    SetStateMeaning(t1, b.pid, g, Redirected, i);
    var t2 := SetState(t1, b.pid, g, Redirected);
    SetStateRestates(t1, b.pid, g, Redirected);
    RestatedKeepsInv(t1, t2);
    forall j: nat | IsFor(t2.records, j, b.pid, g) ensures j == i { assert IsFor(t1.records, j, b.pid, g); }
    ReportInjects(t2, q, b.start, dead', i);
    assert CanTake(t2.records, i, dead') <==> CanTake(t1.records, i, dead');
  }

  // ------------------------------------------------------ a module that is not recorded

  lemma {:induction false} RefreshNone(t: Table, i: nat)
    ensures Refresh(t, {}, i) == t
    decreases |t.records| - i
  {
    if i < |t.records| { RefreshNone(t, i + 1); }
  }

  lemma {:induction false} RetireNone(t: Table, pid: nat, i: nat)
    requires forall j :: 0 <= j < |t.records| ==> !RetiredBy(t.records[j], pid)
    ensures RetireModules(t, pid, i) == t
    decreases |t.records| - i
  {
    if i < |t.records| { RetireNone(t, pid, i + 1); }
  }

  lemma {:induction false} PickFirstFree(rs: seq<Record>, exclude: int, i: nat, exited: int, mod: int, n: nat)
    requires -1 <= exited < |rs| && -1 <= mod < |rs| && i <= n < |rs| && rs[n].pid == 0 && n != exclude
    requires forall j :: i <= j < n ==> rs[j].pid != 0
    ensures Pick(rs, exclude, i, exited, mod) == n
    decreases n - i
  {
    if i < n {
      PickFirstFree(rs, exclude, i + 1,
                    if i != exclude && rs[i].state == Exited && Older(rs, i, exited) then i else exited,
                    if i != exclude && rs[i].moduleId != "" && Older(rs, i, mod) then i else mod, n);
    }
  }

  /** A process with a pid of its own, started at a time of its own. */
  function Newcomer(k: nat): Begun { Begun(k, k, Native, 0, 0, 0, "", "") }

  function Loaded(id: string): Reported { Reported(1, 1, Native, id) }

  /** Process 1 begins, is redirected and loads module A; then processes 2 to `n` - 1 begin. */
  function Opening(n: nat): (events: seq<Event>)
    ensures AllAllowed(events)
    ensures |events| == if n <= 2 then 3 else n + 1
  {
    if n <= 2 then
      [OnBegin(Newcomer(1), {}), OnSetState(1, 1, Redirected), OnReport(Loaded("A"), true, 1, {}, false)]
    else Opening(n - 1) + [OnBegin(Newcomer(n - 1), {})]
  }

  /** Slot 0 holds process 1, slot 1 its module A, slots 2 to `n` - 1 one process each, and the others nothing. */
  predicate Crowded(t: Table, n: nat) {
    && 2 <= n <= SLOTS && |t.records| == SLOTS && t.ticks == n + 2
    && t.records[0] == Record(1, 1, 0, Native, Injected, 0, 0, 0, "", "", "", 1)
    && t.records[1] == t.records[0].(moduleId := "A")
    && (forall j :: 2 <= j < n ==> t.records[j] == Record(j, j + 2 + 1, 0, Native, Detected, 0, 0, 0, "", "", "", j))
    && (forall j :: n <= j < SLOTS ==> t.records[j] == Empty())
  }

  lemma BegunNext(t: Table, k: nat, n: nat)
    requires n < |t.records| && k != 0 && t.ticks < MAX_GENERATION
    requires forall j :: 0 <= j < n ==> t.records[j].pid != 0 && t.records[j].pid != k
    requires forall j :: n <= j < |t.records| ==> t.records[j] == Empty()
    ensures Step(t, OnBegin(Newcomer(k), {}))
            == Table(t.records[n := Record(k, t.ticks + 1, 0, Native, Detected, 0, 0, 0, "", "", "", k)], t.ticks + 1)
  {
    RefreshNone(t, 0);
    RetireNone(t, k, 0);
    FirstMeaning(t.records, NativeBase(k), 0);
    PickFirstFree(t.records, -1, 0, -1, -1, n);
  }

  lemma ModuleNext(t: Table, id: string)
    requires Inv(t) && t.records[0].state == Redirected && IsFor(t.records, 0, 1, 1)
    requires t.records[0].kind == Native && t.records[0].start == 1 && id != ""
    requires forall j :: 1 <= j < |t.records| ==> t.records[j] == Empty()
    ensures var base := t.records[0].(state := Injected);
            Step(t, OnReport(Loaded(id), true, 1, {}, false))
            == Table(t.records[0 := base][1 := base.(moduleId := id)], t.ticks + 2)
  {
    RefreshNone(t, 0);
    FirstMeaning(t.records, LiveBase(1, 1, Native, 1), 0);
    var t1 := SetAt(t, 0, Injected);
    FirstMeaning(t1.records, ModuleOf(1, id), 0);
    PickFirstFree(t1.records, 0, 0, -1, -1, 1);
  }

  lemma {:induction false} AfterPrefix(a: seq<Event>, b: seq<Event>, n: nat)
    requires n <= |a| && n <= |b| && forall i :: 0 <= i < n ==> a[i] == b[i]
    ensures After(a, n) == After(b, n)
  {
    if n > 0 { AfterPrefix(a, b, n - 1); }
  }

  lemma FirstThree()
    ensures Crowded(After(Opening(2), 3), 2)
  {
    var events := Opening(2);
    var t0 := After(events, 0);
    BegunNext(t0, 1, 0);
    var t1 := After(events, 1);
    assert t1 == Step(t0, events[0]);
    assert IsFor(t1.records, 0, 1, 1);
    SetStateMeaning(t1, 1, 1, Redirected, 0);
    var t2 := After(events, 2);
    assert t2 == Step(t1, events[1]);
    RunKeepsInv(events, 2);
    ModuleNext(t2, "A");
    assert After(events, 3) == Step(t2, events[2]);
  }

  lemma CrowdedNext(t: Table, n: nat)
    requires Crowded(t, n) && n < SLOTS
    ensures Crowded(Step(t, OnBegin(Newcomer(n), {})), n + 1)
  {
    BegunNext(t, n, n);
  }

  /** The table the opening leads to. */
  function Opened(n: nat): Table { After(Opening(n), |Opening(n)|) }

  lemma OpenedNext(n: nat)
    requires n >= 2
    ensures Opened(n + 1) == Step(Opened(n), OnBegin(Newcomer(n), {}))
  {
    var before, events := Opening(n), Opening(n + 1);
    AfterPrefix(before, events, |before|);
    assert events[|before|] == OnBegin(Newcomer(n), {});
  }

  lemma {:induction false} OpeningCrowds(n: nat) returns (t: Table)
    requires 2 <= n <= SLOTS
    ensures t == Opened(n) && Crowded(t, n)
  {
    if n == 2 {
      FirstThree();
      t := Opened(2);
    } else {
      var before := OpeningCrowds(n - 1);
      OpenedNext(n - 1);
      CrowdedNext(before, n - 1);
      t := Step(before, OnBegin(Newcomer(n - 1), {}));
    }
  }

  /** The report of module B is answered done and leaves no record of it. */
  predicate Loses(t: Table) {
    && |t.records| == SLOTS
    && Report(t, Loaded("B"), true, 1, {}, false).1 == Done
    && NoModuleOf(Report(t, Loaded("B"), true, 1, {}, false).0.records, 1, "B")
  }

  lemma CrowdedLoses(t: Table)
    requires Inv(t) && Crowded(t, SLOTS)
    ensures Loses(t)
  {
    RefreshNone(t, 0);
    assert FirstFor(t.records, 0, 1, 1);
    FoundBase(t, Loaded("B"), 1, {}, 0);
    FirstModule(t.records, 1, "B");
    PickOldest(t.records, 0, 0, -1);
    assert Oldest(t.records, 0, 1, SLOTS);
  }

  /** And that happens: process 1 and its module A, then 126 other processes, and then module B. */
  lemma LostModuleRun()
    ensures exists events :: AllAllowed(events) && |events| == 129 && Loses(After(events, 129))
  {
    var events := Opening(SLOTS);
    var t := OpeningCrowds(SLOTS);
    RunKeepsInv(events, 129);
    CrowdedLoses(t);
    assert AllAllowed(events) && Loses(After(events, 129));
  }
}
