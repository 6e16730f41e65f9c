/**
 The kernel's table of injected processes: one base record per traced process and one record per
 module loaded into it. Which tasks are alive is an input of every operation that asks.
 */
module RuntimeTable {

  datatype Kind = NoKind | Zygote | Native
  datatype State = NoState | Detected | Redirected | Injected | Failed | SafeMode | Exited

  /** `start` is when the process started; a free slot has pid 0; a base record has no module id. */
  datatype Record = Record(
    pid: nat, generation: nat, restarts: nat, kind: Kind, state: State, abi: nat, targetType: nat, flags: nat,
    process: string, target: string, moduleId: string, start: nat)

  const SLOTS: nat := 128
  const MAX_GENERATION: nat := 0xffff_ffff

  function Empty(): Record { Record(0, 0, 0, NoKind, NoState, 0, 0, 0, "", "", "", 0) }

  /** The 32-bit counter after `ticks` increments; it skips zero when it wraps. */
  function Generation(ticks: nat): (g: nat)
    ensures ticks <= MAX_GENERATION ==> g == ticks
    ensures g <= MAX_GENERATION && (g == 0 <==> ticks == 0)
  {
    if ticks == 0 then 0 else (ticks - 1) % 0xffff_ffff + 1
  }

  datatype Table = Table(records: seq<Record>, ticks: nat)

  // ---------------------------------------------------------------- lookups

  predicate IsBase(r: Record) { r.pid != 0 && r.moduleId == "" }
  predicate IsModule(r: Record) { r.pid != 0 && r.moduleId != "" }

  /** What the table's searches look for. */
  datatype Query =
    | NativeBase(pid: nat)
    | ZygoteBase(target: string, abi: nat)
    | ModuleOf(pid: nat, id: string)
    | LiveBase(pid: nat, start: nat, kind: Kind, generation: nat)
    | BaseOf(pid: nat, generation: nat)

  predicate Matches(q: Query, r: Record) {
    match q
    case NativeBase(pid) => r.pid == pid && r.kind == Native && r.moduleId == ""
    case ZygoteBase(target, abi) =>
      r.pid != 0 && r.kind == Zygote && r.abi == abi && r.moduleId == "" && r.target == target
    case ModuleOf(pid, id) => r.pid == pid && r.kind == Native && r.moduleId == id
    case LiveBase(pid, start, kind, generation) =>
      && r.pid == pid && r.start == start && r.kind == kind && r.generation == generation && r.moduleId == ""
      && r.state != Exited
    case BaseOf(pid, generation) => r.pid == pid && r.generation == generation && r.moduleId == ""
  }

  /** The first slot from `i` on whose record matches, or -1. */
  function First(rs: seq<Record>, q: Query, i: nat): (r: int)
    ensures r == -1 || i <= r < |rs|
    decreases |rs| - i
  {
    if i >= |rs| then -1 else if Matches(q, rs[i]) then i else First(rs, q, i + 1)
  }

  lemma {:induction false} FirstMeaning(rs: seq<Record>, q: Query, i: nat)
    ensures var r := First(rs, q, i);
            if r == -1 then forall j :: i <= j < |rs| ==> !Matches(q, rs[j])
            else i <= r < |rs| && Matches(q, rs[r]) && forall j :: i <= j < r ==> !Matches(q, rs[j])
    decreases |rs| - i
  {
    if i < |rs| && !Matches(q, rs[i]) { FirstMeaning(rs, q, i + 1); }
  }

  predicate Older(rs: seq<Record>, i: nat, than: int)
    requires i < |rs| && -1 <= than < |rs|
  {
    than < 0 || rs[i].generation < rs[than].generation
  }

  /** The slot to reuse, scanning from `i` with the candidates found so far. */
  function Pick(rs: seq<Record>, exclude: int, i: nat, exited: int, mod: int): (r: int)
    requires -1 <= exited < |rs| && -1 <= mod < |rs|
    ensures -1 <= r < |rs|
    decreases |rs| - i
  {
    if i >= |rs| then if exited >= 0 then exited else mod
    else if i == exclude then Pick(rs, exclude, i + 1, exited, mod)
    else if rs[i].pid == 0 then i
    else
      Pick(rs, exclude, i + 1,
           if rs[i].state == Exited && Older(rs, i, exited) then i else exited,
           if rs[i].moduleId != "" && Older(rs, i, mod) then i else mod)
  }

  /** A slot that may be reused: free, exited, or a module's. */
  predicate Reusable(r: Record) { r.pid == 0 || r.state == Exited || r.moduleId != "" }

  /** Picking a slot never gives up a base record that has not exited, and fails only when there is nothing else;
      an occupied slot is given only when none is free, and a module's only when no record has exited. */
  lemma {:induction false} PickMeaning(rs: seq<Record>, exclude: int, i: nat, exited: int, mod: int)
    requires -1 <= exited < |rs| && -1 <= mod < |rs|
    requires exited >= 0 ==> exited != exclude && rs[exited].pid != 0 && rs[exited].state == Exited
    requires mod >= 0 ==> mod != exclude && rs[mod].pid != 0 && rs[mod].moduleId != ""
    ensures var r := Pick(rs, exclude, i, exited, mod);
            && (r >= 0 ==> r != exclude && Reusable(rs[r]))
            && (r == -1 ==> exited == -1 && mod == -1
                            && forall j :: i <= j < |rs| && j != exclude ==> !Reusable(rs[j]))
            && (r >= 0 && rs[r].pid != 0 ==> forall j :: i <= j < |rs| && j != exclude ==> rs[j].pid != 0)
            && (r >= 0 && rs[r].pid != 0 && rs[r].state != Exited ==>
                  forall j :: i <= j < |rs| && j != exclude ==> rs[j].state != Exited)
    decreases |rs| - i
  {
    if i < |rs| && i == exclude {
      PickMeaning(rs, exclude, i + 1, exited, mod);
    } else if i < |rs| && rs[i].pid != 0 {
      var exited' := if rs[i].state == Exited && Older(rs, i, exited) then i else exited;
      var mod' := if rs[i].moduleId != "" && Older(rs, i, mod) then i else mod;
      PickMeaning(rs, exclude, i + 1, exited', mod');
      if exited' >= 0 { ExitedWins(rs, exclude, i + 1, exited', mod'); }
    }
  }

  /** Once an exited record is known, a module's slot is not given. */
  lemma {:induction false} ExitedWins(rs: seq<Record>, exclude: int, i: nat, exited: int, mod: int)
    requires 0 <= exited < |rs| && -1 <= mod < |rs| && rs[exited].state == Exited
    ensures var r := Pick(rs, exclude, i, exited, mod); r >= 0 && (rs[r].pid == 0 || rs[r].state == Exited)
    decreases |rs| - i
  {
    if i < |rs| && i == exclude {
      ExitedWins(rs, exclude, i + 1, exited, mod);
    } else if i < |rs| && rs[i].pid != 0 {
      ExitedWins(rs, exclude, i + 1,
                 if rs[i].state == Exited && Older(rs, i, exited) then i else exited,
                 if rs[i].moduleId != "" && Older(rs, i, mod) then i else mod);
    }
  }

  // ------------------------------------------------------------- operations

  function SetAt(t: Table, i: nat, state: State): (t': Table)
    requires i < |t.records|
    ensures |t'.records| == |t.records|
  {
    if t.records[i].state == state then t
    else Table(t.records[i := t.records[i].(state := state)], t.ticks + 1)
  }

  /** Slots from `i` on whose task is in `dead` are marked exited. */
  function Refresh(t: Table, dead: set<nat>, i: nat): (t': Table)
    ensures |t'.records| == |t.records|
    decreases |t.records| - i
  {
    if i >= |t.records| then t
    else if t.records[i].pid != 0 && t.records[i].state != Exited && i in dead then
      Refresh(SetAt(t, i, Exited), dead, i + 1)
    else Refresh(t, dead, i + 1)
  }

  /** The module records of a process that begins anew are marked exited. */
  function RetireModules(t: Table, pid: nat, i: nat): (t': Table)
    ensures |t'.records| == |t.records|
    decreases |t.records| - i
  {
    if i >= |t.records| then t
    else if t.records[i].pid == pid && t.records[i].kind == Native && t.records[i].moduleId != "" then
      RetireModules(SetAt(t, i, Exited), pid, i + 1)
    else RetireModules(t, pid, i + 1)
  }

  /** What a process is when it is first seen. */
  datatype Begun = Begun(pid: nat, start: nat, kind: Kind, abi: nat, targetType: nat, flags: nat,
                         process: string, target: string)

  /** The record a process takes over: its zygote's, or its pid's. */
  function BaseKey(b: Begun): Query {
    if b.kind == Zygote then ZygoteBase(b.target, b.abi) else NativeBase(b.pid)
  }

  function BeginSlot(t: Table, b: Begun): (slot: int)
    ensures -1 <= slot < |t.records|
  {
    var found := First(t.records, BaseKey(b), 0);
    if found >= 0 then found else Pick(t.records, -1, 0, -1, -1)
  }

  function NewRecord(t: Table, b: Begun, slot: nat): Record
    requires slot < |t.records|
  {
    var matched := b.kind == Zygote && Matches(BaseKey(b), t.records[slot]);
    Record(b.pid, Generation(t.ticks + 1), if matched then (t.records[slot].restarts + 1) % 0x1_0000_0000 else 0,
           b.kind, Detected, b.abi, b.targetType, b.flags, b.process, b.target, "", b.start)
  }

  /** The table once the dead tasks, and for a native process its old module records, are marked. */
  function Prepared(t: Table, b: Begun, dead: set<nat>): Table {
    var t1 := Refresh(t, dead, 0);
    if b.kind == Zygote then t1 else RetireModules(t1, b.pid, 0)
  }

  function Begin(t: Table, b: Begun, dead: set<nat>): (r: (Table, nat))
    ensures |r.0.records| == |t.records|
  {
    var t2 := Prepared(t, b, dead);
    var slot := BeginSlot(t2, b);
    if slot < 0 then (t2, 0)
    else (Table(t2.records[slot := NewRecord(t2, b, slot)], t2.ticks + 1), Generation(t2.ticks + 1))
  }

  function SetState(t: Table, pid: nat, generation: nat, state: State): (t': Table)
    ensures |t'.records| == |t.records|
  {
    if generation == 0 then t
    else
      var i := First(t.records, BaseOf(pid, generation), 0);
      if i < 0 then t else SetAt(t, i, state)
  }

  datatype Reply = Done | Invalid | NoProcess | TryAgain | NoSpace

  datatype Reported = Reported(pid: nat, generation: nat, kind: Kind, moduleId: string)

  predicate Malformed(q: Reported) {
    q.pid == 0 || q.generation == 0 || q.kind == NoKind || (q.kind == Native && q.moduleId == "")
  }

  /** The module's record is written unless it already says what it should. */
  function WriteModule(t: Table, base: nat, slot: nat, id: string): (t': Table)
    requires base < |t.records| && slot < |t.records|
    ensures |t'.records| == |t.records|
  {
    var b, m := t.records[base], t.records[slot];
    if m.generation != b.generation || m.state != Injected || m.start != b.start then
      Table(t.records[slot := b.(moduleId := id, state := Injected)], t.ticks + 1)
    else t
  }

  function ModuleSlot(t: Table, base: nat, q: Reported): (slot: int)
    ensures -1 <= slot < |t.records|
  {
    var found := First(t.records, ModuleOf(q.pid, q.moduleId), 0);
    if found >= 0 then found else Pick(t.records, base, 0, -1, -1)
  }

  function Injecting(t: Table, base: nat, q: Reported): (r: (Table, Reply))
    requires base < |t.records|
    ensures |r.0.records| == |t.records|
  {
    var t1 := SetAt(t, base, Injected);
    if q.kind == Zygote then (t1, Done)
    else
      var slot := ModuleSlot(t1, base, q);
      if slot < 0 then (t1, NoSpace) else (WriteModule(t1, base, slot, q.moduleId), Done)
  }

  function BaseSlot(t: Table, start: nat, q: Reported): (slot: int)
    ensures -1 <= slot < |t.records|
  {
    First(t.records, LiveBase(q.pid, start, q.kind, q.generation), 0)
  }

  /** A report: `alive` says whether the process was found and `start` when it started; `baseDead` says whether
      it was gone when looked up again. */
  function Report(t: Table, q: Reported, alive: bool, start: nat, dead: set<nat>, baseDead: bool): (r: (Table, Reply))
    ensures |r.0.records| == |t.records|
  {
    if Malformed(q) then (t, Invalid)
    else if !alive then (t, NoProcess)
    else
      var t1 := Refresh(t, dead, 0);
      var base := BaseSlot(t1, start, q);
      if base < 0 then (t1, NoProcess)
      else if baseDead then (SetAt(t1, base, Exited), NoProcess)
      else if t1.records[base].state != Redirected && t1.records[base].state != Injected then (t1, TryAgain)
      else Injecting(t1, base, q)
  }

  // --------------------------------------------------------------- invariant

  /** Two records that must not both be in the table. */
  predicate Clash(a: Record, b: Record) {
    || (IsBase(a) && IsBase(b) && a.kind == Native && b.kind == Native && a.pid == b.pid)
    || (IsBase(a) && IsBase(b) && a.kind == Zygote && b.kind == Zygote && a.target == b.target && a.abi == b.abi)
    || (IsModule(a) && IsModule(b) && a.pid == b.pid && a.moduleId == b.moduleId)
  }

  predicate Unique(rs: seq<Record>) {
    forall i, j :: 0 <= i < j < |rs| ==> !Clash(rs[i], rs[j])
  }

  predicate ModulesNative(rs: seq<Record>) {
    forall i :: 0 <= i < |rs| && IsModule(rs[i]) ==> rs[i].kind == Native
  }

  /** Until the counter wraps, every base record's generation was handed out once. */
  predicate GenerationsDistinct(rs: seq<Record>, ticks: nat) {
    && (forall i :: 0 <= i < |rs| && IsBase(rs[i]) ==> rs[i].generation <= ticks)
    && (forall i, j :: 0 <= i < j < |rs| && IsBase(rs[i]) && IsBase(rs[j]) ==> rs[i].generation != rs[j].generation)
  }

  predicate Inv(t: Table) {
    && |t.records| == SLOTS && Unique(t.records) && ModulesNative(t.records)
    && (t.ticks <= MAX_GENERATION ==> GenerationsDistinct(t.records, t.ticks))
  }

  /** Only states differ. */
  predicate Restated(rs: seq<Record>, rs': seq<Record>) {
    |rs'| == |rs| && forall i :: 0 <= i < |rs| ==> rs'[i] == rs[i].(state := rs'[i].state)
  }

  lemma RestatedKeepsInv(t: Table, t': Table)
    requires Inv(t) && Restated(t.records, t'.records) && t.ticks <= t'.ticks
    ensures Inv(t')
  {
  }

  lemma {:induction false} RefreshEffect(t: Table, dead: set<nat>, i: nat)
    ensures var t' := Refresh(t, dead, i);
            && Restated(t.records, t'.records) && t.ticks <= t'.ticks
            && forall j :: 0 <= j < |t.records| ==>
                 t'.records[j].state
                 == if j >= i && t.records[j].pid != 0 && j in dead then Exited else t.records[j].state
    decreases |t.records| - i
  {
    if i < |t.records| {
      if t.records[i].pid != 0 && t.records[i].state != Exited && i in dead {
        RefreshEffect(SetAt(t, i, Exited), dead, i + 1);
      } else {
        RefreshEffect(t, dead, i + 1);
      }
    }
  }

  predicate RetiredBy(r: Record, pid: nat) { r.pid == pid && r.kind == Native && r.moduleId != "" }

  lemma {:induction false} RetireEffect(t: Table, pid: nat, i: nat)
    ensures var t' := RetireModules(t, pid, i);
            && Restated(t.records, t'.records) && t.ticks <= t'.ticks
            && forall j :: 0 <= j < |t.records| ==>
                 t'.records[j].state == if j >= i && RetiredBy(t.records[j], pid) then Exited else t.records[j].state
    decreases |t.records| - i
  {
    if i < |t.records| {
      if RetiredBy(t.records[i], pid) {
        RetireEffect(SetAt(t, i, Exited), pid, i + 1);
      } else {
        RetireEffect(t, pid, i + 1);
      }
    }
  }

  lemma PreparedEffect(t: Table, b: Begun, dead: set<nat>)
    ensures var t' := Prepared(t, b, dead);
            && Restated(t.records, t'.records) && t.ticks <= t'.ticks
            && (forall j :: 0 <= j < |t.records| ==>
                  (t'.records[j].state == t.records[j].state || t'.records[j].state == Exited))
            && (forall j :: 0 <= j < |t.records| && IsBase(t.records[j]) && j !in dead ==>
                  t'.records[j] == t.records[j])
  {
    RefreshEffect(t, dead, 0);
    RetireEffect(Refresh(t, dead, 0), b.pid, 0);
  }

  lemma WriteKeepsUnique(rs: seq<Record>, s: nat, r: Record)
    requires s < |rs| && Unique(rs) && forall i :: 0 <= i < |rs| && i != s ==> !Clash(rs[i], r)
    ensures Unique(rs[s := r])
  {
    var rs' := rs[s := r];
    forall i, j | 0 <= i < j < |rs'| ensures !Clash(rs'[i], rs'[j]) {
      if i == s { assert !Clash(rs[j], r); }
    }
  }

  lemma WriteKeepsGenerations(rs: seq<Record>, s: nat, r: Record, ticks: nat)
    requires s < |rs| && GenerationsDistinct(rs, ticks) && (IsBase(r) ==> r.generation == ticks + 1)
    ensures GenerationsDistinct(rs[s := r], ticks + 1)
  {
  }

  // ------------------------------------------------------------------- begin

  /** The slot a process takes is its own old one, or one that may be reused; no other record has its key. */
  lemma BeginSlotMeaning(t: Table, b: Begun)
    requires Unique(t.records) && b.pid != 0 && b.kind != NoKind
    ensures var s := BeginSlot(t, b);
            && (s >= 0 ==> Matches(BaseKey(b), t.records[s]) || Reusable(t.records[s]))
            && forall i :: 0 <= i < |t.records| && i != s ==> !Matches(BaseKey(b), t.records[i])
  {
    FirstMeaning(t.records, BaseKey(b), 0);
    PickMeaning(t.records, -1, 0, -1, -1);
    var s := First(t.records, BaseKey(b), 0);
    if s >= 0 {
      forall i | 0 <= i < |t.records| && i != s ensures !Matches(BaseKey(b), t.records[i]) {
        if i < s { assert !Clash(t.records[i], t.records[s]); } else { assert !Clash(t.records[s], t.records[i]); }
      }
    }
  }

  lemma ClashIsMatch(b: Begun, r: Record, made: Record)
    requires b.pid != 0 && b.kind != NoKind && IsBase(made)
    requires made.pid == b.pid && made.kind == b.kind && made.target == b.target && made.abi == b.abi
    ensures Clash(r, made) ==> Matches(BaseKey(b), r)
  {
  }

  lemma BeginKeepsInv(t: Table, b: Begun, dead: set<nat>)
    requires Inv(t) && b.pid != 0 && b.kind != NoKind
    ensures Inv(Begin(t, b, dead).0) && t.ticks <= Begin(t, b, dead).0.ticks
  {
    var t2 := Prepared(t, b, dead);
    PreparedEffect(t, b, dead);
    RestatedKeepsInv(t, t2);
    BeginSlotMeaning(t2, b);
    var s := BeginSlot(t2, b);
    if s >= 0 {
      var made := NewRecord(t2, b, s);
      forall i | 0 <= i < |t2.records| && i != s ensures !Clash(t2.records[i], made) {
        ClashIsMatch(b, t2.records[i], made);
      }
      WriteKeepsUnique(t2.records, s, made);
      if t2.ticks + 1 <= MAX_GENERATION { WriteKeepsGenerations(t2.records, s, made, t2.ticks); }
    }
  }

  // ------------------------------------------------------------------ report

  lemma ModuleSlotMeaning(t: Table, base: nat, q: Reported)
    requires Unique(t.records) && base < |t.records| && t.records[base].moduleId == ""
    requires q.pid != 0 && q.moduleId != ""
    ensures var s := ModuleSlot(t, base, q);
            && s != base
            && (s >= 0 ==> Reusable(t.records[s]))
            && forall i :: 0 <= i < |t.records| && i != s ==> !Matches(ModuleOf(q.pid, q.moduleId), t.records[i])
  {
    var key := ModuleOf(q.pid, q.moduleId);
    FirstMeaning(t.records, key, 0);
    PickMeaning(t.records, base, 0, -1, -1);
    var s := First(t.records, key, 0);
    if s >= 0 {
      forall i | 0 <= i < |t.records| && i != s ensures !Matches(key, t.records[i]) {
        if i < s { assert !Clash(t.records[i], t.records[s]); } else { assert !Clash(t.records[s], t.records[i]); }
      }
    }
  }

  lemma WriteModuleKeepsInv(t: Table, base: nat, q: Reported)
    requires Inv(t) && base < |t.records| && q.pid != 0 && q.moduleId != ""
    requires t.records[base].pid == q.pid && t.records[base].kind == Native && t.records[base].moduleId == ""
    requires ModuleSlot(t, base, q) >= 0
    ensures var s := ModuleSlot(t, base, q); Inv(WriteModule(t, base, s, q.moduleId))
  {
    ModuleSlotMeaning(t, base, q);
    var s := ModuleSlot(t, base, q);
    var made := t.records[base].(moduleId := q.moduleId, state := Injected);
    forall i | 0 <= i < |t.records| && i != s ensures !Clash(t.records[i], made) {
      if IsModule(t.records[i]) { assert t.records[i].kind == Native; }
    }
    WriteKeepsUnique(t.records, s, made);
    if t.ticks + 1 <= MAX_GENERATION { WriteKeepsGenerations(t.records, s, made, t.ticks); }
  }

  lemma SetAtKeepsInv(t: Table, i: nat, state: State)
    requires Inv(t) && i < |t.records|
    ensures Inv(SetAt(t, i, state)) && t.ticks <= SetAt(t, i, state).ticks
  {
    RestatedKeepsInv(t, SetAt(t, i, state));
  }

  lemma InjectingKeepsInv(t: Table, base: nat, start: nat, q: Reported)
    requires Inv(t) && !Malformed(q) && base < |t.records|
    requires Matches(LiveBase(q.pid, start, q.kind, q.generation), t.records[base])
    ensures Inv(Injecting(t, base, q).0) && t.ticks <= Injecting(t, base, q).0.ticks
  {
    var t1 := SetAt(t, base, Injected);
    SetAtKeepsInv(t, base, Injected);
    if q.kind == Native && ModuleSlot(t1, base, q) >= 0 { WriteModuleKeepsInv(t1, base, q); }
  }

  lemma ReportKeepsInv(t: Table, q: Reported, alive: bool, start: nat, dead: set<nat>, baseDead: bool)
    requires Inv(t)
    ensures Inv(Report(t, q, alive, start, dead, baseDead).0)
    ensures t.ticks <= Report(t, q, alive, start, dead, baseDead).0.ticks
  {
    var t1 := Refresh(t, dead, 0);
    RefreshEffect(t, dead, 0);
    RestatedKeepsInv(t, t1);
    FirstMeaning(t1.records, LiveBase(q.pid, start, q.kind, q.generation), 0);
    var base := BaseSlot(t1, start, q);
    if base >= 0 && !Malformed(q) {
      SetAtKeepsInv(t1, base, Exited);
      InjectingKeepsInv(t1, base, start, q);
    }
  }

  // -------------------------------------------------------------------- runs

  datatype Event =
    | OnBegin(b: Begun, dead: set<nat>)
    | OnSetState(pid: nat, generation: nat, state: State)
    | OnReport(q: Reported, alive: bool, start: nat, dead: set<nat>, baseDead: bool)
    | OnQuery(dead: set<nat>)

  /** A live task has a pid; the injector itself only ever sets these three states. */
  predicate Allowed(e: Event) {
    match e
    case OnBegin(b, _) => b.pid != 0 && b.kind != NoKind
    case OnSetState(pid, _, state) => pid != 0 && state in {Redirected, Failed, SafeMode}
    case _ => true
  }

  function Step(t: Table, e: Event): Table {
    match e
    case OnBegin(b, dead) => Begin(t, b, dead).0
    case OnSetState(pid, generation, state) => SetState(t, pid, generation, state)
    case OnReport(q, alive, start, dead, baseDead) => Report(t, q, alive, start, dead, baseDead).0
    case OnQuery(dead) => Refresh(t, dead, 0)
  }

  /** The table after the first `n` events. */
  function After(events: seq<Event>, n: nat): Table
    requires n <= |events|
  {
    if n == 0 then Table(seq(SLOTS, _ => Empty()), 0) else Step(After(events, n - 1), events[n - 1])
  }

  predicate AllAllowed(events: seq<Event>) { forall i :: 0 <= i < |events| ==> Allowed(events[i]) }

  lemma SetStateRestates(t: Table, pid: nat, generation: nat, state: State)
    ensures var t' := SetState(t, pid, generation, state);
            && Restated(t.records, t'.records) && t.ticks <= t'.ticks
            && forall i :: 0 <= i < |t.records| && t'.records[i] != t.records[i] ==>
                 t'.records[i].state == state && t.records[i].pid == pid && t.records[i].generation == generation
  {
    FirstMeaning(t.records, BaseOf(pid, generation), 0);
  }

  lemma StepKeepsInv(t: Table, e: Event)
    requires Inv(t) && Allowed(e)
    ensures Inv(Step(t, e)) && t.ticks <= Step(t, e).ticks
  {
    match e
    case OnBegin(b, dead) => BeginKeepsInv(t, b, dead);
    case OnSetState(pid, generation, state) =>
      SetStateRestates(t, pid, generation, state);
      RestatedKeepsInv(t, Step(t, e));
    case OnReport(q, alive, start, dead, baseDead) => ReportKeepsInv(t, q, alive, start, dead, baseDead);
    case OnQuery(dead) =>
      RefreshEffect(t, dead, 0);
      RestatedKeepsInv(t, Step(t, e));
  }

  lemma {:induction false} RunKeepsInv(events: seq<Event>, n: nat)
    requires n <= |events| && AllAllowed(events)
    ensures Inv(After(events, n))
  {
    if n > 0 {
      RunKeepsInv(events, n - 1);
      StepKeepsInv(After(events, n - 1), events[n - 1]);
    }
  }

  /** In every run: one base record per native pid, one per zygote and ABI, one module record per pid and id;
      and, until the counter wraps, no two base records share a generation. */
  lemma RecordsUnique(events: seq<Event>, n: nat, i: nat, j: nat)
    requires n <= |events| && AllAllowed(events) && i < j < SLOTS
    ensures var t := After(events, n);
            && |t.records| == SLOTS
            && var a, b := t.records[i], t.records[j];
            && (IsBase(a) && IsBase(b) && a.kind == b.kind == Native ==> a.pid != b.pid)
            && (IsBase(a) && IsBase(b) && a.kind == b.kind == Zygote ==> a.target != b.target || a.abi != b.abi)
            && (IsModule(a) && IsModule(b) ==> a.pid != b.pid || a.moduleId != b.moduleId)
            && (IsBase(a) && IsBase(b) && t.ticks <= MAX_GENERATION ==> a.generation != b.generation)
  {
    RunKeepsInv(events, n);
    assert !Clash(After(events, n).records[i], After(events, n).records[j]);
  }

  // --------------------------------------------------------- state changes

  predicate Running(r: Record) { r.state == Redirected || r.state == Injected }

  /** What a report does to the record in one slot: at most its state changes, or it becomes the module's. */
  predicate ReportedSlot(a: Record, c: Record, q: Reported) {
    && (c == a.(state := c.state) || (IsModule(c) && c.pid == q.pid && c.generation == q.generation))
    && (IsBase(c) && Running(c) ==> Running(a))
    && (c.state == Injected && a.state != Injected ==> c.pid == q.pid && c.generation == q.generation)
  }

  lemma InjectingEffect(t: Table, base: nat, start: nat, q: Reported, i: nat)
    requires Inv(t) && !Malformed(q) && base < |t.records| && i < |t.records| && Running(t.records[base])
    requires Matches(LiveBase(q.pid, start, q.kind, q.generation), t.records[base])
    ensures var a, c := t.records[i], Injecting(t, base, q).0.records[i];
            && ReportedSlot(a, c, q)
            && (IsBase(a) && a.state != Exited ==> c == a.(state := c.state) && c.state != Exited)
  {
    var t1 := SetAt(t, base, Injected);
    SetAtKeepsInv(t, base, Injected);
    if q.kind == Native { ModuleSlotMeaning(t1, base, q); }
  }

  /** The slot of the base record a report is about, once the dead ones are marked; or -1. */
  function ReportBase(t: Table, q: Reported, start: nat, dead: set<nat>): int {
    BaseSlot(Refresh(t, dead, 0), start, q)
  }

  lemma ReportEffect(t: Table, q: Reported, alive: bool, start: nat, dead: set<nat>, baseDead: bool, i: nat)
    requires Inv(t) && i < |t.records|
    ensures var a, c := t.records[i], Report(t, q, alive, start, dead, baseDead).0.records[i];
            && ReportedSlot(a, c, q)
            && (IsBase(a) && a.state != Exited && i !in dead && !(baseDead && i == ReportBase(t, q, start, dead)) ==>
                  c == a.(state := c.state) && c.state != Exited)
  {
    if !Malformed(q) && alive {
      var t1 := Refresh(t, dead, 0);
      RefreshEffect(t, dead, 0);
      RestatedKeepsInv(t, t1);
      FirstMeaning(t1.records, LiveBase(q.pid, start, q.kind, q.generation), 0);
      var base := BaseSlot(t1, start, q);
      if base >= 0 && !baseDead && Running(t1.records[base]) { InjectingEffect(t1, base, start, q, i); }
    }
  }

  /** A report that names no current base record of its process is refused and injects nothing. */
  lemma StaleReport(t: Table, q: Reported, alive: bool, start: nat, dead: set<nat>, baseDead: bool)
    requires Inv(t)
    requires forall i :: 0 <= i < |t.records| && IsBase(t.records[i]) && t.records[i].pid == q.pid ==>
               t.records[i].generation != q.generation
    ensures var r := Report(t, q, alive, start, dead, baseDead);
            && (r.1 == Invalid || r.1 == NoProcess) && Restated(t.records, r.0.records)
            && forall i :: 0 <= i < |t.records| && r.0.records[i].state == Injected ==> t.records[i].state == Injected
  {
    RefreshEffect(t, dead, 0);
    FirstMeaning(Refresh(t, dead, 0).records, LiveBase(q.pid, start, q.kind, q.generation), 0);
  }

  /** Slot `i` holds a live base record that the report names. */
  predicate Named(t: Table, q: Reported, start: nat, dead: set<nat>, i: nat)
    requires i < |t.records|
  {
    i !in dead && Matches(LiveBase(q.pid, start, q.kind, q.generation), t.records[i])
  }

  /** It is the first such slot, and the record has been redirected or injected. */
  predicate Injectable(t: Table, q: Reported, start: nat, dead: set<nat>, i: nat)
    requires i < |t.records|
  {
    && Named(t, q, start, dead, i) && Running(t.records[i])
    && forall j: nat :: j < i ==> !Named(t, q, start, dead, j)
  }

  /** Before the counter wraps, and always for a native process, a report names one record only. */
  lemma NamedOnce(t: Table, q: Reported, start: nat, dead: set<nat>, i: nat, j: nat)
    requires Inv(t) && !Malformed(q) && i < |t.records| && j < |t.records|
    requires q.kind == Native || t.ticks <= MAX_GENERATION
    requires Named(t, q, start, dead, i) && Named(t, q, start, dead, j)
    ensures i == j
  {
    assert i < j ==> !Clash(t.records[i], t.records[j]);
    assert j < i ==> !Clash(t.records[j], t.records[i]);
  }

  /** A report about a live process injects exactly when the first live base record it names has been redirected;
      that record is then injected. */
  lemma ReportDoneIff(t: Table, q: Reported, start: nat, dead: set<nat>)
    requires Inv(t) && !Malformed(q)
    ensures var r := Report(t, q, true, start, dead, false);
            && (r.1 == Done || r.1 == NoSpace
                <==> exists i: nat :: i < |t.records| && Injectable(t, q, start, dead, i))
            && forall i: nat :: i < |t.records| && Injectable(t, q, start, dead, i) ==>
                 r.0.records[i] == t.records[i].(state := Injected)
  {
    var key := LiveBase(q.pid, start, q.kind, q.generation);
    var t1 := Refresh(t, dead, 0);
    RefreshEffect(t, dead, 0);
    forall i: nat | i < |t.records| ensures Matches(key, t1.records[i]) <==> Named(t, q, start, dead, i) {
      assert t1.records[i] == t.records[i].(state := t1.records[i].state);
    }
    FirstMeaning(t1.records, key, 0);
    var base := BaseSlot(t1, start, q);
    if base >= 0 && Running(t1.records[base]) {
      var i: nat := base;
      assert Injectable(t, q, start, dead, i);
      InjectedBase(t, t1, base, q);
    }
  }

  lemma InjectedBase(t: Table, t1: Table, base: nat, q: Reported)
    requires Inv(t) && Restated(t.records, t1.records) && t.ticks <= t1.ticks && base < |t1.records|
    requires !Malformed(q) && t1.records[base].moduleId == ""
    ensures var r := Injecting(t1, base, q);
            (r.1 == Done || r.1 == NoSpace) && r.0.records[base] == t1.records[base].(state := Injected)
  {
    RestatedKeepsInv(t, t1);
    SetAtKeepsInv(t1, base, Injected);
    if q.kind == Native { ModuleSlotMeaning(SetAt(t1, base, Injected), base, q); }
  }

  /** The process in slot `i` was found to be gone during the step. */
  predicate FoundDead(t: Table, e: Event, i: nat) {
    match e
    case OnBegin(_, dead) => i in dead
    case OnSetState(_, _, _) => false
    case OnReport(q, _, start, dead, baseDead) => i in dead || (baseDead && i == ReportBase(t, q, start, dead))
    case OnQuery(dead) => i in dead
  }

  /** No step gives up the slot of a base record whose task lives, except to the same process beginning again. */
  lemma BaseSurvives(t: Table, e: Event, i: nat)
    requires Inv(t) && Allowed(e) && i < |t.records| && IsBase(t.records[i]) && t.records[i].state != Exited
    requires !FoundDead(t, e, i) && !(e.OnBegin? && Matches(BaseKey(e.b), t.records[i]))
    ensures var c := Step(t, e).records[i]; c == t.records[i].(state := c.state) && c.state != Exited
  {
    match e
    case OnBegin(b, dead) =>
      PreparedEffect(t, b, dead);
      RestatedKeepsInv(t, Prepared(t, b, dead));
      BeginSlotMeaning(Prepared(t, b, dead), b);
    case OnSetState(pid, generation, state) => SetStateRestates(t, pid, generation, state);
    case OnReport(q, alive, start, dead, baseDead) => ReportEffect(t, q, alive, start, dead, baseDead, i);
    case OnQuery(dead) => RefreshEffect(t, dead, 0);
  }

  /** A process is refused a record exactly when every slot holds a base record that has not exited and none is
      its own. */
  lemma BeginRefusedIff(t: Table, b: Begun, dead: set<nat>)
    requires Inv(t) && b.pid != 0 && b.kind != NoKind
    ensures var t2 := Prepared(t, b, dead);
            Begin(t, b, dead).1 == 0
            <==> forall i :: 0 <= i < |t2.records| ==> !Reusable(t2.records[i]) && !Matches(BaseKey(b), t2.records[i])
  {
    var t2 := Prepared(t, b, dead);
    PreparedEffect(t, b, dead);
    RestatedKeepsInv(t, t2);
    BeginSlotMeaning(t2, b);
    FirstMeaning(t2.records, BaseKey(b), 0);
    PickMeaning(t2.records, -1, 0, -1, -1);
  }

  /** Slot `i` held the base record of `pid` and `generation` when event `k` redirected it. */
  predicate RedirectedAt(events: seq<Event>, k: nat, i: nat, pid: nat, generation: nat)
    requires k < |events|
  {
    && events[k] == OnSetState(pid, generation, Redirected)
    && i < |After(events, k).records| && IsBase(After(events, k).records[i])
    && After(events, k).records[i].pid == pid && After(events, k).records[i].generation == generation
  }

  /** What one step does to a base record that ends up redirected or injected. */
  lemma RunningStep(t: Table, e: Event, i: nat)
    requires Inv(t) && Allowed(e) && i < |t.records|
    requires IsBase(Step(t, e).records[i]) && Running(Step(t, e).records[i])
    ensures var a, c := t.records[i], Step(t, e).records[i];
            && c == a.(state := c.state)
            && (Running(a) || e == OnSetState(a.pid, a.generation, Redirected))
  {
    match e
    case OnBegin(b, dead) => PreparedEffect(t, b, dead);
    case OnSetState(pid, generation, state) => SetStateRestates(t, pid, generation, state);
    case OnReport(q, alive, start, dead, baseDead) => ReportEffect(t, q, alive, start, dead, baseDead, i);
    case OnQuery(dead) => RefreshEffect(t, dead, 0);
  }

  /** In every run, a base record that is injected was redirected earlier, under the same pid and generation. */
  lemma {:induction false} InjectedWasRedirected(events: seq<Event>, n: nat, i: nat) returns (k: nat)
    requires n <= |events| && AllAllowed(events) && i < SLOTS
    requires i < |After(events, n).records|
    requires IsBase(After(events, n).records[i]) && Running(After(events, n).records[i])
    ensures k < n
    ensures RedirectedAt(events, k, i, After(events, n).records[i].pid, After(events, n).records[i].generation)
    decreases n
  {
    RunKeepsInv(events, n - 1);
    var t, e := After(events, n - 1), events[n - 1];
    RunningStep(t, e, i);
    if Running(t.records[i]) {
      k := InjectedWasRedirected(events, n - 1, i);
    } else {
      k := n - 1;
    }
  }

  // --------------------------------------------------------------- the table

  function Increment(g: nat): nat
    requires g <= MAX_GENERATION
  {
    if (g + 1) % 0x1_0000_0000 == 0 then 1 else g + 1
  }

  lemma GenerationStep(ticks: nat)
    ensures Increment(Generation(ticks)) == Generation(ticks + 1)
  {
  }

  class Records {
    const slots: array<Record>
    var generation: nat
    ghost var ticks: nat

    ghost predicate Valid()
      reads this
    {
      slots.Length == SLOTS && generation == Generation(ticks)
    }

    ghost function View(): Table
      reads this, slots
    {
      Table(slots[..], ticks)
    }

    constructor ()
      ensures Valid() && fresh(slots) && View() == After([], 0)
    {
      slots := new Record[SLOTS](_ => Empty());
      generation, ticks := 0, 0;
      new;
      assert slots[..] == seq(SLOTS, _ => Empty());
    }

    method NextGeneration()
      requires Valid()
      modifies this
      ensures Valid() && ticks == old(ticks) + 1
    {
      GenerationStep(ticks);
      generation := Increment(generation);
      ticks := ticks + 1;
    }

    /** The searches: one loop over the slots for each. */
    method FindFirst(q: Query) returns (r: int)
      requires Valid()
      ensures r == First(slots[..], q, 0)
    {
      for i := 0 to SLOTS
        invariant First(slots[..], q, i) == First(slots[..], q, 0)
      {
        if Matches(q, slots[i]) { return i; }
      }
      return -1;
    }

    method PickSlot(exclude: int) returns (r: int)
      requires Valid()
      ensures r == Pick(slots[..], exclude, 0, -1, -1)
    {
      var exited, mod := -1, -1;
      for i := 0 to SLOTS
        invariant -1 <= exited < SLOTS && -1 <= mod < SLOTS
        invariant Pick(slots[..], exclude, i, exited, mod) == Pick(slots[..], exclude, 0, -1, -1)
      {
        if i == exclude { continue; }
        if slots[i].pid == 0 { return i; }
        var e, m := exited, mod;
        if slots[i].state == Exited && (e < 0 || slots[i].generation < slots[e].generation) { exited := i; }
        if slots[i].moduleId != "" && (m < 0 || slots[i].generation < slots[m].generation) { mod := i; }
      }
      return if exited >= 0 then exited else mod;
    }

    method SetStateAt(i: nat, state: State)
      requires Valid() && i < SLOTS
      modifies this, slots
      ensures Valid() && View() == SetAt(old(View()), i, state)
    {
      if slots[i].state == state { return; }
      slots[i] := slots[i].(state := state);
      NextGeneration();
      assert slots[..] == old(slots[..])[i := old(slots[i]).(state := state)];
    }

    method RefreshExited(dead: set<nat>)
      requires Valid()
      modifies this, slots
      ensures Valid() && View() == Refresh(old(View()), dead, 0)
    {
      var i := 0;
      while i < SLOTS
        invariant 0 <= i <= SLOTS && Valid()
        invariant Refresh(View(), dead, i) == Refresh(old(View()), dead, 0)
      {
        if slots[i].pid != 0 && slots[i].state != Exited && i in dead { SetStateAt(i, Exited); }
        i := i + 1;
      }
    }

    method RetireModulesOf(pid: nat)
      requires Valid()
      modifies this, slots
      ensures Valid() && View() == RetireModules(old(View()), pid, 0)
    {
      var i := 0;
      while i < SLOTS
        invariant 0 <= i <= SLOTS && Valid()
        invariant RetireModules(View(), pid, i) == RetireModules(old(View()), pid, 0)
      {
        if slots[i].pid == pid && slots[i].kind == Native && slots[i].moduleId != "" { SetStateAt(i, Exited); }
        i := i + 1;
      }
    }

    method BeginRecord(b: Begun, dead: set<nat>) returns (g: nat)
      requires Valid()
      modifies this, slots
      ensures Valid() && (View(), g) == Begin(old(View()), b, dead)
    {
      RefreshExited(dead);
      var slot, matched := -1, false;
      if b.kind == Zygote {
        slot := FindFirst(ZygoteBase(b.target, b.abi));
        matched := slot >= 0;
      } else {
        slot := FindNativeAndRetire(b.pid);
      }
      ghost var t2 := View();
      assert t2 == Prepared(old(View()), b, dead);
      assert slot == First(t2.records, BaseKey(b), 0);
      FirstMeaning(t2.records, BaseKey(b), 0);
      if slot < 0 { slot := PickSlot(-1); }
      assert slot == BeginSlot(t2, b);
      if slot < 0 { return 0; }
      var restarts := if matched then (slots[slot].restarts + 1) % 0x1_0000_0000 else 0;
      NextGeneration();
      slots[slot] := Record(b.pid, generation, restarts, b.kind, Detected, b.abi, b.targetType, b.flags,
                            b.process, b.target, "", b.start);
      assert slots[..] == t2.records[slot := NewRecord(t2, b, slot)];
      return generation;
    }

    /** The base record's slot is looked up before the old modules are retired, which does not move it. */
    method FindNativeAndRetire(pid: nat) returns (slot: int)
      requires Valid()
      modifies this, slots
      ensures Valid() && View() == RetireModules(old(View()), pid, 0)
      ensures slot == First(View().records, NativeBase(pid), 0)
    {
      slot := FindFirst(NativeBase(pid));
      RetireEffect(View(), pid, 0);
      ghost var before := slots[..];
      RetireModulesOf(pid);
      FirstRestated(before, slots[..], NativeBase(pid), 0);
    }

    method SetRecordState(pid: nat, g: nat, state: State)
      requires Valid()
      modifies this, slots
      ensures Valid() && View() == SetState(old(View()), pid, g, state)
    {
      if g == 0 { return; }
      var i := FindFirst(BaseOf(pid, g));
      if i >= 0 { SetStateAt(i, state); }
    }

    method ReportRuntime(q: Reported, alive: bool, start: nat, dead: set<nat>, baseDead: bool) returns (r: Reply)
      requires Valid()
      modifies this, slots
      ensures Valid() && (View(), r) == Report(old(View()), q, alive, start, dead, baseDead)
    {
      if Malformed(q) { return Invalid; }
      if !alive { return NoProcess; }
      RefreshExited(dead);
      var base := FindFirst(LiveBase(q.pid, start, q.kind, q.generation));
      if base < 0 { return NoProcess; }
      if baseDead {
        SetStateAt(base, Exited);
        return NoProcess;
      }
      if slots[base].state != Redirected && slots[base].state != Injected { return TryAgain; }
      r := InjectAt(base, q);
    }

    method InjectAt(base: nat, q: Reported) returns (r: Reply)
      requires Valid() && base < SLOTS
      modifies this, slots
      ensures Valid() && (View(), r) == Injecting(old(View()), base, q)
    {
      SetStateAt(base, Injected);
      if q.kind == Zygote { return Done; }
      var slot := FindFirst(ModuleOf(q.pid, q.moduleId));
      if slot < 0 { slot := PickSlot(base); }
      if slot < 0 { return NoSpace; }
      ghost var t := View();
      var b, m := slots[base], slots[slot];
      if m.generation != b.generation || m.state != Injected || m.start != b.start {
        slots[slot] := b.(moduleId := q.moduleId, state := Injected);
        NextGeneration();
      }
      assert View() == WriteModule(t, base, slot, q.moduleId);
      return Done;
    }
  }

  /** A search for a native base record does not depend on states. */
  lemma {:induction false} FirstRestated(rs: seq<Record>, rs': seq<Record>, q: Query, i: nat)
    requires Restated(rs, rs') && q.NativeBase?
    ensures First(rs', q, i) == First(rs, q, i)
    decreases |rs| - i
  {
    if i < |rs| { FirstRestated(rs, rs', q, i + 1); }
  }
}
