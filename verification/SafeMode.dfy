/**
 The crash guard: a zygote that keeps coming back under new pids puts the injector into safe mode.
 */
module SafeMode {

  const GUARDS: nat := 4
  const THRESHOLD: nat := 3

  /** A watched zygote; a free guard has no name. */
  datatype Guard = Guard(name: string, lastPid: nat, crashes: nat)

  datatype Table = Table(guards: seq<Guard>, active: bool, crashes: nat, zygote: string)

  /** A zygote started: its name, "zygote" if it gave none, and its pid. */
  datatype Start = Start(name: string, pid: nat)

  function NameOf(s: Start): string { if s.name == "" then "zygote" else s.name }

  function SlotOf(gs: seq<Guard>, name: string, i: nat): (r: int)
    ensures -1 <= r < |gs|
    decreases |gs| - i
  {
    if i >= |gs| then -1 else if gs[i].name == name then i else SlotOf(gs, name, i + 1)
  }

  /** The slot found is the first with the name; none is found only if there is none. */
  lemma {:induction false} SlotIsFirst(gs: seq<Guard>, name: string, i: nat)
    ensures var r := SlotOf(gs, name, i);
            && (r == -1 || (i <= r && gs[r].name == name))
            && forall j :: i <= j < (if r == -1 then |gs| else r) ==> gs[j].name != name
    decreases |gs| - i
  {
    if i < |gs| && gs[i].name != name { SlotIsFirst(gs, name, i + 1); }
  }

  /** The guards with `name` watched, if it already is or there is room. */
  function Watched(gs: seq<Guard>, name: string): (r: seq<Guard>)
    ensures |r| == |gs|
  {
    var free := SlotOf(gs, "", 0);
    if SlotOf(gs, name, 0) >= 0 || free < 0 then gs else gs[free := gs[free].(name := name)]
  }

  /** One start: whether injection is skipped, and the guards afterwards. */
  function Next(t: Table, s: Start): (r: Table)
    ensures t.active ==> r.active
  {
    var name := NameOf(s);
    var gs := Watched(t.guards, name);
    var slot := SlotOf(gs, name, 0);
    if slot < 0 then t.(guards := gs)
    else if t.active || gs[slot].lastPid == 0 then t.(guards := gs[slot := gs[slot].(lastPid := s.pid)])
    else if gs[slot].lastPid == s.pid then t.(guards := gs)
    else
      var crashes := gs[slot].crashes + 1;
      var gs' := gs[slot := Guard(name, s.pid, crashes)];
      if crashes >= THRESHOLD then Table(gs', true, crashes, name) else t.(guards := gs')
  }

  // -------------------------------------------------------------- histories

  function Fresh(): Table { Table(seq(GUARDS, _ => Guard("", 0, 0)), false, 0, "") }

  /** The guards after the first `n` starts. */
  function After(h: seq<Start>, n: nat): Table
    requires n <= |h|
  {
    if n == 0 then Fresh() else Next(After(h, n - 1), h[n - 1])
  }

  /** Whether safe mode is on after the first `n` starts. */
  predicate ActiveAfter(h: seq<Start>, n: nat)
    requires n <= |h|
  {
    After(h, n).active
  }

  /** The pid of the last of the first `n` starts of `name`, or 0. */
  function LastPid(h: seq<Start>, n: nat, name: string): nat
    requires n <= |h|
  {
    if n == 0 then 0 else if NameOf(h[n - 1]) == name then h[n - 1].pid else LastPid(h, n - 1, name)
  }

  /** Start `k` is under another pid than the time before. */
  predicate IsRestart(h: seq<Start>, k: nat, name: string)
    requires k < |h|
  {
    NameOf(h[k]) == name && LastPid(h, k, name) != 0 && LastPid(h, k, name) != h[k].pid
  }

  /** How often `name` started under another pid than the time before. */
  function Restarts(h: seq<Start>, n: nat, name: string): nat
    requires n <= |h|
  {
    if n == 0 then 0 else Restarts(h, n - 1, name) + if IsRestart(h, n - 1, name) then 1 else 0
  }

  /** The names that are watched: the first four different ones. */
  function Names(h: seq<Start>, n: nat): seq<string>
    requires n <= |h|
  {
    if n == 0 then []
    else
      var ns, name := Names(h, n - 1), NameOf(h[n - 1]);
      if name in ns || |ns| >= GUARDS then ns else ns + [name]
  }

  predicate PidsOk(h: seq<Start>) { forall i :: 0 <= i < |h| ==> h[i].pid != 0 }

  /** Some watched zygote has restarted as often as the threshold. */
  predicate Crashing(h: seq<Start>, n: nat)
    requires n <= |h|
  {
    exists i :: 0 <= i < |Names(h, n)| && Restarts(h, n, Names(h, n)[i]) >= THRESHOLD
  }

  /** The guards are the watched names in order, then free ones. */
  predicate Holds(ns: seq<string>, gs: seq<Guard>) {
    && |gs| == GUARDS && |ns| <= GUARDS
    && (forall i :: 0 <= i < |ns| ==> gs[i].name == ns[i])
    && (forall i :: |ns| <= i < GUARDS ==> gs[i] == Guard("", 0, 0))
  }

  predicate NamesOk(ns: seq<string>) {
    && (forall i :: 0 <= i < |ns| ==> ns[i] != "")
    && (forall i, j :: 0 <= i < j < |ns| ==> ns[i] != ns[j])
  }

  lemma {:induction false} NamesDistinct(h: seq<Start>, n: nat)
    requires n <= |h|
    ensures NamesOk(Names(h, n))
  {
    if n > 0 { NamesDistinct(h, n - 1); }
  }

  /** A name that has not been watched although there was room has never started. */
  lemma {:induction false} UnwatchedNeverStarted(h: seq<Start>, n: nat, name: string)
    requires n <= |h| && name !in Names(h, n) && |Names(h, n)| < GUARDS
    ensures LastPid(h, n, name) == 0 && Restarts(h, n, name) == 0
  {
    if n > 0 { UnwatchedNeverStarted(h, n - 1, name); }
  }

  /** What the guards say about the history: last pids always, crash counts until safe mode starts. */
  predicate Tells(h: seq<Start>, n: nat, t: Table)
    requires n <= |h|
  {
    && Holds(Names(h, n), t.guards)
    && (forall i :: 0 <= i < |Names(h, n)| ==> t.guards[i].lastPid == LastPid(h, n, Names(h, n)[i]))
    && (!t.active ==> forall i :: 0 <= i < |Names(h, n)| ==> t.guards[i].crashes == Restarts(h, n, Names(h, n)[i]))
    && (t.active <==> Crashing(h, n))
  }

  /** The watched names after a start of `name`. */
  function Extended(ns: seq<string>, name: string): seq<string> {
    if name in ns || |ns| >= GUARDS then ns else ns + [name]
  }

  lemma WatchedHolds(ns: seq<string>, name: string, gs: seq<Guard>)
    requires Holds(ns, gs) && NamesOk(ns) && name != ""
    ensures var gs', ns', slot := Watched(gs, name), Extended(ns, name), SlotOf(Watched(gs, name), name, 0);
            && Holds(ns', gs') && (slot >= 0 <==> name in ns') && (slot >= 0 ==> slot < |ns'| && ns'[slot] == name)
            && forall i :: 0 <= i < |ns| ==> gs'[i] == gs[i]
  {
    SlotIsFirst(gs, name, 0);
    SlotIsFirst(gs, "", 0);
    SlotIsFirst(Watched(gs, name), name, 0);
    if name in ns {
      var i :| 0 <= i < |ns| && ns[i] == name;
      assert gs[i].name == name;
    } else if |ns| < GUARDS {
      assert gs[|ns|].name == "";
      assert SlotOf(gs, "", 0) == |ns|;
      assert Watched(gs, name)[|ns|].name == name;
    }
  }

  lemma {:induction false} CrashingAt(h: seq<Start>, n: nat, i: nat)
    requires n <= |h| && i < |Names(h, n)| && Restarts(h, n, Names(h, n)[i]) >= THRESHOLD
    ensures Crashing(h, n)
  {
  }

  /** Once crashing, always crashing. */
  lemma {:induction false} CrashingGrows(h: seq<Start>, n: nat)
    requires n < |h| && Crashing(h, n)
    ensures Crashing(h, n + 1)
  {
    var i :| 0 <= i < |Names(h, n)| && Restarts(h, n, Names(h, n)[i]) >= THRESHOLD;
    var name := Names(h, n)[i];
    assert Names(h, n + 1) == Extended(Names(h, n), NameOf(h[n]));
    assert Names(h, n + 1)[i] == name && Restarts(h, n + 1, name) >= Restarts(h, n, name);
    CrashingAt(h, n + 1, i);
  }

  lemma {:induction false} NamesStep(h: seq<Start>, n: nat)
    requires n < |h|
    ensures Names(h, n + 1) == Extended(Names(h, n), NameOf(h[n])) && NamesOk(Names(h, n))
  {
    NamesDistinct(h, n);
  }

  /** A start leaves the guards of other names alone. */
  lemma {:induction false} OtherGuard(ns: seq<string>, t: Table, s: Start, i: nat)
    requires Holds(ns, t.guards) && NamesOk(ns)
    requires i < |Extended(ns, NameOf(s))| && Extended(ns, NameOf(s))[i] != NameOf(s)
    ensures i < |ns| && ns[i] == Extended(ns, NameOf(s))[i] && Next(t, s).guards[i] == t.guards[i]
  {
    WatchedHolds(ns, NameOf(s), t.guards);
  }

  /** A start counts a restart in its own guard, until safe mode starts. */
  lemma {:induction false} OwnGuard(ns: seq<string>, t: Table, s: Start, i: nat)
    requires Holds(ns, t.guards) && NamesOk(ns) && s.pid != 0
    requires i < |Extended(ns, NameOf(s))| && Extended(ns, NameOf(s))[i] == NameOf(s)
    ensures |Next(t, s).guards| == GUARDS && i < GUARDS
    ensures var g, was, next := Next(t, s).guards[i], t.guards[i], Next(t, s);
            var crashes := was.crashes + if was.lastPid != 0 && was.lastPid != s.pid then 1 else 0;
            && g.name == NameOf(s) && g.lastPid == s.pid
            && (!t.active ==> g.crashes == crashes)
            && (!t.active && was.crashes < THRESHOLD ==> (next.active <==> crashes >= THRESHOLD))
            && (t.active ==> next.active)
  {
    WatchedHolds(ns, NameOf(s), t.guards);
  }

  /** What a start says about other names: nothing. */
  lemma {:induction false} OtherHistory(h: seq<Start>, n: nat, name: string)
    requires n < |h| && name != NameOf(h[n])
    ensures LastPid(h, n + 1, name) == LastPid(h, n, name) && Restarts(h, n + 1, name) == Restarts(h, n, name)
  {
  }

  /** The guards of other names than the one that started keep what they say. */
  lemma {:induction false} OthersKept(h: seq<Start>, n: nat, t: Table, i: nat)
    requires n < |h| && Tells(h, n, t) && i < |Names(h, n + 1)| && Names(h, n + 1)[i] != NameOf(h[n])
    ensures var name := Names(h, n + 1)[i];
            && i < |Names(h, n)| && Names(h, n)[i] == name && i < |t.guards| && Next(t, h[n]).guards[i] == t.guards[i]
            && LastPid(h, n + 1, name) == LastPid(h, n, name) && Restarts(h, n + 1, name) == Restarts(h, n, name)
  {
    NamesStep(h, n);
    OtherGuard(Names(h, n), t, h[n], i);
    OtherHistory(h, n, Names(h, n + 1)[i]);
  }

  /** The guard a name has, or is about to get, says what the history says. */
  lemma {:induction false} OwnHistory(h: seq<Start>, n: nat, t: Table, i: nat)
    requires n < |h| && Tells(h, n, t) && i < |Names(h, n + 1)| && Names(h, n + 1)[i] == NameOf(h[n])
    ensures var name := NameOf(h[n]);
            && i < GUARDS && t.guards[i].lastPid == LastPid(h, n, name)
            && (!t.active ==> t.guards[i].crashes == Restarts(h, n, name) < THRESHOLD)
  {
    NamesStep(h, n);
    if i < |Names(h, n)| {
      if !t.active && Restarts(h, n, NameOf(h[n])) >= THRESHOLD { CrashingAt(h, n, i); }
    } else {
      UnwatchedNeverStarted(h, n, NameOf(h[n]));
    }
  }

  /** What the guard of the started name says afterwards. */
  lemma {:induction false} OwnUpdated(h: seq<Start>, n: nat, t: Table, i: nat)
    requires n < |h| && Tells(h, n, t) && h[n].pid != 0 && i < |Names(h, n + 1)| && Names(h, n + 1)[i] == NameOf(h[n])
    ensures |Next(t, h[n]).guards| == GUARDS && i < GUARDS
    ensures var g, name := Next(t, h[n]).guards[i], NameOf(h[n]);
            && g.name == name && g.lastPid == h[n].pid == LastPid(h, n + 1, name)
            && (!t.active ==> g.crashes == Restarts(h, n + 1, name))
            && (!t.active ==> (Next(t, h[n]).active <==> Restarts(h, n + 1, name) >= THRESHOLD))
            && (t.active ==> Next(t, h[n]).active)
  {
    NamesStep(h, n);
    OwnHistory(h, n, t, i);
    OwnGuard(Names(h, n), t, h[n], i);
  }

  lemma {:induction false} NextHolds(h: seq<Start>, n: nat, t: Table)
    requires n < |h| && Tells(h, n, t)
    ensures Holds(Names(h, n + 1), Next(t, h[n]).guards)
    ensures NameOf(h[n]) !in Names(h, n + 1) ==> Next(t, h[n]).active == t.active
  {
    NamesDistinct(h, n);
    assert Names(h, n + 1) == Extended(Names(h, n), NameOf(h[n]));
    WatchedHolds(Names(h, n), NameOf(h[n]), t.guards);
  }

  lemma {:induction false} ActiveStep(h: seq<Start>, n: nat, t: Table)
    requires n < |h| && Tells(h, n, t) && h[n].pid != 0
    ensures Next(t, h[n]).active <==> Crashing(h, n + 1)
  {
    var ns := Names(h, n + 1);
    if t.active { CrashingGrows(h, n); }
    if NameOf(h[n]) in ns {
      var i :| 0 <= i < |ns| && ns[i] == NameOf(h[n]);
      OwnUpdated(h, n, t, i);
      if Next(t, h[n]).active && !t.active { CrashingAt(h, n + 1, i); }
    } else {
      NextHolds(h, n, t);
    }
    if Crashing(h, n + 1) && !t.active {
      var i :| 0 <= i < |ns| && Restarts(h, n + 1, ns[i]) >= THRESHOLD;
      if ns[i] == NameOf(h[n]) {
        OwnUpdated(h, n, t, i);
      } else {
        OthersKept(h, n, t, i);
        CrashingAt(h, n, i);
      }
    }
  }

  lemma {:induction false} StepTells(h: seq<Start>, n: nat, t: Table)
    requires n < |h| && Tells(h, n, t) && h[n].pid != 0
    ensures Tells(h, n + 1, Next(t, h[n]))
  {
    var t' := Next(t, h[n]);
    NextHolds(h, n, t);
    var ns := Names(h, n + 1);
    forall i | 0 <= i < |ns|
      ensures t'.guards[i].lastPid == LastPid(h, n + 1, ns[i])
      ensures !t'.active ==> t'.guards[i].crashes == Restarts(h, n + 1, ns[i])
    {
      if ns[i] == NameOf(h[n]) { OwnUpdated(h, n, t, i); } else { OthersKept(h, n, t, i); }
    }
    ActiveStep(h, n, t);
  }

  predicate TellsAfter(h: seq<Start>, n: nat)
    requires n <= |h|
  {
    Tells(h, n, After(h, n))
  }

  lemma {:induction false} FreshTells(h: seq<Start>)
    ensures TellsAfter(h, 0)
  {
  }

  lemma {:induction false} AfterTells(h: seq<Start>, n: nat)
    requires n < |h| && h[n].pid != 0 && TellsAfter(h, n)
    ensures TellsAfter(h, n + 1)
  {
    StepTells(h, n, After(h, n));
  }

  lemma {:induction false} HistoryTells(h: seq<Start>, n: nat)
    requires PidsOk(h) && n <= |h|
    ensures TellsAfter(h, n)
  {
    if n == 0 {
      FreshTells(h);
    } else {
      HistoryTells(h, n - 1);
      AfterTells(h, n - 1);
    }
  }

  /** After every history: safe mode is on exactly when one of the first four zygote names has come back under a
      new pid three times, and each watched name's last pid is remembered. */
  lemma {:induction false} ActiveIffCrashing(h: seq<Start>, n: nat, i: nat)
    requires PidsOk(h) && n <= |h|
    ensures ActiveAfter(h, n) <==> Crashing(h, n)
    ensures i < |Names(h, n)| ==>
              i < |After(h, n).guards| && After(h, n).guards[i].lastPid == LastPid(h, n, Names(h, n)[i])
  {
    HistoryTells(h, n);
  }

  /** Safe mode never ends. */
  lemma {:induction false} ActiveStays(h: seq<Start>, m: nat, n: nat)
    requires m <= n <= |h| && ActiveAfter(h, m)
    ensures ActiveAfter(h, n)
    decreases n
  {
    if m < n { ActiveStays(h, m, n - 1); }
  }

  // ----------------------------------------------------------------- the code

  class Guards {
    const slots: array<Guard>
    var active: bool
    var crashes: nat
    var zygote: string

    ghost predicate Valid()
      reads this
    {
      slots.Length == GUARDS
    }

    ghost function View(): Table
      reads this, slots
    {
      Table(slots[..], active, crashes, zygote)
    }

    constructor ()
      ensures Valid() && fresh(slots) && View() == Fresh()
    {
      slots := new Guard[GUARDS](_ => Guard("", 0, 0));
      active, crashes, zygote := false, 0, "";
      new;
      assert slots[..] == seq(GUARDS, _ => Guard("", 0, 0));
    }

    /** The slot of a name, and the first free one before it. */
    method FindSlot(name: string) returns (slot: int, free: int)
      requires Valid() && name != ""
      ensures slot == SlotOf(slots[..], name, 0)
      ensures slot < 0 ==> free == SlotOf(slots[..], "", 0)
    {
      free := -1;
      for i := 0 to GUARDS
        invariant SlotOf(slots[..], name, i) == SlotOf(slots[..], name, 0)
        invariant (if free < 0 then SlotOf(slots[..], "", i) else free) == SlotOf(slots[..], "", 0)
      {
        if slots[i].name == "" {
          if free < 0 { free := i; }
          continue;
        }
        if slots[i].name == name { return i, free; }
      }
      return -1, free;
    }

    /** A start is skipped exactly when safe mode is on, as it is or as this start makes it. */
    method ShouldSkip(s: Start) returns (skip: bool)
      requires Valid()
      modifies this, slots
      ensures Valid() && View() == Next(old(View()), s)
      ensures !old(active) && active ==> skip
      ensures old(active) ==> skip
      ensures !active ==> !skip
    {
      var name := NameOf(s);
      skip := false;
      var slot, free := FindSlot(name);
      if slot < 0 && free >= 0 {
        slot := free;
        slots[slot] := slots[slot].(name := name);
      }
      ghost var gs := slots[..];
      assert gs == Watched(old(slots[..]), name);
      SlotIsFirst(old(slots[..]), name, 0);
      SlotIsFirst(gs, name, 0);
      assert slot == SlotOf(gs, name, 0);
      if active {
        if slot >= 0 { slots[slot] := slots[slot].(lastPid := s.pid); }
        skip := true;
      } else if slot >= 0 {
        if slots[slot].lastPid == 0 {
          slots[slot] := slots[slot].(lastPid := s.pid);
        } else if slots[slot].lastPid != s.pid {
          slots[slot] := Guard(slots[slot].name, s.pid, slots[slot].crashes + 1);
          if slots[slot].crashes >= THRESHOLD {
            active, crashes, zygote := true, slots[slot].crashes, name;
            skip := true;
          }
        }
      }
    }
  }
}
