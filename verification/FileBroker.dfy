/**
 The file broker: references to a daemon's files are taken, parked in a slot for a process, and later installed
 into that process or put. The sections under the lock are single steps; the rest of each call interleaves.
 */
module FileBroker {

  const SLOTS: nat := 64
  const MAX_FDS: nat := 8

  /** A reference to an open file; each one taken gets a new number. */
  type Ref = nat

  /** What a call is doing with the references it holds: still taking them, giving them up, or installing them. */
  datatype Mode = Taking(pid: nat, left: nat) | Dropping | Installing

  /** `pids[i]` owns the references in `slots[i]`; call `k` holds `hands[k]`. */
  datatype World = World(
    pids: seq<nat>, slots: seq<seq<Ref>>, modes: seq<Mode>, hands: seq<seq<Ref>>,
    next: nat, installed: multiset<Ref>, dropped: multiset<Ref>)

  function Init(): World {
    World(seq(SLOTS, _ => 0), seq(SLOTS, _ => []), [], [], 0, multiset{}, multiset{})
  }

  datatype Event =
    | Handoff(pid: nat, fds: nat)  // a call with that many descriptors starts
    | Take(k: nat)                 // the next descriptor names a file
    | BadFd(k: nat)                // the next descriptor does not
    | Place(k: nat)                // locked: the slot is chosen and swapped
    | Deliver(slot: nat)           // locked: a callback empties its slot
    | Exiting(k: nat)              // the callback's process is exiting
    | Install(k: nat)              // a descriptor is found and installed
    | NoFd(k: nat)                 // none is left: the reference is put
    | Release(pid: nat)            // locked: a freed process's slot is emptied
    | Drop(k: nat)                 // one reference is put

  function SlotOf(pids: seq<nat>, pid: nat, i: nat): (r: int)
    ensures r == -1 || (i <= r < |pids| && pids[r] == pid)
    decreases |pids| - i
  {
    if i >= |pids| then -1 else if pids[i] == pid then i else SlotOf(pids, pid, i + 1)
  }

  /** The slot a handoff takes: the process's own, or a free one. */
  function SlotFor(pids: seq<nat>, pid: nat): (r: int)
    ensures -1 <= r < |pids|
  {
    if SlotOf(pids, pid, 0) >= 0 then SlotOf(pids, pid, 0) else SlotOf(pids, 0, 0)
  }

  predicate Call(w: World, k: nat) { k < |w.modes| && |w.hands| == |w.modes| }

  predicate Enabled(w: World, e: Event) {
    match e
    case Handoff(_, fds) => fds <= MAX_FDS
    case Take(k) => Call(w, k) && w.modes[k].Taking? && w.modes[k].left > 0
    case BadFd(k) => Call(w, k) && w.modes[k].Taking? && w.modes[k].left > 0
    case Place(k) => Call(w, k) && w.modes[k].Taking? && w.modes[k].left == 0 && |w.pids| == |w.slots|
    case Deliver(slot) => slot < |w.slots| && |w.pids| == |w.slots|
    case Exiting(k) => Call(w, k) && w.modes[k] == Installing
    case Install(k) => Call(w, k) && w.modes[k] == Installing && w.hands[k] != []
    case NoFd(k) => Call(w, k) && w.modes[k] == Installing && w.hands[k] != []
    case Release(_) => |w.pids| == |w.slots|
    case Drop(k) => Call(w, k) && w.modes[k] == Dropping && w.hands[k] != []
  }

  function Start(w: World, m: Mode, refs: seq<Ref>): World {
    w.(modes := w.modes + [m], hands := w.hands + [refs])
  }

  function Placed(w: World, k: nat): World
    requires Enabled(w, Place(k))
  {
    var s := SlotFor(w.pids, w.modes[k].pid);
    if s < 0 then w.(modes := w.modes[k := Dropping])
    else
      w.(pids := w.pids[s := w.modes[k].pid], slots := w.slots[s := w.hands[k]],
         modes := w.modes[k := Dropping], hands := w.hands[k := w.slots[s]])
  }

  function Emptied(w: World, s: nat, m: Mode): World
    requires s < |w.slots| == |w.pids|
  {
    Start(w.(pids := w.pids[s := 0], slots := w.slots[s := []]), m, w.slots[s])
  }

  function Next(w: World, e: Event): World
    requires Enabled(w, e)
  {
    match e
    case Handoff(pid, fds) => Start(w, Taking(pid, fds), [])
    case Take(k) =>
      w.(modes := w.modes[k := Taking(w.modes[k].pid, w.modes[k].left - 1)],
         hands := w.hands[k := w.hands[k] + [w.next]], next := w.next + 1)
    case BadFd(k) => w.(modes := w.modes[k := Dropping])
    case Place(k) => Placed(w, k)
    case Deliver(slot) => Emptied(w, slot, Installing)
    case Exiting(k) => w.(modes := w.modes[k := Dropping])
    case Install(k) => w.(hands := w.hands[k := w.hands[k][1..]], installed := w.installed + multiset{w.hands[k][0]})
    case NoFd(k) => w.(hands := w.hands[k := w.hands[k][1..]], dropped := w.dropped + multiset{w.hands[k][0]})
    case Release(pid) =>
      var s := SlotOf(w.pids, pid, 0);
      if s < 0 then w else Emptied(w, s, Dropping)
    case Drop(k) => w.(hands := w.hands[k := w.hands[k][1..]], dropped := w.dropped + multiset{w.hands[k][0]})
  }

  // ------------------------------------------------------------ conservation

  /** How often a reference stands in a list. */
  function Times(l: seq<Ref>, r: Ref): nat {
    if l == [] then 0 else (if l[0] == r then 1 else 0) + Times(l[1..], r)
  }

  function TimesAll(ls: seq<seq<Ref>>, r: Ref): nat {
    if ls == [] then 0 else TimesAll(ls[..|ls| - 1], r) + Times(ls[|ls| - 1], r)
  }

  lemma {:induction false} TimesAppend(l: seq<Ref>, x: Ref, r: Ref)
    ensures Times(l + [x], r) == Times(l, r) + if x == r then 1 else 0
    decreases |l|
  {
    if l == [] {
      assert l + [x] == [x] && [x][1..] == [];
    } else {
      assert (l + [x])[1..] == l[1..] + [x];
      TimesAppend(l[1..], x, r);
    }
  }

  lemma {:induction false} AllUpdate(ls: seq<seq<Ref>>, i: nat, l: seq<Ref>, r: Ref)
    requires i < |ls|
    ensures TimesAll(ls[i := l], r) == TimesAll(ls, r) - Times(ls[i], r) + Times(l, r)
    decreases |ls|
  {
    var last := |ls| - 1;
    if i == last {
      assert ls[i := l][..last] == ls[..last];
    } else {
      AllUpdate(ls[..last], i, l, r);
      assert ls[i := l][..last] == ls[..last][i := l];
    }
  }

  lemma AllAppend(ls: seq<seq<Ref>>, l: seq<Ref>, r: Ref)
    ensures TimesAll(ls + [l], r) == TimesAll(ls, r) + Times(l, r)
  {
    assert (ls + [l])[..|ls|] == ls;
  }

  /** The number of places a reference is in: calls' hands, slots, processes, and the put ones. */
  function Places(w: World, r: Ref): nat {
    TimesAll(w.hands, r) + TimesAll(w.slots, r) + w.installed[r] + w.dropped[r]
  }

  predicate Shape(w: World) { |w.pids| == |w.slots| == SLOTS && |w.modes| == |w.hands| }

  /** A reference that was taken is in one place; one that was not is nowhere. */
  predicate InOnePlace(w: World, r: Ref) { Places(w, r) == if r < w.next then 1 else 0 }

  lemma {:induction false} EmptyLists(ls: seq<seq<Ref>>, r: Ref)
    requires forall i :: 0 <= i < |ls| ==> ls[i] == []
    ensures TimesAll(ls, r) == 0
    decreases |ls|
  {
    if ls != [] { EmptyLists(ls[..|ls| - 1], r); }
  }

  lemma PlaceKeeps(w: World, k: nat, r: Ref)
    requires Shape(w) && Enabled(w, Place(k))
    ensures Shape(Placed(w, k)) && Places(Placed(w, k), r) == Places(w, r)
  {
    var s := SlotFor(w.pids, w.modes[k].pid);
    if s >= 0 {
      AllUpdate(w.hands, k, w.slots[s], r);
      AllUpdate(w.slots, s, w.hands[k], r);
    }
  }

  lemma EmptiedKeeps(w: World, s: nat, m: Mode, r: Ref)
    requires Shape(w) && s < SLOTS
    ensures Shape(Emptied(w, s, m)) && Places(Emptied(w, s, m), r) == Places(w, r)
  {
    AllUpdate(w.slots, s, [], r);
    AllAppend(w.hands, w.slots[s], r);
  }

  lemma TakeKeeps(w: World, k: nat, r: Ref)
    requires Shape(w) && Enabled(w, Take(k))
    ensures Places(Next(w, Take(k)), r) == Places(w, r) + if r == w.next then 1 else 0
  {
    AllUpdate(w.hands, k, w.hands[k] + [w.next], r);
    TimesAppend(w.hands[k], w.next, r);
  }

  lemma GiveKeeps(w: World, k: nat, e: Event, r: Ref)
    requires Shape(w) && Enabled(w, e) && (e == Install(k) || e == NoFd(k) || e == Drop(k))
    ensures Places(Next(w, e), r) == Places(w, r)
  {
    AllUpdate(w.hands, k, w.hands[k][1..], r);
  }

  lemma StepKeepsPlace(w: World, e: Event, r: Ref)
    requires Shape(w) && InOnePlace(w, r) && Enabled(w, e)
    ensures Shape(Next(w, e)) && InOnePlace(Next(w, e), r)
  {
    match e
    case Handoff(_, _) => AllAppend(w.hands, [], r);
    case Take(k) => TakeKeeps(w, k, r);
    case Place(k) => PlaceKeeps(w, k, r);
    case Deliver(slot) => EmptiedKeeps(w, slot, Installing, r);
    case Install(k) => GiveKeeps(w, k, e, r);
    case NoFd(k) => GiveKeeps(w, k, e, r);
    case Drop(k) => GiveKeeps(w, k, e, r);
    case Release(pid) =>
      var s := SlotOf(w.pids, pid, 0);
      if s >= 0 { EmptiedKeeps(w, s, Dropping, r); }
    case BadFd(_) =>
    case Exiting(_) =>
  }

  predicate Step(w: World, e: Event, w': World) { Enabled(w, e) && w' == Next(w, e) }

  predicate Run(worlds: seq<World>, events: seq<Event>) {
    && |worlds| == |events| + 1 && worlds[0] == Init()
    && forall i :: 0 <= i < |events| ==> Step(worlds[i], events[i], worlds[i + 1])
  }

  /** In every run, a reference taken so far is in exactly one of a call's hands, a slot, a process and the put ones;
      so none is installed or put twice, or both, and none is lost. */
  lemma {:induction false} Conservation(worlds: seq<World>, events: seq<Event>, n: nat, r: Ref)
    requires Run(worlds, events) && n < |worlds|
    ensures var w := worlds[n];
            && Shape(w)
            && TimesAll(w.hands, r) + TimesAll(w.slots, r) + w.installed[r] + w.dropped[r]
               == if r < w.next then 1 else 0
    decreases n
  {
    if n == 0 {
      EmptyLists(Init().slots, r);
    } else {
      Conservation(worlds, events, n - 1, r);
      assert Step(worlds[n - 1], events[n - 1], worlds[n - 1 + 1]);
      StepKeepsPlace(worlds[n - 1], events[n - 1], r);
    }
  }

  /** How many of the first `n` events install a file, or put one. */
  function Installs(events: seq<Event>, n: nat): nat
    requires n <= |events|
  {
    if n == 0 then 0 else Installs(events, n - 1) + if events[n - 1].Install? then 1 else 0
  }

  function Puts(events: seq<Event>, n: nat): nat
    requires n <= |events|
  {
    if n == 0 then 0 else Puts(events, n - 1) + if events[n - 1].NoFd? || events[n - 1].Drop? then 1 else 0
  }

  /** Files are installed exactly as often as a descriptor is found for one, and put exactly as often as none is found
      or a call gives one up. */
  lemma {:induction false} GivenAreCounted(worlds: seq<World>, events: seq<Event>, n: nat)
    requires Run(worlds, events) && n < |worlds|
    ensures |worlds[n].installed| == Installs(events, n) && |worlds[n].dropped| == Puts(events, n)
    decreases n
  {
    if n > 0 {
      GivenAreCounted(worlds, events, n - 1);
      assert Step(worlds[n - 1], events[n - 1], worlds[n - 1 + 1]);
    }
  }

  // ------------------------------------------------------------- whose slot it is

  lemma {:induction false} SlotFound(pids: seq<nat>, pid: nat, i: nat)
    ensures var s := SlotOf(pids, pid, i);
            && (s == -1 <==> forall j :: i <= j < |pids| ==> pids[j] != pid)
            && forall j :: i <= j < s ==> pids[j] != pid
    decreases |pids| - i
  {
    if i < |pids| && pids[i] != pid { SlotFound(pids, pid, i + 1); }
  }

  /** No two slots belong to one process. */
  predicate OneSlotEach(pids: seq<nat>) {
    forall i, j :: 0 <= i < j < |pids| && pids[i] == pids[j] ==> pids[i] == 0
  }

  lemma SlotStep(w: World, e: Event)
    requires Shape(w) && OneSlotEach(w.pids) && Enabled(w, e)
    ensures Shape(Next(w, e)) && OneSlotEach(Next(w, e).pids)
  {
    if e.Place? { SlotFound(w.pids, w.modes[e.k].pid, 0); }
  }

  /** In every run a process has at most one slot. */
  lemma {:induction false} OneSlotInRuns(worlds: seq<World>, events: seq<Event>, n: nat)
    requires Run(worlds, events) && n < |worlds|
    ensures Shape(worlds[n]) && OneSlotEach(worlds[n].pids)
    decreases n
  {
    if n > 0 {
      OneSlotInRuns(worlds, events, n - 1);
      assert Step(worlds[n - 1], events[n - 1], worlds[n - 1 + 1]);
      SlotStep(worlds[n - 1], events[n - 1]);
    }
  }

  /** The files are in the process's slot, in which `before` were. */
  predicate Parked(w: World, w': World, pid: nat, files: seq<Ref>, s: int) {
    && 0 <= s < |w.pids| && |w.slots| == |w.pids| && (w.pids[s] == pid || w.pids[s] == 0)
    && w'.pids == w.pids[s := pid] && w'.slots == w.slots[s := files]
  }

  /** In every run a handoff parks its files in its process's own slot if it has one, whose files it then gives up, and
      else in one that belongs to nobody; only when there is neither does it give up its own files. */
  lemma PlaceMeaning(worlds: seq<World>, events: seq<Event>, n: nat)
    requires Run(worlds, events) && n < |events| && events[n].Place?
    ensures Enabled(worlds[n], events[n])
    ensures var w, w', k := worlds[n], worlds[n + 1], events[n].k;
            var pid := w.modes[k].pid;
            && w'.modes == w.modes[k := Dropping]
            && ((exists s :: 0 <= s < |w.pids| && (w.pids[s] == pid || w.pids[s] == 0)) ==>
                  exists s :: Parked(w, w', pid, w.hands[k], s) && w'.hands == w.hands[k := w.slots[s]]
                    && (w.pids[s] != pid ==> forall j :: 0 <= j < |w.pids| ==> w.pids[j] != pid))
            && ((forall s :: 0 <= s < |w.pids| ==> w.pids[s] != pid && w.pids[s] != 0) ==>
                  w'.pids == w.pids && w'.slots == w.slots && w'.hands == w.hands)
  {
    OneSlotInRuns(worlds, events, n);
    assert Step(worlds[n], events[n], worlds[n + 1]);
    var w, w', pid := worlds[n], worlds[n + 1], worlds[n].modes[events[n].k].pid;
    SlotFound(w.pids, pid, 0);
    SlotFound(w.pids, 0, 0);
    var s := SlotFor(w.pids, pid);
    if s >= 0 { assert Parked(w, w', pid, w.hands[events[n].k], s); }
  }

  /** And when a process is freed nothing stays parked for it. */
  lemma ReleaseMeaning(worlds: seq<World>, events: seq<Event>, n: nat, s: nat)
    requires Run(worlds, events) && n < |events| && events[n].Release? && events[n].pid != 0
    ensures Shape(worlds[n]) && Shape(worlds[n + 1])
    ensures s < SLOTS ==>
              if worlds[n].pids[s] == events[n].pid
              then worlds[n + 1].pids[s] == 0 && worlds[n + 1].slots[s] == []
                   && worlds[n + 1].hands == worlds[n].hands + [worlds[n].slots[s]]
              else worlds[n + 1].pids[s] == worlds[n].pids[s] && worlds[n + 1].slots[s] == worlds[n].slots[s]
  {
    OneSlotInRuns(worlds, events, n);
    OneSlotInRuns(worlds, events, n + 1);
    assert Step(worlds[n], events[n], worlds[n + 1]);
    SlotFound(worlds[n].pids, events[n].pid, 0);
  }

  // ----------------------------------------------------------------- the code

  datatype Pending = Pending(pid: nat, files: seq<Ref>)

  datatype Reply = Done | BadDescriptor | TooMany | NoSpace

  /** The pending table. `installed` and `dropped` record what became of references given away. */
  class Broker {
    const slots: array<Pending>
    var installed: multiset<Ref>
    var dropped: multiset<Ref>

    ghost predicate Valid()
      reads this
    {
      slots.Length == SLOTS
    }

    ghost function Pids(): seq<nat>
      requires Valid()
      reads this, slots
    {
      seq(SLOTS, i requires 0 <= i < SLOTS reads slots => slots[i].pid)
    }

    constructor ()
      ensures Valid() && fresh(slots) && installed == multiset{} && dropped == multiset{}
      ensures forall i :: 0 <= i < SLOTS ==> slots[i] == Pending(0, [])
    {
      slots := new Pending[SLOTS](_ => Pending(0, []));
      installed, dropped := multiset{}, multiset{};
    }

    method FindSlot(pid: nat) returns (r: int)
      requires Valid()
      ensures r == SlotOf(Pids(), pid, 0)
    {
      for i := 0 to SLOTS
        invariant SlotOf(Pids(), pid, i) == SlotOf(Pids(), pid, 0)
      {
        if slots[i].pid == pid { return i; }
      }
      return -1;
    }

    /** Puts each reference of a list once. */
    method PutAll(l: seq<Ref>)
      modifies this`dropped
      ensures dropped == old(dropped) + multiset(l)
    {
      for i := 0 to |l|
        invariant dropped == old(dropped) + multiset(l[..i])
      {
        assert l[..i + 1] == l[..i] + [l[i]];
        dropped := dropped + multiset{l[i]};
      }
      assert l[..|l|] == l;
    }

    /** A handoff of the files its descriptors name, `fds[i]` being the reference taken for the i-th, if any. A bad
        descriptor or a full table puts what was taken; a prior handoff to the same process is replaced and put. */
    method HandoffFiles(pid: nat, fds: seq<(bool, Ref)>) returns (reply: Reply)
      requires Valid()
      modifies this`dropped, slots
      ensures reply == TooMany <==> |fds| > MAX_FDS
      ensures reply == BadDescriptor <==> |fds| <= MAX_FDS && FirstBad(fds, 0) < |fds|
      ensures reply == NoSpace ==> SlotFor(old(Pids()), pid) < 0
      ensures reply == Done ==>
                && var s := SlotFor(old(Pids()), pid);
                && s >= 0 && slots[s] == Pending(pid, Taken(fds, |fds|))
                && (forall i :: 0 <= i < SLOTS && i != s ==> slots[i] == old(slots[i]))
                && dropped == old(dropped) + multiset(old(slots[s].files))
      ensures reply == BadDescriptor ==>
                slots[..] == old(slots[..]) && dropped == old(dropped) + multiset(Taken(fds, FirstBad(fds, 0)))
      ensures reply == NoSpace ==>
                slots[..] == old(slots[..]) && dropped == old(dropped) + multiset(Taken(fds, |fds|))
      ensures reply == TooMany ==> slots[..] == old(slots[..]) && dropped == old(dropped)
    {
      if |fds| > MAX_FDS { return TooMany; }
      var files := TakeFiles(fds);
      if |files| < |fds| {
        PutAll(files);
        return BadDescriptor;
      }
      reply := StoreFiles(pid, files);
    }

    /** Parks the files in the process's slot or a free one, and puts what was there. */
    method StoreFiles(pid: nat, files: seq<Ref>) returns (reply: Reply)
      requires Valid()
      modifies this`dropped, slots
      ensures reply == (if SlotFor(old(Pids()), pid) < 0 then NoSpace else Done)
      ensures reply == NoSpace ==> slots[..] == old(slots[..]) && dropped == old(dropped) + multiset(files)
      ensures reply == Done ==>
                && var s := SlotFor(old(Pids()), pid);
                && slots[s] == Pending(pid, files)
                && (forall i :: 0 <= i < SLOTS && i != s ==> slots[i] == old(slots[i]))
                && dropped == old(dropped) + multiset(old(slots[s].files))
    {
      var s := FindSlot(pid);
      if s < 0 { s := FindSlot(0); }
      if s < 0 {
        PutAll(files);
        return NoSpace;
      }
      var before := slots[s].files;
      slots[s] := Pending(pid, files);
      PutAll(before);
      return Done;
    }

    /** Takes a reference for each descriptor up to the first bad one. */
    method TakeFiles(fds: seq<(bool, Ref)>) returns (files: seq<Ref>)
      ensures files == Taken(fds, FirstBad(fds, 0)) && |files| == FirstBad(fds, 0)
    {
      files := [];
      for i := 0 to |fds|
        invariant files == Taken(fds, i) && |files| == i && FirstBad(fds, i) == FirstBad(fds, 0)
      {
        if !fds[i].0 { return; }
        files := files + [fds[i].1];
      }
    }

    /** The delivery callback of a slot: it empties the slot and installs each file for which a descriptor is found,
        as `found` says; the rest, or all if the process is exiting, are put. */
    method DeliverFiles(slot: nat, exiting: bool, found: seq<bool>)
      requires Valid() && slot < SLOTS
      modifies this, slots
      ensures slots[slot] == Pending(0, []) && forall i :: 0 <= i < SLOTS && i != slot ==> slots[i] == old(slots[i])
      ensures exiting ==> installed == old(installed) && dropped == old(dropped) + multiset(old(slots[slot].files))
      ensures !exiting ==> forall r ::
                && installed[r] == old(installed)[r] + |At(old(slots[slot].files), found, true, r)|
                && dropped[r] == old(dropped)[r] + |At(old(slots[slot].files), found, false, r)|
    {
      var files := slots[slot].files;
      slots[slot] := Pending(0, []);
      if exiting {
        PutAll(files);
        return;
      }
      for i := 0 to |files|
        invariant slots[slot] == Pending(0, []) && forall j :: 0 <= j < SLOTS && j != slot ==> slots[j] == old(slots[j])
        invariant forall r ::
          && installed[r] == old(installed)[r] + |At(files[..i], found, true, r)|
          && dropped[r] == old(dropped)[r] + |At(files[..i], found, false, r)|
      {
        AtNext(files, found, i);
        if i < |found| && found[i] {
          installed := installed + multiset{files[i]};
        } else {
          dropped := dropped + multiset{files[i]};
        }
      }
      assert files[..|files|] == files;
    }

    method ReleaseFiles(pid: nat)
      requires Valid()
      modifies this`dropped, slots
      ensures var s := SlotOf(old(Pids()), pid, 0);
              if s < 0 then slots[..] == old(slots[..]) && dropped == old(dropped)
              else
                && slots[s] == Pending(0, []) && (forall i :: 0 <= i < SLOTS && i != s ==> slots[i] == old(slots[i]))
                && dropped == old(dropped) + multiset(old(slots[s].files))
    {
      var s := FindSlot(pid);
      if s >= 0 {
        var files := slots[s].files;
        slots[s] := Pending(0, []);
        PutAll(files);
      }
    }
  }

  /** The positions at which a file stands for which a descriptor is found, or is not. */
  function At(files: seq<Ref>, found: seq<bool>, yes: bool, r: Ref): set<nat> {
    set i: nat | i < |files| && files[i] == r && (i < |found| && found[i]) == yes
  }

  lemma AtNext(files: seq<Ref>, found: seq<bool>, i: nat)
    requires i < |files|
    ensures forall yes, r :: |At(files[..i + 1], found, yes, r)| == |At(files[..i], found, yes, r)|
              + if files[i] == r && (i < |found| && found[i]) == yes then 1 else 0
  {
    assert files[..i + 1] == files[..i] + [files[i]];
    forall yes, r { AtAppend(files[..i], found, yes, r, files[i]); }
  }

  lemma AtAppend(files: seq<Ref>, found: seq<bool>, yes: bool, r: Ref, f: Ref)
    ensures var i := |files|;
            |At(files + [f], found, yes, r)|
            == |At(files, found, yes, r)| + if f == r && (i < |found| && found[i]) == yes then 1 else 0
  {
    var before, after := At(files, found, yes, r), At(files + [f], found, yes, r);
    if f == r && (|files| < |found| && found[|files|]) == yes {
      assert after == before + {|files|};
    } else {
      assert after == before;
    }
  }

  /** The first descriptor from `i` on that names no file, or their number. */
  function FirstBad(fds: seq<(bool, Ref)>, i: nat): (r: nat)
    requires i <= |fds|
    ensures i <= r <= |fds| && (r < |fds| ==> !fds[r].0) && forall j :: i <= j < r ==> fds[j].0
    decreases |fds| - i
  {
    if i == |fds| || !fds[i].0 then i else FirstBad(fds, i + 1)
  }

  /** The references of the first `n` descriptors. */
  function Taken(fds: seq<(bool, Ref)>, n: nat): (l: seq<Ref>)
    requires n <= |fds|
    ensures |l| == n && forall i :: 0 <= i < n ==> l[i] == fds[i].1
  {
    if n == 0 then [] else Taken(fds, n - 1) + [fds[n - 1].1]
  }
}
