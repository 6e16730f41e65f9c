/**
 The loader's open-addressed index over dynamic symbols and its agreement with a
 linear scan: whether or not an index could be built, a lookup returns the first
 defined symbol of that name.
 */
module SymbolIndex {
  import opened Bits

  datatype Option<T> = None | Some(value: T)

  const SHN_UNDEF := 0
  const UINT32_MAX := 0xffff_ffff

  /** The fields of a symbol table entry the index reads. */
  datatype Sym = Sym(stName: nat, stShndx: nat)

  type Name = seq<bv8>

  // -------------------------------------------------------------- the scan

  /** The offset of the first NUL at or after `off`, or the table's end. */
  function NulFrom(strings: seq<bv8>, off: nat): (r: nat)
    requires off <= |strings|
    ensures off <= r <= |strings|
    decreases |strings| - off
  {
    if off == |strings| || strings[off] == 0 then off else NulFrom(strings, off + 1)
  }

  predicate NameValid(strings: seq<bv8>, s: Sym) {
    s.stName < |strings| && NulFrom(strings, s.stName) < |strings|
  }

  function NameOf(strings: seq<bv8>, s: Sym): Name
    requires NameValid(strings, s)
  {
    strings[s.stName..NulFrom(strings, s.stName)]
  }

  /** Defined, with a terminated name. */
  predicate Candidate(strings: seq<bv8>, s: Sym) {
    s.stShndx != SHN_UNDEF && NameValid(strings, s)
  }

  predicate Matches(strings: seq<bv8>, s: Sym, name: Name) {
    Candidate(strings, s) && NameOf(strings, s) == name
  }

  /** The first of `entries[..n]` defined under `name`, or `n`. */
  function First(entries: seq<Sym>, strings: seq<bv8>, name: Name, n: nat): (r: nat)
    requires n <= |entries|
    ensures r <= n
    ensures r < n ==> Matches(strings, entries[r], name)
    ensures forall i :: 0 <= i < r ==> !Matches(strings, entries[i], name)
  {
    if n == 0 then 0
    else
      var r := First(entries, strings, name, n - 1);
      if r < n - 1 then r else if Matches(strings, entries[n - 1], name) then n - 1 else n
  }

  function Lookup(entries: seq<Sym>, strings: seq<bv8>, name: Name): Option<nat> {
    var r := First(entries, strings, name, |entries|);
    if r < |entries| then Some(r) else None
  }

  function Candidates(entries: seq<Sym>, strings: seq<bv8>, n: nat): (c: nat)
    requires n <= |entries|
    ensures c <= n
  {
    if n == 0 then 0
    else Candidates(entries, strings, n - 1) + if Candidate(strings, entries[n - 1]) then 1 else 0
  }

  // ------------------------------------------------------------- the table

  /** One FNV-1a round: exclusive-or the byte into the low eight bits, multiply modulo 2^32. */
  function Mix(hash: nat, c: bv8): nat {
    ((hash - hash % 0x100 + (((hash % 0x100) as bv8) ^ c) as nat) * 16777619) % 0x1_0000_0000
  }

  function Fnv(name: Name): nat {
    if name == [] then 2166136261 else Mix(Fnv(name[..|name| - 1]), name[|name| - 1])
  }

  /** The slot `j` probes after `home`. */
  function Probe(home: nat, j: nat, cap: nat): (s: nat)
    requires home < cap && j < cap
    ensures s < cap
  {
    if home + j < cap then home + j else home + j - cap
  }

  function Home(name: Name, cap: nat): (h: nat)
    requires cap > 0
    ensures h < cap
  {
    Fnv(name) % cap
  }

  function Filled(slots: seq<nat>): (c: nat)
    ensures c <= |slots|
    ensures c == |slots| ==> forall i :: 0 <= i < |slots| ==> slots[i] != 0
  {
    if slots == [] then 0
    else
      var c := Filled(slots[1..]);
      assert forall i :: 1 <= i < |slots| ==> slots[i] == slots[1..][i - 1];
      c + if slots[0] != 0 then 1 else 0
  }

  /** The first `j` probes from the name's home are occupied. */
  ghost predicate Chain(slots: seq<nat>, home: nat, j: nat)
    requires home < |slots|
  {
    forall i :: 0 <= i < j && i < |slots| ==> slots[Probe(home, i, |slots|)] != 0
  }

  /** Slot `s` holds the first symbol of its name among the first `n`, on its own probe chain. */
  ghost predicate SlotOk(entries: seq<Sym>, strings: seq<bv8>, slots: seq<nat>, n: nat, s: nat)
    requires s < |slots| && n <= |entries|
  {
    slots[s] != 0 ==>
      && slots[s] <= n
      && Candidate(strings, entries[slots[s] - 1])
      && var name := NameOf(strings, entries[slots[s] - 1]);
         && First(entries, strings, name, n) == slots[s] - 1
         && exists j :: 0 <= j < |slots| && Chain(slots, Home(name, |slots|), j)
                        && Probe(Home(name, |slots|), j, |slots|) == s
  }

  /** Candidate `i`'s name is indexed. */
  ghost predicate Indexed(entries: seq<Sym>, strings: seq<bv8>, slots: seq<nat>, n: nat, i: nat)
    requires i < n <= |entries|
  {
    Candidate(strings, entries[i]) ==>
      exists s :: 0 <= s < |slots| && slots[s] == First(entries, strings, NameOf(strings, entries[i]), n) + 1
  }

  ghost predicate IndexOk(entries: seq<Sym>, strings: seq<bv8>, slots: seq<nat>, n: nat) {
    && |slots| > 0 && n <= |entries|
    && (forall s :: 0 <= s < |slots| ==> SlotOk(entries, strings, slots, n, s))
    && (forall i :: 0 <= i < n ==> Indexed(entries, strings, slots, n, i))
    && Filled(slots) <= Candidates(entries, strings, n)
  }

  lemma FirstGrows(entries: seq<Sym>, strings: seq<bv8>, name: Name, n: nat, m: nat)
    requires n <= m <= |entries|
    ensures First(entries, strings, name, n) < n ==>
              First(entries, strings, name, m) == First(entries, strings, name, n)
  {
    if n < m { FirstGrows(entries, strings, name, n, m - 1); }
  }

  lemma FirstIs(entries: seq<Sym>, strings: seq<bv8>, name: Name, n: nat, i: nat)
    requires i < n <= |entries| && Matches(strings, entries[i], name)
    ensures First(entries, strings, name, n) <= i
  {
  }

  lemma CandidatesMonotone(entries: seq<Sym>, strings: seq<bv8>, n: nat, m: nat)
    requires n <= m <= |entries|
    ensures Candidates(entries, strings, n) <= Candidates(entries, strings, m)
  {
  }

  lemma FilledUpdate(slots: seq<nat>, s: nat, v: nat)
    requires s < |slots| && slots[s] == 0 && v != 0
    ensures Filled(slots[s := v]) == Filled(slots) + 1
  {
    if s == 0 {
      assert slots[s := v][1..] == slots[1..];
    } else {
      assert slots[s := v][1..] == slots[1..][s - 1 := v];
      FilledUpdate(slots[1..], s - 1, v);
    }
  }

  lemma FilledZero(slots: seq<nat>)
    requires forall i :: 0 <= i < |slots| ==> slots[i] == 0
    ensures Filled(slots) == 0
  {
  }

  /** Probing the whole table from any home meets every slot, so a full chain means a full table. */
  lemma ChainCovers(slots: seq<nat>, home: nat)
    requires home < |slots| && Chain(slots, home, |slots|)
    ensures Filled(slots) == |slots|
  {
    forall s | 0 <= s < |slots| ensures slots[s] != 0 {
      var j := if home <= s then s - home else s + |slots| - home;
      assert Probe(home, j, |slots|) == s;
    }
    FullTable(slots);
  }

  lemma FullTable(slots: seq<nat>)
    requires forall i :: 0 <= i < |slots| ==> slots[i] != 0
    ensures Filled(slots) == |slots|
  {
    if slots != [] {
      assert forall i :: 0 <= i < |slots[1..]| ==> slots[1..][i] == slots[i + 1];
      FullTable(slots[1..]);
    }
  }

  /** A symbol that adds no new name leaves the index right. */
  lemma SkipKeeps(entries: seq<Sym>, strings: seq<bv8>, slots: seq<nat>, n: nat)
    requires n < |entries| && IndexOk(entries, strings, slots, n)
    requires Candidate(strings, entries[n]) ==>
               First(entries, strings, NameOf(strings, entries[n]), n) < n
    ensures IndexOk(entries, strings, slots, n + 1)
  {
    var m := n + 1;
    forall s | 0 <= s < |slots| ensures SlotOk(entries, strings, slots, m, s) {
      assert SlotOk(entries, strings, slots, n, s);
      if slots[s] != 0 { FirstGrows(entries, strings, NameOf(strings, entries[slots[s] - 1]), n, n + 1); }
    }
    forall i | 0 <= i < m ensures Indexed(entries, strings, slots, m, i) {
      if Candidate(strings, entries[i]) {
        var name := NameOf(strings, entries[i]);
        var f := First(entries, strings, name, n);
        if i < n { FirstIs(entries, strings, name, n, i); }
        assert f < n && Indexed(entries, strings, slots, n, f);
        FirstGrows(entries, strings, name, n, n + 1);
      }
    }
  }

  /** A new name takes the first empty slot of its chain. */
  lemma InsertKeeps(entries: seq<Sym>, strings: seq<bv8>, slots: seq<nat>, n: nat, j: nat)
    requires n < |entries| && IndexOk(entries, strings, slots, n)
    requires Candidate(strings, entries[n]) && j < |slots|
    requires var name := NameOf(strings, entries[n]);
             var home := Home(name, |slots|);
             && First(entries, strings, name, n) == n
             && Chain(slots, home, j) && slots[Probe(home, j, |slots|)] == 0
    ensures var s := Probe(Home(NameOf(strings, entries[n]), |slots|), j, |slots|);
            IndexOk(entries, strings, slots[s := n + 1], n + 1)
  {
    var name := NameOf(strings, entries[n]);
    var home := Home(name, |slots|);
    var at := Probe(home, j, |slots|);
    var slots' := slots[at := n + 1];
    var m := n + 1;
    forall s | 0 <= s < |slots| ensures SlotOk(entries, strings, slots', m, s) {
      if s == at { assert Chain(slots', home, j); } else { OtherSlotKept(entries, strings, slots, n, at, s); }
    }
    forall i | 0 <= i < m ensures Indexed(entries, strings, slots', m, i) {
      if i == n || !Candidate(strings, entries[i]) || NameOf(strings, entries[i]) == name {
        assert slots'[at] == n + 1;
      } else {
        OtherNameKept(entries, strings, slots, n, at, i);
      }
    }
    FilledUpdate(slots, at, n + 1);
  }

  /** Filling an empty slot shortens no chain. */
  lemma OtherSlotKept(entries: seq<Sym>, strings: seq<bv8>, slots: seq<nat>, n: nat, at: nat, s: nat)
    requires n < |entries| && at < |slots| && s < |slots| && s != at && slots[at] == 0
    requires SlotOk(entries, strings, slots, n, s)
    ensures SlotOk(entries, strings, slots[at := n + 1], n + 1, s)
  {
    if slots[s] != 0 {
      var name := NameOf(strings, entries[slots[s] - 1]);
      FirstGrows(entries, strings, name, n, n + 1);
      var i :| 0 <= i < |slots| && Chain(slots, Home(name, |slots|), i) && Probe(Home(name, |slots|), i, |slots|) == s;
      assert Chain(slots[at := n + 1], Home(name, |slots|), i);
    }
  }

  lemma OtherNameKept(entries: seq<Sym>, strings: seq<bv8>, slots: seq<nat>, n: nat, at: nat, i: nat)
    requires i < n < |entries| && at < |slots| && slots[at] == 0
    requires Candidate(strings, entries[i]) && Indexed(entries, strings, slots, n, i)
    ensures Indexed(entries, strings, slots[at := n + 1], n + 1, i)
  {
    var name := NameOf(strings, entries[i]);
    FirstIs(entries, strings, name, n, i);
    FirstGrows(entries, strings, name, n, n + 1);
    var s :| 0 <= s < |slots| && slots[s] == First(entries, strings, name, n) + 1;
    assert slots[at := n + 1][s] == slots[s];
  }

  /** A walk that stops at an empty slot without a match proves the name undefined. */
  lemma EmptyMeansAbsent(entries: seq<Sym>, strings: seq<bv8>, slots: seq<nat>, n: nat, name: Name, j: nat)
    requires IndexOk(entries, strings, slots, n) && j < |slots|
    requires slots[Probe(Home(name, |slots|), j, |slots|)] == 0
    requires forall i :: 0 <= i < j ==> Unmatched(entries, strings, slots, name, i)
    ensures First(entries, strings, name, n) == n
  {
    if First(entries, strings, name, n) < n {
      var i := DefinedIsReached(entries, strings, slots, n, name);
    }
  }

  /** A defined name sits on its own chain. */
  lemma DefinedIsReached(entries: seq<Sym>, strings: seq<bv8>, slots: seq<nat>, n: nat, name: Name) returns (i: nat)
    requires IndexOk(entries, strings, slots, n) && First(entries, strings, name, n) < n
    ensures i < |slots| && Chain(slots, Home(name, |slots|), i)
    ensures slots[Probe(Home(name, |slots|), i, |slots|)] == First(entries, strings, name, n) + 1
    ensures !Unmatched(entries, strings, slots, name, i)
  {
    var f := First(entries, strings, name, n);
    assert Indexed(entries, strings, slots, n, f);
    var s :| 0 <= s < |slots| && slots[s] == f + 1;
    assert SlotOk(entries, strings, slots, n, s);
    i :| 0 <= i < |slots| && Chain(slots, Home(name, |slots|), i) && Probe(Home(name, |slots|), i, |slots|) == s;
  }

  /** Probe `i` met a symbol of another name. */
  ghost predicate Unmatched(entries: seq<Sym>, strings: seq<bv8>, slots: seq<nat>, name: Name, i: nat) {
    && i < |slots|
    && var e := slots[Probe(Home(name, |slots|), i, |slots|)];
       0 < e <= |entries| && !Matches(strings, entries[e - 1], name)
  }

  /** An occupied slot on the walk names a candidate: the one looked for, or of another name. */
  lemma OccupiedProbe(entries: seq<Sym>, strings: seq<bv8>, slots: seq<nat>, n: nat, name: Name, j: nat)
    requires IndexOk(entries, strings, slots, n) && j < |slots|
    requires slots[Probe(Home(name, |slots|), j, |slots|)] != 0
    ensures var e := slots[Probe(Home(name, |slots|), j, |slots|)];
            && e <= n && Candidate(strings, entries[e - 1])
            && (NameOf(strings, entries[e - 1]) == name ==> First(entries, strings, name, n) == e - 1)
            && (NameOf(strings, entries[e - 1]) != name ==> Unmatched(entries, strings, slots, name, j))
  {
    assert SlotOk(entries, strings, slots, n, Probe(Home(name, |slots|), j, |slots|));
  }

  /** With a free slot left, no walk runs through the whole table. */
  lemma WalkEnds(entries: seq<Sym>, strings: seq<bv8>, slots: seq<nat>, name: Name)
    requires |slots| > 0 && Filled(slots) < |slots|
    ensures exists k :: 0 <= k < |slots| && !Unmatched(entries, strings, slots, name, k)
  {
    if forall k :: 0 <= k < |slots| ==> Unmatched(entries, strings, slots, name, k) {
      var home := Home(name, |slots|);
      forall k | 0 <= k < |slots| ensures slots[Probe(home, k, |slots|)] != 0 {
        assert Unmatched(entries, strings, slots, name, k);
      }
      ChainCovers(slots, home);
    }
  }

  // ------------------------------------------------------------ its capacity

  ghost predicate IsPower(cap: nat) { exists k: nat :: cap == Power2(k) }

  /** `cap` doubled until it reaches `target`. */
  function Grown(cap: nat, target: nat): (c: nat)
    requires cap > 0
    ensures c >= cap && c >= target
    decreases if cap < target then target - cap else 0
  {
    if cap >= target then cap else Grown(2 * cap, target)
  }

  lemma {:induction false} GrownPower(k: nat, target: nat)
    ensures IsPower(Grown(Power2(k), target))
    decreases if Power2(k) < target then target - Power2(k) else 0
  {
    if Power2(k) < target {
      assert Power2(k + 1) == 2 * Power2(k);
      GrownPower(k + 1, target);
    }
  }

  /** The table can be indexed, and the index's bytes can be counted. */
  predicate Indexable(count: nat, defined: nat, sizeMax: nat) {
    && count <= UINT32_MAX && defined > 0 && 2 * defined <= sizeMax
    && 4 * Grown(8, 2 * defined) <= sizeMax
  }

  /** Masking the hash is the remainder by the capacity. */
  lemma Masked(hash: nat, cap: nat)
    requires IsPower(cap)
    ensures cap > 0 && And(hash, cap - 1) == hash % cap
  {
    var k: nat :| cap == Power2(k);
    MaskIsMod(hash, k);
  }

  lemma Stepped(slot: nat, cap: nat)
    requires IsPower(cap) && slot < cap
    ensures And(slot + 1, cap - 1) == if slot + 1 == cap then 0 else slot + 1
  {
    var k: nat :| cap == Power2(k);
    MaskWraps(slot, k);
  }

  class ImageSymbols {
    const entries: seq<Sym>
    const strings: seq<bv8>
    var indexSlots: array?<nat>

    constructor (entries: seq<Sym>, strings: seq<bv8>)
      ensures this.entries == entries && this.strings == strings && indexSlots == null
    {
      this.entries, this.strings, this.indexSlots := entries, strings, null;
    }

    /** Either there is no index, or it is right for the whole table, at most half full, and its size a power of two. */
    ghost predicate Valid() reads this, indexSlots {
      indexSlots != null ==>
        && IndexOk(entries, strings, indexSlots[..], |entries|)
        && 2 * Filled(indexSlots[..]) <= indexSlots.Length
        && IsPower(indexSlots.Length)
    }

    method HashName(name: Name) returns (hash: nat)
      ensures hash == Fnv(name)
    {
      hash := 2166136261;
      var i := 0;
      while i < |name|
        invariant 0 <= i <= |name|
        invariant hash == Fnv(name[..i])
      {
        hash := Mix(hash, name[i]);
        assert name[..i + 1][..i] == name[..i];
        i := i + 1;
      }
      assert name[..i] == name;
    }

    method CountCandidates() returns (count: nat)
      ensures count == Candidates(entries, strings, |entries|)
    {
      count := 0;
      for i := 0 to |entries|
        invariant count == Candidates(entries, strings, i)
      {
        if Candidate(strings, entries[i]) { count := count + 1; }
      }
    }

    /** Builds the index exactly when the table is not too large, has a candidate, and the index's size can be had;
        it is then the smallest power of two, from 8 up, that leaves half the slots free. */
    method BuildIndex(sizeMax: nat, allocOk: bool)
      requires indexSlots == null
      modifies this
      ensures Valid()
      ensures var defined := Candidates(entries, strings, |entries|);
              && (indexSlots != null <==> Indexable(|entries|, defined, sizeMax) && allocOk)
              && (indexSlots != null ==> fresh(indexSlots) && indexSlots.Length == Grown(8, 2 * defined))
    {
      if |entries| > UINT32_MAX { return; }
      var defined := CountCandidates();
      if defined == 0 { return; }
      var ok, capacity := ChooseCapacity(defined, sizeMax);
      if !ok || !allocOk { return; }
      indexSlots := Filling(capacity);
    }

    method ChooseCapacity(defined: nat, sizeMax: nat) returns (ok: bool, capacity: nat)
      requires defined > 0
      ensures ok <==> 2 * defined <= sizeMax && 4 * Grown(8, 2 * defined) <= sizeMax
      ensures ok ==> capacity == Grown(8, 2 * defined) && IsPower(capacity)
    {
      capacity := 8;
      if defined * 2 > sizeMax { return false, capacity; }
      GrownPower(3, defined * 2);
      while capacity < defined * 2
        invariant capacity >= 8 && Grown(capacity, defined * 2) == Grown(8, defined * 2)
        decreases defined * 2 - capacity
      {
        if capacity > sizeMax / 2 { return false, capacity; }
        capacity := capacity * 2;
      }
      return capacity * 4 <= sizeMax, capacity;
    }

    method Filling(capacity: nat) returns (slots: array<nat>)
      requires IsPower(capacity) && 2 * Candidates(entries, strings, |entries|) <= capacity
      requires 0 < Candidates(entries, strings, |entries|)
      ensures fresh(slots) && slots.Length == capacity && IndexOk(entries, strings, slots[..], |entries|)
    {
      slots := new nat[capacity](_ => 0);
      FilledZero(slots[..]);
      for i := 0 to |entries|
        invariant IndexOk(entries, strings, slots[..], i)
        invariant fresh(slots)
      {
        CandidatesMonotone(entries, strings, i, |entries|);
        if Candidate(strings, entries[i]) {
          Insert(slots, i);
        } else {
          SkipKeeps(entries, strings, slots[..], i);
        }
      }
    }

    method Insert(slots: array<nat>, i: nat)
      requires i < |entries| && Candidate(strings, entries[i])
      requires IndexOk(entries, strings, slots[..], i) && Candidates(entries, strings, i) < slots.Length
      requires IsPower(slots.Length)
      modifies slots
      ensures IndexOk(entries, strings, slots[..], i + 1)
    {
      var name := NameOf(strings, entries[i]);
      var hash := HashName(name);
      var capacity := slots.Length;
      ghost var table := slots[..];
      WalkEnds(entries, strings, table, name);
      var mask := capacity - 1;
      Masked(hash, capacity);
      var slot := And(hash, mask);
      var probe := 0;
      while probe < capacity
        invariant 0 <= probe <= capacity
        invariant probe < capacity ==> slot == Probe(Home(name, capacity), probe, capacity)
        invariant Chain(table, Home(name, capacity), probe)
        invariant slots[..] == table
        invariant forall k :: 0 <= k < probe ==> Unmatched(entries, strings, table, name, k)
      {
        var encoded := slots[slot];
        if encoded == 0 {
          EmptyMeansAbsent(entries, strings, table, i, name, probe);
          InsertKeeps(entries, strings, table, i, probe);
          slots[slot] := i + 1;
          return;
        }
        OccupiedProbe(entries, strings, table, i, name, probe);
        if NameOf(strings, entries[encoded - 1]) == name {
          SkipKeeps(entries, strings, table, i);
          return;
        }
        Stepped(slot, capacity);
        slot := And(slot + 1, mask);
        probe := probe + 1;
      }
      assert false;
    }

    /** The first defined symbol of that name, with or without an index. */
    method Find(name: Name) returns (r: Option<nat>)
      requires Valid()
      ensures r == Lookup(entries, strings, name)
    {
      if indexSlots != null { r := FindIndexed(name, indexSlots); } else { r := FindScan(name); }
    }

    method FindIndexed(name: Name, slots: array<nat>) returns (r: Option<nat>)
      requires IndexOk(entries, strings, slots[..], |entries|) && IsPower(slots.Length)
      requires 2 * Filled(slots[..]) <= slots.Length
      ensures r == Lookup(entries, strings, name)
    {
      var capacity, mask := slots.Length, slots.Length - 1;
      var hash := HashName(name);
      ghost var table := slots[..];
      WalkEnds(entries, strings, table, name);
      Masked(hash, capacity);
      var slot := And(hash, mask);
      var probe := 0;
      while probe < capacity
        invariant 0 <= probe <= capacity
        invariant probe < capacity ==> slot == Probe(Home(name, capacity), probe, capacity)
        invariant forall k :: 0 <= k < probe ==> Unmatched(entries, strings, table, name, k)
      {
        var encoded := slots[slot];
        if encoded == 0 {
          EmptyMeansAbsent(entries, strings, table, |entries|, name, probe);
          return None;
        }
        OccupiedProbe(entries, strings, table, |entries|, name, probe);
        if NameOf(strings, entries[encoded - 1]) == name { return Some(encoded - 1); }
        Stepped(slot, capacity);
        slot := And(slot + 1, mask);
        probe := probe + 1;
      }
      assert false;
    }

    method FindScan(name: Name) returns (r: Option<nat>)
      ensures r == Lookup(entries, strings, name)
    {
      for i := 0 to |entries|
        invariant First(entries, strings, name, i) == i
      {
        if Matches(strings, entries[i], name) {
          FirstGrows(entries, strings, name, i + 1, |entries|);
          return Some(i);
        }
      }
      return None;
    }
  }
}
