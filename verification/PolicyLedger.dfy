/**
 The temporary SELinux allowance ledger: a table of reference counts, one per
 permission bit of a (source, target, class) key, kept in step with the live
 policy through copy-edit-swap commits.

 A 32-bit access vector is modelled as the set of its one bits.
 */
module PolicyLedger {

  const RULE_MAX := 64
  const PERM_BITS := 32
  const U16_MODULUS := 0x1_0000

  newtype Bit = b: int | 0 <= b < 32

  type Mask = set<Bit>

  datatype Key = Key(src: nat, tgt: nat, tclass: nat)

  /** One permission vector for one key: a part of a request, a plan or a grant. */
  datatype Part = Part(key: Key, av: Mask)

  datatype Rule = Rule(used: bool, key: Key, refs: seq<nat>)

  /** The allow rules of a policy database; a missing node allows nothing. */
  type Policy = map<Key, Mask>

  datatype Status = Ok | NoEntry | NoSpace | Overflow | Invalid | CommitFailed

  const ZERO_KEY := Key(0, 0, 0)

  function ZeroRefs(): (r: seq<nat>)
    ensures |r| == PERM_BITS && forall b :: 0 <= b < PERM_BITS ==> r[b] == 0
  {
    seq(PERM_BITS, _ => 0)
  }

  function FreeRule(): Rule { Rule(false, ZERO_KEY, ZeroRefs()) }

  // ---------------------------------------------------------------- the table

  function Av(p: Policy, k: Key): Mask {
    if k in p then p[k] else {}
  }

  /** The first used slot holding `k`, or -1. */
  function FindFrom(rules: seq<Rule>, k: Key, i: nat): (r: int)
    requires i <= |rules|
    ensures r == -1 || i <= r < |rules|
    ensures 0 <= r ==> rules[r].used && rules[r].key == k
    ensures r == -1 ==> forall j :: i <= j < |rules| ==> !(rules[j].used && rules[j].key == k)
    ensures 0 <= r ==> forall j :: i <= j < r ==> !(rules[j].used && rules[j].key == k)
    decreases |rules| - i
  {
    if i == |rules| then -1
    else if rules[i].used && rules[i].key == k then i
    else FindFrom(rules, k, i + 1)
  }

  function Find(rules: seq<Rule>, k: Key): int { FindFrom(rules, k, 0) }

  /** The first free slot, or -1. */
  function FindFreeFrom(rules: seq<Rule>, i: nat): (r: int)
    requires i <= |rules|
    ensures r == -1 || i <= r < |rules|
    ensures 0 <= r ==> !rules[r].used
    ensures r == -1 ==> forall j :: i <= j < |rules| ==> rules[j].used
    decreases |rules| - i
  {
    if i == |rules| then -1
    else if !rules[i].used then i
    else FindFreeFrom(rules, i + 1)
  }

  function FindFree(rules: seq<Rule>): int { FindFreeFrom(rules, 0) }

  /** Slots have 32 counters that fit 16 bits; used slots have distinct keys and a live counter. */
  ghost predicate ValidTable(rules: seq<Rule>) {
    && (forall i :: 0 <= i < |rules| ==> ValidRule(rules[i]))
    && (forall i, j :: 0 <= i < j < |rules| && rules[i].used && rules[j].used ==> rules[i].key != rules[j].key)
  }

  ghost predicate ValidRule(r: Rule) {
    && |r.refs| == PERM_BITS
    && (forall b :: 0 <= b < PERM_BITS ==> r.refs[b] < U16_MODULUS)
    && (r.used ==> Live(r.refs))
  }

  predicate Live(refs: seq<nat>) {
    exists b :: 0 <= b < |refs| && refs[b] != 0
  }

  predicate Shaped(rules: seq<Rule>) {
    forall i :: 0 <= i < |rules| ==> |rules[i].refs| == PERM_BITS
  }

  function Refs(rules: seq<Rule>, k: Key, b: Bit): nat
    requires Shaped(rules)
  {
    var i := Find(rules, k);
    if i < 0 then 0 else rules[i].refs[b as int]
  }

  /** The bits of `k` some grant holds. */
  function Owned(rules: seq<Rule>, k: Key): Mask
    requires Shaped(rules)
  {
    set b: Bit | Refs(rules, k, b) != 0
  }

  function AddBits(refs: seq<nat>, av: Mask): seq<nat>
    requires |refs| == PERM_BITS
  {
    seq(PERM_BITS, j requires 0 <= j < PERM_BITS =>
      if (j as Bit) in av then (refs[j] + 1) % U16_MODULUS else refs[j])
  }

  function DropBits(refs: seq<nat>, av: Mask): seq<nat>
    requires |refs| == PERM_BITS
  {
    seq(PERM_BITS, j requires 0 <= j < PERM_BITS =>
      if (j as Bit) in av && refs[j] != 0 then refs[j] - 1 else refs[j])
  }

  /** Take one reference on each bit of `p.av`; with no slot for a new key the request is dropped. */
  function AddPart(rules: seq<Rule>, p: Part): (r: seq<Rule>)
    requires Shaped(rules)
    ensures |r| == |rules| && Shaped(r)
  {
    if p.av == {} then rules else
    var i := Find(rules, p.key);
    if 0 <= i then rules[i := rules[i].(refs := AddBits(rules[i].refs, p.av))] else
    if FindFree(rules) < 0 then rules
    else rules[FindFree(rules) := Rule(true, p.key, AddBits(ZeroRefs(), p.av))]
  }

  function ReleaseRule(r: Rule, av: Mask): (r': Rule)
    requires |r.refs| == PERM_BITS
    ensures |r'.refs| == PERM_BITS
  {
    if Live(DropBits(r.refs, av)) then r.(refs := DropBits(r.refs, av)) else FreeRule()
  }

  /** Drop one reference on each bit of `p.av`; a rule with no reference left frees its slot. */
  function ReleasePart(rules: seq<Rule>, p: Part): (r: seq<Rule>)
    requires Shaped(rules)
    ensures |r| == |rules| && Shaped(r)
  {
    var i := Find(rules, p.key);
    if p.av == {} || i < 0 then rules
    else rules[i := ReleaseRule(rules[i], p.av)]
  }

  /** The bits whose last reference this release drops. */
  function PlanRelease(rules: seq<Rule>, p: Part): Part
    requires Shaped(rules)
  {
    if p.av != {} && Find(rules, p.key) < 0 then p
    else Part(p.key, set b: Bit | b in p.av && Refs(rules, p.key, b) <= 1)
  }

  function AddAll(rules: seq<Rule>, ps: seq<Part>): (r: seq<Rule>)
    requires Shaped(rules)
    ensures |r| == |rules| && Shaped(r)
    decreases |ps|
  {
    if ps == [] then rules else AddAll(AddPart(rules, ps[0]), ps[1..])
  }

  function ReleaseAll(rules: seq<Rule>, ps: seq<Part>): (r: seq<Rule>)
    requires Shaped(rules)
    ensures |r| == |rules| && Shaped(r)
    decreases |ps|
  {
    if ps == [] then rules else ReleaseAll(ReleasePart(rules, ps[0]), ps[1..])
  }

  function PlanReleaseAll(rules: seq<Rule>, ps: seq<Part>): (r: seq<Part>)
    requires Shaped(rules)
    ensures |r| == |ps|
    ensures forall i :: 0 <= i < |ps| ==> r[i] == PlanRelease(rules, ps[i])
  {
    if ps == [] then [] else [PlanRelease(rules, ps[0])] + PlanReleaseAll(rules, ps[1..])
  }

  // ------------------------------------------------------------- the policy

  function AllowPart(p: Policy, part: Part): Policy {
    if part.av == {} then p else p[part.key := Av(p, part.key) + part.av]
  }

  /** Clearing the last bit of a node removes the node. */
  function RevokePart(p: Policy, part: Part): Policy {
    if part.av == {} || part.key !in p then p
    else if p[part.key] - part.av == {} then p - {part.key}
    else p[part.key := p[part.key] - part.av]
  }

  function AllowParts(p: Policy, ps: seq<Part>): Policy
    decreases |ps|
  {
    if ps == [] then p else AllowParts(AllowPart(p, ps[0]), ps[1..])
  }

  function RevokeParts(p: Policy, ps: seq<Part>): Policy
    decreases |ps|
  {
    if ps == [] then p else RevokeParts(RevokePart(p, ps[0]), ps[1..])
  }

  predicate NoBits(ps: seq<Part>) {
    forall i :: 0 <= i < |ps| ==> ps[i].av == {}
  }

  // ----------------------------------------------------------- counting bits

  function Has(p: Part, k: Key, b: Bit): nat {
    if p.key == k && b in p.av then 1 else 0
  }

  /** How many of `ps` hold bit `b` of key `k`. */
  function Holds(ps: seq<Part>, k: Key, b: Bit): nat {
    if ps == [] then 0 else Has(ps[0], k, b) + Holds(ps[1..], k, b)
  }

  /** No two parts of one grant hold the same bit of the same key. */
  ghost predicate NoOverlap(ps: seq<Part>) {
    forall k, b :: Holds(ps, k, b) <= 1
  }

  /** The number of free slots. */
  function FreeSlots(rules: seq<Rule>): nat {
    if rules == [] then 0 else (if rules[0].used then 0 else 1) + FreeSlots(rules[1..])
  }

  /** The keys of `ps` that need a slot of their own. */
  function NewKeys(rules: seq<Rule>, ps: seq<Part>): set<Key> {
    set i | 0 <= i < |ps| && ps[i].av != {} && Find(rules, ps[i].key) < 0 :: ps[i].key
  }

  /** Every new key of the grant finds a slot. Each part is validated alone, so this is not implied. */
  predicate Room(rules: seq<Rule>, ps: seq<Part>) {
    |NewKeys(rules, ps)| <= FreeSlots(rules)
  }

  predicate NoSaturation(rules: seq<Rule>, ps: seq<Part>)
    requires Shaped(rules)
  {
    forall i, b: Bit :: 0 <= i < |ps| && b in ps[i].av ==> Refs(rules, ps[i].key, b) < U16_MODULUS - 1
  }

  /** No 16-bit counter wraps when the grant is added. */
  ghost predicate NoWrap(rules: seq<Rule>, ps: seq<Part>)
    requires Shaped(rules)
  {
    forall k, b :: Refs(rules, k, b) + Holds(ps, k, b) < U16_MODULUS
  }

  // ---------------------------------------------------------- table lemmas

  /** In a valid table a key has one slot. */
  lemma FindUnique(rules: seq<Rule>, i: nat)
    requires ValidTable(rules) && i < |rules| && rules[i].used
    ensures Find(rules, rules[i].key) == i
  {
    var r := Find(rules, rules[i].key);
    assert 0 <= r <= i;
  }

  /** Writing slot `i` keeps every other key's counters. */
  lemma UpdateRefs(rules: seq<Rule>, i: nat, r: Rule, k: Key, b: Bit)
    requires ValidTable(rules) && i < |rules| && ValidRule(r)
    requires ValidTable(rules[i := r])
    ensures Refs(rules[i := r], k, b) ==
            if r.used && r.key == k then r.refs[b as int]
            else if rules[i].used && rules[i].key == k then 0
            else Refs(rules, k, b)
  {
    var rules' := rules[i := r];
    var j := Find(rules', k);
    if r.used && r.key == k {
      FindUnique(rules', i);
    } else if rules[i].used && rules[i].key == k {
      FindUnique(rules, i);
      assert forall m :: 0 <= m < |rules| && m != i && rules[m].used ==> rules[m].key != k;
    } else {
      if 0 <= j { assert rules[j] == rules'[j]; FindUnique(rules, j); }
      var m := Find(rules, k);
      if 0 <= m { assert rules'[m] == rules[m]; FindUnique(rules', m); }
    }
  }

  /** Adding a part takes exactly one reference on each of its bits, provided a slot is there. */
  lemma AddPartRefs(rules: seq<Rule>, p: Part)
    requires ValidTable(rules)
    requires p.av != {} && Find(rules, p.key) < 0 ==> 0 <= FindFree(rules)
    requires NoSaturation(rules, [p])
    ensures ValidTable(AddPart(rules, p))
    ensures forall k, b :: Refs(AddPart(rules, p), k, b) == Refs(rules, k, b) + Has(p, k, b)
  {
    if p.av == {} { return; }
    var i := Find(rules, p.key);
    var s := if 0 <= i then i else FindFree(rules);
    var r := Rule(true, p.key, AddBits(if 0 <= i then rules[i].refs else ZeroRefs(), p.av));
    assert AddPart(rules, p) == rules[s := r];
    assert ValidRule(r) by {
      var b :| b in p.av;
      if 0 <= i { assert [p][0].av == p.av; assert Refs(rules, p.key, b) < U16_MODULUS - 1; }
      assert r.refs[b as int] != 0;
    }
    assert ValidTable(rules[s := r]);
    forall k, b: Bit ensures Refs(AddPart(rules, p), k, b) == Refs(rules, k, b) + Has(p, k, b) {
      UpdateRefs(rules, s, r, k, b);
      assert [p][0] == p;
    }
  }

  /** Releasing a part drops exactly one reference on each of its bits. */
  lemma ReleasePartRefs(rules: seq<Rule>, p: Part)
    requires ValidTable(rules)
    requires forall b :: b in p.av ==> Refs(rules, p.key, b) != 0
    ensures ValidTable(ReleasePart(rules, p))
    ensures forall k, b :: Refs(ReleasePart(rules, p), k, b) == Refs(rules, k, b) - Has(p, k, b)
  {
    var i := Find(rules, p.key);
    if p.av == {} || i < 0 { return; }
    var r := ReleaseRule(rules[i], p.av);
    assert ReleasePart(rules, p) == rules[i := r];
    assert ValidRule(r);
    assert ValidTable(rules[i := r]);
    forall k, b: Bit ensures Refs(ReleasePart(rules, p), k, b) == Refs(rules, k, b) - Has(p, k, b) {
      UpdateRefs(rules, i, r, k, b);
      if k == p.key {
        assert DropBits(rules[i].refs, p.av)[b as int] == Refs(rules, k, b) - Has(p, k, b);
      }
    }
  }

  lemma SlotsAfterUpdate(rules: seq<Rule>, i: nat, r: Rule)
    requires i < |rules| && !rules[i].used && r.used
    ensures FreeSlots(rules[i := r]) == FreeSlots(rules) - 1
  {
    if i == 0 {
      assert rules[i := r][1..] == rules[1..];
    } else {
      assert rules[i := r][1..] == rules[1..][i - 1 := r];
      SlotsAfterUpdate(rules[1..], i - 1, r);
    }
  }

  lemma SlotsAfterRefs(rules: seq<Rule>, i: nat, r: Rule)
    requires i < |rules| && rules[i].used && r.used
    ensures FreeSlots(rules[i := r]) == FreeSlots(rules)
  {
    if i == 0 {
      assert rules[i := r][1..] == rules[1..];
    } else {
      assert rules[i := r][1..] == rules[1..][i - 1 := r];
      SlotsAfterRefs(rules[1..], i - 1, r);
    }
  }

  lemma NoFreeSlots(rules: seq<Rule>)
    requires FindFree(rules) < 0
    ensures FreeSlots(rules) == 0
  {
    if rules != [] {
      assert forall j :: 0 <= j < |rules[1..]| ==> rules[1..][j] == rules[j + 1];
      NoFreeSlots(rules[1..]);
    }
  }

  /** With room for all new keys, the first part finds its slot and room is left for the rest. */
  lemma RoomForFirst(rules: seq<Rule>, ps: seq<Part>)
    requires ps != [] && ValidTable(rules) && Room(rules, ps)
    requires NoSaturation(rules, [ps[0]])
    ensures ps[0].av != {} && Find(rules, ps[0].key) < 0 ==> 0 <= FindFree(rules)
    ensures Room(AddPart(rules, ps[0]), ps[1..])
  {
    var p := ps[0];
    if p.av != {} && Find(rules, p.key) < 0 {
      assert p.key in NewKeys(rules, ps);
      if FindFree(rules) < 0 { NoFreeSlots(rules); }
    }
    AddPartRefs(rules, p);
    var rules' := AddPart(rules, p);
    var after := NewKeys(rules', ps[1..]);
    forall k | k in after ensures k in NewKeys(rules, ps) && !(p.av != {} && k == p.key) {
      var i :| 0 <= i < |ps[1..]| && ps[1..][i].av != {} && Find(rules', ps[1..][i].key) < 0 && ps[1..][i].key == k;
      assert ps[i + 1].key == k;
      KeptKeys(rules, p, k);
    }
    if p.av == {} {
      SubsetSize(after, NewKeys(rules, ps));
    } else if Find(rules, p.key) < 0 {
      SlotsAfterUpdate(rules, FindFree(rules), Rule(true, p.key, AddBits(ZeroRefs(), p.av)));
      SubsetSize(after, NewKeys(rules, ps) - {p.key});
    } else {
      var i := Find(rules, p.key);
      SlotsAfterRefs(rules, i, rules[i].(refs := AddBits(rules[i].refs, p.av)));
      SubsetSize(after, NewKeys(rules, ps));
    }
  }

  /** Adding a part loses no key, and gives its own key a slot if one is free. */
  lemma KeptKeys(rules: seq<Rule>, p: Part, k: Key)
    requires ValidTable(rules)
    ensures 0 <= Find(rules, k) ==> 0 <= Find(AddPart(rules, p), k)
    ensures p.av != {} && 0 <= FindFree(rules) ==> 0 <= Find(AddPart(rules, p), p.key)
  {
    var rules' := AddPart(rules, p);
    var i := Find(rules, k);
    if 0 <= i { assert rules'[i].used && rules'[i].key == k; }
    if p.av != {} && 0 <= FindFree(rules) {
      var s := if 0 <= Find(rules, p.key) then Find(rules, p.key) else FindFree(rules);
      assert rules'[s].used && rules'[s].key == p.key;
    }
  }

  lemma SubsetSize<T>(a: set<T>, b: set<T>)
    requires a <= b
    ensures |a| <= |b|
  {
    assert b == a + (b - a);
  }

  /** Adding a whole grant takes one reference per part and bit. */
  lemma {:induction false} AddAllRefs(rules: seq<Rule>, ps: seq<Part>)
    requires ValidTable(rules) && Room(rules, ps) && NoWrap(rules, ps)
    ensures ValidTable(AddAll(rules, ps))
    ensures forall k, b :: Refs(AddAll(rules, ps), k, b) == Refs(rules, k, b) + Holds(ps, k, b)
    decreases |ps|
  {
    if ps == [] { return; }
    forall i, b: Bit | 0 <= i < |[ps[0]]| && b in [ps[0]][i].av
      ensures Refs(rules, [ps[0]][i].key, b) < U16_MODULUS - 1
    {
      assert Refs(rules, ps[0].key, b) + Holds(ps, ps[0].key, b) < U16_MODULUS;
    }
    RoomForFirst(rules, ps);
    AddPartRefs(rules, ps[0]);
    var rules' := AddPart(rules, ps[0]);
    forall k, b
      ensures Refs(rules', k, b) + Holds(ps[1..], k, b) == Refs(rules, k, b) + Holds(ps, k, b) < U16_MODULUS
    {
      assert Refs(rules', k, b) == Refs(rules, k, b) + Has(ps[0], k, b);
    }
    AddAllRefs(rules', ps[1..]);
  }

  /** Disjoint parts of unsaturated counters do not wrap. */
  lemma NoOverlapNoWrap(rules: seq<Rule>, ps: seq<Part>)
    requires ValidTable(rules) && NoOverlap(ps) && NoSaturation(rules, ps)
    ensures NoWrap(rules, ps)
  {
    forall k, b ensures Refs(rules, k, b) + Holds(ps, k, b) < U16_MODULUS {
      assert Holds(ps, k, b) <= 1;
      if Holds(ps, k, b) == 1 { HeldBit(ps, k, b); }
    }
  }

  lemma HeldBit(ps: seq<Part>, k: Key, b: Bit)
    requires Holds(ps, k, b) != 0
    ensures exists i :: 0 <= i < |ps| && ps[i].key == k && b in ps[i].av
  {
    if Has(ps[0], k, b) == 0 {
      HeldBit(ps[1..], k, b);
      var i :| 0 <= i < |ps[1..]| && ps[1..][i].key == k && b in ps[1..][i].av;
      assert ps[i + 1] == ps[1..][i];
    }
  }

  function UsedKeys(rules: seq<Rule>): set<Key> {
    if rules == [] then {} else (if rules[0].used then {rules[0].key} else {}) + UsedKeys(rules[1..])
  }

  lemma KeyUsed(rules: seq<Rule>, k: Key)
    ensures k in UsedKeys(rules) <==> exists i :: 0 <= i < |rules| && rules[i].used && rules[i].key == k
  {
    if rules != [] {
      KeyUsed(rules[1..], k);
      assert forall j :: 0 <= j < |rules[1..]| ==> rules[1..][j] == rules[j + 1];
    }
  }

  /** Distinct keys fill distinct slots. */
  lemma {:induction false} UsedKeysFit(rules: seq<Rule>)
    ensures |UsedKeys(rules)| + FreeSlots(rules) <= |rules|
    ensures ValidTable(rules) ==> |UsedKeys(rules)| + FreeSlots(rules) == |rules|
  {
    if rules == [] { return; }
    UsedKeysFit(rules[1..]);
    assert forall j :: 0 <= j < |rules[1..]| ==> rules[1..][j] == rules[j + 1];
    KeyUsed(rules[1..], rules[0].key);
  }

  lemma {:induction false} AddAllKeepsKeys(rules: seq<Rule>, ps: seq<Part>, k: Key)
    requires Shaped(rules)
    ensures k in UsedKeys(rules) ==> k in UsedKeys(AddAll(rules, ps))
    decreases |ps|
  {
    if ps == [] { return; }
    var rules' := AddPart(rules, ps[0]);
    KeyUsed(rules, k);
    KeyUsed(rules', k);
    if k in UsedKeys(rules) {
      var j :| 0 <= j < |rules| && rules[j].used && rules[j].key == k;
      assert rules'[j].used && rules'[j].key == k;
    }
    AddAllKeepsKeys(rules', ps[1..], k);
  }

  /** A grant is recorded exactly if and only if there is room for all its new keys at once. */
  lemma RecordedIffRoom(rules: seq<Rule>, ps: seq<Part>)
    requires ValidTable(rules) && NoWrap(rules, ps)
    ensures (forall k, b :: Refs(AddAll(rules, ps), k, b) == Refs(rules, k, b) + Holds(ps, k, b))
            <==> Room(rules, ps)
  {
    if Room(rules, ps) { AddAllRefs(rules, ps); }
    var rules' := AddAll(rules, ps);
    if forall k, b :: Refs(rules', k, b) == Refs(rules, k, b) + Holds(ps, k, b) {
      var added := NewKeys(rules, ps);
      forall k | k in added ensures k in UsedKeys(rules') {
        var i :| 0 <= i < |ps| && ps[i].av != {} && Find(rules, ps[i].key) < 0 && ps[i].key == k;
        var b :| b in ps[i].av;
        HoldsAt(ps, i, b);
        assert Refs(rules', k, b) != 0;
        assert rules'[Find(rules', k)].key == k;
        KeyUsed(rules', k);
      }
      forall k | k in UsedKeys(rules) ensures k in UsedKeys(rules') && k !in added {
        AddAllKeepsKeys(rules, ps, k);
        KeyUsed(rules, k);
      }
      assert |added + UsedKeys(rules)| == |added| + |UsedKeys(rules)|;
      SubsetSize(added + UsedKeys(rules), UsedKeys(rules'));
      UsedKeysFit(rules);
      UsedKeysFit(rules');
    }
  }

  lemma HoldsAt(ps: seq<Part>, i: nat, b: Bit)
    requires i < |ps| && b in ps[i].av
    ensures Holds(ps, ps[i].key, b) >= 1
  {
    if i > 0 { HoldsAt(ps[1..], i - 1, b); }
  }

  /** Releasing a whole grant drops one reference per part and bit. */
  lemma {:induction false} ReleaseAllRefs(rules: seq<Rule>, ps: seq<Part>)
    requires ValidTable(rules)
    requires forall k, b :: Holds(ps, k, b) <= Refs(rules, k, b)
    ensures ValidTable(ReleaseAll(rules, ps))
    ensures forall k, b :: Refs(ReleaseAll(rules, ps), k, b) == Refs(rules, k, b) - Holds(ps, k, b)
    decreases |ps|
  {
    if ps == [] { return; }
    forall b | b in ps[0].av ensures Refs(rules, ps[0].key, b) != 0 {
      assert Holds(ps, ps[0].key, b) <= Refs(rules, ps[0].key, b);
    }
    ReleasePartRefs(rules, ps[0]);
    var rules' := ReleasePart(rules, ps[0]);
    forall k, b ensures Holds(ps[1..], k, b) <= Refs(rules', k, b) {
      assert Holds(ps, k, b) <= Refs(rules, k, b);
      assert Refs(rules', k, b) == Refs(rules, k, b) - Has(ps[0], k, b);
    }
    ReleaseAllRefs(rules', ps[1..]);
    forall k, b ensures Refs(ReleaseAll(rules, ps), k, b) == Refs(rules, k, b) - Holds(ps, k, b) {
      assert Refs(rules', k, b) == Refs(rules, k, b) - Has(ps[0], k, b);
    }
  }

  // --------------------------------------------------------- policy lemmas

  function BitsOf(ps: seq<Part>, k: Key): Mask {
    set b: Bit | Holds(ps, k, b) != 0
  }

  lemma {:induction false} AllowPartsAv(p: Policy, ps: seq<Part>, k: Key)
    ensures Av(AllowParts(p, ps), k) == Av(p, k) + BitsOf(ps, k)
    decreases |ps|
  {
    if ps != [] { AllowPartsAv(AllowPart(p, ps[0]), ps[1..], k); }
  }

  lemma {:induction false} RevokePartsAv(p: Policy, ps: seq<Part>, k: Key)
    ensures Av(RevokeParts(p, ps), k) == Av(p, k) - BitsOf(ps, k)
    decreases |ps|
  {
    if ps != [] { RevokePartsAv(RevokePart(p, ps[0]), ps[1..], k); }
  }
}
