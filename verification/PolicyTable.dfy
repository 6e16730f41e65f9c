/**
 The ledger as the kernel keeps it: a fixed array of rules updated in place by
 loops over slots and bits, and a policy replaced as a whole by a successful edit.
 Each method is proved equal to its specification in PolicyLedger and PolicyGrants.
 */
module PolicyTable {
  import opened PolicyLedger
  import G = PolicyGrants

  /** Which steps of an edit the environment makes fail: 0 is the copy, i + 1 is applying part i. */
  type Faults = set<nat>

  predicate EditOk(ps: seq<Part>, faults: Faults) {
    0 !in faults && forall i :: 0 <= i < |ps| && ps[i].av != {} ==> i + 1 !in faults
  }

  class TempRules {
    const rules: array<Rule>
    var policy: Policy

    ghost predicate Valid() reads this, rules {
      rules.Length == RULE_MAX && Shaped(rules[..])
    }

    constructor (orig: Policy)
      ensures Valid() && fresh(rules)
      ensures rules[..] == G.Initial(orig).rules && policy == orig
    {
      rules := new Rule[RULE_MAX](_ => FreeRule());
      policy := orig;
    }

    method FindSlot(k: Key) returns (slot: int)
      requires Valid()
      ensures slot == Find(rules[..], k)
    {
      ghost var table := rules[..];
      slot := 0;
      while slot < rules.Length
        invariant 0 <= slot <= rules.Length
        invariant Find(table, k) == FindFrom(table, k, slot)
      {
        if rules[slot].used && rules[slot].key == k { return; }
        slot := slot + 1;
      }
      slot := -1;
    }

    method FindFreeSlot() returns (slot: int)
      requires Valid()
      ensures slot == FindFree(rules[..])
    {
      ghost var table := rules[..];
      slot := 0;
      while slot < rules.Length
        invariant 0 <= slot <= rules.Length
        invariant FindFree(table) == FindFreeFrom(table, slot)
      {
        if !rules[slot].used { return; }
        slot := slot + 1;
      }
      slot := -1;
    }

    method OwnedMask(k: Key) returns (mask: Mask)
      requires Valid()
      ensures mask == Owned(rules[..], k)
    {
      mask := {};
      var slot := FindSlot(k);
      if slot < 0 { return; }
      var i := 0;
      while i < PERM_BITS
        invariant 0 <= i <= PERM_BITS
        invariant mask == set b: Bit | b as int < i && Refs(rules[..], k, b) != 0
      {
        if rules[slot].refs[i] != 0 { mask := mask + {i as Bit}; }
        i := i + 1;
      }
    }

    method ValidateAdd(p: Part) returns (status: Status)
      requires Valid()
      ensures status == G.ValidateAdd(rules[..], p)
    {
      if p.av == {} { return Ok; }
      var slot := FindSlot(p.key);
      var free := FindFreeSlot();
      if slot < 0 && free < 0 { return NoSpace; }
      if 0 <= slot {
        var i := 0;
        while i < PERM_BITS
          invariant 0 <= i <= PERM_BITS
          invariant forall b: Bit :: b as int < i && b in p.av ==> Refs(rules[..], p.key, b) != U16_MODULUS - 1
        {
          if (i as Bit) in p.av && rules[slot].refs[i] == U16_MODULUS - 1 {
            assert Refs(rules[..], p.key, i as Bit) == U16_MODULUS - 1;
            return Overflow;
          }
          i := i + 1;
        }
      }
      return Ok;
    }

    method Add(p: Part)
      requires Valid()
      modifies rules
      ensures Valid() && rules[..] == AddPart(old(rules[..]), p)
    {
      if p.av == {} { return; }
      var slot := FindSlot(p.key);
      if slot < 0 {
        slot := FindFreeSlot();
        if slot < 0 { return; }
        rules[slot] := Rule(true, p.key, ZeroRefs());
      }
      ghost var start := rules[slot].refs;
      ghost var table := rules[..];
      var i := 0;
      while i < PERM_BITS
        invariant 0 <= i <= PERM_BITS
        invariant rules[..] == table[slot := table[slot].(refs := rules[slot].refs)]
        invariant |rules[slot].refs| == PERM_BITS
        invariant forall j :: 0 <= j < PERM_BITS ==>
          rules[slot].refs[j] == if j < i then AddBits(start, p.av)[j] else start[j]
      {
        if (i as Bit) in p.av {
          rules[slot] := rules[slot].(refs := rules[slot].refs[i := (rules[slot].refs[i] + 1) % U16_MODULUS]);
        }
        i := i + 1;
      }
      assert rules[slot].refs == AddBits(start, p.av);
    }

    method PlanReleaseOf(p: Part) returns (clear: Part)
      requires Valid()
      ensures clear == PlanRelease(rules[..], p)
    {
      var mask: Mask := {};
      if p.av == {} {
        assert PlanRelease(rules[..], p).av == {};
        return Part(p.key, {});
      }
      var slot := FindSlot(p.key);
      if slot < 0 { return p; }
      var i := 0;
      while i < PERM_BITS
        invariant 0 <= i <= PERM_BITS
        invariant mask == set b: Bit | b as int < i && b in p.av && rules[slot].refs[b as int] <= 1
      {
        if (i as Bit) in p.av && rules[slot].refs[i] <= 1 { mask := mask + {i as Bit}; }
        i := i + 1;
      }
      clear := Part(p.key, mask);
      assert mask == PlanRelease(rules[..], p).av;
    }

    method Release(p: Part)
      requires Valid()
      modifies rules
      ensures Valid() && rules[..] == ReleasePart(old(rules[..]), p)
    {
      if p.av == {} { return; }
      var slot := FindSlot(p.key);
      if slot < 0 { return; }
      ghost var start := rules[slot].refs;
      ghost var table := rules[..];
      var i := 0;
      while i < PERM_BITS
        invariant 0 <= i <= PERM_BITS
        invariant rules[..] == table[slot := table[slot].(refs := rules[slot].refs)]
        invariant |rules[slot].refs| == PERM_BITS
        invariant forall j :: 0 <= j < PERM_BITS ==>
          rules[slot].refs[j] == if j < i then DropBits(start, p.av)[j] else start[j]
      {
        if (i as Bit) in p.av && rules[slot].refs[i] != 0 {
          rules[slot] := rules[slot].(refs := rules[slot].refs[i := rules[slot].refs[i] - 1]);
        }
        i := i + 1;
      }
      assert rules[slot].refs == DropBits(start, p.av);
      var any := false;
      i := 0;
      while i < PERM_BITS && !any
        invariant 0 <= i <= PERM_BITS
        invariant any ==> Live(rules[slot].refs)
        invariant !any ==> forall j :: 0 <= j < i ==> rules[slot].refs[j] == 0
        decreases PERM_BITS - i, !any
      {
        if rules[slot].refs[i] != 0 { any := true; } else { i := i + 1; }
      }
      if !any { rules[slot] := FreeRule(); }
    }

    method PlanAllow(p: Part) returns (status: Status, request: Part, commit: Part)
      requires Valid()
      ensures status == G.PlanStatus(rules[..], policy, p)
      ensures status == Ok ==>
                && request == G.RequestOf(rules[..], policy, p)
                && commit == G.CommitOf(rules[..], policy, p)
      ensures status != Ok ==> request.av == {} && commit.av == {}
    {
      request, commit := Part(p.key, {}), Part(p.key, {});
      if p.av == {} { return NoEntry, request, commit; }
      var direct := Av(policy, p.key);
      var owned := OwnedMask(p.key);
      var wanted := Part(p.key, p.av - (direct - owned));
      if wanted.av == {} {
        assert G.CommitOf(rules[..], policy, p).av == {};
        return Ok, request, commit;
      }
      status := ValidateAdd(wanted);
      if status == Ok {
        request, commit := wanted, Part(p.key, wanted.av - owned);
      }
    }

    /** Copy the policy, apply every part, swap the copy in; any failure leaves the policy alone. */
    method CommitAllow(ps: seq<Part>, faults: Faults) returns (status: Status)
      modifies this`policy
      ensures status == G.CommitStatus(ps, EditOk(ps, faults))
      ensures policy == if status == Ok then AllowParts(old(policy), ps) else old(policy)
    {
      if NoBits(ps) { NoBitsNoChange(policy, ps); return Ok; }
      if 0 in faults { return CommitFailed; }
      var edit := policy;
      var i := 0;
      while i < |ps|
        invariant 0 <= i <= |ps|
        invariant forall j :: 0 <= j < i && ps[j].av != {} ==> j + 1 !in faults
        invariant AllowParts(policy, ps) == AllowParts(edit, ps[i..])
      {
        if ps[i].av != {} && i + 1 in faults { return CommitFailed; }
        edit := AllowPart(edit, ps[i]);
        assert ps[i..][1..] == ps[i + 1..];
        i := i + 1;
      }
      policy := edit;
      return Ok;
    }

    method CommitRestore(ps: seq<Part>, faults: Faults) returns (status: Status)
      modifies this`policy
      ensures status == G.CommitStatus(ps, EditOk(ps, faults))
      ensures policy == if status == Ok then RevokeParts(old(policy), ps) else old(policy)
    {
      if NoBits(ps) { NoBitsNoChange(policy, ps); return Ok; }
      if 0 in faults { return CommitFailed; }
      var edit := policy;
      var i := 0;
      while i < |ps|
        invariant 0 <= i <= |ps|
        invariant forall j :: 0 <= j < i && ps[j].av != {} ==> j + 1 !in faults
        invariant RevokeParts(policy, ps) == RevokeParts(edit, ps[i..])
      {
        if ps[i].av != {} && i + 1 in faults { return CommitFailed; }
        edit := RevokePart(edit, ps[i]);
        assert ps[i..][1..] == ps[i + 1..];
        i := i + 1;
      }
      policy := edit;
      return Ok;
    }

    method AllowFile(r: G.LoadRequest, faults: Faults) returns (status: Status, state: G.LoadPolicy)
      requires Valid()
      modifies this`policy, rules
      ensures Valid()
      ensures G.Outcome(status, rules[..], policy, state) ==
              G.AllowFile(old(rules[..]), old(policy), r,
                          EditOk(G.CommitParts(old(rules[..]), old(policy), G.Wanted(r)), faults))
    {
      var w := G.Wanted(r);
      state := G.ZERO_STATE;
      var fs, file, fileCommit := PlanAllow(w[0]);
      if fs != Ok { return fs, state; }
      var dir, dirCommit := Part(w[1].key, {}), Part(w[1].key, {});
      if w[1].av != {} {
        fs, dir, dirCommit := PlanAllow(w[1]);
        if fs != Ok { return fs, state; }
      }
      var tmpfs, tmpfsCommit := Part(w[2].key, {}), Part(w[2].key, {});
      if w[2].av != {} {
        fs, tmpfs, tmpfsCommit := PlanAllow(w[2]);
        if fs != Ok { return fs, state; }
      }
      var granted := G.ZERO_STATE.(srcType := r.src, tgtType := r.tgt, tmpfsType := r.tmpfs,
                                   targetClass := r.fileClass, dirClass := r.dirClass,
                                   added := file.av, dirAdded := dir.av, tmpfsAdded := tmpfs.av);
      assert granted == G.GrantedState(rules[..], policy, r);
      var commits := [fileCommit, dirCommit, tmpfsCommit];
      assert w[1].av == {} ==> G.CommitOf(rules[..], policy, w[1]).av == {};
      assert w[2].av == {} ==> G.CommitOf(rules[..], policy, w[2]).av == {};
      assert commits == G.CommitParts(rules[..], policy, w);
      status := CommitAllow(commits, faults);
      if status != Ok { return; }
      ghost var table := rules[..];
      state := granted;
      ghost var ps := G.Parts(state);
      Add(file);
      Add(dir);
      Add(tmpfs);
      AddFour(table, ps);
    }

    method AllowExecmem(s: G.LoadPolicy, src: nat, tclass: nat, av: Mask, faults: Faults)
      returns (status: Status, state: G.LoadPolicy)
      requires Valid()
      modifies this`policy, rules
      ensures Valid()
      ensures var p := Part(Key(src, src, tclass), av);
              G.Outcome(status, rules[..], policy, state) ==
              G.AllowExecmem(old(rules[..]), old(policy), s, src, tclass, av,
                             EditOk([G.CommitOf(old(rules[..]), old(policy), p)], faults))
    {
      state := s;
      var p := Part(Key(src, src, tclass), av);
      if (s.srcType != 0 && s.srcType != src)
         || (s.processAdded != {} && (s.processType != src || s.processClass != tclass)) {
        return Invalid, s;
      }
      if s.processAdded != {} { return Ok, s; }
      var request, commit;
      status, request, commit := PlanAllow(p);
      if status != Ok { return; }
      status := CommitAllow([commit], faults);
      if status != Ok {
        state := s.(processType := 0, processClass := 0);
        return;
      }
      state := s.(processType := src, processClass := tclass, processAdded := request.av);
      Add(request);
    }

    method Restore(s: G.LoadPolicy, faults: Faults) returns (status: Status)
      requires Valid()
      modifies this`policy, rules
      ensures Valid()
      ensures G.Outcome(status, rules[..], policy, s) ==
              G.Restore(old(rules[..]), old(policy), s,
                        EditOk(PlanReleaseAll(old(rules[..]), G.Parts(s)), faults))
    {
      var ps := G.Parts(s);
      if NoBits(ps) { return Ok; }
      var file := PlanReleaseOf(ps[0]);
      var dir := PlanReleaseOf(ps[1]);
      var tmpfs := PlanReleaseOf(ps[2]);
      var process := PlanReleaseOf(ps[3]);
      var clear := [file, dir, tmpfs, process];
      assert clear == PlanReleaseAll(rules[..], ps);
      status := CommitRestore(clear, faults);
      if status != Ok { return; }
      ghost var table := rules[..];
      Release(ps[0]);
      Release(ps[1]);
      Release(ps[2]);
      Release(ps[3]);
      ReleaseFour(table, ps);
    }
  }

  lemma NoBitsNoChange(p: Policy, ps: seq<Part>)
    requires NoBits(ps)
    ensures AllowParts(p, ps) == p && RevokeParts(p, ps) == p
  {
    if ps != [] {
      assert ps[0].av == {};
      assert forall i :: 0 <= i < |ps[1..]| ==> ps[1..][i] == ps[i + 1];
      NoBitsNoChange(p, ps[1..]);
    }
  }

  lemma AddFour(table: seq<Rule>, ps: seq<Part>)
    requires Shaped(table) && |ps| == 4 && ps[3].av == {}
    ensures AddAll(table, ps) == AddPart(AddPart(AddPart(table, ps[0]), ps[1]), ps[2])
  {
    var t1 := AddPart(table, ps[0]);
    var t2 := AddPart(t1, ps[1]);
    var t3 := AddPart(t2, ps[2]);
    assert ps[1..][0] == ps[1] && ps[1..][1..] == ps[2..];
    assert ps[2..][0] == ps[2] && ps[2..][1..] == ps[3..];
    assert ps[3..][0] == ps[3] && ps[3..][1..] == [];
    calc {
      AddAll(table, ps);
      AddAll(t1, ps[1..]);
      AddAll(t2, ps[2..]);
      AddAll(t3, ps[3..]);
      t3;
    }
  }

  lemma ReleaseFour(table: seq<Rule>, ps: seq<Part>)
    requires Shaped(table) && |ps| == 4
    ensures ReleaseAll(table, ps) ==
            ReleasePart(ReleasePart(ReleasePart(ReleasePart(table, ps[0]), ps[1]), ps[2]), ps[3])
  {
    var t1 := ReleasePart(table, ps[0]);
    var t2 := ReleasePart(t1, ps[1]);
    var t3 := ReleasePart(t2, ps[2]);
    assert ps[1..][0] == ps[1] && ps[1..][1..] == ps[2..];
    assert ps[2..][0] == ps[2] && ps[2..][1..] == ps[3..];
    assert ps[3..][0] == ps[3] && ps[3..][1..] == [];
    calc {
      ReleaseAll(table, ps);
      ReleaseAll(t1, ps[1..]);
      ReleaseAll(t2, ps[2..]);
      ReleaseAll(t3, ps[3..]);
      ReleasePart(t3, ps[3]);
    }
  }
}
