/**
 When the ledger grants what it is asked for: the answers of its calls, stated on the slots of the table, the owner's
 policy and the commit alone.
 */
module PolicyAnswers {
  import opened PolicyLedger
  import opened PolicyGrants

  /** Slot `i` counts the grants of key `k`. */
  ghost predicate SlotOf(rules: seq<Rule>, k: Key, i: int) { 0 <= i < |rules| && rules[i].used && rules[i].key == k }

  ghost predicate HasSlot(rules: seq<Rule>, k: Key) { exists i :: SlotOf(rules, k, i) }

  ghost predicate HasUnused(rules: seq<Rule>) { exists i :: 0 <= i < |rules| && !rules[i].used }

  /** Some grant holds bit `b` of key `k`. */
  ghost predicate IsHeld(rules: seq<Rule>, k: Key, b: Bit)
    requires Shaped(rules)
  {
    exists i :: SlotOf(rules, k, i) && rules[i].refs[b as int] > 0
  }

  /** One more grant of the bit fits its 16-bit counter. */
  ghost predicate CanCount(rules: seq<Rule>, k: Key, b: Bit)
    requires Shaped(rules)
  {
    forall i :: SlotOf(rules, k, i) ==> rules[i].refs[b as int] < 65535
  }

  /** A wanted bit needs a reference unless the owner allows it: what is allowed only because of other grants would
      go away with them. */
  ghost predicate NeedsRef(rules: seq<Rule>, policy: Policy, p: Part, b: Bit)
    requires Shaped(rules)
  {
    b in p.av && (b !in Av(policy, p.key) || IsHeld(rules, p.key, b))
  }

  /** A wanted bit that nobody allows yet. */
  ghost predicate NeedsCommit(rules: seq<Rule>, policy: Policy, p: Part, b: Bit)
    requires Shaped(rules)
  {
    b in p.av && b !in Av(policy, p.key) && !IsHeld(rules, p.key, b)
  }

  ghost predicate HasPlace(rules: seq<Rule>, policy: Policy, p: Part)
    requires Shaped(rules)
  {
    (exists b :: NeedsRef(rules, policy, p, b)) ==> HasSlot(rules, p.key) || HasUnused(rules)
  }

  ghost predicate Fits(rules: seq<Rule>, policy: Policy, p: Part)
    requires Shaped(rules)
  {
    HasPlace(rules, policy, p) && forall b :: NeedsRef(rules, policy, p, b) ==> CanCount(rules, p.key, b)
  }

  ghost predicate NothingToCommit(rules: seq<Rule>, policy: Policy, ps: seq<Part>)
    requires Shaped(rules)
  {
    forall i, b :: 0 <= i < |ps| ==> !NeedsCommit(rules, policy, ps[i], b)
  }

  /** Key `i` is the first that does not fit. */
  ghost predicate FirstUnfit(rules: seq<Rule>, policy: Policy, ps: seq<Part>, i: int)
    requires Shaped(rules)
  {
    0 <= i < |ps| && !Fits(rules, policy, ps[i]) && forall j :: 0 <= j < i ==> Fits(rules, policy, ps[j])
  }

  // ------------------------------------------------- the table's own answers

  lemma SlotFound(rules: seq<Rule>, k: Key)
    ensures HasSlot(rules, k) <==> Find(rules, k) >= 0
    ensures HasUnused(rules) <==> FindFree(rules) >= 0
  {
    if Find(rules, k) >= 0 { assert SlotOf(rules, k, Find(rules, k)); }
    if FindFree(rules) >= 0 { assert !rules[FindFree(rules)].used; }
  }

  lemma CounterFound(rules: seq<Rule>, k: Key, b: Bit)
    requires ValidTable(rules)
    ensures IsHeld(rules, k, b) <==> Refs(rules, k, b) != 0
    ensures CanCount(rules, k, b) <==> Refs(rules, k, b) != U16_MODULUS - 1
  {
    var f := Find(rules, k);
    if f >= 0 { assert SlotOf(rules, k, f); }
    forall i | SlotOf(rules, k, i) ensures i == f { FindUnique(rules, i); }
  }

  lemma RequestedBits(rules: seq<Rule>, policy: Policy, p: Part)
    requires ValidTable(rules)
    ensures forall b :: b in RequestOf(rules, policy, p).av <==> NeedsRef(rules, policy, p, b)
    ensures forall b :: b in CommitOf(rules, policy, p).av <==> NeedsCommit(rules, policy, p, b)
  {
    forall b: Bit ensures b in Owned(rules, p.key) <==> IsHeld(rules, p.key, b) { CounterFound(rules, p.key, b); }
  }

  /** Planning one key: what is refused, and with which error. */
  lemma PlanAnswers(rules: seq<Rule>, policy: Policy, p: Part)
    requires ValidTable(rules)
    ensures PlanStatus(rules, policy, p)
            == if p.av == {} then NoEntry
               else if !HasPlace(rules, policy, p) then NoSpace
               else if !Fits(rules, policy, p) then Overflow
               else Ok
  {
    var want := RequestOf(rules, policy, p);
    RequestedBits(rules, policy, p);
    SlotFound(rules, p.key);
    forall b: Bit ensures CanCount(rules, p.key, b) <==> Refs(rules, p.key, b) != U16_MODULUS - 1 {
      CounterFound(rules, p.key, b);
    }
    if want.av != {} {
      var b :| b in want.av;
      assert NeedsRef(rules, policy, p, b);
    }
  }

  // ------------------------------------------------------ what is answered

  lemma FileAnswers(rules: seq<Rule>, policy: Policy, r: LoadRequest)
    requires ValidTable(rules)
    ensures r.fileAv == {} ==> FilePlanStatus(rules, policy, r) == NoEntry
    ensures r.fileAv != {} ==>
              (FilePlanStatus(rules, policy, r) == Ok <==> forall i :: 0 <= i < 3 ==> Fits(rules, policy, Wanted(r)[i]))
    ensures forall i :: r.fileAv != {} && FirstUnfit(rules, policy, Wanted(r), i) ==>
              FilePlanStatus(rules, policy, r) == if HasPlace(rules, policy, Wanted(r)[i]) then Overflow else NoSpace
  {
    var w := Wanted(r);
    PlanAnswers(rules, policy, w[0]);
    PlanAnswers(rules, policy, w[1]);
    PlanAnswers(rules, policy, w[2]);
  }

  lemma CommitAnswers(rules: seq<Rule>, policy: Policy, ps: seq<Part>)
    requires ValidTable(rules)
    ensures NoBits(CommitParts(rules, policy, ps)) <==> NothingToCommit(rules, policy, ps)
  {
    var cs := CommitParts(rules, policy, ps);
    forall i | 0 <= i < |ps| ensures cs[i].av == {} <==> forall b :: !NeedsCommit(rules, policy, ps[i], b) {
      RequestedBits(rules, policy, ps[i]);
      if cs[i].av != {} {
        var b :| b in cs[i].av;
        assert NeedsCommit(rules, policy, ps[i], b);
      }
    }
  }

  /** A file allow succeeds if and only if something is wanted of the file, every key with bits to reference has a slot
      or finds an unused one, none of those bits' counters is full, and the commit succeeds or has nothing to change. */
  lemma AllowFileOkIff(rules: seq<Rule>, policy: Policy, r: LoadRequest, commitOk: bool)
    requires ValidTable(rules)
    ensures AllowFile(rules, policy, r, commitOk).status == Ok
            <==> && r.fileAv != {}
                 && (forall i :: 0 <= i < 3 ==> Fits(rules, policy, Wanted(r)[i]))
                 && (commitOk || NothingToCommit(rules, policy, Wanted(r)))
  {
    FileAnswers(rules, policy, r);
    CommitAnswers(rules, policy, Wanted(r));
  }

  /** And its error otherwise: the first key that does not fit decides, without a slot or with a full counter. */
  lemma AllowFileErrors(rules: seq<Rule>, policy: Policy, r: LoadRequest, commitOk: bool, i: int)
    requires ValidTable(rules)
    ensures var status, w := AllowFile(rules, policy, r, commitOk).status, Wanted(r);
            && (r.fileAv == {} ==> status == NoEntry)
            && (r.fileAv != {} && FirstUnfit(rules, policy, w, i) ==>
                  status == if HasPlace(rules, policy, w[i]) then Overflow else NoSpace)
            && (r.fileAv != {} && (forall j :: 0 <= j < 3 ==> Fits(rules, policy, w[j])) ==>
                  status == Ok || status == CommitFailed)
  {
    FileAnswers(rules, policy, r);
  }

  /** The grant belongs to another domain, or already has another process key. */
  predicate OtherProcess(s: LoadPolicy, src: nat, tclass: nat) {
    || (s.srcType != 0 && s.srcType != src)
    || (s.processAdded != {} && (s.processType != src || s.processClass != tclass))
  }

  /** An execmem allow is invalid exactly for another process, and otherwise succeeds if and only if the grant has its
      process part already, or something is wanted, the key fits, and the commit succeeds or has nothing to change. */
  lemma AllowExecmemAnswers(rules: seq<Rule>, policy: Policy, s: LoadPolicy, src: nat, tclass: nat, av: Mask,
                            commitOk: bool)
    requires ValidTable(rules)
    ensures var status := AllowExecmem(rules, policy, s, src, tclass, av, commitOk).status;
            var p := Part(Key(src, src, tclass), av);
            && (status == Invalid <==> OtherProcess(s, src, tclass))
            && (status == Ok <==>
                && !OtherProcess(s, src, tclass)
                && (|| s.processAdded != {}
                    || (&& av != {} && Fits(rules, policy, p)
                        && (commitOk || NothingToCommit(rules, policy, [p])))))
            && (!OtherProcess(s, src, tclass) && s.processAdded == {} ==>
                && (status == NoEntry <==> av == {})
                && (status == NoSpace <==> av != {} && !HasPlace(rules, policy, p))
                && (status == Overflow <==> av != {} && HasPlace(rules, policy, p) && !Fits(rules, policy, p)))
  {
    var p := Part(Key(src, src, tclass), av);
    PlanAnswers(rules, policy, p);
    CommitAnswers(rules, policy, [p]);
    assert CommitParts(rules, policy, [p]) == [CommitOf(rules, policy, p)];
  }

  /** A second process of the domain that wants the same file is granted it: held bits count up to 65535. */
  lemma HeldBitsAreShared(rules: seq<Rule>, policy: Policy, r: LoadRequest)
    requires ValidTable(rules) && r.fileAv != {}
    requires forall i, b :: 0 <= i < 3 && b in Wanted(r)[i].av ==>
               IsHeld(rules, Wanted(r)[i].key, b) && CanCount(rules, Wanted(r)[i].key, b)
    ensures AllowFile(rules, policy, r, false).status == Ok
    ensures AllowFile(rules, policy, r, false).state.added == r.fileAv
  {
    var w := Wanted(r);
    forall i | 0 <= i < 3 ensures Fits(rules, policy, w[i]) {
      if b :| NeedsRef(rules, policy, w[i], b) {
        var s :| SlotOf(rules, w[i].key, s) && rules[s].refs[b as int] > 0;
      }
    }
    AllowFileOkIff(rules, policy, r, false);
    RequestedBits(rules, policy, w[0]);
    assert RequestOf(rules, policy, w[0]).av == r.fileAv;
  }

  /** No grant but at most this one holds the bit. */
  ghost predicate IsLast(rules: seq<Rule>, k: Key, b: Bit)
    requires Shaped(rules)
  {
    forall i :: SlotOf(rules, k, i) ==> rules[i].refs[b as int] <= 1
  }

  /** A restore succeeds if and only if the commit does or no bit has to be taken back, each being held by some other
      grant too; otherwise it changes nothing. */
  lemma RestoreOkIff(rules: seq<Rule>, policy: Policy, s: LoadPolicy, commitOk: bool)
    requires ValidTable(rules)
    ensures var out := Restore(rules, policy, s, commitOk);
            && (out.status == Ok <==>
                commitOk || forall i, b :: 0 <= i < 4 && b in Parts(s)[i].av ==> !IsLast(rules, Parts(s)[i].key, b))
            && (out.status != Ok ==> out.rules == rules && out.policy == policy)
  {
    var ps, clear := Parts(s), PlanReleaseAll(rules, Parts(s));
    forall i | 0 <= i < 4
      ensures clear[i].av == {} <==> forall b :: b in ps[i].av ==> !IsLast(rules, ps[i].key, b)
    {
      ClearedWhenLast(rules, ps[i]);
    }
  }

  lemma ClearedWhenLast(rules: seq<Rule>, p: Part)
    requires ValidTable(rules)
    ensures PlanRelease(rules, p).av == {} <==> forall b :: b in p.av ==> !IsLast(rules, p.key, b)
  {
    var f := Find(rules, p.key);
    if f >= 0 { assert SlotOf(rules, p.key, f); }
    forall i | SlotOf(rules, p.key, i) ensures i == f { FindUnique(rules, i); }
    forall b: Bit ensures IsLast(rules, p.key, b) <==> Refs(rules, p.key, b) <= 1 {}
    if b :| b in PlanRelease(rules, p).av { assert b in p.av && IsLast(rules, p.key, b); }
    if b :| b in p.av && IsLast(rules, p.key, b) { assert b in PlanRelease(rules, p).av; }
  }
}
