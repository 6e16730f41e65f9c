/**
 Allow and restore over the temporary allowance ledger, the invariant that ties
 reference counts, live policy and outstanding grants together in every run, and
 the exact conditions under which each operation keeps it.
 */
module PolicyGrants {
  import opened PolicyLedger

  /** The state a caller keeps for one grant and hands back to restore it. */
  datatype LoadPolicy = LoadPolicy(
    srcType: nat, tgtType: nat, tmpfsType: nat, processType: nat,
    targetClass: nat, processClass: nat, dirClass: nat,
    added: Mask, dirAdded: Mask, tmpfsAdded: Mask, processAdded: Mask)

  const ZERO_STATE := LoadPolicy(0, 0, 0, 0, 0, 0, 0, {}, {}, {}, {})

  /** What a load needs of the file, its directory and tmpfs; an empty vector means not asked for. */
  datatype LoadRequest = LoadRequest(
    src: nat, tgt: nat, tmpfs: nat, fileClass: nat, dirClass: nat,
    fileAv: Mask, dirAv: Mask, tmpfsAv: Mask)

  /** The four (key, vector) pairs restore rebuilds from the state. */
  function Parts(s: LoadPolicy): (ps: seq<Part>)
    ensures |ps| == 4
  {
    [ Part(Key(s.srcType, s.tgtType, s.targetClass), s.added),
      Part(Key(s.srcType, s.tgtType, s.dirClass), s.dirAdded),
      Part(Key(s.srcType, s.tmpfsType, s.targetClass), s.tmpfsAdded),
      Part(Key(s.processType, s.processType, s.processClass), s.processAdded) ]
  }

  function Wanted(r: LoadRequest): (ps: seq<Part>)
    ensures |ps| == 3
  {
    [ Part(Key(r.src, r.tgt, r.fileClass), r.fileAv),
      Part(Key(r.src, r.tgt, r.dirClass), r.dirAv),
      Part(Key(r.src, r.tmpfs, r.fileClass), r.tmpfsAv) ]
  }

  // ------------------------------------------------------------- operations

  /** The bits to take references on: those the owner does not allow, or that grants already own. */
  function RequestOf(rules: seq<Rule>, policy: Policy, p: Part): Part
    requires Shaped(rules)
  {
    Part(p.key, p.av - (Av(policy, p.key) - Owned(rules, p.key)))
  }

  /** The bits to add to the policy: those no grant owns yet. */
  function CommitOf(rules: seq<Rule>, policy: Policy, p: Part): Part
    requires Shaped(rules)
  {
    Part(p.key, RequestOf(rules, policy, p).av - Owned(rules, p.key))
  }

  function ValidateAdd(rules: seq<Rule>, p: Part): Status
    requires Shaped(rules)
  {
    if p.av == {} then Ok
    else if Find(rules, p.key) < 0 && FindFree(rules) < 0 then NoSpace
    else if exists b: Bit :: b in p.av && Refs(rules, p.key, b) == U16_MODULUS - 1 then Overflow
    else Ok
  }

  function PlanStatus(rules: seq<Rule>, policy: Policy, p: Part): Status
    requires Shaped(rules)
  {
    if p.av == {} then NoEntry else ValidateAdd(rules, RequestOf(rules, policy, p))
  }

  /** The directory and tmpfs parts are planned only when asked for. */
  function OptionalPlanStatus(rules: seq<Rule>, policy: Policy, p: Part): Status
    requires Shaped(rules)
  {
    if p.av == {} then Ok else PlanStatus(rules, policy, p)
  }

  function FilePlanStatus(rules: seq<Rule>, policy: Policy, r: LoadRequest): Status
    requires Shaped(rules)
  {
    var w := Wanted(r);
    if PlanStatus(rules, policy, w[0]) != Ok then PlanStatus(rules, policy, w[0])
    else if OptionalPlanStatus(rules, policy, w[1]) != Ok then OptionalPlanStatus(rules, policy, w[1])
    else OptionalPlanStatus(rules, policy, w[2])
  }

  function GrantedState(rules: seq<Rule>, policy: Policy, r: LoadRequest): LoadPolicy
    requires Shaped(rules)
  {
    var w := Wanted(r);
    ZERO_STATE.(srcType := r.src, tgtType := r.tgt, tmpfsType := r.tmpfs,
                targetClass := r.fileClass, dirClass := r.dirClass,
                added := RequestOf(rules, policy, w[0]).av,
                dirAdded := RequestOf(rules, policy, w[1]).av,
                tmpfsAdded := RequestOf(rules, policy, w[2]).av)
  }

  function CommitParts(rules: seq<Rule>, policy: Policy, ps: seq<Part>): (r: seq<Part>)
    requires Shaped(rules)
    ensures |r| == |ps| && forall i :: 0 <= i < |ps| ==> r[i] == CommitOf(rules, policy, ps[i])
  {
    seq(|ps|, i requires 0 <= i < |ps| => CommitOf(rules, policy, ps[i]))
  }

  /** A commit with nothing to change succeeds without touching the policy. */
  function CommitStatus(ps: seq<Part>, commitOk: bool): Status {
    if NoBits(ps) || commitOk then Ok else CommitFailed
  }

  /** The ledger after an operation, its return code and the caller's state. */
  datatype Outcome = Outcome(status: Status, rules: seq<Rule>, policy: Policy, state: LoadPolicy)

  function AllowFile(rules: seq<Rule>, policy: Policy, r: LoadRequest, commitOk: bool): Outcome
    requires Shaped(rules)
  {
    var s := GrantedState(rules, policy, r);
    var commits := CommitParts(rules, policy, Wanted(r));
    if FilePlanStatus(rules, policy, r) != Ok then
      Outcome(FilePlanStatus(rules, policy, r), rules, policy, ZERO_STATE)
    else if CommitStatus(commits, commitOk) != Ok then
      Outcome(CommitFailed, rules, policy, ZERO_STATE)
    else
      Outcome(Ok, AddAll(rules, Parts(s)), AllowParts(policy, commits), s)
  }

  function ExecmemState(rules: seq<Rule>, policy: Policy, s: LoadPolicy, p: Part): LoadPolicy
    requires Shaped(rules)
  {
    s.(processType := p.key.src, processClass := p.key.tclass,
       processAdded := RequestOf(rules, policy, p).av)
  }

  /** Extends a grant with the process key `(src, src, process)`. */
  function AllowExecmem(rules: seq<Rule>, policy: Policy, s: LoadPolicy, src: nat, tclass: nat, av: Mask,
                        commitOk: bool): Outcome
    requires Shaped(rules)
  {
    var p := Part(Key(src, src, tclass), av);
    if (s.srcType != 0 && s.srcType != src)
       || (s.processAdded != {} && (s.processType != src || s.processClass != tclass))
    then Outcome(Invalid, rules, policy, s)
    else if s.processAdded != {} then Outcome(Ok, rules, policy, s)
    else if PlanStatus(rules, policy, p) != Ok then Outcome(PlanStatus(rules, policy, p), rules, policy, s)
    else if CommitStatus([CommitOf(rules, policy, p)], commitOk) != Ok then
      Outcome(CommitFailed, rules, policy, s.(processType := 0, processClass := 0))
    else
      Outcome(Ok, AddPart(rules, RequestOf(rules, policy, p)),
              AllowParts(policy, [CommitOf(rules, policy, p)]), ExecmemState(rules, policy, s, p))
  }

  function Restore(rules: seq<Rule>, policy: Policy, s: LoadPolicy, commitOk: bool): Outcome
    requires Shaped(rules)
  {
    var clear := PlanReleaseAll(rules, Parts(s));
    if NoBits(Parts(s)) then Outcome(Ok, rules, policy, s)
    else if CommitStatus(clear, commitOk) != Ok then Outcome(CommitFailed, rules, policy, s)
    else Outcome(Ok, ReleaseAll(rules, Parts(s)), RevokeParts(policy, clear), s)
  }

  // -------------------------------------------------------------- invariant

  /** An outstanding grant, with the vectors it was asked to make allowed. */
  datatype Token = Token(id: nat, state: LoadPolicy, required: seq<Part>)

  function Count(ts: seq<Token>, k: Key, b: Bit): nat {
    if ts == [] then 0 else Holds(Parts(ts[0].state), k, b) + Count(ts[1..], k, b)
  }

  /** What was asked for is the owner's or held by this grant. */
  ghost predicate Sound(orig: Policy, t: Token) {
    forall i :: 0 <= i < |t.required| ==>
      t.required[i].av <= Av(orig, t.required[i].key) + BitsOf(Parts(t.state), t.required[i].key)
  }

  datatype World = World(rules: seq<Rule>, policy: Policy, tokens: seq<Token>)

  ghost predicate Ledger(orig: Policy, w: World) {
    && |w.rules| == RULE_MAX && ValidTable(w.rules)
    && (forall k, b :: Refs(w.rules, k, b) == Count(w.tokens, k, b))
    && (forall k :: Owned(w.rules, k) !! Av(orig, k))
    && (forall k :: Av(w.policy, k) == Av(orig, k) + Owned(w.rules, k))
    && (forall i :: 0 <= i < |w.tokens| ==> Sound(orig, w.tokens[i]))
  }

  ghost predicate Clean(ts: seq<Token>) {
    forall i :: 0 <= i < |ts| ==> NoOverlap(Parts(ts[i].state))
  }

  function Remove<T>(s: seq<T>, i: nat): seq<T>
    requires i < |s|
  {
    s[..i] + s[i + 1..]
  }

  lemma {:induction false} CountAppend(a: seq<Token>, c: seq<Token>, k: Key, b: Bit)
    ensures Count(a + c, k, b) == Count(a, k, b) + Count(c, k, b)
  {
    if a == [] {
      assert a + c == c;
    } else {
      assert (a + c)[1..] == a[1..] + c;
      CountAppend(a[1..], c, k, b);
    }
  }

  lemma CountSplit(ts: seq<Token>, i: nat, k: Key, b: Bit)
    requires i < |ts|
    ensures Count(ts, k, b) == Count(Remove(ts, i), k, b) + Holds(Parts(ts[i].state), k, b)
  {
    assert ts == ts[..i] + [ts[i]] + ts[i + 1..];
    CountAppend(ts[..i] + [ts[i]], ts[i + 1..], k, b);
    CountAppend(ts[..i], [ts[i]], k, b);
    CountAppend(ts[..i], ts[i + 1..], k, b);
  }

  /** Replacing a grant changes the counts by the difference of its parts. */
  lemma CountReplace(ts: seq<Token>, i: nat, t: Token, k: Key, b: Bit)
    requires i < |ts|
    ensures Count(ts[i := t], k, b) + Holds(Parts(ts[i].state), k, b)
            == Count(ts, k, b) + Holds(Parts(t.state), k, b)
  {
    assert Remove(ts[i := t], i) == Remove(ts, i);
    CountSplit(ts, i, k, b);
    CountSplit(ts[i := t], i, k, b);
  }

  lemma Holds1(a: Part, k: Key, b: Bit)
    ensures Holds([a], k, b) == Has(a, k, b)
  {
    assert [a][1..] == [];
  }

  lemma HoldsCons(a: Part, ps: seq<Part>, k: Key, b: Bit)
    ensures Holds([a] + ps, k, b) == Has(a, k, b) + Holds(ps, k, b)
  {
    assert ([a] + ps)[1..] == ps;
  }

  lemma Holds3(a: Part, c: Part, d: Part, k: Key, b: Bit)
    ensures Holds([a, c, d], k, b) == Has(a, k, b) + Has(c, k, b) + Has(d, k, b)
  {
    assert [a, c, d] == [a] + ([c] + [d]);
    HoldsCons(a, [c] + [d], k, b);
    HoldsCons(c, [d], k, b);
    Holds1(d, k, b);
  }

  lemma Holds4(a: Part, c: Part, d: Part, e: Part, k: Key, b: Bit)
    ensures Holds([a, c, d, e], k, b) == Has(a, k, b) + Has(c, k, b) + Has(d, k, b) + Has(e, k, b)
  {
    assert [a, c, d, e] == [a] + [c, d, e];
    HoldsCons(a, [c, d, e], k, b);
    Holds3(c, d, e, k, b);
  }

  // --------------------------------------------------------- allow keeps it

  /** The committed bits are disjoint from the live policy, and with the owned ones cover the request. */
  lemma CommitCovers(orig: Policy, w: World, p: Part)
    requires Ledger(orig, w)
    ensures var r, c := RequestOf(w.rules, w.policy, p), CommitOf(w.rules, w.policy, p);
            && c.av !! Av(w.policy, p.key)
            && r.av + Owned(w.rules, p.key) == c.av + Owned(w.rules, p.key)
            && r.av !! Av(orig, p.key)
            && p.av <= Av(orig, p.key) + r.av
  {
    var k := p.key;
    assert Av(w.policy, k) == Av(orig, k) + Owned(w.rules, k);
    assert Owned(w.rules, k) !! Av(orig, k);
  }

  /** Taking references on `ps` and allowing `cs` keeps the ledger when both cover the same new bits. */
  lemma GrantKeepsLedger(orig: Policy, w: World, w': World, ps: seq<Part>, cs: seq<Part>)
    requires Ledger(orig, w)
    requires |w'.rules| == RULE_MAX && ValidTable(w'.rules)
    requires forall k, b :: Refs(w'.rules, k, b) == Refs(w.rules, k, b) + Holds(ps, k, b)
    requires forall k, b :: Count(w'.tokens, k, b) == Count(w.tokens, k, b) + Holds(ps, k, b)
    requires forall k :: Av(w'.policy, k) == Av(w.policy, k) + BitsOf(cs, k)
    requires forall k :: BitsOf(ps, k) + Owned(w.rules, k) == BitsOf(cs, k) + Owned(w.rules, k)
    requires forall k :: BitsOf(ps, k) !! Av(orig, k)
    requires forall i :: 0 <= i < |w'.tokens| ==> Sound(orig, w'.tokens[i])
    ensures Ledger(orig, w')
  {
    forall k
      ensures Owned(w'.rules, k) !! Av(orig, k)
      ensures Av(w'.policy, k) == Av(orig, k) + Owned(w'.rules, k)
    {
      assert Owned(w'.rules, k) == Owned(w.rules, k) + BitsOf(ps, k);
    }
  }

  /** A successful file allow keeps the ledger, with the new grant outstanding. */
  lemma AllowFileKeepsLedger(orig: Policy, w: World, id: nat, r: LoadRequest)
    requires Ledger(orig, w)
    requires var s := GrantedState(w.rules, w.policy, r); NoWrap(w.rules, Parts(s)) && Room(w.rules, Parts(s))
    ensures var s := GrantedState(w.rules, w.policy, r);
            Ledger(orig, World(AddAll(w.rules, Parts(s)),
                               AllowParts(w.policy, CommitParts(w.rules, w.policy, Wanted(r))),
                               w.tokens + [Token(id, s, Wanted(r))]))
  {
    var s := GrantedState(w.rules, w.policy, r);
    var commits := CommitParts(w.rules, w.policy, Wanted(r));
    var t := Token(id, s, Wanted(r));
    AddAllRefs(w.rules, Parts(s));
    forall k
      ensures BitsOf(Parts(s), k) + Owned(w.rules, k) == BitsOf(commits, k) + Owned(w.rules, k)
      ensures BitsOf(Parts(s), k) !! Av(orig, k)
    {
      CommitBits(orig, w, r, k);
    }
    GrantSound(orig, w, t, r);
    AppendKeepsLedger(orig, w, t, commits);
  }

  lemma AppendKeepsLedger(orig: Policy, w: World, t: Token, cs: seq<Part>)
    requires Ledger(orig, w) && Sound(orig, t)
    requires ValidTable(AddAll(w.rules, Parts(t.state)))
    requires forall k, b :: Refs(AddAll(w.rules, Parts(t.state)), k, b)
                            == Refs(w.rules, k, b) + Holds(Parts(t.state), k, b)
    requires forall k :: BitsOf(Parts(t.state), k) + Owned(w.rules, k) == BitsOf(cs, k) + Owned(w.rules, k)
    requires forall k :: BitsOf(Parts(t.state), k) !! Av(orig, k)
    ensures Ledger(orig, World(AddAll(w.rules, Parts(t.state)), AllowParts(w.policy, cs), w.tokens + [t]))
  {
    var ps := Parts(t.state);
    var w' := World(AddAll(w.rules, ps), AllowParts(w.policy, cs), w.tokens + [t]);
    forall k, b ensures Count(w'.tokens, k, b) == Count(w.tokens, k, b) + Holds(ps, k, b) {
      CountAppend(w.tokens, [t], k, b);
      assert [t][1..] == [];
    }
    forall k ensures Av(w'.policy, k) == Av(w.policy, k) + BitsOf(cs, k) {
      AllowPartsAv(w.policy, cs, k);
    }
    GrantKeepsLedger(orig, w, w', ps, cs);
  }

  lemma GrantSound(orig: Policy, w: World, t: Token, r: LoadRequest)
    requires Ledger(orig, w) && t.state == GrantedState(w.rules, w.policy, r) && t.required == Wanted(r)
    ensures Sound(orig, t)
  {
    var ps := Parts(t.state);
    forall i | 0 <= i < |t.required|
      ensures t.required[i].av <= Av(orig, t.required[i].key) + BitsOf(ps, t.required[i].key)
    {
      CommitCovers(orig, w, t.required[i]);
      forall b | b in RequestOf(w.rules, w.policy, t.required[i]).av ensures Holds(ps, t.required[i].key, b) != 0 {
        HoldsAt(ps, i, b);
      }
    }
  }

  /** The bits the grant owns are the ones committed plus ones grants already own. */
  lemma CommitBits(orig: Policy, w: World, r: LoadRequest, k: Key)
    requires Ledger(orig, w)
    ensures var s := GrantedState(w.rules, w.policy, r);
            && BitsOf(Parts(s), k) + Owned(w.rules, k)
               == BitsOf(CommitParts(w.rules, w.policy, Wanted(r)), k) + Owned(w.rules, k)
            && BitsOf(Parts(s), k) !! Av(orig, k)
  {
    var c := CommitParts(w.rules, w.policy, Wanted(r));
    var ps := Parts(GrantedState(w.rules, w.policy, r));
    forall b: Bit
      ensures b in BitsOf(ps, k) || b in Owned(w.rules, k) <==> b in BitsOf(c, k) || b in Owned(w.rules, k)
      ensures b in BitsOf(ps, k) ==> b !in Av(orig, k)
    {
      Holds4(ps[0], ps[1], ps[2], ps[3], k, b);
      assert c == [c[0], c[1], c[2]];
      Holds3(c[0], c[1], c[2], k, b);
      CommitBit(orig, w, Wanted(r)[0], k, b);
      CommitBit(orig, w, Wanted(r)[1], k, b);
      CommitBit(orig, w, Wanted(r)[2], k, b);
    }
  }

  lemma CommitBit(orig: Policy, w: World, p: Part, k: Key, b: Bit)
    requires Ledger(orig, w)
    ensures var q, c := RequestOf(w.rules, w.policy, p), CommitOf(w.rules, w.policy, p);
            && Has(c, k, b) <= Has(q, k, b)
            && (Has(q, k, b) != 0 ==> Has(c, k, b) != 0 || b in Owned(w.rules, k))
            && (Has(q, k, b) != 0 ==> b !in Av(orig, k))
  {
    CommitCovers(orig, w, p);
  }

  lemma PlannedNotSaturated(orig: Policy, w: World, r: LoadRequest)
    requires Ledger(orig, w) && FilePlanStatus(w.rules, w.policy, r) == Ok
    ensures NoSaturation(w.rules, Parts(GrantedState(w.rules, w.policy, r)))
  {
    var ps := Parts(GrantedState(w.rules, w.policy, r));
    forall i, b: Bit | 0 <= i < |ps| && b in ps[i].av
      ensures Refs(w.rules, ps[i].key, b) < U16_MODULUS - 1
    {
      assert i < 3 && ps[i] == RequestOf(w.rules, w.policy, Wanted(r)[i]);
      assert ValidateAdd(w.rules, ps[i]) == Ok;
      assert Refs(w.rules, ps[i].key, b) < U16_MODULUS;
    }
  }

  lemma AllowExecmemKeepsLedger(orig: Policy, w: World, i: nat, src: nat, tclass: nat, av: Mask)
    requires Ledger(orig, w) && i < |w.tokens|
    requires AllowExecmem(w.rules, w.policy, w.tokens[i].state, src, tclass, av, true).status == Ok
    requires w.tokens[i].state.processAdded == {}
    ensures var t := w.tokens[i];
            var out := AllowExecmem(w.rules, w.policy, t.state, src, tclass, av, true);
            var t' := ExtendToken(t, out, Part(Key(src, src, tclass), av));
            Ledger(orig, World(out.rules, out.policy, w.tokens[i := t']))
  {
    var t := w.tokens[i];
    var p := Part(Key(src, src, tclass), av);
    var req := RequestOf(w.rules, w.policy, p);
    var c := CommitOf(w.rules, w.policy, p);
    var t' := t.(state := ExecmemState(w.rules, w.policy, t.state, p), required := t.required + [p]);
    var w' := World(AddPart(w.rules, req), AllowParts(w.policy, [c]), w.tokens[i := t']);
    assert ValidateAdd(w.rules, req) == Ok;
    NotSaturated(w.rules, req);
    AddPartRefs(w.rules, req);
    forall k, b: Bit
      ensures Holds(Parts(t'.state), k, b) == Holds(Parts(t.state), k, b) + Holds([req], k, b)
      ensures Count(w'.tokens, k, b) == Count(w.tokens, k, b) + Holds([req], k, b)
      ensures Refs(w'.rules, k, b) == Refs(w.rules, k, b) + Holds([req], k, b)
    {
      ExecmemHolds(w, t.state, p, k, b);
      CountReplace(w.tokens, i, t', k, b);
      Holds1(req, k, b);
    }
    forall k
      ensures Av(w'.policy, k) == Av(w.policy, k) + BitsOf([c], k)
      ensures BitsOf([req], k) + Owned(w.rules, k) == BitsOf([c], k) + Owned(w.rules, k)
      ensures BitsOf([req], k) !! Av(orig, k)
    {
      AllowPartsAv(w.policy, [c], k);
      CommitBits1(orig, w, p, k);
    }
    ExtendedSound(orig, w, t, t', p);
    GrantKeepsLedger(orig, w, w', [req], [c]);
  }

  lemma CommitBits1(orig: Policy, w: World, p: Part, k: Key)
    requires Ledger(orig, w)
    ensures var req, c := RequestOf(w.rules, w.policy, p), CommitOf(w.rules, w.policy, p);
            && BitsOf([req], k) + Owned(w.rules, k) == BitsOf([c], k) + Owned(w.rules, k)
            && BitsOf([req], k) !! Av(orig, k)
  {
    var req, c := RequestOf(w.rules, w.policy, p), CommitOf(w.rules, w.policy, p);
    forall b: Bit
      ensures Holds([req], k, b) == Has(req, k, b) && Holds([c], k, b) == Has(c, k, b)
    {
      Holds1(req, k, b);
      Holds1(c, k, b);
    }
    CommitCovers(orig, w, p);
  }

  lemma NotSaturated(rules: seq<Rule>, p: Part)
    requires ValidTable(rules) && ValidateAdd(rules, p) == Ok
    ensures NoSaturation(rules, [p])
    ensures p.av != {} && Find(rules, p.key) < 0 ==> 0 <= FindFree(rules)
  {
    forall i, b: Bit | 0 <= i < |[p]| && b in [p][i].av ensures Refs(rules, [p][i].key, b) < U16_MODULUS - 1 {
      assert [p][i] == p;
      assert Refs(rules, p.key, b) < U16_MODULUS;
    }
  }

  lemma ExecmemHolds(w: World, s: LoadPolicy, p: Part, k: Key, b: Bit)
    requires Shaped(w.rules) && s.processAdded == {} && p.key.src == p.key.tgt
    ensures var s' := ExecmemState(w.rules, w.policy, s, p);
            Holds(Parts(s'), k, b) == Holds(Parts(s), k, b) + Has(RequestOf(w.rules, w.policy, p), k, b)
  {
    var ps, ps' := Parts(s), Parts(ExecmemState(w.rules, w.policy, s, p));
    Holds4(ps[0], ps[1], ps[2], ps[3], k, b);
    Holds4(ps'[0], ps'[1], ps'[2], ps'[3], k, b);
  }

  lemma ExtendedSound(orig: Policy, w: World, t: Token, t': Token, p: Part)
    requires Ledger(orig, w) && Sound(orig, t) && t'.required == t.required + [p]
    requires forall k, b :: Holds(Parts(t'.state), k, b)
                            == Holds(Parts(t.state), k, b) + Holds([RequestOf(w.rules, w.policy, p)], k, b)
    ensures Sound(orig, t')
  {
    var req := RequestOf(w.rules, w.policy, p);
    CommitCovers(orig, w, p);
    forall j | 0 <= j < |t'.required|
      ensures t'.required[j].av <= Av(orig, t'.required[j].key) + BitsOf(Parts(t'.state), t'.required[j].key)
    {
      var q := t'.required[j];
      assert BitsOf(Parts(t.state), q.key) <= BitsOf(Parts(t'.state), q.key);
      if j < |t.required| {
        assert q == t.required[j];
      } else {
        forall b | b in req.av ensures b in BitsOf(Parts(t'.state), p.key) { Holds1(req, p.key, b); }
      }
    }
  }

  // ------------------------------------------------------- restore, exactly

  /** A bit two parts of this grant hold and nobody else: no part alone sees it as the last reference. */
  ghost predicate Leaks(rules: seq<Rule>, ps: seq<Part>)
    requires Shaped(rules)
  {
    exists k, b :: Holds(ps, k, b) >= 2 && Refs(rules, k, b) == Holds(ps, k, b)
  }

  lemma CountCovers(w: World, i: nat, k: Key, b: Bit)
    requires i < |w.tokens|
    ensures Holds(Parts(w.tokens[i].state), k, b) <= Count(w.tokens, k, b)
  {
    CountSplit(w.tokens, i, k, b);
  }

  /** Planned one part at a time, a bit is cleared exactly when its count is one and the grant holds it. */
  lemma {:induction false} ClearedBits(rules: seq<Rule>, ps: seq<Part>, k: Key, b: Bit)
    requires ValidTable(rules)
    requires forall i, c :: 0 <= i < |ps| && c in ps[i].av ==> Refs(rules, ps[i].key, c) >= 1
    ensures b in BitsOf(PlanReleaseAll(rules, ps), k) <==> Holds(ps, k, b) >= 1 && Refs(rules, k, b) == 1
    decreases |ps|
  {
    if ps != [] {
      forall i, c | 0 <= i < |ps[1..]| && c in ps[1..][i].av ensures Refs(rules, ps[1..][i].key, c) >= 1 {
        assert ps[1..][i] == ps[i + 1];
      }
      ClearedBits(rules, ps[1..], k, b);
      var plan := PlanReleaseAll(rules, ps);
      assert plan == [PlanRelease(rules, ps[0])] + PlanReleaseAll(rules, ps[1..]);
      assert plan[1..] == PlanReleaseAll(rules, ps[1..]);
      assert Holds(plan, k, b) == Has(plan[0], k, b) + Holds(plan[1..], k, b);
      if ps[0].key == k && b in ps[0].av { assert Refs(rules, k, b) >= 1; }
      if ps[0].av != {} {
        var c :| c in ps[0].av;
        assert Refs(rules, ps[0].key, c) >= 1;
      }
    }
  }

  /** Restoring a grant keeps the ledger invariant if and only if no bit leaks. */
  lemma {:induction false} RestoreKeepsLedgerIff(orig: Policy, w: World, i: nat)
    requires Ledger(orig, w) && i < |w.tokens|
    ensures var out := Restore(w.rules, w.policy, w.tokens[i].state, true);
            Ledger(orig, World(out.rules, out.policy, Remove(w.tokens, i)))
            <==> !Leaks(w.rules, Parts(w.tokens[i].state))
  {
    var s := w.tokens[i].state;
    var out := Restore(w.rules, w.policy, s, true);
    var w' := World(out.rules, out.policy, Remove(w.tokens, i));
    forall k, b ensures Holds(Parts(s), k, b) <= Refs(w.rules, k, b) { CountCovers(w, i, k, b); }
    RestoredRefs(w, s);
    RestoredPolicy(orig, w, s);
    if Leaks(w.rules, Parts(s)) {
      LeakBreaksPolicy(orig, w, w', s);
    } else {
      forall k, b ensures Refs(w'.rules, k, b) == Count(w'.tokens, k, b) { CountSplit(w.tokens, i, k, b); }
      NoLeakKeepsPolicy(orig, w, w', s);
    }
  }

  /** What a restore did to counts and policy. */
  ghost predicate RestoredFrom(w: World, w': World, s: LoadPolicy) {
    && ValidTable(w.rules) && ValidTable(w'.rules) && |w'.rules| == |w.rules|
    && (forall k, b :: Refs(w'.rules, k, b) == Refs(w.rules, k, b) - Holds(Parts(s), k, b))
    && (forall k, b :: b in Av(w'.policy, k)
          <==> b in Av(w.policy, k) && !(Holds(Parts(s), k, b) >= 1 && Refs(w.rules, k, b) == 1))
  }

  lemma LeakBreaksPolicy(orig: Policy, w: World, w': World, s: LoadPolicy)
    requires Ledger(orig, w) && RestoredFrom(w, w', s) && Leaks(w.rules, Parts(s))
    ensures exists k :: Av(w'.policy, k) != Av(orig, k) + Owned(w'.rules, k)
  {
    var k, b :| Holds(Parts(s), k, b) >= 2 && Refs(w.rules, k, b) == Holds(Parts(s), k, b);
    assert b in Owned(w.rules, k) && b !in Owned(w'.rules, k);
    assert b in Av(w'.policy, k) && b !in Av(orig, k);
  }

  lemma NoLeakKeepsPolicy(orig: Policy, w: World, w': World, s: LoadPolicy)
    requires Ledger(orig, w) && RestoredFrom(w, w', s) && !Leaks(w.rules, Parts(s))
    ensures forall k :: Owned(w'.rules, k) !! Av(orig, k)
    ensures forall k :: Av(w'.policy, k) == Av(orig, k) + Owned(w'.rules, k)
  {
    forall k
      ensures Owned(w'.rules, k) !! Av(orig, k)
      ensures Av(w'.policy, k) == Av(orig, k) + Owned(w'.rules, k)
    {
      assert Owned(w'.rules, k) <= Owned(w.rules, k);
      forall b: Bit | b in Owned(w.rules, k)
        ensures b in Av(w'.policy, k) <==> b in Owned(w'.rules, k)
      {
        assert !(Holds(Parts(s), k, b) >= 2 && Refs(w.rules, k, b) == Holds(Parts(s), k, b));
        assert b !in Av(orig, k);
      }
    }
  }

  lemma RestoredRefs(w: World, s: LoadPolicy)
    requires ValidTable(w.rules)
    requires forall k, b :: Holds(Parts(s), k, b) <= Refs(w.rules, k, b)
    ensures var out := Restore(w.rules, w.policy, s, true);
            && ValidTable(out.rules)
            && forall k, b :: Refs(out.rules, k, b) == Refs(w.rules, k, b) - Holds(Parts(s), k, b)
  {
    var ps := Parts(s);
    ReleaseAllRefs(w.rules, ps);
    if NoBits(ps) {
      forall k, b ensures Holds(ps, k, b) == 0 { Holds4(ps[0], ps[1], ps[2], ps[3], k, b); }
    }
  }

  /** After a restore a bit is gone from the policy exactly when the grant held its only reference. */
  lemma RestoredPolicy(orig: Policy, w: World, s: LoadPolicy)
    requires Ledger(orig, w)
    requires forall k, b :: Holds(Parts(s), k, b) <= Refs(w.rules, k, b)
    ensures var out := Restore(w.rules, w.policy, s, true);
            forall k, b :: b in Av(out.policy, k) <==>
              b in Av(w.policy, k) && !(Holds(Parts(s), k, b) >= 1 && Refs(w.rules, k, b) == 1)
  {
    var ps := Parts(s);
    var out := Restore(w.rules, w.policy, s, true);
    if NoBits(ps) {
      forall k, b ensures Holds(ps, k, b) == 0 { Holds4(ps[0], ps[1], ps[2], ps[3], k, b); }
      return;
    }
    forall i, c | 0 <= i < |ps| && c in ps[i].av ensures Refs(w.rules, ps[i].key, c) >= 1 {
      HoldsAt(ps, i, c);
    }
    forall k, b
      ensures b in Av(out.policy, k) <==>
                b in Av(w.policy, k) && !(Holds(ps, k, b) >= 1 && Refs(w.rules, k, b) == 1)
    {
      RevokePartsAv(w.policy, PlanReleaseAll(w.rules, ps), k);
      ClearedBits(w.rules, ps, k, b);
    }
  }

  lemma NoOverlapNoLeak(rules: seq<Rule>, ps: seq<Part>)
    requires Shaped(rules) && NoOverlap(ps)
    ensures !Leaks(rules, ps)
  {
  }

  /** A file that itself has the tmpfs type: for every owner policy and every such request, a bit asked
      for under both names stays allowed after the grant is restored, with no grant outstanding. */
  lemma TmpfsFileLeaks(orig: Policy, r: LoadRequest, b: Bit)
    requires r.tgt == r.tmpfs && b in r.fileAv && b in r.tmpfsAv
    requires b !in Av(orig, Key(r.src, r.tgt, r.fileClass))
    ensures var w1 := Step(Initial(orig), OpAllow(0, r, true));
            var w2 := Step(w1, OpRestore(0, true));
            && w2.tokens == []
            && b in Av(w2.policy, Key(r.src, r.tgt, r.fileClass))
            && !Ledger(orig, w2)
  {
    var w1 := Step(Initial(orig), OpAllow(0, r, true));
    var ps := Parts(w1.tokens[0].state);
    var k := Key(r.src, r.tgt, r.fileClass);
    FirstGrant(orig, r);
    assert w1.tokens[1..] == [];
    assert Refs(w1.rules, k, b) == Count(w1.tokens, k, b) == Holds(ps, k, b);
    Holds4(ps[0], ps[1], ps[2], ps[3], k, b);
    forall k, b ensures Refs(Initial(orig).rules, k, b) == 0 { assert Find(Initial(orig).rules, k) == -1; }
    RestoreLeaks(orig, w1, 0, k, b);
  }

  /** Restoring the only holder of a doubly held bit leaves the bit allowed. */
  lemma RestoreLeaks(orig: Policy, w: World, i: nat, k: Key, b: Bit)
    requires Ledger(orig, w) && i < |w.tokens|
    requires Holds(Parts(w.tokens[i].state), k, b) >= 2
    requires Refs(w.rules, k, b) == Holds(Parts(w.tokens[i].state), k, b)
    ensures var w' := Step(w, OpRestore(i, true));
            && w'.tokens == Remove(w.tokens, i)
            && b in Av(w'.policy, k)
            && !Ledger(orig, w')
  {
    var s := w.tokens[i].state;
    assert Leaks(w.rules, Parts(s));
    RestoreKeepsLedgerIff(orig, w, i);
    forall k, b ensures Holds(Parts(s), k, b) <= Refs(w.rules, k, b) { CountCovers(w, i, k, b); }
    RestoredPolicy(orig, w, s);
    assert Av(w.policy, k) == Av(orig, k) + Owned(w.rules, k);
  }

  lemma FirstGrant(orig: Policy, r: LoadRequest)
    requires r.fileAv != {}
    ensures var w := Initial(orig);
            var w' := Step(w, OpAllow(0, r, true));
            && Ledger(orig, w')
            && w'.tokens == [Token(0, GrantedState(w.rules, w.policy, r), Wanted(r))]
  {
    var w := Initial(orig);
    InitialLedger(orig);
    FreshPlanOk(orig, r);
    AllowFileKeepsLedger(orig, w, 0, r);
  }

  /** On an empty table every non-empty request is planned, recorded and committed. */
  lemma FreshPlanOk(orig: Policy, r: LoadRequest)
    requires r.fileAv != {}
    ensures var w := Initial(orig);
            var s := GrantedState(w.rules, w.policy, r);
            && FilePlanStatus(w.rules, w.policy, r) == Ok
            && NoWrap(w.rules, Parts(s)) && Room(w.rules, Parts(s))
  {
    var w := Initial(orig);
    var ps := Parts(GrantedState(w.rules, w.policy, r));
    forall k, b ensures Refs(w.rules, k, b) == 0 { assert Find(w.rules, k) == -1; }
    assert FindFree(w.rules) == 0 by { assert !w.rules[0].used; }
    forall k, b ensures Holds(ps, k, b) <= 4 { Holds4(ps[0], ps[1], ps[2], ps[3], k, b); }
    assert NewKeys(w.rules, ps) <= {ps[0].key, ps[1].key, ps[2].key, ps[3].key};
    SubsetSize(NewKeys(w.rules, ps), {ps[0].key, ps[1].key, ps[2].key, ps[3].key});
    AllFree(w.rules);
  }

  lemma AllFree(rules: seq<Rule>)
    requires forall i :: 0 <= i < |rules| ==> !rules[i].used
    ensures FreeSlots(rules) == |rules|
  {
  }

  // ------------------------------------------------------------- every run

  datatype Op =
    | OpAllow(id: nat, req: LoadRequest, commitOk: bool)
    | OpExecmem(index: nat, src: nat, tclass: nat, av: Mask, commitOk: bool)
    | OpRestore(index: nat, commitOk: bool)

  function Step(w: World, op: Op): (w': World)
    requires Shaped(w.rules)
    ensures Shaped(w'.rules)
  {
    match op
    case OpAllow(id, req, commitOk) =>
      var out := AllowFile(w.rules, w.policy, req, commitOk);
      if out.status == Ok then World(out.rules, out.policy, w.tokens + [Token(id, out.state, Wanted(req))])
      else World(out.rules, out.policy, w.tokens)
    case OpExecmem(i, src, tclass, av, commitOk) =>
      if i >= |w.tokens| then w else
      var t := w.tokens[i];
      var out := AllowExecmem(w.rules, w.policy, t.state, src, tclass, av, commitOk);
      World(out.rules, out.policy, w.tokens[i := ExtendToken(t, out, Part(Key(src, src, tclass), av))])
    case OpRestore(i, commitOk) =>
      if i >= |w.tokens| then w else
      var out := Restore(w.rules, w.policy, w.tokens[i].state, commitOk);
      if out.status == Ok then World(out.rules, out.policy, Remove(w.tokens, i)) else w
  }

  /** A grant that gained a process part also promises the process vector. */
  function ExtendToken(t: Token, out: Outcome, p: Part): Token {
    if out.status == Ok && t.state.processAdded == {}
    then t.(state := out.state, required := t.required + [p])
    else t.(state := out.state)
  }

  /** A call that succeeds makes a grant whose parts do not overlap, and a new grant's keys all find slots. Nothing
      is asked of a call that is refused or whose commit fails. */
  ghost predicate Admissible(w: World, op: Op)
    requires Shaped(w.rules)
  {
    match op
    case OpAllow(_, req, commitOk) =>
      AllowFile(w.rules, w.policy, req, commitOk).status == Ok ==>
        var ps := Parts(GrantedState(w.rules, w.policy, req));
        NoOverlap(ps) && Room(w.rules, ps)
    case OpExecmem(i, src, tclass, av, commitOk) =>
      i < |w.tokens| && Extends(w, i, src, tclass, av, commitOk) ==>
        NoOverlap(Parts(ExecmemState(w.rules, w.policy, w.tokens[i].state, Part(Key(src, src, tclass), av))))
    case OpRestore(_, _) => true
  }

  /** The call gives grant `i` its process part. */
  predicate Extends(w: World, i: nat, src: nat, tclass: nat, av: Mask, commitOk: bool)
    requires Shaped(w.rules) && i < |w.tokens|
  {
    && w.tokens[i].state.processAdded == {}
    && AllowExecmem(w.rules, w.policy, w.tokens[i].state, src, tclass, av, commitOk).status == Ok
  }

  /** A refused allow, on a full table or otherwise, and one whose commit fails change nothing and need nothing. */
  lemma RefusedAllow(w: World, id: nat, req: LoadRequest, commitOk: bool)
    requires Shaped(w.rules) && AllowFile(w.rules, w.policy, req, commitOk).status != Ok
    ensures Admissible(w, OpAllow(id, req, commitOk)) && Step(w, OpAllow(id, req, commitOk)) == w
  {
  }

  /** A first grant that asks for one file's key only is admissible. */
  lemma OneFileGrant(orig: Policy, r: LoadRequest)
    requires r.fileAv != {} && r.dirAv == {} && r.tmpfsAv == {}
    ensures Admissible(Initial(orig), OpAllow(0, r, true))
    ensures var w := Initial(orig);
            Step(w, OpAllow(0, r, true)).tokens == [Token(0, GrantedState(w.rules, w.policy, r), Wanted(r))]
  {
    FirstGrant(orig, r);
    FreshPlanOk(orig, r);
    OneFileApart(Initial(orig), r);
  }

  lemma OneFileApart(w: World, r: LoadRequest)
    requires Shaped(w.rules) && r.dirAv == {} && r.tmpfsAv == {}
    ensures NoOverlap(Parts(GrantedState(w.rules, w.policy, r)))
  {
    var ps := Parts(GrantedState(w.rules, w.policy, r));
    forall k, b ensures Holds(ps, k, b) <= 1 { Holds4(ps[0], ps[1], ps[2], ps[3], k, b); }
  }

  lemma StepKeepsLedger(orig: Policy, w: World, op: Op)
    requires Ledger(orig, w) && Clean(w.tokens) && Admissible(w, op)
    ensures Ledger(orig, Step(w, op)) && Clean(Step(w, op).tokens)
  {
    match op
    case OpAllow(id, req, commitOk) => AllowStepKeepsLedger(orig, w, op);
    case OpExecmem(i, src, tclass, av, commitOk) =>
      if i < |w.tokens| { ExecmemStepKeepsLedger(orig, w, op); }
    case OpRestore(i, commitOk) =>
      if i < |w.tokens| { RestoreStepKeepsLedger(orig, w, op); }
  }

  lemma AllowStepKeepsLedger(orig: Policy, w: World, op: Op)
    requires Ledger(orig, w) && Clean(w.tokens) && Admissible(w, op) && op.OpAllow?
    ensures Ledger(orig, Step(w, op)) && Clean(Step(w, op).tokens)
  {
    if AllowFile(w.rules, w.policy, op.req, op.commitOk).status == Ok {
      PlannedNotSaturated(orig, w, op.req);
      NoOverlapNoWrap(w.rules, Parts(GrantedState(w.rules, w.policy, op.req)));
      AllowFileKeepsLedger(orig, w, op.id, op.req);
    }
  }

  lemma RestoreStepKeepsLedger(orig: Policy, w: World, op: Op)
    requires Ledger(orig, w) && Clean(w.tokens) && Admissible(w, op) && op.OpRestore? && op.index < |w.tokens|
    ensures Ledger(orig, Step(w, op)) && Clean(Step(w, op).tokens)
  {
    NoOverlapNoLeak(w.rules, Parts(w.tokens[op.index].state));
    RestoreKeepsLedgerIff(orig, w, op.index);
  }

  lemma ExecmemStepKeepsLedger(orig: Policy, w: World, op: Op)
    requires Ledger(orig, w) && Clean(w.tokens) && Admissible(w, op) && op.OpExecmem? && op.index < |w.tokens|
    ensures Ledger(orig, Step(w, op)) && Clean(Step(w, op).tokens)
  {
    var t := w.tokens[op.index];
    var out := AllowExecmem(w.rules, w.policy, t.state, op.src, op.tclass, op.av, op.commitOk);
    if out.status == Ok && t.state.processAdded == {} {
      AllowExecmemKeepsLedger(orig, w, op.index, op.src, op.tclass, op.av);
    } else {
      SameBitsKeepLedger(orig, w, op.index, out.state);
    }
  }

  /** Renaming the key of an empty process part changes no count. */
  lemma SameBitsKeepLedger(orig: Policy, w: World, i: nat, s: LoadPolicy)
    requires Ledger(orig, w) && Clean(w.tokens) && i < |w.tokens|
    requires var t := w.tokens[i];
             s == t.state
             || (t.state.processAdded == {}
                 && s == t.state.(processType := s.processType, processClass := s.processClass))
    ensures var t' := w.tokens[i].(state := s);
            Ledger(orig, w.(tokens := w.tokens[i := t'])) && Clean(w.tokens[i := t'])
  {
    var t := w.tokens[i];
    var t' := t.(state := s);
    var ps, ps' := Parts(t.state), Parts(s);
    forall k, b ensures Holds(ps', k, b) == Holds(ps, k, b) {
      Holds4(ps[0], ps[1], ps[2], ps[3], k, b);
      Holds4(ps'[0], ps'[1], ps'[2], ps'[3], k, b);
    }
    forall k, b ensures Count(w.tokens[i := t'], k, b) == Count(w.tokens, k, b) {
      CountReplace(w.tokens, i, t', k, b);
    }
    assert Sound(orig, t') by {
      assert Sound(orig, t);
      forall k ensures BitsOf(ps', k) == BitsOf(ps, k) {}
    }
  }

  function Run(w: World, ops: seq<Op>): (w': World)
    requires Shaped(w.rules)
    ensures Shaped(w'.rules)
    decreases |ops|
  {
    if ops == [] then w else Run(Step(w, ops[0]), ops[1..])
  }

  ghost predicate AdmissibleRun(w: World, ops: seq<Op>)
    requires Shaped(w.rules)
    decreases |ops|
  {
    ops == [] || (Admissible(w, ops[0]) && AdmissibleRun(Step(w, ops[0]), ops[1..]))
  }

  function Initial(orig: Policy): World {
    World(seq(RULE_MAX, _ => FreeRule()), orig, [])
  }

  lemma InitialLedger(orig: Policy)
    ensures Ledger(orig, Initial(orig))
  {
    var w := Initial(orig);
    forall k, b ensures Refs(w.rules, k, b) == 0 { assert Find(w.rules, k) == -1; }
  }

  lemma {:induction false} RunKeepsLedger(orig: Policy, w: World, ops: seq<Op>)
    requires Ledger(orig, w) && Clean(w.tokens) && AdmissibleRun(w, ops)
    ensures Ledger(orig, Run(w, ops)) && Clean(Run(w, ops).tokens)
    decreases |ops|
  {
    if ops != [] {
      StepKeepsLedger(orig, w, ops[0]);
      RunKeepsLedger(orig, Step(w, ops[0]), ops[1..]);
    }
  }

  /** In every run: the live policy is the owner's plus the union of outstanding grants, and every
      outstanding grant's required bits are allowed. */
  lemma LivePolicyInEveryRun(orig: Policy, ops: seq<Op>)
    requires AdmissibleRun(Initial(orig), ops)
    ensures var w := Run(Initial(orig), ops);
            && (forall k, b :: b in Av(w.policy, k) <==> b in Av(orig, k) || Count(w.tokens, k, b) != 0)
            && (forall k, b :: b in Av(orig, k) ==> Count(w.tokens, k, b) == 0)
            && (forall i, j :: 0 <= i < |w.tokens| && 0 <= j < |w.tokens[i].required| ==>
                  w.tokens[i].required[j].av <= Av(w.policy, w.tokens[i].required[j].key))
  {
    InitialLedger(orig);
    RunKeepsLedger(orig, Initial(orig), ops);
    var w := Run(Initial(orig), ops);
    forall k, b
      ensures b in Owned(w.rules, k) <==> Count(w.tokens, k, b) != 0
    {
      assert Refs(w.rules, k, b) == Count(w.tokens, k, b);
    }
    forall i, j | 0 <= i < |w.tokens| && 0 <= j < |w.tokens[i].required|
      ensures w.tokens[i].required[j].av <= Av(w.policy, w.tokens[i].required[j].key)
    {
      RequiredAllowed(orig, w, i, j);
    }
  }

  lemma RequiredAllowed(orig: Policy, w: World, i: nat, j: nat)
    requires Ledger(orig, w) && i < |w.tokens| && j < |w.tokens[i].required|
    ensures w.tokens[i].required[j].av <= Av(w.policy, w.tokens[i].required[j].key)
  {
    var t := w.tokens[i];
    var q := t.required[j];
    assert Sound(orig, t);
    forall b | b in BitsOf(Parts(t.state), q.key) ensures b in Owned(w.rules, q.key) {
      CountCovers(w, i, q.key, b);
    }
    assert Av(w.policy, q.key) == Av(orig, q.key) + Owned(w.rules, q.key);
  }

  /** Once every grant is released the owner's policy is back and every slot is free. */
  lemma DrainedLedger(orig: Policy, w: World)
    requires Ledger(orig, w) && w.tokens == []
    ensures forall k :: Av(w.policy, k) == Av(orig, k)
    ensures forall i :: 0 <= i < |w.rules| ==> !w.rules[i].used
  {
    forall k ensures Av(w.policy, k) == Av(orig, k) {
      assert forall b :: Refs(w.rules, k, b) == 0;
      assert Av(w.policy, k) == Av(orig, k) + Owned(w.rules, k);
    }
    forall i | 0 <= i < |w.rules| ensures !w.rules[i].used {
      if w.rules[i].used { UsedSlotHasReference(w.rules, i); }
    }
  }

  lemma UsedSlotHasReference(rules: seq<Rule>, i: nat)
    requires ValidTable(rules) && i < |rules| && rules[i].used
    ensures exists k, b :: Refs(rules, k, b) != 0
  {
    FindUnique(rules, i);
    var b :| 0 <= b < PERM_BITS && rules[i].refs[b] != 0;
    assert Refs(rules, rules[i].key, b as Bit) != 0;
  }
}
