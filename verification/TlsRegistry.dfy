/**
 The loader's thread-local storage registry: module ids are reused, generations are
 not, and a thread's block is trusted only for the generation it was built for.
 */
module TlsRegistry {

  datatype Option<T> = None | Some(value: T)

  const MAX_SLOTS := 1024
  const SIZE_MAX := 0xffff_ffff_ffff_ffff

  type Bytes = seq<bv8>

  datatype Template = Template(image: nat, id: nat, generation: nat, init: Bytes, memory: nat)

  datatype Block = Block(id: nat, generation: nat, storage: Bytes)

  /** A thread's block table, indexed by module id. */
  type Blocks = seq<Option<Block>>

  datatype Registry = Registry(gens: seq<nat>, templates: seq<Template>, next: nat, stopped: bool,
                               threads: map<nat, Blocks>)

  function NoGens(): (g: seq<nat>)
    ensures |g| == MAX_SLOTS + 1 && forall i :: 0 <= i < |g| ==> g[i] == 0
  {
    seq(MAX_SLOTS + 1, _ => 0)
  }

  // ------------------------------------------------------------- operations

  /** The smallest id at or after `id` with no active generation, or MAX_SLOTS + 1. */
  function FreeId(gens: seq<nat>, id: nat): (r: nat)
    requires |gens| == MAX_SLOTS + 1 && id <= MAX_SLOTS + 1
    ensures id <= r <= MAX_SLOTS + 1
    ensures r <= MAX_SLOTS ==> gens[r] == 0
    decreases MAX_SLOTS + 1 - id
  {
    if id > MAX_SLOTS || gens[id] == 0 then id else FreeId(gens, id + 1)
  }

  function Bump(next: nat): nat { if next == SIZE_MAX then 0 else next + 1 }

  /** The generation handed out: the counter, skipping zero. */
  function Issue(next: nat): nat { if next == 0 then 1 else next }

  function AfterIssue(next: nat): nat { if next == 0 then Bump(1) else Bump(next) }

  function Activate(r: Registry, image: nat, init: Bytes, memory: nat, alignmentOk: bool): (bool, Registry)
    requires |r.gens| == MAX_SLOTS + 1
  {
    var id := FreeId(r.gens, 1);
    if memory == 0 then (true, r)
    else if |init| > memory || !alignmentOk || r.stopped || id > MAX_SLOTS then (false, r)
    else
      var t := Template(image, id, Issue(r.next), init, memory);
      (true, r.(gens := r.gens[id := t.generation], templates := [t] + r.templates, next := AfterIssue(r.next)))
  }

  function ImageIndex(ts: seq<Template>, image: nat): (i: nat)
    ensures i <= |ts|
    ensures i < |ts| ==> ts[i].image == image
    ensures i == |ts| ==> forall j :: 0 <= j < |ts| ==> ts[j].image != image
  {
    if ts == [] || ts[0].image == image then 0
    else
      var i := ImageIndex(ts[1..], image);
      assert forall j :: 1 <= j < |ts| ==> ts[j] == ts[1..][j - 1];
      i + 1
  }

  function Deactivate(r: Registry, image: nat): Registry
    requires |r.gens| == MAX_SLOTS + 1
  {
    var i := ImageIndex(r.templates, image);
    if i == |r.templates| then r
    else
      var id := r.templates[i].id;
      r.(gens := if 0 < id <= MAX_SLOTS then r.gens[id := 0] else r.gens,
         templates := r.templates[..i] + r.templates[i + 1..])
  }

  /** Stops the registry and drops the calling thread's blocks. */
  function Shutdown(r: Registry, thread: nat): Registry {
    r.(gens := NoGens(), templates := [], stopped := true, threads := r.threads - {thread})
  }

  function ActiveGeneration(r: Registry, id: nat): nat
    requires |r.gens| == MAX_SLOTS + 1
  {
    if id == 0 || id > MAX_SLOTS then 0 else r.gens[id]
  }

  function FindTemplate(ts: seq<Template>, id: nat): (t: Option<Template>)
    ensures t.Some? ==> t.value in ts && t.value.id == id
    ensures t.None? ==> forall j :: 0 <= j < |ts| ==> ts[j].id != id
  {
    if ts == [] then None
    else if ts[0].id == id then Some(ts[0])
    else
      var t := FindTemplate(ts[1..], id);
      assert forall j :: 1 <= j < |ts| ==> ts[j] == ts[1..][j - 1];
      t
  }

  /** The template's bytes followed by zeros. */
  function Image(t: Template): (s: Bytes)
    requires |t.init| <= t.memory
    ensures |s| == t.memory
    ensures forall i :: 0 <= i < |s| ==> s[i] == if i < |t.init| then t.init[i] else 0
  {
    t.init + seq(t.memory - |t.init|, _ => 0)
  }

  function Capacity(cap: nat, required: nat): (c: nat)
    requires cap > 0
    ensures c >= required && c >= cap
    decreases if cap < required then required - cap else 0
  {
    if cap >= required then cap
    else if cap > SIZE_MAX / 2 then required
    else Capacity(cap * 2, required)
  }

  function Grow(blocks: Blocks, id: nat): (b: Blocks)
    ensures id < |b| && |blocks| <= |b|
    ensures forall i :: 0 <= i < |b| ==> b[i] == if i < |blocks| then blocks[i] else None
  {
    if id < |blocks| then blocks
    else
      var cap := Capacity(if |blocks| == 0 then 8 else |blocks|, id + 1);
      blocks + seq(cap - |blocks|, _ => None)
  }

  function BlocksOf(r: Registry, thread: nat): Blocks {
    if thread in r.threads then r.threads[thread] else []
  }

  function BlockAt(bs: Blocks, id: nat): Option<Block> { if id < |bs| then bs[id] else None }

  /** Which block an access returns, if any, and the registry afterwards; `seen` was loaded earlier. */
  function Access(r: Registry, thread: nat, id: nat, offset: nat, seen: nat, allocOk: bool): (Option<Block>, Registry)
    requires WellFormed(r)
  {
    var mine := BlockAt(BlocksOf(r, thread), id);
    var t := FindTemplate(r.templates, id);
    if seen == 0 then (None, r)
    else if mine.Some? && mine.value.generation == seen then (mine, r)
    else if t.None? || offset >= t.value.memory then (None, r)
    else if mine.Some? && mine.value.generation == t.value.generation then (mine, r)
    else if !allocOk then (None, r)
    else
      var b := Block(id, t.value.generation, Image(t.value));
      (Some(b), r.(threads := r.threads[thread := Grow(BlocksOf(r, thread), id)[id := Some(b)]]))
  }

  // -------------------------------------------------------------- invariant

  /** What an access has loaded so far: for which thread and id, and the generation active then. */
  datatype Load = Load(thread: nat, id: nat, seen: nat)

  /** The registry, every template ever activated by generation, and the accesses in flight. */
  datatype Run = Run(r: Registry, issued: map<nat, Template>, loads: map<nat, Load>)

  /** No two active images share an id, and an id's active generation is its template's. */
  ghost predicate TemplatesOk(r: Registry, issued: map<nat, Template>) {
    && |r.gens| == MAX_SLOTS + 1 && r.gens[0] == 0
    && (forall i :: 0 <= i < |r.templates| ==> TemplateOk(r, issued, r.templates[i]))
    && (forall i, j :: 0 <= i < j < |r.templates| ==>
          r.templates[i].id != r.templates[j].id && r.templates[i].image != r.templates[j].image)
    && (forall id :: 0 < id <= MAX_SLOTS && r.gens[id] != 0 ==> FindTemplate(r.templates, id).Some?)
    && (r.stopped ==> r.templates == [])
  }

  ghost predicate TemplateOk(r: Registry, issued: map<nat, Template>, t: Template)
    requires |r.gens| == MAX_SLOTS + 1
  {
    && 0 < t.id <= MAX_SLOTS && t.generation != 0 && r.gens[t.id] == t.generation
    && t.generation in issued && issued[t.generation] == t
    && |t.init| <= t.memory
  }

  ghost predicate IssuedOk(issued: map<nat, Template>, next: nat) {
    && 0 < next
    && forall g :: g in issued ==> 0 < g < next && issued[g].generation == g && |issued[g].init| <= issued[g].memory
  }

  /** A block at `id` was built for a template that owned `id`, with that template's size. */
  ghost predicate BlockOk(issued: map<nat, Template>, id: nat, b: Block) {
    && b.id == id && b.generation in issued
    && issued[b.generation].id == id && |b.storage| == issued[b.generation].memory
  }

  ghost predicate BlocksOk(issued: map<nat, Template>, bs: Blocks) {
    forall id :: 0 <= id < |bs| && bs[id].Some? ==> BlockOk(issued, id, bs[id].value)
  }

  ghost predicate LoadOk(issued: map<nat, Template>, l: Load) {
    l.seen == 0 || (l.seen in issued && issued[l.seen].id == l.id)
  }

  ghost predicate Inv(s: Run) {
    && TemplatesOk(s.r, s.issued) && IssuedOk(s.issued, s.r.next)
    && (forall t :: t in s.r.threads ==> BlocksOk(s.issued, s.r.threads[t]))
    && (forall a :: a in s.loads ==> LoadOk(s.issued, s.loads[a]))
  }

  datatype Event =
    | EvActivate(image: nat, init: Bytes, memory: nat, alignmentOk: bool)
    | EvDeactivate(image: nat)
    | EvShutdown(thread: nat)
    | EvThreadExit(thread: nat)
    | EvLoad(access: nat, thread: nat, id: nat)
    | EvFinish(access: nat, offset: nat, allocOk: bool)
    | EvWrite(thread: nat, id: nat, offset: nat, value: bv8)

  /** An image is activated once at a time, the generation counter has not wrapped, and an access loads once. */
  predicate Enabled(s: Run, e: Event) {
    match e
    case EvActivate(image, _, _, _) =>
      ImageIndex(s.r.templates, image) == |s.r.templates| && s.r.next < SIZE_MAX
    case EvLoad(a, _, _) => a !in s.loads
    case EvFinish(a, _, _) => a in s.loads
    case EvWrite(thread, id, offset, _) =>
      var b := BlockAt(BlocksOf(s.r, thread), id);
      thread in s.r.threads && b.Some? && offset < |b.value.storage|
    case _ => true
  }

  function WriteByte(bs: Blocks, id: nat, offset: nat, value: bv8): Blocks
    requires BlockAt(bs, id).Some? && offset < |bs[id].value.storage|
  {
    bs[id := Some(bs[id].value.(storage := bs[id].value.storage[offset := value]))]
  }

  predicate WellFormed(r: Registry) {
    && |r.gens| == MAX_SLOTS + 1
    && forall i :: 0 <= i < |r.templates| ==> |r.templates[i].init| <= r.templates[i].memory
  }

  /** The block the access returns, if any, and the registry after it. */
  function Finished(s: Run, e: Event): (Option<Block>, Registry)
    requires WellFormed(s.r) && Enabled(s, e) && e.EvFinish?
  {
    var l := s.loads[e.access];
    Access(s.r, l.thread, l.id, e.offset, l.seen, e.allocOk)
  }

  function Next(s: Run, e: Event): Run
    requires WellFormed(s.r) && Enabled(s, e)
  {
    match e
    case EvActivate(image, init, memory, ok) =>
      var r' := Activate(s.r, image, init, memory, ok).1;
      if |r'.templates| > |s.r.templates|
      then s.(r := r', issued := s.issued[r'.templates[0].generation := r'.templates[0]])
      else s.(r := r')
    case EvDeactivate(image) => s.(r := Deactivate(s.r, image))
    case EvShutdown(thread) => s.(r := Shutdown(s.r, thread))
    case EvThreadExit(thread) => s.(r := s.r.(threads := s.r.threads - {thread}))
    case EvLoad(a, thread, id) => s.(loads := s.loads[a := Load(thread, id, ActiveGeneration(s.r, id))])
    case EvFinish(a, offset, ok) => s.(r := Finished(s, e).1, loads := s.loads - {a})
    case EvWrite(thread, id, offset, value) =>
      s.(r := s.r.(threads := s.r.threads[thread := WriteByte(s.r.threads[thread], id, offset, value)]))
  }

  lemma IdGrows(ts: seq<Template>, t: Template, id: nat)
    ensures FindTemplate([t] + ts, id) == if t.id == id then Some(t) else FindTemplate(ts, id)
  {
    assert ([t] + ts)[1..] == ts;
  }

  lemma PushKeeps(r: Registry, issued: map<nat, Template>, t: Template, next: nat)
    requires TemplatesOk(r, issued) && !r.stopped
    requires 0 < t.id <= MAX_SLOTS && r.gens[t.id] == 0 && t.generation != 0 && t.generation !in issued
    requires |t.init| <= t.memory && ImageIndex(r.templates, t.image) == |r.templates|
    ensures TemplatesOk(r.(gens := r.gens[t.id := t.generation], templates := [t] + r.templates, next := next),
                        issued[t.generation := t])
  {
    var r' := r.(gens := r.gens[t.id := t.generation], templates := [t] + r.templates, next := next);
    var issued' := issued[t.generation := t];
    forall i | 0 <= i < |r'.templates|
      ensures TemplateOk(r', issued', r'.templates[i])
      ensures i > 0 ==> r'.templates[i].id != t.id
    {
      if i > 0 { assert TemplateOk(r, issued, r.templates[i - 1]); }
    }
    forall i, j | 0 <= i < j < |r'.templates|
      ensures r'.templates[i].id != r'.templates[j].id && r'.templates[i].image != r'.templates[j].image
    {
      assert r'.templates[j] == r.templates[j - 1];
      if i > 0 { assert r'.templates[i] == r.templates[i - 1]; }
    }
    forall id | 0 < id <= MAX_SLOTS && r'.gens[id] != 0 ensures FindTemplate(r'.templates, id).Some? {
      IdGrows(r.templates, t, id);
    }
  }

  lemma ActivateKeeps(s: Run, e: Event)
    requires Inv(s) && Enabled(s, e) && e.EvActivate?
    ensures Inv(Next(s, e))
  {
    var r' := Activate(s.r, e.image, e.init, e.memory, e.alignmentOk).1;
    if |r'.templates| > |s.r.templates| {
      var t := r'.templates[0];
      PushKeeps(s.r, s.issued, t, r'.next);
      IssuedGrows(s, t);
    }
  }

  /** What is true of blocks and accesses in flight stays true when another template is issued. */
  lemma IssuedGrows(s: Run, t: Template)
    requires t.generation !in s.issued
    requires forall thread :: thread in s.r.threads ==> BlocksOk(s.issued, s.r.threads[thread])
    requires forall a :: a in s.loads ==> LoadOk(s.issued, s.loads[a])
    ensures var issued' := s.issued[t.generation := t];
            && (forall thread :: thread in s.r.threads ==> BlocksOk(issued', s.r.threads[thread]))
            && (forall a :: a in s.loads ==> LoadOk(issued', s.loads[a]))
  {
    var issued' := s.issued[t.generation := t];
    forall thread | thread in s.r.threads ensures BlocksOk(issued', s.r.threads[thread]) {
      assert BlocksOk(s.issued, s.r.threads[thread]);
    }
  }

  /** Removing the template of `id` leaves every other id's template. */
  lemma FindAfterRemove(ts: seq<Template>, i: nat, id: nat)
    requires i < |ts| && ts[i].id != id && FindTemplate(ts, id).Some?
    ensures FindTemplate(ts[..i] + ts[i + 1..], id).Some?
  {
    var rest := ts[..i] + ts[i + 1..];
    var t := FindTemplate(ts, id).value;
    var j :| 0 <= j < |ts| && ts[j] == t;
    assert rest[if j < i then j else j - 1] == t;
  }

  lemma DeactivateKeeps(s: Run, image: nat)
    requires Inv(s)
    ensures Inv(s.(r := Deactivate(s.r, image)))
  {
    if ImageIndex(s.r.templates, image) < |s.r.templates| { RemoveKeeps(s.r, s.issued, image); }
  }

  lemma RemoveKeeps(r: Registry, issued: map<nat, Template>, image: nat)
    requires TemplatesOk(r, issued) && ImageIndex(r.templates, image) < |r.templates|
    ensures TemplatesOk(Deactivate(r, image), issued)
  {
    var r', i := Deactivate(r, image), ImageIndex(r.templates, image);
    var ts, ts', t := r.templates, r'.templates, r.templates[i];
    assert TemplateOk(r, issued, t);
    RemovedDistinct(ts, i);
    forall j | 0 <= j < |ts'| ensures TemplateOk(r', issued, ts'[j]) {
      assert TemplateOk(r, issued, ts[if j < i then j else j + 1]);
    }
    forall id | 0 < id <= MAX_SLOTS && r'.gens[id] != 0 ensures FindTemplate(ts', id).Some? {
      FindAfterRemove(ts, i, id);
    }
  }

  lemma RemovedDistinct(ts: seq<Template>, i: nat)
    requires i < |ts|
    requires forall j, k :: 0 <= j < k < |ts| ==> ts[j].id != ts[k].id && ts[j].image != ts[k].image
    ensures var rest := ts[..i] + ts[i + 1..];
            && |rest| == |ts| - 1
            && (forall j :: 0 <= j < |rest| ==> rest[j] == ts[if j < i then j else j + 1] && rest[j].id != ts[i].id)
            && forall j, k :: 0 <= j < k < |rest| ==> rest[j].id != rest[k].id && rest[j].image != rest[k].image
  {
  }

  lemma FinishKeeps(s: Run, e: Event)
    requires Inv(s) && Enabled(s, e) && e.EvFinish?
    ensures Inv(Next(s, e))
  {
    var Load(thread, id, seen) := s.loads[e.access];
    var (b, r') := Finished(s, e);
    if r' != s.r {
      var t := FindTemplate(s.r.templates, id).value;
      assert TemplateOk(s.r, s.issued, t);
      assert BlockOk(s.issued, id, b.value);
      var old' := BlocksOf(s.r, thread);
      assert BlocksOk(s.issued, old');
      assert BlocksOk(s.issued, Grow(old', id)[id := b]);
    }
  }

  lemma WriteKeeps(s: Run, e: Event)
    requires Inv(s) && Enabled(s, e) && e.EvWrite?
    ensures Inv(Next(s, e))
  {
    var bs := s.r.threads[e.thread];
    assert BlocksOk(s.issued, bs);
    assert BlocksOk(s.issued, WriteByte(bs, e.id, e.offset, e.value));
  }

  lemma LoadKeeps(s: Run, e: Event)
    requires Inv(s) && Enabled(s, e) && e.EvLoad?
    ensures Inv(Next(s, e))
  {
    var g := ActiveGeneration(s.r, e.id);
    if g != 0 {
      var t := FindTemplate(s.r.templates, e.id).value;
      assert TemplateOk(s.r, s.issued, t);
    }
  }

  lemma StepKeepsInv(s: Run, e: Event)
    requires Inv(s) && Enabled(s, e)
    ensures Inv(Next(s, e))
  {
    match e
    case EvActivate(_, _, _, _) => ActivateKeeps(s, e);
    case EvDeactivate(image) => DeactivateKeeps(s, image);
    case EvShutdown(thread) =>
    case EvThreadExit(thread) =>
    case EvLoad(_, _, _) => LoadKeeps(s, e);
    case EvFinish(_, _, _) => FinishKeeps(s, e);
    case EvWrite(_, _, _, _) => WriteKeeps(s, e);
  }

  // --------------------------------------------------------------- every run

  /** State `i + 1` follows by event `i`. */
  predicate Follows(trace: seq<Run>, events: seq<Event>, i: int)
    requires 0 <= i < |events| < |trace|
  {
    WellFormed(trace[i].r) ==> Enabled(trace[i], events[i]) && trace[i + 1] == Next(trace[i], events[i])
  }

  ghost predicate IsRun(trace: seq<Run>, events: seq<Event>) {
    && |trace| == |events| + 1
    && trace[0] == Run(Registry(NoGens(), [], 1, false, map[]), map[], map[])
    && forall i {:trigger Follows(trace, events, i)} :: 0 <= i < |events| ==> Follows(trace, events, i)
  }

  lemma {:induction false} RunKeepsInv(trace: seq<Run>, events: seq<Event>, i: nat)
    requires IsRun(trace, events) && i <= |events|
    ensures Inv(trace[i])
  {
    if i > 0 {
      RunKeepsInv(trace, events, i - 1);
      assert Follows(trace, events, i - 1);
      StepKeepsInv(trace[i - 1], events[i - 1]);
    }
  }

  /** Event `i` of a run, with what is known before it. */
  lemma RunStep(trace: seq<Run>, events: seq<Event>, i: nat)
    requires IsRun(trace, events) && i < |events|
    ensures Inv(trace[i]) && WellFormed(trace[i].r) && Enabled(trace[i], events[i])
    ensures trace[i + 1] == Next(trace[i], events[i])
  {
    RunKeepsInv(trace, events, i);
    assert Follows(trace, events, i);
  }

  /** In every run no two active images share an id, and generations never repeat. */
  lemma ActiveIdsDistinct(trace: seq<Run>, events: seq<Event>, n: nat, i: nat, j: nat)
    requires IsRun(trace, events) && n <= |events|
    requires i < j < |trace[n].r.templates|
    ensures trace[n].r.templates[i].id != trace[n].r.templates[j].id
    ensures trace[n].r.templates[i].generation != trace[n].r.templates[j].generation
  {
    RunKeepsInv(trace, events, n);
    var s := trace[n];
    assert TemplateOk(s.r, s.issued, s.r.templates[i]) && TemplateOk(s.r, s.issued, s.r.templates[j]);
  }

  /** The thread's own block for the id the access is about. */
  function OwnBlock(s: Run, a: nat): Option<Block>
    requires a in s.loads
  {
    BlockAt(BlocksOf(s.r, s.loads[a].thread), s.loads[a].id)
  }

  /** A block an access returns was built for an owner of the id, under the generation the access loaded or the one
      active now; it has that owner's size, so a valid offset is inside it; and a block built by the access is the
      owner's initial image followed by zeros. */
  ghost predicate SafeResult(s: Run, e: Event)
    requires WellFormed(s.r) && e.EvFinish? && Enabled(s, e)
  {
    var Load(thread, id, seen) := s.loads[e.access];
    var result := Finished(s, e).0;
    result.Some? ==>
      var b := result.value;
      && b.generation in s.issued && s.issued[b.generation].id == id
      && (b.generation == seen || b.generation == ActiveGeneration(s.r, id))
      && |b.storage| == s.issued[b.generation].memory
      && (b.generation != seen ==> e.offset < |b.storage|)
      && (result != OwnBlock(s, e.access) ==>
            |s.issued[b.generation].init| <= |b.storage| && b.storage == Image(s.issued[b.generation]))
  }

  lemma AccessSafe(trace: seq<Run>, events: seq<Event>, n: nat)
    requires IsRun(trace, events) && n < |events| && events[n].EvFinish?
    ensures WellFormed(trace[n].r) && Enabled(trace[n], events[n]) && SafeResult(trace[n], events[n])
  {
    RunStep(trace, events, n);
    var s, e := trace[n], events[n];
    var Load(thread, id, seen) := s.loads[e.access];
    var mine := OwnBlock(s, e.access);
    assert mine.Some? ==> BlockOk(s.issued, id, mine.value);
    var t := FindTemplate(s.r.templates, id);
    if t.Some? { assert TemplateOk(s.r, s.issued, t.value); }
  }

  /** A generation a later owner of the id is active under is never one an earlier owner had. */
  lemma GenerationsNotReused(trace: seq<Run>, events: seq<Event>, n: nat)
    requires IsRun(trace, events) && n < |events| && events[n].EvActivate?
    requires |trace[n + 1].r.templates| > |trace[n].r.templates|
    ensures trace[n + 1].r.templates[0].generation !in trace[n].issued
  {
    RunStep(trace, events, n);
  }

  // --------------------------------------------------- how fresh a block is

  /** Event `l` is the load of access `a`, which has been in flight with that load ever since, up to `n`; and what it
      loaded is the generation active at the load. */
  ghost predicate LoadedAt(trace: seq<Run>, events: seq<Event>, l: nat, n: nat, a: nat)
    requires |trace| == |events| + 1 && l < n <= |events| && a in trace[n].loads
  {
    var load := trace[n].loads[a];
    && events[l] == EvLoad(a, load.thread, load.id)
    && |trace[l].r.gens| == MAX_SLOTS + 1 && ActiveGeneration(trace[l].r, load.id) == load.seen
    && forall k :: l < k <= n ==> a in trace[k].loads && trace[k].loads[a] == load
  }

  /** An access in flight loaded its generation at its own load. */
  lemma {:induction false} LoadedWasActive(trace: seq<Run>, events: seq<Event>, n: nat, a: nat)
    requires IsRun(trace, events) && n <= |events| && a in trace[n].loads
    ensures exists l: nat :: l < n && LoadedAt(trace, events, l, n, a)
    decreases n
  {
    if n > 0 {
      var m := n - 1;
      LoadStep(trace, events, m, a);
      if events[m].EvLoad? && events[m].access == a {
        assert LoadedAt(trace, events, m, n, a);
      } else {
        LoadedWasActive(trace, events, m, a);
        var l: nat :| l < m && LoadedAt(trace, events, l, m, a);
        assert LoadedAt(trace, events, l, n, a);
      }
    }
  }

  /** An access in flight after event `m` either loaded in it or was in flight before, with the same load. */
  lemma LoadStep(trace: seq<Run>, events: seq<Event>, m: nat, a: nat)
    requires IsRun(trace, events) && m < |events| && a in trace[m + 1].loads
    ensures if events[m].EvLoad? && events[m].access == a then LoadedAt(trace, events, m, m + 1, a)
            else a in trace[m].loads && trace[m].loads[a] == trace[m + 1].loads[a]
  {
    RunStep(trace, events, m);
  }

  /** Never a stale block from before the access: the generation of the block an access returns was the active one of
      its id at some moment between the access's own load and its end. */
  lemma BlockActiveDuringAccess(trace: seq<Run>, events: seq<Event>, n: nat)
    requires IsRun(trace, events) && n < |events| && events[n].EvFinish?
    ensures WellFormed(trace[n].r) && Enabled(trace[n], events[n])
    ensures var a, result := events[n].access, Finished(trace[n], events[n]).0;
            result.Some? ==>
              exists l: nat, m: nat :: l <= m <= n && l < n && LoadedAt(trace, events, l, n, a)
                && |trace[m].r.gens| == MAX_SLOTS + 1
                && ActiveGeneration(trace[m].r, trace[n].loads[a].id) == result.value.generation
  {
    AccessSafe(trace, events, n);
    var a, result := events[n].access, Finished(trace[n], events[n]).0;
    LoadedWasActive(trace, events, n, a);
    var l: nat :| l < n && LoadedAt(trace, events, l, n, a);
    if result.Some? {
      var m := if result.value.generation == trace[n].loads[a].seen then l else n;
      assert l <= m <= n && ActiveGeneration(trace[m].r, trace[n].loads[a].id) == result.value.generation;
    }
  }

  /** The fast path: the thread's block has the generation loaded, and that one is not active any more. */
  predicate Overtaken(s: Run, a: nat)
    requires a in s.loads && |s.r.gens| == MAX_SLOTS + 1
  {
    && OwnBlock(s, a).Some? && OwnBlock(s, a).value.generation == s.loads[a].seen
    && s.loads[a].seen != ActiveGeneration(s.r, s.loads[a].id)
  }

  /** The block returned is the active generation's exactly when the access was not overtaken on the fast path. */
  lemma CurrentUnlessOvertaken(trace: seq<Run>, events: seq<Event>, n: nat)
    requires IsRun(trace, events) && n < |events| && events[n].EvFinish?
    ensures WellFormed(trace[n].r) && Enabled(trace[n], events[n])
    ensures var s, a := trace[n], events[n].access;
            var result := Finished(s, events[n]).0;
            result.Some? ==>
              (result.value.generation == ActiveGeneration(s.r, s.loads[a].id) <==> !Overtaken(s, a))
  {
    RunStep(trace, events, n);
    var s := trace[n];
    var t := FindTemplate(s.r.templates, s.loads[events[n].access].id);
    if t.Some? { assert TemplateOk(s.r, s.issued, t.value); }
  }

  /** One more step of a run. */
  lemma Extended(trace: seq<Run>, events: seq<Event>, e: Event) returns (trace': seq<Run>, s': Run)
    requires IsRun(trace, events) && Enabled(trace[|events|], e)
    ensures WellFormed(trace[|events|].r) && s' == Next(trace[|events|], e)
    ensures IsRun(trace', events + [e]) && |trace'| == |events| + 2 && trace'[|events| + 1] == s'
    ensures trace'[|events|] == trace[|events|]
  {
    RunKeepsInv(trace, events, |events|);
    s' := Next(trace[|events|], e);
    trace' := trace + [s'];
    var events' := events + [e];
    forall i | 0 <= i < |events'| ensures Follows(trace', events', i) {
      if i < |events| { assert Follows(trace, events, i); }
    }
  }

  /** No image is active. */
  predicate Bare(r: Registry) { r.gens == NoGens() && r.templates == [] && !r.stopped && 0 < r.next < SIZE_MAX }

  /** Image `image` is the only active one, on id 1, with one byte of storage. */
  predicate Alone(r: Registry, image: nat, generation: nat) {
    && r.gens == NoGens()[1 := generation] && r.templates == [Template(image, 1, generation, [], 1)]
    && !r.stopped && 0 < generation < r.next < SIZE_MAX
  }

  lemma AloneActivated(s: Run, image: nat)
    requires Bare(s.r) && s.r.next + 1 < SIZE_MAX
    ensures WellFormed(s.r) && Enabled(s, EvActivate(image, [], 1, true))
    ensures var s' := Next(s, EvActivate(image, [], 1, true));
            && Alone(s'.r, image, s.r.next) && s'.r.next == s.r.next + 1
            && s'.r.threads == s.r.threads && s'.loads == s.loads
  {
    assert FreeId(s.r.gens, 1) == 1;
    var t := Template(image, 1, s.r.next, [], 1);
    assert [t] + s.r.templates == [t];
  }

  lemma AloneDeactivated(s: Run, image: nat, generation: nat)
    requires Alone(s.r, image, generation)
    ensures WellFormed(s.r) && Enabled(s, EvDeactivate(image))
    ensures var s' := Next(s, EvDeactivate(image));
            Bare(s'.r) && s'.r.next == s.r.next && s'.r.threads == s.r.threads && s'.loads == s.loads
  {
    assert s.r.templates[..0] + s.r.templates[1..] == [];
    assert NoGens()[1 := generation][1 := 0] == NoGens();
  }

  /** The access of thread 7 in flight as access `a`, with the thread's block of that generation. */
  lemma AloneAccessed(s: Run, image: nat, generation: nat, a: nat)
    requires Alone(s.r, image, generation) && a in s.loads && s.loads[a] == Load(7, 1, generation)
    ensures WellFormed(s.r) && Enabled(s, EvFinish(a, 0, true))
    ensures var s' := Next(s, EvFinish(a, 0, true));
            && Alone(s'.r, image, generation) && s'.loads == s.loads - {a} && s'.r.next == s.r.next
            && BlockAt(BlocksOf(s'.r, 7), 1).Some?
            && (BlocksOf(s.r, 7) == [] ==> BlockAt(BlocksOf(s'.r, 7), 1).value.generation == generation)
  {
    var t := s.r.templates[0];
    assert FindTemplate(s.r.templates, 1) == Some(t);
  }

  /** And it can be overtaken: between load and end of an access its image is replaced by another on the same id, and
      the access still returns the first image's block. */
  lemma OvertakenRun()
    ensures exists trace: seq<Run>, events: seq<Event>, n: nat ::
              && IsRun(trace, events) && n < |events| && events[n].EvFinish? && WellFormed(trace[n].r)
              && Enabled(trace[n], events[n]) && Overtaken(trace[n], events[n].access)
              && Finished(trace[n], events[n]).0.Some? && ActiveGeneration(trace[n].r, 1) != 0
  {
    var trace, s, events := FirstImage();
    trace, s, events := SecondAccess(trace, events);
    trace, s, events := Replaced(trace, events);
    var n := |events|;
    OvertakenNow(trace[n], s, 1);
    trace, s := Extended(trace, events, EvFinish(1, 0, true));
    events := events + [EvFinish(1, 0, true)];
    assert IsRun(trace, events) && events[n] == EvFinish(1, 0, true);
  }

  /** The first image is activated in a fresh registry. */
  lemma FirstImage() returns (trace: seq<Run>, s: Run, events: seq<Event>)
    ensures IsRun(trace, events) && trace[|events|] == s && Alone(s.r, 1, 1) && s.r.next == 2
    ensures s.loads == map[] && BlocksOf(s.r, 7) == []
  {
    s := Run(Registry(NoGens(), [], 1, false, map[]), map[], map[]);
    AloneActivated(s, 1);
    trace, s := Extended([s], [], EvActivate(1, [], 1, true));
    events := [] + [EvActivate(1, [], 1, true)];
  }

  lemma OvertakenNow(s: Run, last: Run, a: nat)
    requires s == last && Alone(s.r, 2, 2) && a in s.loads && s.loads[a] == Load(7, 1, 1)
    requires BlockAt(BlocksOf(s.r, 7), 1).Some? && BlockAt(BlocksOf(s.r, 7), 1).value.generation == 1
    ensures WellFormed(s.r) && Enabled(s, EvFinish(a, 0, true)) && Overtaken(s, a)
    ensures Finished(s, EvFinish(a, 0, true)).0.Some? && ActiveGeneration(s.r, 1) != 0
  {
  }

  /** The only image is replaced by another on the same id. */
  lemma Replaced(trace: seq<Run>, events: seq<Event>) returns (trace': seq<Run>, s: Run, events': seq<Event>)
    requires IsRun(trace, events) && Alone(trace[|events|].r, 1, 1) && trace[|events|].r.next == 2
    ensures IsRun(trace', events') && trace'[|events'|] == s && Alone(s.r, 2, 2)
    ensures s.loads == trace[|events|].loads && s.r.threads == trace[|events|].r.threads
  {
    AloneDeactivated(trace[|events|], 1, 1);
    trace', s := Extended(trace, events, EvDeactivate(1));
    events' := events + [EvDeactivate(1)];
    AloneActivated(s, 2);
    trace', s := Extended(trace', events', EvActivate(2, [], 1, true));
    events' := events' + [EvActivate(2, [], 1, true)];
  }

  /** Thread 7 has a block of generation 1 and a second access in flight. */
  lemma SecondAccess(trace: seq<Run>, events: seq<Event>) returns (trace': seq<Run>, s: Run, events': seq<Event>)
    requires IsRun(trace, events) && Alone(trace[|events|].r, 1, 1) && trace[|events|].r.next == 2
    requires trace[|events|].loads == map[] && BlocksOf(trace[|events|].r, 7) == []
    ensures IsRun(trace', events') && trace'[|events'|] == s && Alone(s.r, 1, 1) && s.r.next == 2
    ensures s.loads == map[1 := Load(7, 1, 1)]
    ensures BlockAt(BlocksOf(s.r, 7), 1).Some? && BlockAt(BlocksOf(s.r, 7), 1).value.generation == 1
  {
    events' := events;
    trace', s := Extended(trace, events', EvLoad(0, 7, 1));
    events' := events' + [EvLoad(0, 7, 1)];
    AloneAccessed(s, 1, 1, 0);
    trace', s := Extended(trace', events', EvFinish(0, 0, true));
    events' := events' + [EvFinish(0, 0, true)];
    trace', s := Extended(trace', events', EvLoad(1, 7, 1));
    events' := events' + [EvLoad(1, 7, 1)];
  }

  // ------------------------------------------------------- the live registry

  class TlsState {
    const gens: array<nat>
    var templates: seq<Template>
    var next: nat
    var stopped: bool
    var threads: map<nat, Blocks>

    constructor ()
      ensures fresh(gens) && gens.Length == MAX_SLOTS + 1
      ensures State() == Registry(NoGens(), [], 1, false, map[])
    {
      gens := new nat[MAX_SLOTS + 1](_ => 0);
      templates, next, stopped, threads := [], 1, false, map[];
      new;
      assert gens[..] == NoGens();
    }

    ghost function State(): Registry reads this, gens {
      Registry(gens[..], templates, next, stopped, threads)
    }

    method ActivateTls(image: nat, init: Bytes, memory: nat, alignmentOk: bool) returns (ok: bool)
      requires gens.Length == MAX_SLOTS + 1
      modifies this, gens
      ensures (ok, State()) == Activate(old(State()), image, init, memory, alignmentOk)
    {
      if memory == 0 { return true; }
      if |init| > memory || !alignmentOk || stopped { return false; }
      var id := 1;
      while id <= MAX_SLOTS && gens[id] != 0
        invariant 1 <= id <= MAX_SLOTS + 1
        invariant FreeId(gens[..], 1) == FreeId(gens[..], id)
      {
        id := id + 1;
      }
      if id > MAX_SLOTS { return false; }
      var generation := next;
      next := Bump(next);
      if generation == 0 {
        generation := next;
        next := Bump(next);
      }
      templates := [Template(image, id, generation, init, memory)] + templates;
      gens[id] := generation;
      return true;
    }

    method DeactivateTls(image: nat)
      requires gens.Length == MAX_SLOTS + 1
      modifies this, gens
      ensures State() == Deactivate(old(State()), image)
    {
      var i := 0;
      while i < |templates| && templates[i].image != image
        invariant 0 <= i <= |templates|
        invariant ImageIndex(templates, image) == i + ImageIndex(templates[i..], image)
      {
        assert templates[i..][1..] == templates[i + 1..];
        i := i + 1;
      }
      if i == |templates| { return; }
      var id := templates[i].id;
      templates := templates[..i] + templates[i + 1..];
      if 0 < id <= MAX_SLOTS { gens[id] := 0; }
    }

    method ShutdownTls(thread: nat)
      requires gens.Length == MAX_SLOTS + 1 && gens[0] == 0
      modifies this, gens
      ensures State() == Shutdown(old(State()), thread)
    {
      stopped := true;
      templates := [];
      var i := 1;
      while i <= MAX_SLOTS
        invariant 1 <= i <= MAX_SLOTS + 1
        invariant forall j :: 0 <= j < i ==> gens[j] == 0
        modifies gens
      {
        gens[i] := 0;
        i := i + 1;
      }
      threads := threads - {thread};
      assert gens[..] == NoGens();
    }

    method FindActive(id: nat) returns (t: Option<Template>)
      ensures t == FindTemplate(templates, id)
    {
      var i := 0;
      while i < |templates|
        invariant 0 <= i <= |templates|
        invariant FindTemplate(templates, id) == FindTemplate(templates[i..], id)
      {
        if templates[i].id == id { return Some(templates[i]); }
        assert templates[i..][1..] == templates[i + 1..];
        i := i + 1;
      }
      return None;
    }

    method EnsureCapacity(blocks: Blocks, id: nat) returns (grown: Blocks)
      ensures grown == Grow(blocks, id)
    {
      if id < |blocks| { return blocks; }
      var capacity := if |blocks| == 0 then 8 else |blocks|;
      ghost var target := Capacity(capacity, id + 1);
      while capacity < id + 1
        invariant capacity > 0 && capacity >= |blocks|
        invariant Capacity(capacity, id + 1) == target
        decreases if capacity < id + 1 then id + 1 - capacity else 0
      {
        if capacity > SIZE_MAX / 2 { capacity := id + 1; break; }
        capacity := capacity * 2;
      }
      grown := blocks + seq(capacity - |blocks|, _ => None);
    }

    /** `seen` is the generation the caller loaded before; the fast path trusts a block of that generation. */
    method GetAddr(thread: nat, id: nat, offset: nat, seen: nat, allocOk: bool) returns (b: Option<Block>)
      requires gens.Length == MAX_SLOTS + 1 && WellFormed(State())
      modifies this
      ensures (b, State()) == Access(old(State()), thread, id, offset, seen, allocOk)
    {
      if seen == 0 { return None; }
      var blocks := if thread in threads then threads[thread] else [];
      var mine := if id < |blocks| then blocks[id] else None;
      if mine.Some? && mine.value.generation == seen { return mine; }
      var t := FindActive(id);
      if t.None? || offset >= t.value.memory { return None; }
      if mine.Some? && mine.value.generation == t.value.generation { return mine; }
      if !allocOk { return None; }
      var storage := t.value.init + seq(t.value.memory - |t.value.init|, _ => 0);
      b := Some(Block(id, t.value.generation, storage));
      var grown := EnsureCapacity(blocks, id);
      threads := threads[thread := grown[id := b]];
    }
  }
}
