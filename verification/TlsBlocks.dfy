/**
 What thread-local variables are for: an access is answered, a thread keeps its block while the image stays active, and
 a byte written is the byte read back.
 */
module TlsBlocks {
  import opened TlsRegistry

  /** The thread's block for the id is `b`. */
  predicate Has(r: Registry, thread: nat, id: nat, b: Block) {
    thread in r.threads && id < |r.threads[thread]| && r.threads[thread][id] == Some(b)
  }

  ghost predicate HasOf(r: Registry, thread: nat, id: nat, generation: nat) {
    exists b :: Has(r, thread, id, b) && b.generation == generation
  }

  /** Generation `g` of the id is the active one. */
  predicate IsActive(r: Registry, id: nat, g: nat) { 0 < id <= MAX_SLOTS && id < |r.gens| && r.gens[id] == g && g != 0 }

  predicate NoneActive(r: Registry, id: nat) { id == 0 || id > MAX_SLOTS || id >= |r.gens| || r.gens[id] == 0 }

  /** The active template of an id is the one issued under its generation. */
  lemma ActiveTemplate(s: Run, id: nat, g: nat)
    requires Inv(s) && IsActive(s.r, id, g)
    ensures g in s.issued && FindTemplate(s.r.templates, id) == Some(s.issued[g]) && s.issued[g].id == id
  {
    var t := FindTemplate(s.r.templates, id).value;
    assert TemplateOk(s.r, s.issued, t);
  }

  lemma NoTemplate(s: Run, id: nat)
    requires Inv(s) && NoneActive(s.r, id)
    ensures FindTemplate(s.r.templates, id).None?
  {
    forall j | 0 <= j < |s.r.templates| ensures s.r.templates[j].id != id {
      assert TemplateOk(s.r, s.issued, s.r.templates[j]);
    }
  }

  // ---------------------------------------------------------------- accesses

  /** A block of the active generation, or of the one the access loaded, is what the access returns, as it stands, and
      the registry is left as it was. */
  lemma OwnBlockReturned(trace: seq<Run>, events: seq<Event>, n: nat, b: Block)
    requires IsRun(trace, events) && n < |events| && events[n].EvFinish? && events[n].access in trace[n].loads
    requires var l := trace[n].loads[events[n].access];
             && l.seen != 0 && Has(trace[n].r, l.thread, l.id, b)
             && (b.generation == l.seen || (IsActive(trace[n].r, l.id, b.generation) && events[n].offset < |b.storage|))
    ensures WellFormed(trace[n].r) && Finished(trace[n], events[n]) == (Some(b), trace[n].r)
  {
    RunStep(trace, events, n);
    var s, l := trace[n], trace[n].loads[events[n].access];
    assert BlocksOk(s.issued, s.r.threads[l.thread]) && BlockOk(s.issued, l.id, b);
    if IsActive(s.r, l.id, b.generation) { ActiveTemplate(s, l.id, b.generation); }
  }

  /** The access has no block it may use and gets none. */
  ghost predicate Unanswerable(s: Run, l: Load, offset: nat, allocOk: bool) {
    || l.seen == 0
    || (&& !HasOf(s.r, l.thread, l.id, l.seen)
        && (|| NoneActive(s.r, l.id)
            || (&& s.r.gens[l.id] in s.issued
                && (|| offset >= s.issued[s.r.gens[l.id]].memory
                    || (!HasOf(s.r, l.thread, l.id, s.r.gens[l.id]) && !allocOk)))))
  }

  /** An access returns no block if and only if nothing was active at its load, or its thread has no block of the
      generation loaded and, now, nothing is active, the offset is outside the image, or memory is needed and short. */
  lemma AnsweredIff(trace: seq<Run>, events: seq<Event>, n: nat)
    requires IsRun(trace, events) && n < |events| && events[n].EvFinish?
    ensures WellFormed(trace[n].r) && Enabled(trace[n], events[n])
    ensures var e := events[n];
            Finished(trace[n], e).0.None? <==> Unanswerable(trace[n], trace[n].loads[e.access], e.offset, e.allocOk)
  {
    RunStep(trace, events, n);
    var s, e := trace[n], events[n];
    var l := s.loads[e.access];
    OwnFound(s, l.thread, l.id);
    if NoneActive(s.r, l.id) { NoTemplate(s, l.id); } else { ActiveTemplate(s, l.id, s.r.gens[l.id]); }
  }

  lemma OwnFound(s: Run, thread: nat, id: nat)
    ensures var own := BlockAt(BlocksOf(s.r, thread), id);
            && (own.Some? ==> Has(s.r, thread, id, own.value))
            && forall g :: HasOf(s.r, thread, id, g) <==> own.Some? && own.value.generation == g
  {
    var own := BlockAt(BlocksOf(s.r, thread), id);
    if own.Some? { assert Has(s.r, thread, id, own.value); }
  }

  /** An access that finds no block of either generation and is answered builds the block of the active generation: the
      image's bytes and then zeros, which from then on is the thread's block. */
  lemma FreshBlock(trace: seq<Run>, events: seq<Event>, n: nat)
    requires IsRun(trace, events) && n < |events| && events[n].EvFinish? && events[n].access in trace[n].loads
    requires var l := trace[n].loads[events[n].access];
             && !Unanswerable(trace[n], l, events[n].offset, events[n].allocOk)
             && !HasOf(trace[n].r, l.thread, l.id, l.seen)
             && !HasOf(trace[n].r, l.thread, l.id, trace[n].r.gens[l.id])
    ensures WellFormed(trace[n].r) && Finished(trace[n], events[n]).0.Some?
    ensures var l, b := trace[n].loads[events[n].access], Finished(trace[n], events[n]).0.value;
            && IsActive(trace[n].r, l.id, b.generation) && b.generation in trace[n].issued
            && Has(trace[n + 1].r, l.thread, l.id, b)
            && var t := trace[n].issued[b.generation];
               && |b.storage| == t.memory
               && forall i :: 0 <= i < t.memory ==> b.storage[i] == if i < |t.init| then t.init[i] else 0
  {
    RunStep(trace, events, n);
    var s, l := trace[n], trace[n].loads[events[n].access];
    OwnFound(s, l.thread, l.id);
    ActiveTemplate(s, l.id, s.r.gens[l.id]);
  }

  // ----------------------------------------------------------- what lasts

  /** The event ends the life of the thread's block of the id: the thread exits, or the image is deactivated. */
  predicate Ends(s: Run, e: Event, thread: nat, id: nat, g: nat) {
    match e
    case EvThreadExit(t) => t == thread
    case EvShutdown(_) => true
    case EvDeactivate(image) => g in s.issued && s.issued[g].image == image
    case _ => false
  }

  /** The event writes that byte. */
  predicate Writes(e: Event, thread: nat, id: nat, offset: nat) {
    e.EvWrite? && e.thread == thread && e.id == id && e.offset == offset
  }

  /** After the event the block is still there, of the active generation, with what the event writes into it. */
  ghost predicate Stays(s: Run, e: Event, thread: nat, id: nat, b: Block)
    requires WellFormed(s.r) && Enabled(s, e)
  {
    var s' := Next(s, e);
    && IsActive(s'.r, id, b.generation) && b.generation in s.issued && b.generation in s'.issued
    && s'.issued[b.generation] == s.issued[b.generation]
    && Has(s'.r, thread, id, b.(storage := Written(e, thread, id, b.storage)))
  }

  /** While its image stays active, no event replaces a thread's block; only its own writes change it. */
  lemma BlockStays(s: Run, e: Event, thread: nat, id: nat, b: Block)
    requires Inv(s) && WellFormed(s.r) && Enabled(s, e)
    requires Has(s.r, thread, id, b) && IsActive(s.r, id, b.generation) && !Ends(s, e, thread, id, b.generation)
    ensures Stays(s, e, thread, id, b)
  {
    match e
    case EvActivate(_, _, _, _) => ActivationElsewhere(s, e, thread, id, b);
    case EvDeactivate(_) => DeactivationLeaves(s, e, thread, id, b);
    case EvFinish(_, _, _) => FinishKeepsBlock(s, e, thread, id, b);
    case _ => OtherKeepsBlock(s, e, thread, id, b);
  }

  lemma OtherKeepsBlock(s: Run, e: Event, thread: nat, id: nat, b: Block)
    requires Inv(s) && WellFormed(s.r) && Enabled(s, e) && Has(s.r, thread, id, b) && IsActive(s.r, id, b.generation)
    requires (e.EvWrite? || e.EvLoad? || e.EvThreadExit?) && (e.EvThreadExit? ==> e.thread != thread)
    ensures Stays(s, e, thread, id, b)
  {
    ActiveTemplate(s, id, b.generation);
  }

  function Written(e: Event, thread: nat, id: nat, storage: Bytes): Bytes {
    if e.EvWrite? && e.thread == thread && e.id == id && e.offset < |storage| then storage[e.offset := e.value]
    else storage
  }

  lemma ActivationElsewhere(s: Run, e: Event, thread: nat, id: nat, b: Block)
    requires Inv(s) && WellFormed(s.r) && Enabled(s, e) && e.EvActivate?
    requires Has(s.r, thread, id, b) && IsActive(s.r, id, b.generation)
    ensures Stays(s, e, thread, id, b)
  {
    ActiveTemplate(s, id, b.generation);
  }

  lemma DeactivationLeaves(s: Run, e: Event, thread: nat, id: nat, b: Block)
    requires Inv(s) && WellFormed(s.r) && Enabled(s, e) && e.EvDeactivate?
    requires Has(s.r, thread, id, b) && IsActive(s.r, id, b.generation) && !Ends(s, e, thread, id, b.generation)
    ensures Stays(s, e, thread, id, b)
  {
    ActiveTemplate(s, id, b.generation);
    DeactivationElsewhere(s, e.image, id, b.generation);
  }

  lemma DeactivationElsewhere(s: Run, image: nat, id: nat, g: nat)
    requires Inv(s) && IsActive(s.r, id, g) && g in s.issued && s.issued[g].image != image
    ensures IsActive(Deactivate(s.r, image), id, g) && Deactivate(s.r, image).threads == s.r.threads
  {
    ActiveTemplate(s, id, g);
    var i := ImageIndex(s.r.templates, image);
    if i < |s.r.templates| {
      assert TemplateOk(s.r, s.issued, s.r.templates[i]);
    }
  }

  lemma FinishKeepsBlock(s: Run, e: Event, thread: nat, id: nat, b: Block)
    requires Inv(s) && WellFormed(s.r) && Enabled(s, e) && e.EvFinish?
    requires Has(s.r, thread, id, b) && IsActive(s.r, id, b.generation)
    ensures Stays(s, e, thread, id, b)
  {
    ActiveTemplate(s, id, b.generation);
  }

  /** From state `i` to state `j` of a run nothing ends the block's life or writes its byte at `offset`. */
  ghost predicate Undisturbed(trace: seq<Run>, events: seq<Event>, i: nat, j: nat, thread: nat, id: nat, g: nat,
                              offset: nat)
    requires |trace| == |events| + 1 && i <= j <= |events|
  {
    forall k :: i <= k < j ==> !Ends(trace[k], events[k], thread, id, g) && !Writes(events[k], thread, id, offset)
  }

  /** In every run, a byte of a thread's block keeps its value until it is written again, the thread exits or the image
      is deactivated. */
  lemma {:induction false} ByteStays(trace: seq<Run>, events: seq<Event>, i: nat, j: nat, thread: nat, id: nat,
                                     b: Block, offset: nat)
    returns (b': Block)
    requires IsRun(trace, events) && i <= j <= |events| && offset < |b.storage|
    requires Has(trace[i].r, thread, id, b) && IsActive(trace[i].r, id, b.generation)
    requires Undisturbed(trace, events, i, j, thread, id, b.generation, offset)
    ensures Has(trace[j].r, thread, id, b') && b'.generation == b.generation && |b'.storage| == |b.storage|
    ensures IsActive(trace[j].r, id, b'.generation) && b'.storage[offset] == b.storage[offset]
    decreases j
  {
    b' := b;
    if i < j {
      b' := ByteStays(trace, events, i, j - 1, thread, id, b, offset);
      RunStep(trace, events, j - 1);
      assert !Ends(trace[j - 1], events[j - 1], thread, id, b.generation);
      BlockStays(trace[j - 1], events[j - 1], thread, id, b');
      b' := b'.(storage := Written(events[j - 1], thread, id, b'.storage));
    }
  }

  /** A write changes the byte it names and no other of the block. */
  lemma WriteTakesEffect(trace: seq<Run>, events: seq<Event>, n: nat, b: Block)
    requires IsRun(trace, events) && n < |events| && events[n].EvWrite?
    requires Has(trace[n].r, events[n].thread, events[n].id, b)
    ensures events[n].offset < |b.storage|
    ensures var e := events[n];
            Has(trace[n + 1].r, e.thread, e.id, b.(storage := b.storage[e.offset := e.value]))
  {
    RunStep(trace, events, n);
  }

  /** So what a thread writes is what it reads: every later access of the thread to the id that loaded a generation at
      all, at an offset in range, returns the block with that byte, until it is written again, the thread exits or the
      image is deactivated. */
  lemma WrittenIsRead(trace: seq<Run>, events: seq<Event>, w: nat, n: nat, b: Block, offset: nat)
    requires IsRun(trace, events) && w < n < |events| && events[w].EvWrite? && events[n].EvFinish?
    requires Has(trace[w].r, events[w].thread, events[w].id, b)
    requires IsActive(trace[w].r, events[w].id, b.generation)
    requires Undisturbed(trace, events, w + 1, n, events[w].thread, events[w].id, b.generation, events[w].offset)
    requires events[n].access in trace[n].loads && events[n].offset < |b.storage|
    requires var l := trace[n].loads[events[n].access];
             l.thread == events[w].thread && l.id == events[w].id && l.seen != 0
    ensures WellFormed(trace[n].r) && Finished(trace[n], events[n]).0.Some?
    ensures var b' := Finished(trace[n], events[n]).0.value;
            && b'.generation == b.generation && events[w].offset < |b'.storage| == |b.storage|
            && b'.storage[events[w].offset] == events[w].value
            && trace[n + 1].r == trace[n].r
  {
    var e := events[w];
    RunStep(trace, events, w);
    WriteTakesEffect(trace, events, w, b);
    BlockStays(trace[w], e, e.thread, e.id, b);
    var now := b.(storage := b.storage[e.offset := e.value]);
    var b' := ByteStays(trace, events, w + 1, n, e.thread, e.id, now, e.offset);
    RunStep(trace, events, n);
    OwnBlockReturned(trace, events, n, b');
  }

  // ------------------------------------------------------------- activation

  /** The lowest id that has no active generation. */
  predicate LowestFree(r: Registry, id: nat) {
    && 0 < id <= MAX_SLOTS && NoneActive(r, id)
    && forall j :: 0 < j < id ==> !NoneActive(r, j)
  }

  /** An image with thread-local variables is activated exactly when its bytes fit, its alignment is sound, the registry
      runs and an id is free; it then owns the lowest free id under a generation never issued before. */
  lemma ActivatedIff(trace: seq<Run>, events: seq<Event>, n: nat)
    requires IsRun(trace, events) && n < |events| && events[n].EvActivate? && events[n].memory > 0
    ensures WellFormed(trace[n].r)
    ensures var e, s, s' := events[n], trace[n], trace[n + 1];
            && (Activate(s.r, e.image, e.init, e.memory, e.alignmentOk).0 <==>
                |e.init| <= e.memory && e.alignmentOk && !s.r.stopped && exists id: nat :: LowestFree(s.r, id))
            && (Activate(s.r, e.image, e.init, e.memory, e.alignmentOk).0 ==>
                exists id: nat, g: nat :: LowestFree(s.r, id) && g !in s.issued && g != 0
                  && s'.r.gens == s.r.gens[id := g]
                  && s'.issued == s.issued[g := Template(e.image, id, g, e.init, e.memory)])
            && (!Activate(s.r, e.image, e.init, e.memory, e.alignmentOk).0 ==> s' == s)
  {
    RunStep(trace, events, n);
    var s, e := trace[n], events[n];
    FirstFree(s.r, 1);
    var id := FreeId(s.r.gens, 1);
    if id <= MAX_SLOTS { assert LowestFree(s.r, id); }
    if k: nat :| LowestFree(s.r, k) { assert id <= k; }
    if Activate(s.r, e.image, e.init, e.memory, e.alignmentOk).0 {
      var g := s.r.next;
      assert trace[n + 1].r.gens == s.r.gens[id := g];
    }
  }

  lemma {:induction false} FirstFree(r: Registry, id: nat)
    requires |r.gens| == MAX_SLOTS + 1 && 0 < id <= MAX_SLOTS + 1
    ensures forall j :: id <= j < FreeId(r.gens, id) ==> r.gens[j] != 0
    decreases MAX_SLOTS + 1 - id
  {
    if id <= MAX_SLOTS && r.gens[id] != 0 { FirstFree(r, id + 1); }
  }

  lemma {:induction false} StoppedStays(trace: seq<Run>, events: seq<Event>, n: nat, m: nat)
    requires IsRun(trace, events) && n < m <= |events| && events[n].EvShutdown?
    ensures trace[m].r.stopped
    decreases m
  {
    RunStep(trace, events, m - 1);
    if n < m - 1 { StoppedStays(trace, events, n, m - 1); }
  }

  /** After a shutdown no id is active ever again, no image is activated, and the caller's blocks are gone. */
  lemma ShutdownIsFinal(trace: seq<Run>, events: seq<Event>, n: nat, m: nat, id: nat)
    requires IsRun(trace, events) && n < m <= |events| && events[n].EvShutdown?
    ensures WellFormed(trace[m].r) && NoneActive(trace[m].r, id)
    ensures m < |events| && events[m].EvActivate? && events[m].memory > 0 ==> trace[m + 1] == trace[m]
    ensures events[n].thread !in trace[n + 1].r.threads
  {
    RunStep(trace, events, n);
    RunKeepsInv(trace, events, m);
    StoppedStays(trace, events, n, m);
    if m < |events| { RunStep(trace, events, m); }
    if !NoneActive(trace[m].r, id) { ActiveTemplate(trace[m], id, trace[m].r.gens[id]); }
  }

  /** A load sees the generation active then, and zero if there is none. */
  lemma LoadSeesActive(trace: seq<Run>, events: seq<Event>, n: nat, g: nat)
    requires IsRun(trace, events) && n < |events| && events[n].EvLoad?
    ensures events[n].access in trace[n + 1].loads
    ensures var e, seen := events[n], trace[n + 1].loads[events[n].access].seen;
            && (IsActive(trace[n].r, e.id, g) ==> seen == g)
            && (NoneActive(trace[n].r, e.id) ==> seen == 0)
  {
    RunStep(trace, events, n);
  }

  /** After a deactivation the image's id has no active generation, and every other id is as it was. */
  lemma DeactivatedIsGone(trace: seq<Run>, events: seq<Event>, n: nat, id: nat, g: nat)
    requires IsRun(trace, events) && n < |events| && events[n].EvDeactivate? && IsActive(trace[n].r, id, g)
    ensures g in trace[n].issued
    ensures if trace[n].issued[g].image == events[n].image then NoneActive(trace[n + 1].r, id)
            else IsActive(trace[n + 1].r, id, g)
  {
    RunStep(trace, events, n);
    var s, image := trace[n], events[n].image;
    ActiveTemplate(s, id, g);
    if s.issued[g].image != image {
      DeactivationElsewhere(s, image, id, g);
    } else {
      var i := ImageIndex(s.r.templates, image);
      var k :| 0 <= k < |s.r.templates| && s.r.templates[k] == s.issued[g];
      assert i < |s.r.templates| && i == k;
    }
  }
}
