/**
 Inspecting an ELF image's program headers and mapping its LOAD segments, by
 file-backed pages or by anonymous memory and copying. Addresses are 64-bit.
 */
module SegmentMap {

  datatype Option<T> = None | Some(value: T)

  const UINTPTR_MAX := 0xffff_ffff_ffff_ffff
  const ADDRESS_MODULUS := 0x1_0000_0000_0000_0000

  datatype SegmentType = Load | Dynamic | Other

  datatype Phdr = Phdr(ptype: SegmentType, offset: nat, vaddr: nat, filesz: nat, memsz: nat, align: nat, writable: bool)

  datatype Layout = Layout(low: nat, high: nat, dynamicIndex: nat)

  // ----------------------------------------------------------------- layout

  function Min(a: nat, b: nat): nat { if a < b then a else b }

  function Max(a: nat, b: nat): nat { if a > b then a else b }

  predicate PowerOfTwo(n: nat) {
    n == 1 || (n > 0 && n % 2 == 0 && PowerOfTwo(n / 2))
  }

  /** `v` rounded down to a multiple of `unit`; masking by a power of two computes this. */
  function Floor(v: nat, unit: nat): (f: nat)
    requires unit > 0
    ensures f <= v < f + unit
  {
    if v < unit then 0 else unit + Floor(v - unit, unit)
  }

  /** `v` modulo `unit`. */
  function Rem(v: nat, unit: nat): (r: nat)
    requires unit > 0
    ensures r < unit && r <= v
  {
    v - Floor(v, unit)
  }

  lemma FloorMonotone(a: nat, b: nat, unit: nat)
    requires unit > 0 && a <= b
    ensures Floor(a, unit) <= Floor(b, unit)
  {
  }

  /** Rounding down commutes with adding a multiple. */
  lemma {:induction false} FloorShift(x: nat, v: nat, unit: nat)
    requires unit > 0
    ensures Floor(x + Floor(v, unit), unit) == Floor(x, unit) + Floor(v, unit)
    decreases v
  {
    if v >= unit {
      FloorShift(x, v - unit, unit);
      assert Floor(x + Floor(v, unit), unit) == unit + Floor(x + Floor(v - unit, unit), unit);
    }
  }

  predicate CanCeil(v: nat, page: nat) { v + page - 1 <= UINTPTR_MAX }

  function Ceil(v: nat, page: nat): nat
    requires page > 0
  {
    Floor(v + page - 1, page)
  }

  lemma CeilBounds(v: nat, page: nat)
    requires page > 0
    ensures v <= Ceil(v, page) < v + page
  {
  }

  function Begin(ph: Phdr, page: nat): nat requires page > 0 { Floor(ph.vaddr, page) }

  function End(ph: Phdr, page: nat): nat requires page > 0 { Ceil(ph.vaddr + ph.memsz, page) }

  predicate Mapped(ph: Phdr) { ph.ptype == Load && ph.memsz != 0 }

  predicate AlignmentOk(ph: Phdr) {
    ph.align > 1 ==> PowerOfTwo(ph.align) && Rem(ph.vaddr, ph.align) == Rem(ph.offset, ph.align)
  }

  /** What each LOAD must meet: its file bytes exist and file offset and address agree modulo alignment and page. */
  predicate SegmentOk(ph: Phdr, fileSize: nat, page: nat)
    requires page > 0
  {
    && ph.filesz <= ph.memsz
    && ph.offset <= fileSize && ph.filesz <= fileSize - ph.offset
    && AlignmentOk(ph)
    && Rem(ph.offset, page) == Rem(ph.vaddr, page)
    && (ph.memsz != 0 ==> ph.vaddr + ph.memsz <= UINTPTR_MAX && CanCeil(ph.vaddr + ph.memsz, page))
  }

  /** Every LOAD is sound and starts after every earlier one has ended, page-rounded. */
  ghost predicate LoadsOk(phs: seq<Phdr>, n: nat, fileSize: nat, page: nat)
    requires page > 0 && n <= |phs|
  {
    && (forall i :: 0 <= i < n && phs[i].ptype == Load ==> SegmentOk(phs[i], fileSize, page))
    && (forall i, j :: 0 <= i < j < n && Mapped(phs[i]) && Mapped(phs[j]) ==> End(phs[i], page) <= Begin(phs[j], page))
  }

  ghost predicate Accepted(phs: seq<Phdr>, fileSize: nat, page: nat)
    requires page > 0
  {
    && LoadsOk(phs, |phs|, fileSize, page)
    && (exists i :: 0 <= i < |phs| && Mapped(phs[i]))
    && (exists d :: 0 <= d < |phs| && phs[d].ptype == Dynamic)
    && (forall i, j :: 0 <= i < j < |phs| && phs[i].ptype == Dynamic ==> phs[j].ptype != Dynamic)
  }

  ghost predicate Within(phs: seq<Phdr>, n: nat, low: nat, high: nat, page: nat)
    requires page > 0 && n <= |phs|
  {
    forall i :: 0 <= i < n && Mapped(phs[i]) ==> low <= Begin(phs[i], page) < End(phs[i], page) <= high
  }

  /** `low` and `high` are where some LOAD of the first `n` starts and some LOAD ends. */
  ghost predicate Attained(phs: seq<Phdr>, n: nat, low: nat, high: nat, page: nat, i: int, j: int)
    requires page > 0 && n <= |phs|
  {
    && 0 <= i < n && Mapped(phs[i]) && Begin(phs[i], page) == low
    && 0 <= j < n && Mapped(phs[j]) && End(phs[j], page) == high
  }

  /** The reservation spans exactly the page-rounded LOAD ranges. */
  ghost predicate Spans(phs: seq<Phdr>, low: nat, high: nat, page: nat)
    requires page > 0
  {
    Within(phs, |phs|, low, high, page) && exists i, j :: Attained(phs, |phs|, low, high, page, i, j)
  }

  /** A LOAD that starts at or after every earlier end extends both layout and span. */
  lemma ExtendLoads(phs: seq<Phdr>, n: nat, low: nat, high: nat, fileSize: nat, page: nat)
    requires page > 0 && n < |phs| && Mapped(phs[n]) && SegmentOk(phs[n], fileSize, page)
    requires LoadsOk(phs, n, fileSize, page) && Within(phs, n, low, high, page) && high <= Begin(phs[n], page)
    requires low <= Begin(phs[n], page)
    ensures LoadsOk(phs, n + 1, fileSize, page) && Within(phs, n + 1, low, End(phs[n], page), page)
  {
    RangeNonEmpty(phs[n], page);
  }

  lemma SkipLoads(phs: seq<Phdr>, n: nat, low: nat, high: nat, fileSize: nat, page: nat)
    requires page > 0 && n < |phs| && !Mapped(phs[n])
    requires phs[n].ptype == Load ==> SegmentOk(phs[n], fileSize, page)
    requires LoadsOk(phs, n, fileSize, page) && Within(phs, n, low, high, page)
    ensures LoadsOk(phs, n + 1, fileSize, page) && Within(phs, n + 1, low, high, page)
  {
  }

  lemma RangeNonEmpty(ph: Phdr, page: nat)
    requires page > 0 && ph.memsz > 0
    ensures Begin(ph, page) <= ph.vaddr < ph.vaddr + ph.memsz <= End(ph, page)
  {
    CeilBounds(ph.vaddr + ph.memsz, page);
  }

  lemma AlignedRange(ph: Phdr, page: nat)
    requires page > 0 && CanCeil(ph.vaddr + ph.memsz, page)
    ensures End(ph, page) <= UINTPTR_MAX
  {
  }

  /** Checks one LOAD; a sound one that occupies memory gets its page-rounded range. */
  method CheckLoad(ph: Phdr, fileSize: nat, page: nat) returns (ok: bool, begin: nat, end: nat)
    requires page > 0
    ensures ok <==> SegmentOk(ph, fileSize, page)
    ensures ok && ph.memsz != 0 ==> begin == Begin(ph, page) && end == End(ph, page) && begin < end <= UINTPTR_MAX
  {
    begin, end := 0, 0;
    if ph.filesz > ph.memsz || ph.offset > fileSize || ph.filesz > fileSize - ph.offset
       || !AlignmentOk(ph) || Rem(ph.offset, page) != Rem(ph.vaddr, page) {
      return false, begin, end;
    }
    if ph.memsz == 0 { return true, begin, end; }
    if ph.vaddr > UINTPTR_MAX - ph.memsz || !CanCeil(ph.vaddr + ph.memsz, page) { return false, begin, end; }
    end := Ceil(ph.vaddr + ph.memsz, page);
    begin := Floor(ph.vaddr, page);
    RangeNonEmpty(ph, page);
    AlignedRange(ph, page);
    ok := true;
  }

  lemma NoneMapped(phs: seq<Phdr>, n: nat, page: nat)
    requires page > 0 && n <= |phs| && Within(phs, n, UINTPTR_MAX, 0, page)
    ensures forall i :: 0 <= i < n ==> !Mapped(phs[i])
  {
  }

  /** Accepts exactly the well-laid-out images, and then reports the span of their LOADs. */
  method InspectSource(headerOk: bool, phs: seq<Phdr>, fileSize: nat, page: nat) returns (r: Option<Layout>)
    requires page >= 4096
    ensures r.Some? <==> headerOk && Accepted(phs, fileSize, page)
    ensures r.Some? ==> Spans(phs, r.value.low, r.value.high, page)
    ensures r.Some? ==> r.value.low < r.value.high <= UINTPTR_MAX
    ensures r.Some? ==> r.value.dynamicIndex < |phs| && phs[r.value.dynamicIndex].ptype == Dynamic
  {
    if !headerOk { return None; }
    var low: nat, high: nat, previousEnd: nat := UINTPTR_MAX, 0, 0;
    var sawLoad := false;
    var dynamic := -1;
    ghost var lowAt, highAt := -1, -1;
    for i := 0 to |phs|
      invariant -1 <= dynamic < i
      invariant dynamic >= 0 ==> phs[dynamic].ptype == Dynamic
      invariant forall k :: 0 <= k < i && k != dynamic ==> phs[k].ptype != Dynamic
      invariant LoadsOk(phs, i, fileSize, page)
      invariant Within(phs, i, low, high, page)
      invariant sawLoad ==> Attained(phs, i, low, high, page, lowAt, highAt)
      invariant sawLoad ==> previousEnd == high <= UINTPTR_MAX && low < high
      invariant !sawLoad ==> low == UINTPTR_MAX && high == 0
    {
      var ph := phs[i];
      if ph.ptype == Dynamic {
        if dynamic >= 0 { return None; }
        dynamic := i;
      }
      if ph.ptype != Load {
        SkipLoads(phs, i, low, high, fileSize, page);
        continue;
      }
      var ok, begin, end := CheckLoad(ph, fileSize, page);
      if !ok { return None; }
      if ph.memsz == 0 {
        SkipLoads(phs, i, low, high, fileSize, page);
        continue;
      }
      if sawLoad && begin < previousEnd {
        assert !(End(phs[highAt], page) <= Begin(phs[i], page));
        return None;
      }
      if !sawLoad { NoneMapped(phs, i, page); }
      ExtendLoads(phs, i, if sawLoad then low else begin, high, fileSize, page);
      if !sawLoad { lowAt := i; }
      highAt := i;
      previousEnd := end;
      sawLoad := true;
      low := Min(begin, low);
      high := Max(end, high);
    }
    if !sawLoad || high <= low || dynamic < 0 {
      if !sawLoad { NoneMapped(phs, |phs|, page); }
      return None;
    }
    return Some(Layout(low, high, dynamic));
  }

  // ---------------------------------------------------------------- mapping

  type Bytes = seq<bv8>

  /** `mem` with `data` written at `at`. */
  function Put(mem: Bytes, at: nat, data: Bytes): (r: Bytes)
    requires at + |data| <= |mem|
    ensures |r| == |mem|
    ensures forall i :: 0 <= i < |mem| ==> r[i] == if at <= i < at + |data| then data[i - at] else mem[i]
  {
    mem[..at] + data + mem[at + |data|..]
  }

  function Zeros(n: nat): (z: Bytes)
    ensures |z| == n && forall i :: 0 <= i < n ==> z[i] == 0
  {
    seq(n, _ => 0)
  }

  /** Pages of the file from `offset`; the tail of its last page reads as zero. */
  function FilePages(file: Bytes, offset: nat, n: nat): (p: Bytes)
    ensures |p| == n
    ensures forall i :: 0 <= i < n ==> p[i] == if offset + i < |file| then file[offset + i] else 0
  {
    seq(n, i requires 0 <= i < n => if offset + i < |file| then file[offset + i] else 0)
  }

  /** The memory image the headers describe: file bytes, then zeros up to `memsz`. */
  ghost predicate Loaded(mem: Bytes, low: nat, ph: Phdr, file: Bytes) {
    && low <= ph.vaddr && ph.vaddr + ph.memsz - low <= |mem| && ph.offset + ph.filesz <= |file|
    && ph.filesz <= ph.memsz
    && forall a :: ph.vaddr - low <= a < ph.vaddr - low + ph.memsz ==>
         mem[a] == WantedByte(ph, file, a + low - ph.vaddr)
  }

  function WantedByte(ph: Phdr, file: Bytes, k: nat): bv8
    requires ph.offset + ph.filesz <= |file|
  {
    if k < ph.filesz then file[ph.offset + k] else 0
  }

  lemma PrefixArithmetic(ph: Phdr, fileSize: nat, page: nat)
    requires page > 0 && SegmentOk(ph, fileSize, page) && ph.memsz > 0
    ensures var prefix := ph.vaddr - Begin(ph, page);
            && prefix <= ph.offset
            && Begin(ph, page) + Ceil(prefix + ph.memsz, page) == End(ph, page)
            && Ceil(prefix + ph.filesz, page) <= Ceil(prefix + ph.memsz, page)
  {
    var prefix := ph.vaddr - Begin(ph, page);
    FloorShift(prefix + ph.memsz + page - 1, ph.vaddr, page);
    FloorMonotone(prefix + ph.filesz + page - 1, prefix + ph.memsz + page - 1, page);
  }

  /** The destination computed with wrap-around is the reservation plus the segment's distance from its start. */
  lemma DestinationExact(reservation: nat, low: nat, segmentPage: nat, span: nat)
    requires low <= segmentPage < low + span && reservation + span <= ADDRESS_MODULUS && low + span <= ADDRESS_MODULUS
    ensures var bias := (reservation - low) % ADDRESS_MODULUS;
            (bias + segmentPage) % ADDRESS_MODULUS == reservation + (segmentPage - low)
  {
  }

  /** `mem` is the reserved memory, which starts at address `reservation`; `bias` maps the image's addresses to it. */
  class AddressSpace {
    const low: nat
    const reservation: nat
    const bias: nat
    const page: nat
    const fileBacked: bool
    var mem: Bytes

    ghost predicate Valid() reads this {
      && reservation + |mem| <= ADDRESS_MODULUS && low + |mem| <= ADDRESS_MODULUS
      && bias == (reservation - low) % ADDRESS_MODULUS
    }

    constructor (low: nat, high: nat, reservation: nat, page: nat, fileBacked: bool)
      requires low <= high <= ADDRESS_MODULUS && reservation + (high - low) <= ADDRESS_MODULUS
      ensures Valid() && this.low == low && this.reservation == reservation && |mem| == high - low
      ensures this.page == page && this.fileBacked == fileBacked
    {
      this.low, this.reservation, this.page, this.fileBacked := low, reservation, page, fileBacked;
      bias := (reservation - low) % ADDRESS_MODULUS;
      mem := Zeros(high - low);
    }

    /** Fresh zero pages with the file bytes copied in. */
    method MapAnonymous(ph: Phdr, file: Bytes, destination: nat, prefix: nat, mappedBytes: nat)
      requires ph.offset + ph.filesz <= |file| && ph.filesz <= ph.memsz
      requires prefix + ph.memsz <= mappedBytes && destination + mappedBytes <= |mem|
      requires ph.vaddr == low + destination + prefix
      modifies this
      ensures |mem| == old(|mem|) && Loaded(mem, low, ph, file)
      ensures forall a :: 0 <= a < |mem| && !(destination <= a < destination + mappedBytes) ==> mem[a] == old(mem)[a]
    {
      mem := Put(mem, destination, Zeros(mappedBytes));
      if ph.filesz != 0 {
        mem := Put(mem, destination + prefix, file[ph.offset..ph.offset + ph.filesz]);
      }
    }

    /** File pages, the rest of the last one zeroed as far as memsz, then fresh zero pages. */
    method MapFileBacked(ph: Phdr, file: Bytes, destination: nat, prefix: nat, mappedBytes: nat, fileBytes: nat)
      returns (ok: bool)
      requires ph.offset + ph.filesz <= |file| && ph.filesz <= ph.memsz && prefix <= ph.offset
      requires prefix + ph.memsz <= mappedBytes && destination + mappedBytes <= |mem|
      requires prefix + ph.filesz <= fileBytes <= mappedBytes
      requires ph.vaddr == low + destination + prefix
      modifies this
      ensures |mem| == old(|mem|) && (ok ==> Loaded(mem, low, ph, file))
      ensures forall a :: 0 <= a < |mem| && !(destination <= a < destination + mappedBytes) ==> mem[a] == old(mem)[a]
      ensures !ok ==> !ph.writable && ph.filesz < ph.memsz
    {
      mem := Put(mem, destination, FilePages(file, ph.offset - prefix, fileBytes));
      var dataEnd := prefix + ph.filesz;
      var available := if fileBytes > dataEnd then fileBytes - dataEnd else 0;
      var bss := ph.memsz - ph.filesz;
      var zeroBytes := if available < bss then available else bss;
      if zeroBytes != 0 {
        if !ph.writable { return false; }
        mem := Put(mem, destination + dataEnd, Zeros(zeroBytes));
      }
      if mappedBytes > fileBytes {
        mem := Put(mem, destination + fileBytes, Zeros(mappedBytes - fileBytes));
      }
      return true;
    }

    /** Maps one LOAD, replacing whole pages; `mmapOk` is false when a mapping call fails. */
    method MapOneSegment(ph: Phdr, file: Bytes, mmapOk: bool) returns (ok: bool)
      requires Valid() && page > 0 && SegmentOk(ph, |file|, page) && ph.memsz > 0
      requires low <= Begin(ph, page) && End(ph, page) - low <= |mem|
      modifies this
      ensures Valid() && |mem| == old(|mem|)
      ensures forall a :: 0 <= a < |mem| && !(Begin(ph, page) <= a + low < End(ph, page)) ==> mem[a] == old(mem)[a]
      ensures ok ==> Loaded(mem, low, ph, file)
      ensures mmapOk && (!fileBacked || ph.writable || ph.filesz == ph.memsz) ==> ok
    {
      var segmentPage := Floor(ph.vaddr, page);
      var prefix := ph.vaddr - segmentPage;
      PrefixArithmetic(ph, |file|, page);
      CeilBounds(prefix + ph.memsz, page);
      CeilBounds(prefix + ph.filesz, page);
      var mappedBytes := Ceil(prefix + ph.memsz, page);
      RangeNonEmpty(ph, page);
      DestinationExact(reservation, low, segmentPage, |mem|);
      var address := (bias + segmentPage) % ADDRESS_MODULUS;
      var destination := address - reservation;
      if !mmapOk { return false; }
      if !fileBacked {
        MapAnonymous(ph, file, destination, prefix, mappedBytes);
        return true;
      }
      ok := MapFileBacked(ph, file, destination, prefix, mappedBytes, Ceil(prefix + ph.filesz, page));
    }

    /** Maps every LOAD of an accepted image; on success each segment holds exactly what its header says. */
    method MapImage(phs: seq<Phdr>, file: Bytes, mmapOk: seq<bool>) returns (ok: bool)
      requires Valid() && page > 0 && Accepted(phs, |file|, page) && Spans(phs, low, low + |mem|, page)
      requires |mmapOk| == |phs|
      modifies this
      ensures Valid() && |mem| == old(|mem|)
      ensures ok ==> forall i :: 0 <= i < |phs| && Mapped(phs[i]) ==> Loaded(mem, low, phs[i], file)
      ensures !fileBacked && (forall i :: 0 <= i < |mmapOk| ==> mmapOk[i]) ==> ok
    {
      for i := 0 to |phs|
        invariant Valid() && |mem| == old(|mem|)
        invariant forall k :: 0 <= k < i && Mapped(phs[k]) ==> Loaded(mem, low, phs[k], file)
      {
        if phs[i].ptype == Load && phs[i].memsz != 0 {
          ghost var before := mem;
          ok := MapOneSegment(phs[i], file, mmapOk[i]);
          if !ok { return false; }
          forall k | 0 <= k < i && Mapped(phs[k]) ensures Loaded(mem, low, phs[k], file) {
            RangeNonEmpty(phs[k], page);
            assert End(phs[k], page) <= Begin(phs[i], page);
            assert Loaded(before, low, phs[k], file);
          }
        }
      }
      return true;
    }
  }

  /** The two paths agree: an image mapped anonymously and mapped from its file, at any two reservations, has the same
      byte at every address of every segment. */
  method PathsAgree(anonymous: AddressSpace, backed: AddressSpace, phs: seq<Phdr>, file: Bytes,
                    mmapOk: seq<bool>, mmapOk': seq<bool>) returns (ok: bool)
    requires anonymous != backed && anonymous.Valid() && backed.Valid() && !anonymous.fileBacked && backed.fileBacked
    requires anonymous.low == backed.low && |anonymous.mem| == |backed.mem| && anonymous.page == backed.page > 0
    requires Accepted(phs, |file|, backed.page) && Spans(phs, backed.low, backed.low + |backed.mem|, backed.page)
    requires |mmapOk| == |mmapOk'| == |phs|
    modifies anonymous, backed
    ensures ok ==> forall i :: 0 <= i < |phs| && Mapped(phs[i]) ==>
                     SameBytes(anonymous.mem, backed.mem, phs[i].vaddr - backed.low, phs[i].memsz)
  {
    ok := anonymous.MapImage(phs, file, mmapOk);
    if !ok { return; }
    ok := backed.MapImage(phs, file, mmapOk');
  }

  /** The `n` bytes from `at` are there in both, and the same. */
  predicate SameBytes(mem1: Bytes, mem2: Bytes, at: int, n: nat) {
    0 <= at && at + n <= |mem1| && at + n <= |mem2| && forall a :: at <= a < at + n ==> mem1[a] == mem2[a]
  }
}
