/**
 The packed relative relocation table: an even entry names one word, an odd entry is a
 bitmap over the words that follow. Applying it adds the load bias to each named word.
 */
module RelrDecoder {

  newtype Byte = b: int | 0 <= b < 256

  type Bytes = seq<Byte>

  /** Word size, bitmap width and largest address of the two ELF classes. */
  datatype Class = Elf32 | Elf64 {
    function Word(): nat { if Elf32? then 4 else 8 }
    /** The bytes of `n` words. */
    function Words(n: nat): nat { if Elf32? then 4 * n else 8 * n }
    predicate WholeWords(bytes: nat) { if Elf32? then bytes % 4 == 0 else bytes % 8 == 0 }
    function InWords(bytes: nat): nat { if Elf32? then bytes / 4 else bytes / 8 }
    function BitmapBits(): nat { if Elf32? then 31 else 63 }
    function Max(): nat { if Elf32? then 0xffff_ffff else 0xffff_ffff_ffff_ffff }

    /** Arithmetic in one word wraps. */
    function Wrap(v: nat): (r: nat)
      ensures r <= Max() && (v <= Max() ==> r == v)
    {
      if Elf32? then v % 0x1_0000_0000 else v % 0x1_0000_0000_0000_0000
    }
  }

  // ------------------------------------------------------------------ words

  /** The little-endian value of `n` bytes from `at`. */
  function Read(mem: Bytes, at: nat, n: nat): nat
    requires at + n <= |mem|
    decreases n, |mem|
  {
    if n == 0 then 0 else (mem[at] as int) + 256 * Read(mem, at + 1, n - 1)
  }

  /** The low `n` bytes of `v`: storing it in a word drops what does not fit. */
  function Encode(v: nat, n: nat): (b: Bytes)
    ensures |b| == n
    decreases n, v
  {
    if n == 0 then [] else [(v % 256) as Byte] + Encode(v / 256, n - 1)
  }

  function Put(mem: Bytes, at: nat, data: Bytes): (r: Bytes)
    requires at + |data| <= |mem|
    ensures |r| == |mem|
  {
    seq(|mem|, i requires 0 <= i < |mem| => if at <= i < at + |data| then data[i - at] else mem[i])
  }

  function Power256(n: nat): (p: int)
    ensures p > 0
  {
    if n == 0 then 1 else 256 * Power256(n - 1)
  }

  lemma {:induction false} ReadFrame(m1: Bytes, m2: Bytes, at: nat, n: nat)
    requires at + n <= |m1| && |m1| == |m2| && forall i :: at <= i < at + n ==> m1[i] == m2[i]
    ensures Read(m1, at, n) == Read(m2, at, n)
    decreases n
  {
    if n > 0 { ReadFrame(m1, m2, at + 1, n - 1); }
  }

  function High(v: nat, n: nat): nat
    decreases n, v
  {
    if n == 0 then v else High(v / 256, n - 1)
  }

  /** Reading back `n` encoded bytes loses exactly the part of `v` above them. */
  lemma {:induction false} ReadEncoded(mem: Bytes, at: nat, v: nat, n: nat)
    requires at + n <= |mem| && mem[at..at + n] == Encode(v, n)
    ensures v == Read(mem, at, n) + Power256(n) * High(v, n) && Read(mem, at, n) < Power256(n)
    decreases n
  {
    if n > 0 {
      assert mem[at] == mem[at..at + n][0];
      assert mem[at + 1..at + n] == mem[at..at + n][1..] == Encode(v / 256, n - 1);
      ReadEncoded(mem, at + 1, v / 256, n - 1);
      ScaleUp(v, Read(mem, at + 1, n - 1), Power256(n - 1), High(v / 256, n - 1));
    }
  }

  lemma ScaleUp(v: nat, low: nat, p: nat, h: nat)
    requires v / 256 == low + p * h
    ensures v == v % 256 + 256 * low + 256 * p * h
  {
    assert 256 * (p * h) == 256 * p * h;
  }

  // --------------------------------------------------------------- decoding

  function Shift(v: int, k: nat): int
    decreases k
  {
    if k == 0 then v else Shift(v / 2, k - 1)
  }

  predicate BitSet(v: int, k: nat) { Shift(v, k) % 2 == 1 }

  /** The offsets `done` and then those a bitmap names by bits 1 to `k`: bit `k` stands for the word k - 1 places
      after `base`. */
  function BitmapOnto(c: Class, entry: int, base: int, k: nat, done: seq<int>): seq<int>
    decreases k, entry
  {
    if k == 0 then done
    else
      var seen := BitmapOnto(c, entry, base, k - 1, done);
      if BitSet(entry, k) then seen + [base + c.Words(k - 1)] else seen
  }

  function NextBase(c: Class, entry: int, base: int): int {
    if entry % 2 == 0 then entry + c.Word() else base + c.Words(c.BitmapBits())
  }

  /** The offsets `done` and then those an entry names. */
  function EntryOnto(c: Class, entry: int, base: int, done: seq<int>): seq<int> {
    if entry % 2 == 0 then done + [entry] else BitmapOnto(c, entry, base, c.BitmapBits(), done)
  }

  /** The running offset after the first `n` entries. */
  function BaseAt(c: Class, table: seq<int>, n: nat): int
    requires n <= |table|
  {
    if n == 0 then 0 else NextBase(c, table[n - 1], BaseAt(c, table, n - 1))
  }

  /** Every offset the first `n` entries name, in order, by the System V gABI's rule, over unbounded integers. */
  function Decode(c: Class, table: seq<int>, n: nat): seq<int>
    requires n <= |table|
  {
    if n == 0 then [] else EntryOnto(c, table[n - 1], BaseAt(c, table, n - 1), Decode(c, table, n - 1))
  }

  /** No running offset exceeds the address range. */
  predicate BasesFit(c: Class, table: seq<int>, n: nat)
    requires n <= |table|
  {
    forall i {:trigger BaseAt(c, table, i)} :: 0 <= i <= n ==> BaseAt(c, table, i) <= c.Max()
  }

  // --------------------------------------------------------------- applying

  /** A loaded image: its reservation holds `mem`, and `bias` maps offsets to addresses. */
  datatype Image = Image(c: Class, reservation: nat, bias: nat)

  /** The checks behind every access: no address wrap, and the word lies in the reservation. */
  predicate InImage(im: Image, span: nat, offset: int) {
    && 0 <= offset <= im.c.Max() - im.bias
    && im.reservation <= im.bias + offset
    && im.bias + offset - im.reservation <= span
    && im.c.Word() <= span - (im.bias + offset - im.reservation)
  }

  function Index(im: Image, offset: int): int { im.bias + offset - im.reservation }

  /** The bias added to the word at `offset`, if the image holds that word. */
  function Patched(im: Image, mem: Bytes, offset: int): (r: Bytes)
    ensures |r| == |mem|
  {
    if !InImage(im, |mem|, offset) then mem
    else
      var w := im.c.Word();
      Put(mem, Index(im, offset), Encode(Read(mem, Index(im, offset), w) + im.bias, w))
  }

  predicate AllInImage(im: Image, span: nat, offsets: seq<int>) {
    forall i :: 0 <= i < |offsets| ==> InImage(im, span, offsets[i])
  }

  /** The bias added once per offset, in order. */
  function ApplyAll(im: Image, mem: Bytes, offsets: seq<int>): (r: Bytes)
    ensures |r| == |mem|
    decreases |offsets|
  {
    if offsets == [] then mem else ApplyAll(im, Patched(im, mem, offsets[0]), offsets[1..])
  }

  predicate Disjoint(a: int, b: int, w: int) { a + w <= b || b + w <= a }

  function Occurrences(offsets: seq<int>, o: int): nat {
    if offsets == [] then 0 else (if offsets[0] == o then 1 else 0) + Occurrences(offsets[1..], o)
  }

  /** Bytes no named word covers are untouched. */
  lemma {:induction false} UntouchedBytes(im: Image, mem: Bytes, offsets: seq<int>, a: nat)
    requires a < |mem|
    requires forall i :: 0 <= i < |offsets| ==> !(Index(im, offsets[i]) <= a < Index(im, offsets[i]) + im.c.Word())
    ensures ApplyAll(im, mem, offsets)[a] == mem[a]
    decreases |offsets|
  {
    if offsets != [] {
      assert forall i :: 0 <= i < |offsets[1..]| ==> offsets[1..][i] == offsets[i + 1];
      UntouchedBytes(im, Patched(im, mem, offsets[0]), offsets[1..], a);
    }
  }

  lemma PowerOfWord(c: Class)
    ensures Power256(c.Word()) == c.Max() + 1
  {
    assert Power256(1) == 256 && Power256(2) == 0x1_0000;
    assert Power256(3) == 0x100_0000 && Power256(4) == 0x1_0000_0000;
    assert Power256(5) == 0x100_0000_0000 && Power256(6) == 0x1_0000_0000_0000;
    assert Power256(7) == 0x100_0000_0000_0000 && Power256(8) == 0x1_0000_0000_0000_0000;
  }

  lemma WrapUnique(c: Class, v: nat, low: nat, h: nat)
    requires v == low + (c.Max() + 1) * h && low <= c.Max()
    ensures low == c.Wrap(v)
  {
  }

  /** Writing a word and reading it back. */
  lemma PutRead(c: Class, mem: Bytes, at: nat, v: nat)
    requires at + c.Word() <= |mem|
    ensures Read(Put(mem, at, Encode(v, c.Word())), at, c.Word()) == c.Wrap(v)
  {
    var n := c.Word();
    var r := Put(mem, at, Encode(v, n));
    assert r[at..at + n] == Encode(v, n);
    ReadEncoded(r, at, v, n);
    PowerOfWord(c);
    WrapUnique(c, v, Read(r, at, n), High(v, n));
  }

  /** One patch adds the bias to the word it names and leaves a disjoint word alone. */
  lemma PatchEffect(im: Image, mem: Bytes, p: int, o: int)
    requires InImage(im, |mem|, p) && InImage(im, |mem|, o) && (p == o || Disjoint(p, o, im.c.Word()))
    ensures var v := Read(mem, Index(im, o), im.c.Word());
            Read(Patched(im, mem, p), Index(im, o), im.c.Word())
            == if p == o then im.c.Wrap(v + im.bias) else v
  {
    if p == o { PatchSame(im, mem, o); } else { PatchOther(im, mem, p, Index(im, o)); }
  }

  lemma PatchSame(im: Image, mem: Bytes, o: int)
    requires InImage(im, |mem|, o)
    ensures Read(Patched(im, mem, o), Index(im, o), im.c.Word())
            == im.c.Wrap(Read(mem, Index(im, o), im.c.Word()) + im.bias)
  {
    var w, at := im.c.Word(), Index(im, o);
    var v := Read(mem, at, w) + im.bias;
    PutRead(im.c, mem, at, v);
  }

  lemma PatchOther(im: Image, mem: Bytes, p: int, at: nat)
    requires InImage(im, |mem|, p) && at + im.c.Word() <= |mem| && Disjoint(Index(im, p), at, im.c.Word())
    ensures Read(Patched(im, mem, p), at, im.c.Word()) == Read(mem, at, im.c.Word())
  {
    var w := im.c.Word();
    var data := Encode(Read(mem, Index(im, p), w) + im.bias, w);
    assert Patched(im, mem, p) == Put(mem, Index(im, p), data);
    PutFrame(mem, Index(im, p), data, at, w);
  }

  lemma PutFrame(mem: Bytes, at: nat, data: Bytes, other: nat, n: nat)
    requires at + |data| <= |mem| && other + n <= |mem| && (other + n <= at || at + |data| <= other)
    ensures Read(Put(mem, at, data), other, n) == Read(mem, other, n)
  {
    var r := Put(mem, at, data);
    assert forall i :: 0 <= i < at || at + |data| <= i < |mem| ==> r[i] == mem[i];
    ReadFrame(r, mem, other, n);
  }

  /** `v` with the bias added `n` times, in the word's modulus. */
  function AddTimes(im: Image, v: nat, n: nat): nat
    decreases n
  {
    if n == 0 then v else AddTimes(im, im.c.Wrap(v + im.bias), n - 1)
  }

  /** A word that no other named word overlaps gains the bias once for each time the table names it. */
  lemma {:induction false} AddedPerOccurrence(im: Image, mem: Bytes, offsets: seq<int>, o: int)
    requires AllInImage(im, |mem|, offsets) && InImage(im, |mem|, o)
    requires forall i :: 0 <= i < |offsets| ==> offsets[i] == o || Disjoint(offsets[i], o, im.c.Word())
    ensures Read(ApplyAll(im, mem, offsets), Index(im, o), im.c.Word())
            == AddTimes(im, Read(mem, Index(im, o), im.c.Word()), Occurrences(offsets, o))
    decreases |offsets|
  {
    if offsets != [] {
      assert forall i :: 0 <= i < |offsets[1..]| ==> offsets[1..][i] == offsets[i + 1];
      PatchEffect(im, mem, offsets[0], o);
      AddedPerOccurrence(im, Patched(im, mem, offsets[0]), offsets[1..], o);
      OccurrencesStep(im, Read(mem, Index(im, o), im.c.Word()), offsets, o);
    }
  }

  lemma OccurrencesStep(im: Image, v: nat, offsets: seq<int>, o: int)
    requires offsets != []
    ensures AddTimes(im, v, Occurrences(offsets, o))
            == AddTimes(im, if offsets[0] == o then im.c.Wrap(v + im.bias) else v, Occurrences(offsets[1..], o))
  {
  }

  function Times(n: nat, k: nat): nat { if n == 0 then 0 else k + Times(n - 1, k) }

  /** Adding the bias `n` times is adding `n` times the bias. */
  lemma {:induction false} AddTimesClosed(im: Image, v: nat, n: nat)
    requires v <= im.c.Max()
    ensures AddTimes(im, v, n) == im.c.Wrap(v + Times(n, im.bias))
    decreases n
  {
    if n > 0 {
      AddTimesClosed(im, im.c.Wrap(v + im.bias), n - 1);
      var rest: nat := Times(n - 1, im.bias);
      AddWrap(im.c, v + im.bias, rest);
    }
  }

  lemma AddWrap(c: Class, a: nat, b: nat)
    ensures c.Wrap(c.Wrap(a) + b) == c.Wrap(a + b)
  {
    var i := WrapQuotient(c, a);
    var j := WrapQuotient(c, c.Wrap(a) + b);
    assert (c.Max() + 1) * i + (c.Max() + 1) * j == (c.Max() + 1) * (i + j);
    WrapUnique(c, a + b, c.Wrap(c.Wrap(a) + b), i + j);
  }

  lemma WrapQuotient(c: Class, v: nat) returns (h: nat)
    ensures v == c.Wrap(v) + (c.Max() + 1) * h
  {
    h := if c.Elf32? then v / 0x1_0000_0000 else v / 0x1_0000_0000_0000_0000;
  }

  // ------------------------------------------------------------ the relocator

  /** The table's words as the image holds them. */
  function TableWords(c: Class, mem: Bytes, at: nat, count: nat): (t: seq<int>)
    requires at + c.Words(count) <= |mem|
    ensures |t| == count
    decreases count
  {
    if count == 0 then [] else [Read(mem, at, c.Word())] + TableWords(c, mem, at + c.Word(), count - 1)
  }

  lemma {:induction false} TableWord(c: Class, mem: Bytes, at: nat, count: nat, i: nat)
    requires at + c.Words(count) <= |mem| && i < count
    ensures at + c.Words(i) + c.Word() <= |mem|
    ensures TableWords(c, mem, at, count)[i] == Read(mem, at + c.Words(i), c.Word())
    decreases count
  {
    if i > 0 { TableWord(c, mem, at + c.Word(), count - 1, i - 1); }
  }

  lemma {:induction false} ApplyAppend(im: Image, mem: Bytes, offsets: seq<int>, o: int)
    ensures ApplyAll(im, mem, offsets + [o]) == Patched(im, ApplyAll(im, mem, offsets), o)
    decreases |offsets|
  {
    if offsets == [] {
      assert offsets + [o] == [o];
      assert [o][1..] == [];
    } else {
      assert (offsets + [o])[1..] == offsets[1..] + [o];
      ApplyAppend(im, Patched(im, mem, offsets[0]), offsets[1..], o);
    }
  }

  /** The table does not overlap a word it names. */
  predicate TableApart(im: Image, offsets: seq<int>, at: nat, bytes: nat) {
    forall i :: 0 <= i < |offsets| ==>
      Index(im, offsets[i]) + im.c.Word() <= at || at + bytes <= Index(im, offsets[i])
  }

  lemma TableUnchanged(im: Image, mem: Bytes, offsets: seq<int>, at: nat, bytes: nat, word: nat)
    requires at + bytes <= |mem| && TableApart(im, offsets, at, bytes)
    requires at <= word && word + im.c.Word() <= at + bytes
    ensures Read(ApplyAll(im, mem, offsets), word, im.c.Word()) == Read(mem, word, im.c.Word())
  {
    forall a | word <= a < word + im.c.Word() ensures ApplyAll(im, mem, offsets)[a] == mem[a] {
      UntouchedBytes(im, mem, offsets, a);
    }
    ReadFrame(ApplyAll(im, mem, offsets), mem, word, im.c.Word());
  }

  /** Every word named by bits 1 to `k` is in the image. */
  predicate BitsFit(im: Image, span: nat, entry: int, base: int, k: nat)
    decreases k, entry
  {
    || k == 0
    || (&& BitsFit(im, span, entry, base, k - 1)
        && (BitSet(entry, k) ==> InImage(im, span, base + im.c.Words(k - 1))))
  }

  lemma {:induction false} BitsFitMeaning(im: Image, span: nat, entry: int, base: int, k: nat, done: seq<int>)
    ensures AllInImage(im, span, BitmapOnto(im.c, entry, base, k, done))
            <==> AllInImage(im, span, done) && BitsFit(im, span, entry, base, k)
  {
    if k > 0 {
      BitsFitMeaning(im, span, entry, base, k - 1, done);
      AllInAppend(im, span, BitmapOnto(im.c, entry, base, k - 1, done), base + im.c.Words(k - 1));
    }
  }

  /** One named word outside the image spoils the whole bitmap. */
  lemma {:induction false} BitStops(im: Image, span: nat, entry: int, base: int, bit: nat, bits: nat)
    requires bit < bits && BitSet(entry, bit + 1) && !InImage(im, span, base + im.c.Words(bit))
    ensures !BitsFit(im, span, entry, base, bits)
    decreases bits
  {
    if bit < bits - 1 { BitStops(im, span, entry, base, bit, bits - 1); }
  }

  lemma AllInAppend(im: Image, span: nat, a: seq<int>, o: int)
    ensures AllInImage(im, span, a + [o]) <==> AllInImage(im, span, a) && InImage(im, span, o)
  {
    assert forall i :: 0 <= i < |a| ==> a[i] == (a + [o])[i];
    assert (a + [o])[|a|] == o;
  }

  predicate EntryFits(im: Image, span: nat, entry: int, base: int) {
    && (if entry % 2 == 0 then InImage(im, span, entry) else BitsFit(im, span, entry, base, im.c.BitmapBits()))
    && NextBase(im.c, entry, base) <= im.c.Max()
  }

  /** The checks the first `n` entries pass, one by one. */
  predicate EntriesFit(im: Image, span: nat, table: seq<int>, n: nat)
    requires n <= |table|
  {
    n == 0
    || (EntriesFit(im, span, table, n - 1) && EntryFits(im, span, table[n - 1], BaseAt(im.c, table, n - 1)))
  }

  /** The entry-by-entry checks are exactly: every decoded word is in the image, and no running offset overflows. */
  lemma {:induction false} EntriesFitMeaning(im: Image, span: nat, table: seq<int>, n: nat)
    requires n <= |table|
    ensures EntriesFit(im, span, table, n)
            <==> AllInImage(im, span, Decode(im.c, table, n)) && BasesFit(im.c, table, n)
  {
    if n > 0 {
      EntriesFitMeaning(im, span, table, n - 1);
      var entry, base := table[n - 1], BaseAt(im.c, table, n - 1);
      AllInAppend(im, span, Decode(im.c, table, n - 1), entry);
      BitsFitMeaning(im, span, entry, base, im.c.BitmapBits(), Decode(im.c, table, n - 1));
      assert BaseAt(im.c, table, n) == NextBase(im.c, entry, base);
    }
  }

  /** One entry that does not fit spoils the whole table. */
  lemma {:induction false} EntryStops(im: Image, span: nat, table: seq<int>, i: nat, n: nat)
    requires i < n <= |table| && !EntryFits(im, span, table[i], BaseAt(im.c, table, i))
    ensures !EntriesFit(im, span, table, n)
    decreases n
  {
    if i < n - 1 { EntryStops(im, span, table, i, n - 1); }
  }

  lemma {:induction false} BitmapPrefix(c: Class, entry: int, base: int, k: nat, done: seq<int>)
    ensures done <= BitmapOnto(c, entry, base, k, done)
  {
    if k > 0 { BitmapPrefix(c, entry, base, k - 1, done); }
  }

  lemma {:induction false} DecodePrefix(c: Class, table: seq<int>, m: nat, n: nat)
    requires m <= n <= |table|
    ensures Decode(c, table, m) <= Decode(c, table, n)
    decreases n
  {
    if m < n {
      DecodePrefix(c, table, m, n - 1);
      BitmapPrefix(c, table[n - 1], BaseAt(c, table, n - 1), c.BitmapBits(), Decode(c, table, n - 1));
    }
  }

  class Relocator {
    const im: Image
    var mem: Bytes

    constructor (im: Image, mem: Bytes)
      ensures this.im == im && this.mem == mem
    {
      this.im, this.mem := im, mem;
    }

    method PatchRelativeWord(offset: int) returns (ok: bool)
      modifies this
      ensures ok <==> InImage(im, |old(mem)|, offset)
      ensures mem == if ok then Patched(im, old(mem), offset) else old(mem)
    {
      if !InImage(im, |mem|, offset) { return false; }
      mem := Patched(im, mem, offset);
      return true;
    }

    /** One named word, at `base + displacement`. */
    method PatchNext(base: int, displacement: int, ghost original: Bytes, ghost done: seq<int>) returns (ok: bool)
      requires mem == ApplyAll(im, original, done)
      modifies this
      ensures ok <==> InImage(im, |original|, base + displacement)
      ensures mem == ApplyAll(im, original, done + [base + displacement])
    {
      ApplyAppend(im, original, done, base + displacement);
      if base > im.c.Max() - displacement { return false; }
      ok := PatchRelativeWord(base + displacement);
    }

    /** The words a bitmap entry names, from bit 1 up; `done` are the offsets patched before it. */
    method ApplyBitmap(entry: int, base: int, ghost original: Bytes, ghost done: seq<int>) returns (ok: bool)
      requires mem == ApplyAll(im, original, done)
      modifies this
      ensures |mem| == |original|
      ensures ok <==> BitsFit(im, |original|, entry, base, im.c.BitmapBits())
      ensures ok ==> mem == ApplyAll(im, original, BitmapOnto(im.c, entry, base, im.c.BitmapBits(), done))
    {
      var bitmap, bits := entry / 2, im.c.BitmapBits();
      var bit: nat := 0;
      while bit < bits
        invariant bit <= bits && BitsFit(im, |original|, entry, base, bit)
        invariant mem == ApplyAll(im, original, BitmapOnto(im.c, entry, base, bit, done))
      {
        assert BitSet(entry, bit + 1) == (Shift(bitmap, bit) % 2 == 1);
        if Shift(bitmap, bit) % 2 == 1 {
          ok := PatchNext(base, im.c.Words(bit), original, BitmapOnto(im.c, entry, base, bit, done));
          if !ok {
            BitStops(im, |original|, entry, base, bit, bits);
            return false;
          }
        }
        bit := bit + 1;
      }
      return true;
    }

    /** One entry: succeeds exactly when its words are in the image and the running offset stays in range. */
    method ApplyEntry(encoded: int, base: int, ghost original: Bytes, ghost done: seq<int>)
      returns (ok: bool, next: int)
      requires mem == ApplyAll(im, original, done)
      modifies this
      ensures |mem| == |original|
      ensures ok <==> EntryFits(im, |original|, encoded, base)
      ensures ok ==> mem == ApplyAll(im, original, EntryOnto(im.c, encoded, base, done))
      ensures ok ==> next == NextBase(im.c, encoded, base)
    {
      next := base;
      if encoded % 2 == 0 {
        ApplyAppend(im, original, done, encoded);
        ok := PatchRelativeWord(encoded);
        if !ok || encoded > im.c.Max() - im.c.Word() { return false, next; }
        next := encoded + im.c.Word();
      } else {
        ok := ApplyBitmap(encoded, base, original, done);
        var span := im.c.Words(im.c.BitmapBits());
        if !ok || base > im.c.Max() - span { return false, next; }
        next := base + span;
      }
    }

    /** Succeeds exactly when every named word is in the image and no running offset overflows; then each
        decoded offset has received the bias, in order, and nothing else changed. */
    method ApplyRelrSpan(present: bool, at: nat, bytes: nat) returns (ok: bool)
      requires present ==> at + bytes <= |mem|
      requires present && im.c.WholeWords(bytes) ==>
                 var count := im.c.InWords(bytes);
                 TableApart(im, Decode(im.c, TableWords(im.c, mem, at, count), count), at, bytes)
      modifies this
      ensures |mem| == old(|mem|)
      ensures bytes == 0 ==> ok && mem == old(mem)
      ensures bytes != 0 && ok ==> present && im.c.WholeWords(bytes)
      ensures bytes != 0 && present && im.c.WholeWords(bytes) ==>
                var count := im.c.InWords(bytes);
                var table := TableWords(im.c, old(mem), at, count);
                && (ok <==> AllInImage(im, |old(mem)|, Decode(im.c, table, count)) && BasesFit(im.c, table, count))
                && (ok ==> mem == ApplyAll(im, old(mem), Decode(im.c, table, count)))
    {
      if bytes == 0 { return true; }
      if !present || !im.c.WholeWords(bytes) { return false; }
      var count := im.c.InWords(bytes);
      EntriesFitMeaning(im, |mem|, TableWords(im.c, mem, at, count), count);
      ok := ApplyTable(at, count);
    }

    method ApplyTable(at: nat, count: nat) returns (ok: bool)
      requires at + im.c.Words(count) <= |mem|
      requires TableApart(im, Decode(im.c, TableWords(im.c, mem, at, count), count), at, im.c.Words(count))
      modifies this
      ensures |mem| == old(|mem|)
      ensures ok <==> EntriesFit(im, |old(mem)|, TableWords(im.c, old(mem), at, count), count)
      ensures ok ==> mem == ApplyAll(im, old(mem), Decode(im.c, TableWords(im.c, old(mem), at, count), count))
    {
      ghost var original := mem;
      ghost var table := TableWords(im.c, mem, at, count);
      var next := 0;
      var i: nat := 0;
      while i < count
        invariant i <= count && next == BaseAt(im.c, table, i)
        invariant mem == ApplyAll(im, original, Decode(im.c, table, i))
        invariant EntriesFit(im, |original|, table, i)
      {
        EntryUnchanged(im, original, at, count, i);
        var encoded := Read(mem, at + im.c.Words(i), im.c.Word());
        ok, next := ApplyEntry(encoded, next, original, Decode(im.c, table, i));
        if !ok {
          EntryStops(im, |original|, table, i, count);
          return false;
        }
        i := i + 1;
      }
      return true;
    }
  }

  /** Reading entry `i` after the earlier entries were applied still gives the table's word. */
  lemma EntryUnchanged(im: Image, original: Bytes, at: nat, count: nat, i: nat)
    requires at + im.c.Words(count) <= |original| && i < count
    requires TableApart(im, Decode(im.c, TableWords(im.c, original, at, count), count), at, im.c.Words(count))
    ensures at + im.c.Words(i) + im.c.Word() <= |original|
    ensures var table := TableWords(im.c, original, at, count);
            Read(ApplyAll(im, original, Decode(im.c, table, i)), at + im.c.Words(i), im.c.Word()) == table[i]
  {
    TableWord(im.c, original, at, count, i);
    var table := TableWords(im.c, original, at, count);
    var done, all := Decode(im.c, table, i), Decode(im.c, table, count);
    assert TableApart(im, done, at, im.c.Words(count)) by {
      DecodePrefix(im.c, table, i, count);
      assert forall j :: 0 <= j < |done| ==> done[j] == all[j];
    }
    TableUnchanged(im, original, done, at, im.c.Words(count), at + im.c.Words(i));
  }
}
