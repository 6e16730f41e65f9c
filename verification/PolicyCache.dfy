/**
 The unmount-policy snapshot: the daemon's decisions written as a byte file, the kernel's validation of that
 file, and the binary search that answers from it.
 */
module PolicyCache {

  const MAGIC: nat := 0x43505a59
  const VERSION: nat := 1
  const MAX_ENTRIES: nat := 8192
  const REFRESH_ALL: nat := 0xffff_ffff
  const APPIDS: nat := 100000
  const HEADER_SIZE: nat := 32
  const ENTRY_SIZE: nat := 8

  datatype Option<T> = None | Some(value: T)

  predicate IsU32(v: int) { 0 <= v < 0x1_0000_0000 }

  type Bytes = seq<int>

  predicate AllBytes(b: Bytes) { forall i :: 0 <= i < |b| ==> 0 <= b[i] < 256 }

  // ---------------------------------------------------- decisions by user id

  datatype Decision = Decision(uid: nat, umount: bool)

  /** An ordered map: strictly increasing user ids. */
  predicate Ordered(d: seq<Decision>) {
    forall i, j :: 0 <= i < j < |d| ==> d[i].uid < d[j].uid
  }

  predicate UidsFit(d: seq<Decision>) { forall i :: 0 <= i < |d| ==> IsU32(d[i].uid) }

  /** The map's value at a key. */
  function Get(d: seq<Decision>, uid: nat): Option<bool> {
    if d == [] then None
    else if d[|d| - 1].uid == uid then Some(d[|d| - 1].umount)
    else Get(d[..|d| - 1], uid)
  }

  lemma {:induction false} GetMeaning(d: seq<Decision>, uid: nat)
    ensures Get(d, uid).None? <==> forall i :: 0 <= i < |d| ==> d[i].uid != uid
    ensures Get(d, uid).Some? ==> exists i :: 0 <= i < |d| && d[i] == Decision(uid, Get(d, uid).value)
    decreases |d|
  {
    if d != [] && d[|d| - 1].uid != uid {
      var rest := d[..|d| - 1];
      GetMeaning(rest, uid);
      if Get(rest, uid).Some? {
        var i :| 0 <= i < |rest| && rest[i] == Decision(uid, Get(rest, uid).value);
        assert d[i] == rest[i];
      } else {
        assert forall i :: 0 <= i < |rest| ==> d[i] == rest[i];
      }
    } else if d != [] {
      assert d[|d| - 1] == Decision(uid, Get(d, uid).value);
    }
  }

  // ------------------------------------------------------------ the snapshot

  /** What the daemon holds when it writes a snapshot. */
  datatype Context = Context(
    owner: nat, generation: nat, manager: nat, complete: bool, fallbackDecision: bool, decisions: seq<Decision>)

  predicate Fits(c: Context) {
    && IsU32(c.owner) && IsU32(c.generation) && (c.manager == REFRESH_ALL || c.manager < APPIDS)
    && |c.decisions| <= MAX_ENTRIES && Ordered(c.decisions) && UidsFit(c.decisions)
  }

  function ByteOf(v: nat, k: nat): nat {
    if k == 0 then v % 256
    else if k == 1 then v / 256 % 256
    else if k == 2 then v / 65536 % 256
    else v / 16777216 % 256
  }

  function Flag(b: bool): nat { if b then 1 else 0 }

  /** The value of the 32-bit header word that starts at byte `at`; two 16-bit fields share a word. */
  function HeaderWord(c: Context, w: nat): nat {
    match w
    case 0 => MAGIC
    case 1 => VERSION + 65536 * HEADER_SIZE
    case 2 => ENTRY_SIZE + 65536 * Flag(c.complete)
    case 3 => c.owner
    case 4 => c.generation
    case 5 => |c.decisions|
    case 6 => Flag(c.fallbackDecision)
    case _ => c.manager
  }

  /** The 32-bit words of the file, in order. */
  function Word(c: Context, w: nat): nat
    requires w < 8 + 2 * |c.decisions|
  {
    if w < 8 then HeaderWord(c, w)
    else if w % 2 == 0 then c.decisions[w / 2 - 4].uid
    else Flag(c.decisions[w / 2 - 4].umount)
  }

  function FileSize(n: nat): nat { HEADER_SIZE + ENTRY_SIZE * n }

  /** The snapshot file: little-endian header and entries. */
  function Serialize(c: Context): (b: Bytes)
    ensures |b| == FileSize(|c.decisions|) && AllBytes(b)
  {
    seq(FileSize(|c.decisions|), k requires 0 <= k < FileSize(|c.decisions|) => ByteOf(Word(c, k / 4), k % 4))
  }

  // -------------------------------------------------------- the kernel's side

  function Read16(b: Bytes, at: nat): int
    requires at + 2 <= |b|
  {
    b[at] + 256 * b[at + 1]
  }

  function Read32(b: Bytes, at: nat): int
    requires at + 4 <= |b|
  {
    b[at] + 256 * b[at + 1] + 65536 * b[at + 2] + 16777216 * b[at + 3]
  }

  datatype Entry = Entry(uid: int, umount: int)

  datatype Cache = Cache(
    owner: int, generation: int, manager: int, complete: bool, fallbackDecision: bool, entries: seq<Entry>)

  datatype Error = NotSupported | Invalid | Stale

  datatype Result<T> = Ok(value: T) | Err(error: Error)

  /** The header as the kernel requires it; 16-bit flags may only have the lowest bit. */
  predicate HeaderOk(b: Bytes, owner: int)
    requires |b| >= HEADER_SIZE
  {
    && Read32(b, 0) == MAGIC && Read16(b, 4) == VERSION && Read16(b, 6) == HEADER_SIZE && Read16(b, 8) == ENTRY_SIZE
    && Read32(b, 20) <= MAX_ENTRIES && Read16(b, 10) <= 1 && Read32(b, 24) <= 1
    && (Read32(b, 28) == REFRESH_ALL || Read32(b, 28) < APPIDS)
    && Read32(b, 12) == owner
  }

  function EntryAt(b: Bytes, i: nat): Entry
    requires FileSize(i + 1) <= |b|
  {
    Entry(Read32(b, FileSize(i)), Read32(b, FileSize(i) + 4))
  }

  function Entries(b: Bytes, n: nat): (e: seq<Entry>)
    requires FileSize(n) <= |b|
    ensures |e| == n
  {
    seq(n, i requires 0 <= i < n => EntryAt(b, i))
  }

  /** The entries from the first to the `n`th are flags, with increasing user ids. */
  predicate EntriesOk(e: seq<Entry>, n: nat)
    requires n <= |e|
  {
    forall i :: 0 <= i < n ==> e[i].umount <= 1 && (i > 0 ==> e[i - 1].uid < e[i].uid)
  }

  function CacheOf(b: Bytes, n: nat): Cache
    requires FileSize(n) <= |b|
  {
    Cache(Read32(b, 12), Read32(b, 16), Read32(b, 28), Read16(b, 10) == 1, Read32(b, 24) != 0, Entries(b, n))
  }

  /** The file is one the kernel takes while `owner` owns root. */
  predicate Acceptable(b: Bytes, owner: int) {
    && |b| >= HEADER_SIZE && HeaderOk(b, owner)
    && Read32(b, 20) >= 0 && |b| == FileSize(Read32(b, 20))
    && EntriesOk(Entries(b, Read32(b, 20)), Read32(b, 20))
  }

  /** The answer the decisions give: the manager is never unmounted, a known user id has its decision, and
      an unknown one the default if the snapshot is complete. */
  function Answer(c: Context, uid: nat): Option<bool> {
    if c.manager != REFRESH_ALL && uid % APPIDS == c.manager then Some(false)
    else if Get(c.decisions, uid).Some? then Get(c.decisions, uid)
    else if c.complete then Some(c.fallbackDecision)
    else None
  }

  // ----------------------------------------------------------- the agreement

  lemma BytesOfWord(v: nat)
    requires IsU32(v)
    ensures ByteOf(v, 0) + 256 * ByteOf(v, 1) + 65536 * ByteOf(v, 2) + 16777216 * ByteOf(v, 3) == v
  {
    var x, y, z := v / 256, v / 65536, v / 16777216;
    assert v == v % 256 + 256 * x;
    assert x == x % 256 + 256 * y && y == y % 256 + 256 * z && z % 256 == z;
  }

  lemma SerializedByte(c: Context, w: nat, j: nat)
    requires w < 8 + 2 * |c.decisions| && j < 4
    ensures Serialize(c)[4 * w + j] == ByteOf(Word(c, w), j)
  {
    assert (4 * w + j) / 4 == w && (4 * w + j) % 4 == j;
  }

  lemma ReadWord(c: Context, w: nat, at: nat, v: nat)
    requires w < 8 + 2 * |c.decisions| && at == 4 * w && v == Word(c, w) && IsU32(v)
    ensures Read32(Serialize(c), at) == v
  {
    SerializedByte(c, w, 0); SerializedByte(c, w, 1); SerializedByte(c, w, 2); SerializedByte(c, w, 3);
    FourBytes(Serialize(c), at, v);
  }

  lemma FourBytes(b: Bytes, at: nat, v: nat)
    requires at + 4 <= |b| && IsU32(v) && b[at] == ByteOf(v, 0) && b[at + 1] == ByteOf(v, 1)
    requires b[at + 2] == ByteOf(v, 2) && b[at + 3] == ByteOf(v, 3)
    ensures Read32(b, at) == v
  {
    BytesOfWord(v);
  }

  lemma ReadHeader(c: Context)
    requires Fits(c)
    ensures var b := Serialize(c);
            && HeaderOk(b, c.owner) && Read32(b, 20) == |c.decisions| && Read32(b, 16) == c.generation
            && Read32(b, 28) == c.manager && Read16(b, 10) == Flag(c.complete)
            && Read32(b, 24) == Flag(c.fallbackDecision)
  {
    ReadFixedFields(c);
    ReadWord(c, 3, 12, c.owner); ReadWord(c, 4, 16, c.generation); ReadWord(c, 5, 20, |c.decisions|);
    ReadWord(c, 6, 24, Flag(c.fallbackDecision)); ReadWord(c, 7, 28, c.manager);
  }

  lemma ReadFixedFields(c: Context)
    ensures var b := Serialize(c);
            && Read32(b, 0) == MAGIC && Read16(b, 4) == VERSION && Read16(b, 6) == HEADER_SIZE
            && Read16(b, 8) == ENTRY_SIZE && Read16(b, 10) == Flag(c.complete)
  {
    ReadWord(c, 0, 0, MAGIC); ReadWord(c, 1, 4, Word(c, 1)); ReadWord(c, 2, 8, Word(c, 2));
    HalfWords(Serialize(c), 4, VERSION, HEADER_SIZE);
    HalfWords(Serialize(c), 8, ENTRY_SIZE, Flag(c.complete));
  }

  /** A word is two half words. */
  lemma HalfWords(b: Bytes, at: nat, low: nat, high: nat)
    requires at + 4 <= |b| && AllBytes(b) && low < 65536 && Read32(b, at) == low + 65536 * high
    ensures Read16(b, at) == low && Read16(b, at + 2) == high
  {
    assert Read32(b, at) == Read16(b, at) + 65536 * Read16(b, at + 2);
  }

  lemma EntryWords(c: Context, i: nat)
    requires i < |c.decisions|
    ensures Word(c, 8 + 2 * i) == c.decisions[i].uid && Word(c, 9 + 2 * i) == Flag(c.decisions[i].umount)
    ensures FileSize(i) == 4 * (8 + 2 * i)
  {
    assert (8 + 2 * i) / 2 == 4 + i && (9 + 2 * i) / 2 == 4 + i;
  }

  lemma ReadUid(c: Context, i: nat)
    requires Fits(c) && i < |c.decisions|
    ensures Read32(Serialize(c), FileSize(i)) == c.decisions[i].uid
  {
    EntryWords(c, i);
    ReadWord(c, 8 + 2 * i, FileSize(i), c.decisions[i].uid);
  }

  lemma ReadFlag(c: Context, w: nat, at: nat, flag: bool)
    requires w < 8 + 2 * |c.decisions| && at == 4 * w && Word(c, w) == Flag(flag)
    ensures Read32(Serialize(c), at) == Flag(flag)
  {
    ReadWord(c, w, at, Flag(flag));
  }

  lemma ReadUmount(c: Context, i: nat)
    requires i < |c.decisions|
    ensures Read32(Serialize(c), FileSize(i) + 4) == Flag(c.decisions[i].umount)
  {
    EntryWords(c, i);
    ReadFlag(c, 9 + 2 * i, FileSize(i) + 4, c.decisions[i].umount);
  }

  predicate SameContents(k: Cache, c: Context) {
    && k.owner == c.owner && k.generation == c.generation && k.manager == c.manager
    && k.complete == c.complete && k.fallbackDecision == c.fallbackDecision && |k.entries| == |c.decisions|
    && forall i :: 0 <= i < |c.decisions| ==> k.entries[i] == Entry(c.decisions[i].uid, Flag(c.decisions[i].umount))
  }

  /** Every snapshot the daemon writes within its bounds is acceptable, and is read as it was written. */
  lemma SerializedAcceptable(c: Context)
    requires Fits(c)
    ensures var b := Serialize(c);
            && Acceptable(b, c.owner) && Read32(b, 20) == |c.decisions| && SameContents(CacheOf(b, |c.decisions|), c)
  {
    ReadHeader(c);
    forall i | 0 <= i < |c.decisions|
      ensures EntryAt(Serialize(c), i) == Entry(c.decisions[i].uid, Flag(c.decisions[i].umount))
    {
      ReadEntry(c, i);
    }
  }

  lemma ReadEntry(c: Context, i: nat)
    requires Fits(c) && i < |c.decisions|
    ensures EntryAt(Serialize(c), i) == Entry(c.decisions[i].uid, Flag(c.decisions[i].umount))
  {
    ReadUid(c, i);
    ReadUmount(c, i);
  }

  /** The context a cache was written from. */
  function ContextOf(k: Cache): Context
    requires k.owner >= 0 && k.generation >= 0 && k.manager >= 0
    requires forall i :: 0 <= i < |k.entries| ==> k.entries[i].uid >= 0
  {
    Context(k.owner, k.generation, k.manager, k.complete, k.fallbackDecision,
            seq(|k.entries|, i requires 0 <= i < |k.entries| => Decision(k.entries[i].uid, k.entries[i].umount != 0)))
  }

  lemma ReadBounds(b: Bytes, at: nat)
    requires at + 4 <= |b| && AllBytes(b)
    ensures IsU32(Read32(b, at))
  {
  }

  /** A word is its four bytes, and determines them. */
  lemma WordBytes(b: Bytes, at: nat, v: nat)
    requires at + 4 <= |b| && AllBytes(b) && Read32(b, at) == v
    ensures b[at] == ByteOf(v, 0) && b[at + 1] == ByteOf(v, 1)
    ensures b[at + 2] == ByteOf(v, 2) && b[at + 3] == ByteOf(v, 3)
  {
    var x, y, z := b[at + 1] + 256 * b[at + 2] + 65536 * b[at + 3], b[at + 2] + 256 * b[at + 3], b[at + 3];
    assert v == b[at] + 256 * x && x == b[at + 1] + 256 * y && y == b[at + 2] + 256 * z;
    assert v / 256 == x && v / 65536 == y && v / 16777216 == z;
  }

  lemma {:induction false} OrderedFromSteps(e: seq<Entry>, i: nat, j: nat)
    requires i < j < |e| && EntriesOk(e, |e|)
    ensures e[i].uid < e[j].uid
    decreases j
  {
    if i < j - 1 { OrderedFromSteps(e, i, j - 1); }
  }

  /** Two byte files of the same length with the same words are the same. */
  lemma SameWords(b: Bytes, c: Context)
    requires AllBytes(b) && |b| == FileSize(|c.decisions|)
    requires forall w :: 0 <= w < 8 + 2 * |c.decisions| ==> Read32(b, 4 * w) == Word(c, w)
    ensures b == Serialize(c)
  {
    forall k | 0 <= k < |b| ensures b[k] == Serialize(c)[k] {
      SameByte(b, c, k / 4, k);
    }
  }

  lemma SameByte(b: Bytes, c: Context, w: nat, k: nat)
    requires AllBytes(b) && |b| == FileSize(|c.decisions|) && k < |b| && w == k / 4
    requires w < 8 + 2 * |c.decisions| ==> Read32(b, 4 * w) == Word(c, w)
    ensures b[k] == Serialize(c)[k]
  {
    WordBytes(b, 4 * w, Word(c, w));
  }

  lemma EntryBounds(b: Bytes, n: nat, i: nat)
    requires AllBytes(b) && FileSize(n) <= |b| && i < n
    ensures IsU32(Entries(b, n)[i].uid) && IsU32(Entries(b, n)[i].umount)
  {
    ReadBounds(b, FileSize(i));
    ReadBounds(b, FileSize(i) + 4);
  }

  /** What the kernel reads out of an acceptable file is a well-formed context. */
  lemma AcceptedFits(b: Bytes, owner: int, k: Cache)
    requires AllBytes(b) && Acceptable(b, owner) && k == CacheOf(b, Read32(b, 20))
    ensures k.owner == owner >= 0 && k.generation >= 0 && k.manager >= 0
    ensures forall i :: 0 <= i < |k.entries| ==> k.entries[i].uid >= 0 && 0 <= k.entries[i].umount <= 1
    ensures Fits(ContextOf(k))
  {
    ReadBounds(b, 12); ReadBounds(b, 16); ReadBounds(b, 28);
    forall i | 0 <= i < |k.entries| ensures IsU32(k.entries[i].uid) && 0 <= k.entries[i].umount <= 1 {
      EntryBounds(b, |k.entries|, i);
    }
    forall i, j | 0 <= i < j < |k.entries| ensures k.entries[i].uid < k.entries[j].uid {
      OrderedFromSteps(k.entries, i, j);
    }
  }

  /** What the kernel accepts is the snapshot of the context it reads out of it. */
  lemma AcceptedIsSerialized(b: Bytes, owner: int, k: Cache)
    requires AllBytes(b) && Acceptable(b, owner) && k == CacheOf(b, Read32(b, 20))
    ensures k.owner == owner >= 0 && k.generation >= 0 && k.manager >= 0
    ensures forall i :: 0 <= i < |k.entries| ==> k.entries[i].uid >= 0
    ensures Fits(ContextOf(k)) && b == Serialize(ContextOf(k))
  {
    AcceptedFits(b, owner, k);
    var c := ContextOf(k);
    forall w | 0 <= w < 8 + 2 * |c.decisions| ensures Read32(b, 4 * w) == Word(c, w) {
      if w < 8 {
        HeaderWordRead(b, c, w);
      } else {
        assert k.entries[w / 2 - 4] == EntryAt(b, w / 2 - 4);
        EntryWordRead(b, c, w);
      }
    }
    SameWords(b, c);
  }

  lemma HeaderWordRead(b: Bytes, c: Context, w: nat)
    requires AllBytes(b) && |b| >= HEADER_SIZE && w < 8 && HeaderOk(b, c.owner)
    requires c.generation == Read32(b, 16) && c.manager == Read32(b, 28) && |c.decisions| == Read32(b, 20)
    requires c.complete == (Read16(b, 10) == 1) && c.fallbackDecision == (Read32(b, 24) != 0)
    ensures Read32(b, 4 * w) == HeaderWord(c, w)
  {
    ReadBounds(b, 24);
    assert Read32(b, 4) == Read16(b, 4) + 65536 * Read16(b, 6);
    assert Read32(b, 8) == Read16(b, 8) + 65536 * Read16(b, 10);
  }

  lemma EntryWordRead(b: Bytes, c: Context, w: nat)
    requires |b| == FileSize(|c.decisions|) && 8 <= w < 8 + 2 * |c.decisions|
    requires var i := w / 2 - 4;
             c.decisions[i].uid == Read32(b, FileSize(i))
             && Flag(c.decisions[i].umount) == Read32(b, FileSize(i) + 4)
    ensures Read32(b, 4 * w) == Word(c, w)
  {
    var i := w / 2 - 4;
    assert w % 2 == 0 ==> 4 * w == FileSize(i);
    assert w % 2 == 1 ==> 4 * w == FileSize(i) + 4;
  }

  /** The kernel accepts exactly the snapshots of well-formed contexts with its own owner. */
  lemma AcceptableIff(b: Bytes, owner: int)
    requires AllBytes(b)
    ensures Acceptable(b, owner) <==> exists c: Context :: Fits(c) && c.owner == owner && b == Serialize(c)
  {
    if Acceptable(b, owner) {
      var k := CacheOf(b, Read32(b, 20));
      AcceptedIsSerialized(b, owner, k);
      var c := ContextOf(k);
      assert Fits(c) && c.owner == owner && b == Serialize(c);
    }
    forall c: Context | Fits(c) && c.owner == owner && b == Serialize(c) ensures Acceptable(b, owner) {
      SerializedAcceptable(c);
    }
  }

  // ------------------------------------------------------------- the programs

  /** The daemon's side. */
  class Daemon {
    var owner: nat
    var generation: nat
    var manager: nat
    var complete: bool
    var fallbackDecision: bool
    var decisions: seq<Decision>

    ghost function View(): Context
      reads this
    {
      Context(owner, generation, manager, complete, fallbackDecision, decisions)
    }

    constructor (owner: nat)
      ensures View() == Context(owner, 0, REFRESH_ALL, false, false, [])
    {
      this.owner, generation, manager := owner, 0, REFRESH_ALL;
      complete, fallbackDecision, decisions := false, false, [];
    }

    /** Writes a snapshot under a new generation, unless there are too many decisions. */
    method PushCache() returns (file: Option<Bytes>)
      requires IsU32(generation)
      modifies this
      ensures file.None? <==> |old(decisions)| > MAX_ENTRIES
      ensures file.None? ==> View() == old(View())
      ensures file.Some? ==>
                && View() == old(View()).(generation := (old(generation) + 1) % 0x1_0000_0000)
                && file.value == Serialize(View())
    {
      if |decisions| > MAX_ENTRIES { return None; }
      generation := (generation + 1) % 0x1_0000_0000;
      var c := Context(owner, generation, manager, complete, fallbackDecision, decisions);
      var b: Bytes := WriteHeader(c);
      var i := 0;
      while i < |c.decisions|
        invariant 0 <= i <= |c.decisions| && View() == c
        invariant |b| == FileSize(i) && b == Serialize(c)[..FileSize(i)]
      {
        var e := WriteEntry(c.decisions[i]);
        AppendEntry(c, b, e, i);
        b := b + e;
        i := i + 1;
      }
      assert b == Serialize(c);
      return Some(b);
    }
  }

  function WordBytesOf(v: nat): (b: Bytes)
    ensures |b| == 4
  {
    [ByteOf(v, 0), ByteOf(v, 1), ByteOf(v, 2), ByteOf(v, 3)]
  }

  function WriteEntry(d: Decision): (b: Bytes)
    ensures |b| == ENTRY_SIZE
  {
    WordBytesOf(d.uid) + WordBytesOf(Flag(d.umount))
  }

  function WriteHeader(c: Context): (b: Bytes)
    ensures b == Serialize(c)[..HEADER_SIZE]
  {
    seq(HEADER_SIZE, k requires 0 <= k < HEADER_SIZE => ByteOf(HeaderWord(c, k / 4), k % 4))
  }

  lemma WrittenByte(d: Decision, j: nat)
    requires j < 4
    ensures WriteEntry(d)[j] == ByteOf(d.uid, j) && WriteEntry(d)[4 + j] == ByteOf(Flag(d.umount), j)
  {
    assert j == 0 || j == 1 || j == 2 || j == 3;
  }

  lemma UidByte(c: Context, i: nat, j: nat)
    requires i < |c.decisions| && j < 4
    ensures Serialize(c)[FileSize(i) + j] == ByteOf(c.decisions[i].uid, j)
  {
    EntryWords(c, i);
    SerializedByte(c, 8 + 2 * i, j);
  }

  lemma UmountByte(c: Context, i: nat, j: nat)
    requires i < |c.decisions| && j < 4
    ensures Serialize(c)[FileSize(i) + 4 + j] == ByteOf(Flag(c.decisions[i].umount), j)
  {
    EntryWords(c, i);
    SerializedByte(c, 9 + 2 * i, j);
  }

  /** The eight bytes of entry `i` in the file. */
  lemma EntryBytes(c: Context, i: nat, j: nat)
    requires i < |c.decisions| && j < 8
    ensures Serialize(c)[FileSize(i) + j] == WriteEntry(c.decisions[i])[j]
  {
    WrittenByte(c.decisions[i], if j < 4 then j else j - 4);
    if j < 4 { UidByte(c, i, j); } else { UmountByte(c, i, j - 4); }
  }

  lemma AppendEntry(c: Context, b: Bytes, e: Bytes, i: nat)
    requires i < |c.decisions| && b == Serialize(c)[..FileSize(i)] && e == WriteEntry(c.decisions[i])
    ensures b + e == Serialize(c)[..FileSize(i + 1)]
  {
    var s := Serialize(c);
    forall k | FileSize(i) <= k < FileSize(i + 1) ensures e[k - FileSize(i)] == s[k] {
      EntryBytes(c, i, k - FileSize(i));
    }
  }

  predicate CacheOk(k: Cache) { EntriesOk(k.entries, |k.entries|) }

  /** What a lookup in the cache must answer. */
  predicate RightAnswer(k: Cache, uid: nat, r: Option<bool>) {
    if k.manager != REFRESH_ALL && uid % APPIDS == k.manager then r == Some(false)
    else
      && (forall i :: 0 <= i < |k.entries| && k.entries[i].uid == uid ==> r == Some(k.entries[i].umount != 0))
      && ((forall i :: 0 <= i < |k.entries| ==> k.entries[i].uid != uid) ==>
            r == if k.complete then Some(k.fallbackDecision) else None)
  }

  /** The snapshot of a context is accepted by a kernel with the same owner, and a right answer out of it, for
      any user id, is the context's own answer. */
  lemma CacheAgreement(c: Context, uid: nat, r: Option<bool>)
    requires Fits(c)
    ensures var b := Serialize(c);
            && Acceptable(b, c.owner)
            && (RightAnswer(CacheOf(b, Read32(b, 20)), uid, r) <==> r == Answer(c, uid))
  {
    SerializedAcceptable(c);
    SameAnswers(CacheOf(Serialize(c), |c.decisions|), c, uid, r);
  }

  lemma SameAnswers(k: Cache, c: Context, uid: nat, r: Option<bool>)
    requires SameContents(k, c) && Ordered(c.decisions)
    ensures RightAnswer(k, uid, r) <==> r == Answer(c, uid)
  {
    GetMeaning(c.decisions, uid);
    if Get(c.decisions, uid).Some? {
      var i :| 0 <= i < |c.decisions| && c.decisions[i] == Decision(uid, Get(c.decisions, uid).value);
      assert k.entries[i] == Entry(uid, Flag(c.decisions[i].umount));
      forall j | 0 <= j < |k.entries| && k.entries[j].uid == uid ensures j == i {
        assert c.decisions[j].uid == uid;
      }
    } else {
      forall j | 0 <= j < |k.entries| ensures k.entries[j].uid != uid {
        assert c.decisions[j].uid != uid;
      }
    }
  }

  /** The kernel's side: who owns root, whether answers come from a cache, and the cache. */
  class Kernel {
    var fallback: bool
    var owner: int
    var cache: Option<Cache>

    ghost predicate Valid()
      reads this
    {
      cache.Some? ==> CacheOk(cache.value)
    }

    constructor (fallback: bool, owner: int)
      ensures Valid() && this.fallback == fallback && this.owner == owner && cache == None
    {
      this.fallback, this.owner, cache := fallback, owner, None;
    }

    /** Takes a file exactly when it is acceptable; the owner is read again under the lock. */
    method Install(b: Bytes, fallbackThen: bool, ownerThen: int) returns (r: Result<Cache>)
      requires Valid() && AllBytes(b)
      modifies this
      ensures Valid() && owner == old(owner) && fallback == old(fallback)
      ensures r.Ok? <==> fallback && Acceptable(b, owner) && fallbackThen && ownerThen == owner
      ensures r.Ok? ==> r.value == CacheOf(b, Read32(b, 20)) && cache == Some(r.value)
      ensures r.Err? ==> cache == old(cache)
      ensures r == Err(Stale) <==> fallback && Acceptable(b, owner) && !(fallbackThen && ownerThen == owner)
    {
      if !fallback { return Err(NotSupported); }
      if |b| < HEADER_SIZE || !HeaderOk(b, owner) { return Err(Invalid); }
      ReadBounds(b, 20);
      var count := Read32(b, 20);
      if |b| != FileSize(count) { return Err(Invalid); }
      var k := CacheOf(b, count);
      var i := 0;
      while i < count
        invariant 0 <= i <= count && EntriesOk(k.entries, i)
      {
        if k.entries[i].umount > 1 || (i > 0 && k.entries[i - 1].uid >= k.entries[i].uid) { return Err(Invalid); }
        i := i + 1;
      }
      if !fallbackThen || k.owner != ownerThen { return Err(Stale); }
      cache := Some(k);
      return Ok(k);
    }

    /** Binary search for the user id; the manager is never unmounted. */
    method Lookup(uid: nat) returns (r: Option<bool>)
      requires Valid()
      ensures if cache.None? then r == None else RightAnswer(cache.value, uid, r)
    {
      if cache.None? { return None; }
      var k := cache.value;
      if k.manager != REFRESH_ALL && uid % APPIDS == k.manager { return Some(false); }
      var low, high := 0, |k.entries|;
      while low < high
        invariant 0 <= low <= high <= |k.entries|
        invariant forall i :: 0 <= i < low ==> k.entries[i].uid < uid
        invariant forall i :: high <= i < |k.entries| ==> k.entries[i].uid > uid
      {
        var mid := low + (high - low) / 2;
        forall i, j | 0 <= i < j < |k.entries| ensures k.entries[i].uid < k.entries[j].uid {
          OrderedFromSteps(k.entries, i, j);
        }
        if k.entries[mid].uid < uid {
          low := mid + 1;
        } else if k.entries[mid].uid > uid {
          high := mid;
        } else {
          return Some(k.entries[mid].umount != 0);
        }
      }
      return if k.complete then Some(k.fallbackDecision) else None;
    }
  }

  /** Daemon to kernel: a pushed snapshot is installed and then answers every user id as the decisions do. */
  method PushInstallLookup(d: Daemon, k: Kernel, uid: nat) returns (r: Option<bool>)
    requires k.Valid() && k.fallback && k.owner == d.owner
    requires Fits(d.View())
    modifies d, k
    ensures k.Valid() && k.cache.Some? && d.decisions == old(d.decisions)
    ensures r == Answer(d.View(), uid) == old(Answer(d.View(), uid))
  {
    var file := d.PushCache();
    ghost var c := d.View();
    SerializedAcceptable(c);
    var installed := k.Install(file.value, true, k.owner);
    r := k.Lookup(uid);
    CacheAgreement(c, uid, r);
  }
}
