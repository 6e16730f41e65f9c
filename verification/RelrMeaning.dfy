/**
 What a packed relocation table names, word by word, stated on its entries alone.
 */
module RelrMeaning {
  import opened RelrDecoder
  import opened Bits

  /** The size of a word in bytes. */
  function Size(c: Class): nat { if c.Elf32? then 4 else 8 }

  predicate BitOn(v: int, k: nat) { v / Power2(k) % 2 == 1 }

  /** The word that bit `k` of the `j`-th bitmap after the address `a` stands for: the words after `a` are numbered
      through all its bitmaps, one bit less than a word has in each. */
  function Place(c: Class, a: int, j: int, k: int): int {
    a + Size(c) * (1 + (8 * Size(c) - 1) * (j - 1) + (k - 1))
  }

  /** Entry `e` is an address and the entries between it and entry `n` are bitmaps. */
  predicate Heads(table: seq<int>, e: nat, n: nat)
    requires n <= |table|
  {
    e < n && table[e] % 2 == 0 && forall i :: e < i < n ==> table[i] % 2 == 1
  }

  /** There is no address before entry `n`. */
  predicate Headless(table: seq<int>, n: nat)
    requires n <= |table|
  {
    forall i :: 0 <= i < n ==> table[i] % 2 == 1
  }

  predicate Increasing(s: seq<int>) { forall i, j :: 0 <= i < j < |s| ==> s[i] < s[j] }

  /** A word can be relocated exactly when its address does not wrap and all its bytes lie in the reservation. */
  lemma InImageMeaning(im: Image, span: nat, offset: int)
    requires im.bias <= im.c.Max()
    ensures InImage(im, span, offset)
            <==> && 0 <= offset && im.bias + offset < (if im.c.Elf32? then 0x1_0000_0000 else 0x1_0000_0000_0000_0000)
                 && im.reservation <= im.bias + offset && im.bias + offset + Size(im.c) <= im.reservation + span
  {
  }

  // ------------------------------------------------------------ where a bitmap counts from

  lemma SpanOf(c: Class, x: int)
    ensures Size(c) * ((8 * Size(c) - 1) * x) == if c.Elf32? then 124 * x else 504 * x
  {
    if c.Elf32? { assert 4 * (31 * x) == 124 * x; } else { assert 8 * (63 * x) == 504 * x; }
  }

  /** Bit 1 of entry `n`, if it is a bitmap, stands for the running offset. */
  lemma {:induction false} BaseAfterHead(c: Class, table: seq<int>, e: nat, n: nat)
    requires n <= |table| && Heads(table, e, n)
    ensures BaseAt(c, table, n) == Place(c, table[e], n - e, 1)
    decreases n
  {
    if n == e + 1 {
      assert BaseAt(c, table, n) == table[e] + c.Word();
    } else {
      BaseAfterHead(c, table, e, n - 1);
      PlaceValue(c, table[e], n - 1 - e, 1);
      assert BaseAt(c, table, n) == BaseAt(c, table, n - 1) + c.Words(c.BitmapBits());
    }
    PlaceValue(c, table[e], n - e, 1);
  }

  lemma PlaceValue(c: Class, a: int, j: int, k: int)
    ensures Place(c, a, j, k)
            == if c.Elf32? then a + 4 + 124 * (j - 1) + 4 * (k - 1) else a + 8 + 504 * (j - 1) + 8 * (k - 1)
  {
    SpanOf(c, j - 1);
    if c.Elf32? { Distributed(4, 31 * (j - 1), k - 1); } else { Distributed(8, 63 * (j - 1), k - 1); }
  }

  lemma Distributed(w: int, x: int, y: int)
    ensures w * (1 + x + y) == w + w * x + w * y
  {
  }

  lemma {:induction false} BaseHeadless(c: Class, table: seq<int>, n: nat)
    requires n <= |table| && Headless(table, n)
    ensures BaseAt(c, table, n) == Place(c, 0 - Size(c), n + 1, 1)
    decreases n
  {
    PlaceValue(c, 0 - Size(c), n + 1, 1);
    if n > 0 {
      BaseHeadless(c, table, n - 1);
      PlaceValue(c, 0 - Size(c), n, 1);
    }
  }

  // ----------------------------------------------------------------- bitmaps

  lemma {:induction false} ShiftIsDiv(v: int, k: nat)
    requires v >= 0
    ensures Shift(v, k) == v / Power2(k)
    decreases k
  {
    if k > 0 {
      ShiftIsDiv(v / 2, k - 1);
      ModDouble(v, Power2(k - 1));
    }
  }

  /** Set bit `b`, of the first `k`, stands for offset `o`. */
  predicate Spot(c: Class, entry: int, base: int, k: nat, b: nat, o: int) {
    1 <= b <= k && BitSet(entry, b) && o == base + c.Words(b - 1)
  }

  /** The offsets a bitmap adds: increasing, and exactly those of its set bits. */
  ghost predicate Adds(c: Class, entry: int, base: int, k: nat, added: seq<int>) {
    && Increasing(added)
    && forall o :: o in added <==> exists b :: Spot(c, entry, base, k, b, o)
  }

  lemma {:induction false} BitmapAdds(c: Class, entry: int, base: int, k: nat, done: seq<int>)
    returns (added: seq<int>)
    ensures BitmapOnto(c, entry, base, k, done) == done + added && Adds(c, entry, base, k, added)
    decreases k
  {
    added := [];
    if k > 0 {
      var before := BitmapAdds(c, entry, base, k - 1, done);
      OneMoreBit(c, entry, base, k, before);
      added := before;
      if BitSet(entry, k) {
        added := before + [base + c.Words(k - 1)];
        assert done + before + [base + c.Words(k - 1)] == done + added;
      }
    }
  }

  lemma OneMoreBit(c: Class, entry: int, base: int, k: nat, before: seq<int>)
    requires k > 0 && Adds(c, entry, base, k - 1, before)
    ensures Adds(c, entry, base, k, if BitSet(entry, k) then before + [base + c.Words(k - 1)] else before)
  {
    var last := base + c.Words(k - 1);
    var after := if BitSet(entry, k) then before + [last] else before;
    forall i | 0 <= i < |before| ensures before[i] < last {
      assert before[i] in before;
      var b :| Spot(c, entry, base, k - 1, b, before[i]);
    }
    forall o ensures o in after <==> exists b :: Spot(c, entry, base, k, b, o) {
      if o in before {
        var b :| Spot(c, entry, base, k - 1, b, o);
        assert Spot(c, entry, base, k, b, o);
      }
      if BitSet(entry, k) { assert Spot(c, entry, base, k, k, last); }
      if b :| Spot(c, entry, base, k, b, o) { assert b == k || Spot(c, entry, base, k - 1, b, o); }
    }
  }

  // ------------------------------------------------------------ the whole table

  /** Bit `k` of bitmap `n` stands for offset `o`: it counts from the last address before it, or from the image's first
      word if there is none. */
  ghost predicate StandsFor(c: Class, table: seq<int>, n: nat, k: int, o: int)
    requires n < |table|
  {
    || (exists e: nat :: Heads(table, e, n) && o == Place(c, table[e], n - e, k))
    || (Headless(table, n) && o == Place(c, 0 - Size(c), n + 1, k))
  }

  ghost predicate BitStands(c: Class, table: seq<int>, n: nat, k: nat, o: int)
    requires n < |table|
  {
    1 <= k < 8 * Size(c) && BitOn(table[n], k) && StandsFor(c, table, n, k, o)
  }

  /** Entry `n` names offset `o`: an address itself, a bitmap what its set bits above the lowest stand for. */
  ghost predicate Names(c: Class, table: seq<int>, n: nat, o: int)
    requires n < |table|
  {
    if table[n] % 2 == 0 then o == table[n]
    else exists k :: BitStands(c, table, n, k, o)
  }

  lemma {:induction false} HeadOrNone(table: seq<int>, n: nat)
    requires n <= |table|
    ensures Headless(table, n) || exists e: nat :: Heads(table, e, n)
    decreases n
  {
    if n > 0 {
      if table[n - 1] % 2 == 0 {
        assert Heads(table, n - 1, n);
      } else {
        var m := n - 1;
        HeadOrNone(table, m);
        if e: nat :| Heads(table, e, m) { assert Heads(table, e, n); }
      }
    }
  }

  lemma StandsForOne(c: Class, table: seq<int>, n: nat, k: nat, o: int)
    requires n < |table| && k >= 1
    ensures StandsFor(c, table, n, k, o) <==> o == BaseAt(c, table, n) + c.Words(k - 1)
  {
    HeadOrNone(table, n);
    forall e: nat | Heads(table, e, n) ensures Place(c, table[e], n - e, k) == BaseAt(c, table, n) + c.Words(k - 1) {
      BaseAfterHead(c, table, e, n);
      PlaceStep(c, table[e], n - e, k);
    }
    if Headless(table, n) {
      BaseHeadless(c, table, n);
      PlaceStep(c, 0 - Size(c), n + 1, k);
    }
  }

  lemma PlaceStep(c: Class, a: int, j: int, k: nat)
    requires k >= 1
    ensures Place(c, a, j, k) == Place(c, a, j, 1) + c.Words(k - 1)
  {
    PlaceValue(c, a, j, k);
    PlaceValue(c, a, j, 1);
  }

  lemma SpotIsNamed(c: Class, table: seq<int>, n: nat, base: int, o: int)
    requires n < |table| && table[n] % 2 == 1 && table[n] >= 0 && base == BaseAt(c, table, n)
    ensures Names(c, table, n, o) <==> exists b :: Spot(c, table[n], base, c.BitmapBits(), b, o)
  {
    forall k: nat ensures BitStands(c, table, n, k, o) <==> Spot(c, table[n], base, c.BitmapBits(), k, o) {
      ShiftIsDiv(table[n], k);
      if k >= 1 { StandsForOne(c, table, n, k, o); }
    }
  }

  /** The offsets entry `n` adds to the decoded ones are increasing and exactly those it names. */
  ghost predicate AddedBy(c: Class, table: seq<int>, n: nat, added: seq<int>)
    requires n < |table|
  {
    && Decode(c, table, n + 1) == Decode(c, table, n) + added
    && Increasing(added)
    && forall o :: o in added <==> Names(c, table, n, o)
  }

  lemma EntryMeaning(c: Class, table: seq<int>, n: nat) returns (added: seq<int>)
    requires n < |table| && table[n] >= 0
    ensures AddedBy(c, table, n, added)
  {
    var entry, base, done := table[n], BaseAt(c, table, n), Decode(c, table, n);
    if entry % 2 == 0 {
      added := [entry];
    } else {
      added := BitmapAdds(c, entry, base, c.BitmapBits(), done);
      forall o ensures o in added <==> Names(c, table, n, o) { SpotIsNamed(c, table, n, base, o); }
    }
  }

  /** Some entry of the first `n` names the offset. */
  ghost predicate NamedBefore(c: Class, table: seq<int>, n: nat, o: int)
    requires n <= |table|
  {
    exists i: nat :: i < n && Names(c, table, i, o)
  }

  /** So a table's decoded offsets are exactly what its entries name. */
  lemma {:induction false} DecodeMeaning(c: Class, table: seq<int>, n: nat, o: int)
    requires n <= |table| && forall i :: 0 <= i < n ==> table[i] >= 0
    ensures o in Decode(c, table, n) <==> NamedBefore(c, table, n, o)
    decreases n
  {
    if n > 0 {
      DecodeMeaning(c, table, n - 1, o);
      var added := EntryMeaning(c, table, n - 1);
      if i: nat :| i < n && Names(c, table, i, o) { assert i == n - 1 || NamedBefore(c, table, n - 1, o); }
      if o in added { assert Names(c, table, n - 1, o); }
    }
  }

  // ------------------------------------------------------ one address and its bitmaps

  lemma PlaceGrows(c: Class, a: int, j: int, k: int, j': int, k': int)
    requires 1 <= k < 8 * Size(c) && 1 <= k' < 8 * Size(c)
    ensures j < j' || (j == j' && k < k') ==> Place(c, a, j, k) < Place(c, a, j', k')
    ensures j >= 1 ==> a < Place(c, a, j, k)
  {
    PlaceValue(c, a, j, k);
    PlaceValue(c, a, j', k');
  }

  /** Set bit `k` of bitmap `j` after the first entry stands for the offset. */
  predicate InGroup(c: Class, table: seq<int>, j: int, k: int, o: int) {
    && 1 <= j < |table| && 1 <= k < 8 * Size(c) && BitOn(table[j], k)
    && o == Place(c, table[0], j, k)
  }

  /** The first `n` entries name the offset. */
  ghost predicate GroupNames(c: Class, table: seq<int>, n: nat, o: int)
    requires table != []
  {
    o == table[0] || exists j, k :: j < n && InGroup(c, table, j, k, o)
  }

  lemma NamedInGroup(c: Class, table: seq<int>, j: nat, o: int)
    requires 1 <= j < |table| && Heads(table, 0, |table|)
    ensures Names(c, table, j, o) <==> exists k :: InGroup(c, table, j, k, o)
  {
    forall k: nat ensures BitStands(c, table, j, k, o) <==> InGroup(c, table, j, k, o) {
      assert Heads(table, 0, j);
      forall e: nat | Heads(table, e, j) ensures e == 0 {}
    }
    if k :| InGroup(c, table, j, k, o) { assert BitStands(c, table, j, k, o); }
  }

  /** An address followed by bitmaps decodes to the address and then, in increasing order, exactly the words of the set
      bits. */
  lemma {:induction false} GroupMeaning(c: Class, table: seq<int>, n: nat)
    requires 1 <= n <= |table| && Heads(table, 0, |table|) && forall i :: 0 <= i < |table| ==> table[i] >= 0
    ensures var d := Decode(c, table, n);
            Increasing(d) && d != [] && d[0] == table[0] && forall o :: o in d <==> GroupNames(c, table, n, o)
    decreases n
  {
    var m := n - 1;
    var added := EntryMeaning(c, table, m);
    if n == 1 {
      assert Decode(c, table, 0) == [] && Decode(c, table, 1) == added;
      assert table[0] in added;
    } else {
      GroupMeaning(c, table, m);
      GroupGrows(c, table, m, Decode(c, table, m), added);
    }
  }

  lemma GroupGrows(c: Class, table: seq<int>, m: nat, d: seq<int>, added: seq<int>)
    requires 1 <= m < |table| && Heads(table, 0, |table|)
    requires Increasing(d) && d != [] && d[0] == table[0] && Increasing(added)
    requires forall o :: o in d <==> GroupNames(c, table, m, o)
    requires forall o :: o in added <==> Names(c, table, m, o)
    ensures Increasing(d + added)
    ensures forall o :: o in d + added <==> GroupNames(c, table, m + 1, o)
  {
    forall x, y | x in d && y in added ensures x < y { Later(c, table, m, x, y); }
    forall i, j | 0 <= i < j < |d + added| ensures (d + added)[i] < (d + added)[j] {
      if i < |d| <= j { assert d[i] in d && added[j - |d|] in added; }
    }
    forall o ensures o in d + added <==> GroupNames(c, table, m + 1, o) {
      NamedInGroup(c, table, m, o);
      if j, k :| j < m + 1 && InGroup(c, table, j, k, o) { assert j == m || j < m; }
    }
  }

  lemma Later(c: Class, table: seq<int>, m: nat, x: int, y: int)
    requires 1 <= m < |table| && Heads(table, 0, |table|) && GroupNames(c, table, m, x) && Names(c, table, m, y)
    ensures x < y
  {
    NamedInGroup(c, table, m, y);
    var k' :| InGroup(c, table, m, k', y);
    if x == table[0] {
      PlaceGrows(c, table[0], m, k', m, k');
    } else {
      var j, k :| j < m && InGroup(c, table, j, k, x);
      PlaceGrows(c, table[0], j, k, m, k');
    }
  }
}
