/**
 The package configuration: comma-separated lines with quoted fields (section 2 of RFC 4180), and the unmount
 decisions merged from its rows.
 */
module PackageConfig {
  import opened PolicyCache
  import Json

  type Text = Json.Text

  // ------------------------------------------------------------------- lines

  /** The fields of the line from position `i`, inside or outside quotes, with `field` read so far. */
  function Fields(line: Text, i: nat, quoted: bool, field: Text): (r: seq<Text>)
    ensures |r| > 0
    decreases |line| - i
  {
    if i >= |line| then [field]
    else if line[i] == '"' then
      if quoted && i + 1 < |line| && line[i + 1] == '"' then Fields(line, i + 2, quoted, field + ['"'])
      else Fields(line, i + 1, !quoted, field)
    else if line[i] == ',' && !quoted then [field] + Fields(line, i + 1, false, [])
    else Fields(line, i + 1, quoted, field + [line[i]])
  }

  method SplitCsv(line: Text) returns (fields: seq<Text>)
    ensures fields == Fields(line, 0, false, [])
  {
    fields := [];
    var field: Text, quoted, i := [], false, 0;
    while i < |line|
      invariant 0 <= i <= |line|
      invariant fields + Fields(line, i, quoted, field) == Fields(line, 0, false, [])
    {
      var c := line[i];
      if c == '"' {
        if quoted && i + 1 < |line| && line[i + 1] == '"' {
          field := field + ['"'];
          i := i + 1;
        } else {
          quoted := !quoted;
        }
      } else if c == ',' && !quoted {
        Regroup(fields, field, Fields(line, i + 1, false, []));
        fields, field := fields + [field], [];
      } else {
        field := field + [c];
      }
      i := i + 1;
    }
    fields := fields + [field];
  }

  lemma Regroup(a: seq<Text>, f: Text, b: seq<Text>)
    ensures a + ([f] + b) == (a + [f]) + b
  {
  }

  /** A field that may be written without quotes. */
  predicate Bare(f: Text) { forall i :: 0 <= i < |f| ==> f[i] != '"' && f[i] != ',' }

  /** A field's text with each quote doubled. */
  function Doubled(f: Text): Text {
    if f == [] then [] else (if f[0] == '"' then ['"', '"'] else [f[0]]) + Doubled(f[1..])
  }

  /** A field and the choice to quote it. */
  datatype Cell = Cell(text: Text, quoted: bool)

  predicate Printable(c: Cell) { c.quoted || Bare(c.text) }

  function PrintCell(c: Cell): Text { if c.quoted then ['"'] + (Doubled(c.text) + ['"']) else c.text }

  function PrintLine(cells: seq<Cell>): Text
    requires cells != []
  {
    if |cells| == 1 then PrintCell(cells[0]) else PrintCell(cells[0]) + ([','] + PrintLine(cells[1..]))
  }

  function Texts(cells: seq<Cell>): seq<Text> {
    if cells == [] then [] else [cells[0].text] + Texts(cells[1..])
  }

  predicate AllPrintable(cells: seq<Cell>) { forall i :: 0 <= i < |cells| ==> Printable(cells[i]) }

  lemma {:induction false} BareRun(line: Text, i: nat, f: Text, k: nat)
    requires Json.At(line, i, f) && Bare(f) && k <= |f|
    ensures Fields(line, i, false, []) == Fields(line, i + k, false, f[..k])
    decreases k
  {
    if k > 0 {
      BareRun(line, i, f, k - 1);
      assert line[i + (k - 1)] == f[k - 1];
      assert f[..k] == f[..k - 1] + [f[k - 1]];
    }
  }

  lemma {:induction false} QuotedRun(line: Text, i: nat, f: Text, acc: Text)
    requires Json.At(line, i, Doubled(f))
    ensures Fields(line, i, true, acc) == Fields(line, i + |Doubled(f)|, true, acc + f)
    decreases |f|
  {
    if f == [] {
      assert acc + f == acc;
    } else {
      FirstDoubled(line, i, f);
      var first := if f[0] == '"' then 2 else 1;
      QuotedRun(line, i + first, f[1..], acc + [f[0]]);
      assert acc + [f[0]] + f[1..] == acc + f;
    }
  }

  lemma {:induction false} FirstDoubled(line: Text, i: nat, f: Text)
    requires f != [] && Json.At(line, i, Doubled(f))
    ensures i < |line| && line[i] == f[0]
    ensures var first := if f[0] == '"' then 2 else 1;
            && |Doubled(f)| == first + |Doubled(f[1..])| && Json.At(line, i + first, Doubled(f[1..]))
            && (f[0] == '"' ==> i + 1 < |line| && line[i + 1] == '"')
  {
    if f[0] == '"' {
      Json.AtSplit(line, i, ['"', '"'], Doubled(f[1..]));
      Json.AtFirst(line, i, ['"', '"']);
      assert line[i + 1] == ['"', '"'][1];
    } else {
      Json.AtSplit(line, i, [f[0]], Doubled(f[1..]));
      Json.AtFirst(line, i, [f[0]]);
    }
  }

  /** A printed field is read back whole, when a comma or the end of the line follows it. */
  lemma {:induction false} CellRun(line: Text, i: nat, c: Cell)
    requires Printable(c) && Json.At(line, i, PrintCell(c))
    requires var e := i + |PrintCell(c)|; e < |line| ==> line[e] == ','
    ensures Fields(line, i, false, []) == Fields(line, i + |PrintCell(c)|, false, c.text)
  {
    if c.quoted {
      Json.AtFirst(line, i, PrintCell(c));
      Json.AtSplit(line, i, ['"'], Doubled(c.text) + ['"']);
      Json.AtSplit(line, i + 1, Doubled(c.text), ['"']);
      Json.AtFirst(line, i + 1 + |Doubled(c.text)|, ['"']);
      QuotedRun(line, i + 1, c.text, []);
      assert [] + c.text == c.text;
    } else {
      BareRun(line, i, c.text, |c.text|);
      assert c.text[..|c.text|] == c.text;
    }
  }

  lemma {:induction false} LineRun(line: Text, i: nat, cells: seq<Cell>)
    requires cells != [] && AllPrintable(cells)
    requires Json.At(line, i, PrintLine(cells)) && i + |PrintLine(cells)| == |line|
    ensures Fields(line, i, false, []) == Texts(cells)
    decreases |cells|
  {
    var c := cells[0];
    if |cells| == 1 {
      CellRun(line, i, c);
      assert Texts(cells[1..]) == [];
    } else {
      var rest := PrintLine(cells[1..]);
      var e := i + |PrintCell(c)|;
      Json.AtSplit(line, i, PrintCell(c), [','] + rest);
      Json.AtSplit(line, e, [','], rest);
      Json.AtFirst(line, e, [',']);
      CellRun(line, i, c);
      LineRun(line, e + 1, cells[1..]);
    }
  }

  /** Splitting a line printed with any choice of quoting gives back the fields. */
  lemma SplitPrinted(cells: seq<Cell>)
    requires cells != [] && AllPrintable(cells)
    ensures Fields(PrintLine(cells), 0, false, []) == Texts(cells)
  {
    LineRun(PrintLine(cells), 0, cells);
  }

  // ----------------------------------------------------------------- numbers

  const MAX_U32: nat := 0xffff_ffff
  const TWO_64: nat := 0x1_0000_0000_0000_0000

  /** The part of a text before its first NUL. */
  function CString(t: Text): (s: Text)
    ensures |s| <= |t|
  {
    if t == [] || t[0] == '\0' then [] else [t[0]] + CString(t[1..])
  }

  /** The value of the digits from `p` on, after `v`, and where they end. */
  function Accumulated(s: Text, p: nat, v: nat): (nat, nat)
    decreases Json.Left(s, p)
  {
    if p < |s| && Json.IsDigit(s[p]) then Accumulated(s, p + 1, 10 * v + (s[p] as int - '0' as int)) else (v, p)
  }

  /** The value of a number that has been read, negated modulo 2^64 after a minus, if it fits. */
  function Converted(v: nat, negative: bool): (r: Option<nat>)
    ensures r.Some? ==> r.value <= MAX_U32
  {
    var parsed := if negative && v != 0 then TWO_64 - v else v;
    if v >= TWO_64 || parsed > MAX_U32 then None else Some(parsed)
  }

  /** The C library's unsigned conversion: blanks, a sign, digits to the end. */
  function ParseU32(text: Text): (r: Option<nat>)
    ensures r.Some? ==> r.value <= MAX_U32
  {
    var s := CString(text);
    var q := Json.Skip(s, 0);
    var p := if q < |s| && (s[q] == '-' || s[q] == '+') then q + 1 else q;
    var (v, e) := Accumulated(s, p, 0);
    if e == p || e != |s| then None else Converted(v, q < |s| && s[q] == '-')
  }

  lemma {:induction false} CStringWhole(t: Text)
    requires forall i :: 0 <= i < |t| ==> t[i] != '\0'
    ensures CString(t) == t
    decreases |t|
  {
    if t != [] { CStringWhole(t[1..]); }
  }

  /** Reading digits from the front gives the value they have from the back. */
  lemma {:induction false} AccumulatedValue(s: Text, p: nat, m: nat)
    requires p <= m <= |s| && Json.DigitsIn(s, p, |s|) && Json.DigitsIn(s, p, m)
    ensures Accumulated(s, p, 0) == Accumulated(s, m, Json.ValueIn(s, p, m))
    decreases m
  {
    if p < m {
      assert Json.DigitsIn(s, p, m - 1);
      AccumulatedValue(s, p, m - 1);
    }
  }

  /** Reading a printed number behind a prefix that holds no NUL. */
  lemma DigitsRead(prefix: Text, n: nat)
    requires forall i :: 0 <= i < |prefix| ==> prefix[i] != '\0'
    ensures var s := prefix + Json.Digits(n);
            CString(s) == s && Accumulated(s, |prefix|, 0) == (n, |s|)
            && |s| > |prefix| && Json.IsDigit(s[|prefix|])
  {
    var s := prefix + Json.Digits(n);
    Json.DigitsRound(s, |prefix|, n);
    CStringWhole(s);
    AccumulatedValue(s, |prefix|, |s|);
  }

  /** A printed 32-bit number is read back; a larger one is refused. */
  lemma NumberRound(n: nat)
    ensures ParseU32(Json.Digits(n)) == if n <= MAX_U32 then Some(n) else None
  {
    DigitsRead([], n);
    assert [] + Json.Digits(n) == Json.Digits(n);
  }

  /** A minus sign is not refused: the number is negated modulo 2^64, so exactly zero and the numbers from
      2^64 - 2^32 + 1 to 2^64 - 1 are accepted, the latter as 2^32 - 1 down to 1. */
  lemma {:induction false} NegativeAccepted(n: nat)
    ensures ParseU32(['-'] + Json.Digits(n))
            == if n == 0 then Some(0)
               else if TWO_64 - MAX_U32 <= n < TWO_64 then Some(TWO_64 - n)
               else None
  {
    DigitsRead(['-'], n);
    var s := ['-'] + Json.Digits(n);
    assert Json.Skip(s, 0) == 0 && s[0] == '-';
  }

  // --------------------------------------------------------------- decisions

  /** The map's assignment. */
  function Put(d: seq<Decision>, uid: nat, umount: bool): seq<Decision> {
    if d == [] then [Decision(uid, umount)]
    else
      var last := d[|d| - 1];
      if last.uid < uid then d + [Decision(uid, umount)]
      else if last.uid == uid then d[|d| - 1 := Decision(uid, umount)]
      else Put(d[..|d| - 1], uid, umount) + [last]
  }

  /** Assignment changes the value at its key and at no other ... */
  lemma {:induction false} PutGet(d: seq<Decision>, uid: nat, umount: bool, x: nat)
    ensures Get(Put(d, uid, umount), x) == if x == uid then Some(umount) else Get(d, x)
    decreases |d|
  {
    var r := Put(d, uid, umount);
    if d == [] {
      assert r[..0] == [];
    } else if d[|d| - 1].uid < uid {
      assert r[..|r| - 1] == d;
    } else if d[|d| - 1].uid == uid {
      assert r[..|r| - 1] == d[..|d| - 1];
    } else {
      PutGet(d[..|d| - 1], uid, umount, x);
      assert r[..|r| - 1] == Put(d[..|d| - 1], uid, umount);
    }
  }

  /** ... and keeps the order. */
  lemma {:induction false} PutOrdered(d: seq<Decision>, uid: nat, umount: bool)
    requires Ordered(d)
    ensures Ordered(Put(d, uid, umount)) && |Put(d, uid, umount)| <= |d| + 1
    decreases |d|
  {
    if d != [] && d[|d| - 1].uid > uid {
      var rest := d[..|d| - 1];
      PutOrdered(rest, uid, umount);
      PutBelow(rest, uid, umount, d[|d| - 1].uid);
    }
  }

  lemma {:induction false} PutBelow(d: seq<Decision>, uid: nat, umount: bool, top: nat)
    requires uid < top && forall i :: 0 <= i < |d| ==> d[i].uid < top
    ensures forall i :: 0 <= i < |Put(d, uid, umount)| ==> Put(d, uid, umount)[i].uid < top
    decreases |d|
  {
    if d != [] && d[|d| - 1].uid > uid { PutBelow(d[..|d| - 1], uid, umount, top); }
  }

  // -------------------------------------------------------------------- rows

  datatype Row = Row(exclude: nat, uid: nat)

  /** A row has at least four fields; the second and fourth are numbers. */
  function RowOf(line: Text): (r: Option<Row>)
    ensures r.Some? ==> r.value.uid <= MAX_U32
  {
    var f := Fields(line, 0, false, []);
    if |f| < 4 || ParseU32(f[1]).None? || ParseU32(f[3]).None? then None
    else Some(Row(ParseU32(f[1]).value, ParseU32(f[3]).value))
  }

  /** The rows of the lines after the header and before line `n`. */
  function Rows(lines: seq<Text>, n: nat): seq<Row>
    requires n <= |lines|
  {
    if n <= 1 then []
    else if lines[n - 1] == [] || RowOf(lines[n - 1]).None? then Rows(lines, n - 1)
    else Rows(lines, n - 1) + [RowOf(lines[n - 1]).value]
  }

  predicate RowsReadable(lines: seq<Text>, n: nat)
    requires n <= |lines|
  {
    forall i :: 1 <= i < n ==> lines[i] == [] || RowOf(lines[i]).Some?
  }

  /** The decisions merged row by row. */
  function DecisionsOf(rows: seq<Row>): seq<Decision> {
    if rows == [] then []
    else
      Merged(DecisionsOf(rows[..|rows| - 1]), rows[|rows| - 1])
  }

  /** A row's exclude flag joins the decision for its user id. */
  function Merged(d: seq<Decision>, row: Row): seq<Decision> {
    Put(d, row.uid, Get(d, row.uid) == Some(true) || row.exclude != 0)
  }

  predicate HasRow(rows: seq<Row>, uid: nat) { exists i :: 0 <= i < |rows| && rows[i].uid == uid }
  predicate Excluded(rows: seq<Row>, uid: nat) {
    exists i :: 0 <= i < |rows| && rows[i].uid == uid && rows[i].exclude != 0
  }

  /** The decision for a user id is the disjunction of the exclude flags of its rows. */
  lemma {:induction false} DecisionIsDisjunction(rows: seq<Row>, uid: nat)
    ensures Get(DecisionsOf(rows), uid) == if HasRow(rows, uid) then Some(Excluded(rows, uid)) else None
    decreases |rows|
  {
    if rows != [] {
      var rest, last := rows[..|rows| - 1], rows[|rows| - 1];
      DecisionIsDisjunction(rest, uid);
      var d := DecisionsOf(rest);
      PutGet(d, last.uid, Get(d, last.uid) == Some(true) || last.exclude != 0, uid);
      RowsSplit(rest, last, uid);
      assert rows == rest + [last];
    }
  }

  lemma RowsSplit(rest: seq<Row>, last: Row, uid: nat)
    ensures HasRow(rest + [last], uid) <==> HasRow(rest, uid) || last.uid == uid
    ensures Excluded(rest + [last], uid) <==> Excluded(rest, uid) || (last.uid == uid && last.exclude != 0)
    ensures Excluded(rest, uid) ==> HasRow(rest, uid)
  {
    var rows := rest + [last];
    assert rows[|rest|] == last;
    assert forall i :: 0 <= i < |rest| ==> rows[i] == rest[i];
  }

  predicate UidsBounded(rows: seq<Row>) { forall i :: 0 <= i < |rows| ==> rows[i].uid <= MAX_U32 }

  lemma {:induction false} DecisionsFit(rows: seq<Row>)
    requires UidsBounded(rows)
    ensures Ordered(DecisionsOf(rows)) && UidsFit(DecisionsOf(rows)) && |DecisionsOf(rows)| <= |rows|
    decreases |rows|
  {
    if rows != [] {
      var rest, last := rows[..|rows| - 1], rows[|rows| - 1];
      DecisionsFit(rest);
      var d := DecisionsOf(rest);
      var umount := Get(d, last.uid) == Some(true) || last.exclude != 0;
      PutOrdered(d, last.uid, umount);
      PutBelow(d, last.uid, umount, MAX_U32 + 1);
    }
  }

  lemma {:induction false} RowsBounded(lines: seq<Text>, n: nat)
    requires n <= |lines|
    ensures UidsBounded(Rows(lines, n))
  {
    if n > 1 { RowsBounded(lines, n - 1); }
  }

  /** The number of rows before line `n`. */
  function RowCount(lines: seq<Text>, n: nat): nat
    requires n <= |lines|
  {
    if n <= 1 then 0
    else RowCount(lines, n - 1) + if lines[n - 1] == [] || RowOf(lines[n - 1]).None? then 0 else 1
  }

  lemma {:induction false} RowsGrow(lines: seq<Text>, m: nat, n: nat)
    requires m <= n <= |lines|
    ensures RowCount(lines, m) <= RowCount(lines, n)
    decreases n
  {
    if m < n { RowsGrow(lines, m, n - 1); }
  }

  /** The decisions merged line by line. */
  function DecisionsUpTo(lines: seq<Text>, n: nat): seq<Decision>
    requires n <= |lines|
  {
    if n <= 1 then []
    else if lines[n - 1] == [] || RowOf(lines[n - 1]).None? then DecisionsUpTo(lines, n - 1)
    else Merged(DecisionsUpTo(lines, n - 1), RowOf(lines[n - 1]).value)
  }

  lemma {:induction false} DecisionsOfRows(lines: seq<Text>, n: nat)
    requires n <= |lines|
    ensures DecisionsUpTo(lines, n) == DecisionsOf(Rows(lines, n)) && RowCount(lines, n) == |Rows(lines, n)|
  {
    if n > 1 {
      DecisionsOfRows(lines, n - 1);
      if lines[n - 1] != [] && RowOf(lines[n - 1]).Some? {
        var rows := Rows(lines, n);
        assert rows[..|rows| - 1] == Rows(lines, n - 1);
      }
    }
  }

  /** Reads the lines of the file, if it could be opened: succeeds exactly when there is a header, every row
      is readable, and there are not too many; the decisions are then those of the rows. */
  method ParseApatch(file: Option<seq<Text>>) returns (d: seq<Decision>, ok: bool)
    ensures ok <==> file.Some? && file.value != [] && RowsReadable(file.value, |file.value|)
                    && |Rows(file.value, |file.value|)| <= MAX_ENTRIES
    ensures file.Some? && file.value != [] && |Rows(file.value, |file.value|)| <= MAX_ENTRIES ==>
              d == DecisionsOf(Rows(file.value, |file.value|))
  {
    if file.None? || file.value == [] { return [], false; }
    DecisionsOfRows(file.value, |file.value|);
    d, ok := ParseLines(file.value);
  }

  method ParseLines(lines: seq<Text>) returns (d: seq<Decision>, ok: bool)
    requires lines != []
    ensures ok <==> RowsReadable(lines, |lines|) && RowCount(lines, |lines|) <= MAX_ENTRIES
    ensures RowCount(lines, |lines|) <= MAX_ENTRIES ==> d == DecisionsUpTo(lines, |lines|)
  {
    d := [];
    var valid, count, i := true, 0, 1;
    while i < |lines|
      invariant 1 <= i <= |lines| && count == RowCount(lines, i) <= MAX_ENTRIES
      invariant valid == RowsReadable(lines, i) && d == DecisionsUpTo(lines, i)
    {
      valid, count, d := MergeLine(lines, i, valid, count, d);
      i := i + 1;
      if count > MAX_ENTRIES {
        RowsGrow(lines, i, |lines|);
        return d, false;
      }
    }
    return d, valid;
  }

  /** Merges line `i`: blank lines are skipped and unreadable ones noted. */
  method MergeLine(lines: seq<Text>, i: nat, valid: bool, count: nat, d: seq<Decision>)
    returns (valid': bool, count': nat, d': seq<Decision>)
    requires 1 <= i < |lines| && valid == RowsReadable(lines, i)
    requires count == RowCount(lines, i) && d == DecisionsUpTo(lines, i)
    ensures valid' == RowsReadable(lines, i + 1)
    ensures count' == RowCount(lines, i + 1) && d' == DecisionsUpTo(lines, i + 1)
  {
    valid', count', d' := valid, count, d;
    if lines[i] == [] { return; }
    var row := ReadRow(lines[i]);
    if row.None? {
      valid' := false;
      return;
    }
    d', count' := Merged(d, row.value), count + 1;
  }

  method ReadRow(line: Text) returns (r: Option<Row>)
    ensures r == RowOf(line)
  {
    var f := SplitCsv(line);
    if |f| < 4 { return None; }
    var exclude, uid := ParseU32(f[1]), ParseU32(f[3]);
    if exclude.None? || uid.None? { return None; }
    return Some(Row(exclude.value, uid.value));
  }

  // ------------------------------------------------------------ the pipeline

  /** A configuration row as it is written: two numbers among fields quoted as one likes. */
  predicate Writes(cells: seq<Cell>, row: Row) {
    && |cells| >= 4 && AllPrintable(cells) && row.exclude <= MAX_U32 && row.uid <= MAX_U32
    && cells[1].text == Json.Digits(row.exclude) && cells[3].text == Json.Digits(row.uid)
  }

  lemma {:induction false} TextsAt(cells: seq<Cell>, i: nat)
    requires i < |cells|
    ensures |Texts(cells)| == |cells| && Texts(cells)[i] == cells[i].text
    decreases |cells|
  {
    if |cells| > 1 { TextsAt(cells[1..], if i == 0 then 0 else i - 1); }
  }

  lemma WrittenRow(cells: seq<Cell>, row: Row)
    requires Writes(cells, row)
    ensures RowOf(PrintLine(cells)) == Some(row) && PrintLine(cells) != []
  {
    SplitPrinted(cells);
    TextsAt(cells, 1);
    TextsAt(cells, 3);
    NumberRound(row.exclude);
    NumberRound(row.uid);
  }

  /** From configuration text to the kernel's answer: for lines that write `rows`, at most as many as the cache
      holds, the snapshot of the merged decisions is accepted and answers for each user id whether one of its
      rows excludes it, and otherwise no. */
  lemma ConfigToAnswer(lines: seq<Text>, owner: nat, generation: nat, uid: nat, r: Option<bool>)
    requires lines != [] && RowsReadable(lines, |lines|) && |Rows(lines, |lines|)| <= MAX_ENTRIES
    requires IsU32(owner) && IsU32(generation)
    ensures var rows := Rows(lines, |lines|);
            var c := Context(owner, generation, REFRESH_ALL, true, false, DecisionsOf(rows));
            && Fits(c) && Acceptable(Serialize(c), owner)
            && (RightAnswer(CacheOf(Serialize(c), Read32(Serialize(c), 20)), uid, r)
                <==> r == Some(Excluded(rows, uid)))
  {
    var rows := Rows(lines, |lines|);
    var c := Context(owner, generation, REFRESH_ALL, true, false, DecisionsOf(rows));
    RowsBounded(lines, |lines|);
    DecisionsFit(rows);
    CacheAgreement(c, uid, r);
    DecisionIsDisjunction(rows, uid);
  }
}
