/**
 The configuration JSON: the printer, the parser, and what one makes of the other's output.
 Text is a sequence of characters; a byte of the program is a character below 256.
 */
module Json {

  type Text = seq<char>

  /** Numbers are the integers; an object's fields are kept in strictly increasing key order. */
  datatype Value =
    | Null
    | Bool(b: bool)
    | Number(n: int)
    | Str(s: Text)
    | Array(a: seq<Value>)
    | Object(o: seq<Field>)

  datatype Field = Field(key: Text, value: Value)

  // --------------------------------------------------- objects as ordered maps

  predicate Less(a: Text, b: Text) {
    b != [] && (a == [] || a[0] < b[0] || (a[0] == b[0] && Less(a[1..], b[1..])))
  }

  lemma {:induction false} LessTotal(a: Text, b: Text)
    ensures Less(a, b) || a == b || Less(b, a)
    ensures !(Less(a, b) && Less(b, a)) && !Less(a, a)
    decreases |a|
  {
    if a != [] && b != [] {
      LessTotal(a[1..], b[1..]);
      assert a == [a[0]] + a[1..] && b == [b[0]] + b[1..];
    }
    if a != [] { LessTotal(a[1..], a[1..]); }
  }

  lemma {:induction false} LessTrans(a: Text, b: Text, c: Text)
    requires Less(a, b) && Less(b, c)
    ensures Less(a, c)
    decreases |a|
  {
    if a != [] && a[0] == b[0] && b[0] == c[0] { LessTrans(a[1..], b[1..], c[1..]); }
  }

  /** Every key of `o` is above `k`. */
  predicate Above(k: Text, o: seq<Field>) {
    forall i :: 0 <= i < |o| ==> Less(k, o[i].key)
  }

  predicate AllBelow(acc: seq<Field>, o: seq<Field>) { forall i :: 0 <= i < |acc| ==> Above(acc[i].key, o) }

  predicate Sorted(o: seq<Field>) {
    o == [] || (Above(o[0].key, o[1..]) && Sorted(o[1..]))
  }

  /** The map's assignment: replaces the value of a present key, inserts an absent one in order. */
  function Insert(o: seq<Field>, k: Text, v: Value): seq<Field> {
    if o == [] then [Field(k, v)]
    else if k == o[0].key then [Field(k, v)] + o[1..]
    else if Less(k, o[0].key) then [Field(k, v)] + o
    else [o[0]] + Insert(o[1..], k, v)
  }

  lemma {:induction false} InsertSorted(o: seq<Field>, k: Text, v: Value)
    requires Sorted(o)
    ensures Sorted(Insert(o, k, v))
    ensures forall f :: f in Insert(o, k, v) ==> f == Field(k, v) || f in o
    decreases |o|
  {
    if o == [] {
      assert [Field(k, v)][1..] == [];
    } else {
      var rest := Insert(o[1..], k, v);
      LessTotal(k, o[0].key);
      InsertSorted(o[1..], k, v);
      if k == o[0].key {
        assert ([Field(k, v)] + o[1..])[1..] == o[1..];
      } else if Less(k, o[0].key) {
        assert ([Field(k, v)] + o)[1..] == o;
        forall i | 0 <= i < |o| ensures Less(k, o[i].key) {
          if i > 0 {
            assert o[i] == o[1..][i - 1];
            LessTrans(k, o[0].key, o[i].key);
          }
        }
      } else {
        assert ([o[0]] + rest)[1..] == rest;
        forall i | 0 <= i < |rest| ensures Less(o[0].key, rest[i].key) {
          assert rest[i] in rest;
          if rest[i] != Field(k, v) {
            var j :| 0 <= j < |o[1..]| && o[1..][j] == rest[i];
          }
        }
      }
    }
  }

  /** Assigning a key above all present ones appends. */
  lemma {:induction false} InsertLast(o: seq<Field>, k: Text, v: Value)
    requires forall i :: 0 <= i < |o| ==> Less(o[i].key, k)
    ensures Insert(o, k, v) == o + [Field(k, v)]
    decreases |o|
  {
    if o != [] {
      LessTotal(o[0].key, k);
      LessTotal(k, k);
      assert forall i :: 0 <= i < |o[1..]| ==> o[1..][i] == o[i + 1];
      InsertLast(o[1..], k, v);
    }
  }

  /** What the map type guarantees of every value: object keys are distinct and in order. */
  predicate WellFormed(v: Value) {
    match v
    case Array(a) => AllWellFormed(a)
    case Object(o) => Sorted(o) && FieldsWellFormed(o)
    case _ => true
  }

  predicate AllWellFormed(a: seq<Value>) { a == [] || (WellFormed(a[0]) && AllWellFormed(a[1..])) }

  predicate FieldsWellFormed(o: seq<Field>) { o == [] || (WellFormed(o[0].value) && FieldsWellFormed(o[1..])) }

  // ----------------------------------------------------------------- printing

  function HexDigit(d: nat): char
    requires d < 16
  {
    if d < 10 then ('0' as int + d) as char else ('a' as int + (d - 10)) as char
  }

  function EscapeChar(c: char): Text {
    if c == '"' then ['\\', '"']
    else if c == '\\' then ['\\', '\\']
    else if c == '\U{08}' then ['\\', 'b']
    else if c == '\U{0C}' then ['\\', 'f']
    else if c == '\n' then ['\\', 'n']
    else if c == '\r' then ['\\', 'r']
    else if c == '\t' then ['\\', 't']
    else if c < ' ' then ['\\', 'u', '0', '0', HexDigit(c as int / 16), HexDigit(c as int % 16)]
    else [c]
  }

  function EscapeBody(t: Text): Text {
    if t == [] then [] else EscapeChar(t[0]) + EscapeBody(t[1..])
  }

  function EscapeString(t: Text): Text { ['"'] + (EscapeBody(t) + ['"']) }

  function Digit(d: int): char
    requires 0 <= d < 10
  {
    ('0' as int + d) as char
  }

  function Digits(n: nat): Text {
    if n < 10 then [Digit(n)] else Digits(n / 10) + [Digit(n % 10)]
  }

  function Decimal(n: int): Text { if n < 0 then ['-'] + Digits(-n) else Digits(n) }

  function Spaces(k: int): Text { seq(if k > 0 then k else 0, _ => ' ') }

  /** A non-negative `indent` puts each element on its own line; otherwise only `lead` is printed before it. */
  function Gap(indent: int, level: nat, lead: Text): Text {
    if indent >= 0 then ['\n'] + Spaces(level * indent) else lead
  }

  function Colon(indent: int): Text { if indent >= 0 then [' '] else [] }

  function Dump(v: Value, indent: int, level: nat): Text {
    match v
    case Null => "null"
    case Bool(b) => if b then "true" else "false"
    case Number(n) => Decimal(n)
    case Str(s) => EscapeString(s)
    case Array(a) => if a == [] then "[]" else ['['] + Elements([], a, indent, level)
    case Object(o) => if o == [] then "{}" else ['{'] + Members([], o, indent, level)
  }

  /** The elements after `lead`, separated by commas, to the closing bracket. */
  function Elements(lead: Text, a: seq<Value>, indent: int, level: nat): Text
    requires a != []
    decreases a
  {
    Gap(indent, level + 1, lead) + (Dump(a[0], indent, level + 1) + AfterElement(a, indent, level))
  }

  function AfterElement(a: seq<Value>, indent: int, level: nat): Text
    requires a != []
    decreases a, 0
  {
    if |a| == 1 then Gap(indent, level, []) + [']'] else [','] + Elements([' '], a[1..], indent, level)
  }

  function Members(lead: Text, o: seq<Field>, indent: int, level: nat): Text
    requires o != []
    decreases o, 2
  {
    Gap(indent, level + 1, lead) + (EscapeString(o[0].key) + AfterKey(o, indent, level))
  }

  function AfterKey(o: seq<Field>, indent: int, level: nat): Text
    requires o != []
    decreases o, 1
  {
    [':'] + (Colon(indent) + (Dump(o[0].value, indent, level + 1) + AfterMember(o, indent, level)))
  }

  function AfterMember(o: seq<Field>, indent: int, level: nat): Text
    requires o != []
    decreases o, 0
  {
    if |o| == 1 then Gap(indent, level, []) + ['}'] else [','] + Members([' '], o[1..], indent, level)
  }

  // ------------------------------------------------------------------ parsing

  /** How a parse ends: with a value, in a loop that makes no progress, or at a number that is not an integer. */
  datatype Outcome = Ok(v: Value, pos: nat) | Hang | NotInteger

  predicate IsSpace(c: char) { c == ' ' || '\t' <= c <= '\r' }
  predicate IsDigit(c: char) { '0' <= c <= '9' }
  predicate IsNumeric(c: char) { IsDigit(c) || c == '-' || c == '.' }

  function Left(s: Text, p: nat): nat { if p < |s| then |s| - p else 0 }

  function Skip(s: Text, p: nat): (q: nat)
    ensures q >= p && (q < |s| ==> !IsSpace(s[q])) && (p <= |s| ==> q <= |s|)
    decreases Left(s, p)
  {
    if p < |s| && IsSpace(s[p]) then Skip(s, p + 1) else p
  }

  function SkipChar(s: Text, p: nat, c: char): (q: nat)
    ensures p <= q <= p + 1
  {
    if p < |s| && s[p] == c then p + 1 else p
  }

  function Unescape(c: char): char { if c == 'n' then '\n' else if c == 't' then '\t' else c }

  /** The string that starts after a quote: its text, and where reading stopped. */
  function ReadString(s: Text, p: nat, acc: Text): (r: (Text, nat))
    ensures r.1 >= p
    decreases Left(s, p)
  {
    if p >= |s| then (acc, p)
    else if s[p] == '"' then (acc, p + 1)
    else if s[p] == '\\' then
      if p + 1 >= |s| then (acc, p + 1) else ReadString(s, p + 2, acc + [Unescape(s[p + 1])])
    else ReadString(s, p + 1, acc + [s[p]])
  }

  function NumberEnd(s: Text, p: nat): (q: nat)
    ensures q >= p && (p <= |s| ==> q <= |s|)
    decreases Left(s, p)
  {
    if p < |s| && IsNumeric(s[p]) then NumberEnd(s, p + 1) else p
  }

  predicate DigitsIn(s: Text, p: nat, e: nat)
    requires p <= e <= |s|
  {
    forall i :: p <= i < e ==> IsDigit(s[i])
  }

  function ValueIn(s: Text, p: nat, e: nat): nat
    requires p <= e <= |s| && DigitsIn(s, p, e)
    decreases e
  {
    if p == e then 0 else 10 * ValueIn(s, p, e - 1) + (s[e - 1] as int - '0' as int)
  }

  /** The number whose text is `s` from `p` to `e`. */
  function NumberOutcome(s: Text, p: nat, e: nat): (r: Outcome)
    requires p <= e <= |s|
    ensures r.Ok? ==> r.pos == e
  {
    if p < e && DigitsIn(s, p, e) then Ok(Number(ValueIn(s, p, e)), e)
    else if p + 1 < e && s[p] == '-' && DigitsIn(s, p + 1, e) then Ok(Number(0 - ValueIn(s, p + 1, e)), e)
    else NotInteger
  }

  function ReadValue(s: Text, p: nat): (r: Outcome)
    ensures r.Ok? ==> r.pos >= p
    decreases Left(s, p), 0
  {
    var q := Skip(s, p);
    if q >= |s| then Ok(Null, q)
    else if s[q] == 'n' then Ok(Null, q + 4)
    else if s[q] == 't' then Ok(Bool(true), q + 4)
    else if s[q] == 'f' then Ok(Bool(false), q + 5)
    else if s[q] == '"' then var t := ReadString(s, q + 1, []); Ok(Str(t.0), t.1)
    else if s[q] == '[' then ReadArray(s, q + 1, [])
    else if s[q] == '{' then ReadObject(s, q + 1, [])
    else if s[q] == '-' || IsDigit(s[q]) then NumberOutcome(s, q, NumberEnd(s, q))
    else Ok(Null, q)
  }

  /** The array loop, from position `p` with `acc` read so far. An iteration that ends where it began
      would repeat for ever. */
  function ReadArray(s: Text, p: nat, acc: seq<Value>): (r: Outcome)
    ensures r.Ok? ==> r.pos >= p
    decreases Left(s, p), 1
  {
    var q := Skip(s, p);
    if q >= |s| then Ok(Array(acc), q)
    else if s[q] == ']' then Ok(Array(acc), q + 1)
    else
      match ReadValue(s, q)
      case Ok(v, r) =>
        var t := SkipChar(s, Skip(s, r), ',');
        if t == p then Hang else ReadArray(s, t, acc + [v])
      case other => other
  }

  /** How the reading of a member ends. */
  datatype Entry = Entry(key: Text, value: Value, pos: nat) | Stopped(end: Outcome)

  /** Behind the key that starts at `q` and its colon. */
  function ValueStart(s: Text, q: nat): (e: nat)
    ensures e > q
  {
    SkipChar(s, Skip(s, ReadString(s, q + 1, []).1), ':')
  }

  /** A key, a colon, a value and a comma; of the punctuation, what is missing is not missed. */
  function ReadMember(s: Text, q: nat): (r: Entry)
    requires q < |s|
    ensures r.Entry? ==> r.pos > q
    ensures r.Stopped? ==> !r.end.Ok?
    decreases Left(s, q), 0
  {
    match ReadValue(s, ValueStart(s, q))
    case Ok(v, r) => Entry(ReadString(s, q + 1, []).0, v, SkipChar(s, Skip(s, r), ','))
    case other => Stopped(other)
  }

  function ReadObject(s: Text, p: nat, acc: seq<Field>): (r: Outcome)
    ensures r.Ok? ==> r.pos >= p
    decreases Left(s, p), 1
  {
    var q := Skip(s, p);
    if q >= |s| then Ok(Object(acc), q)
    else if s[q] == '}' then Ok(Object(acc), q + 1)
    else
      match ReadMember(s, q)
      case Entry(k, v, t) => ReadObject(s, t, Insert(acc, k, v))
      case Stopped(end) => end
  }

  // --------------------------------------------- what survives a printed text

  /** Characters that printing and parsing bring back. */
  predicate PlainChar(c: char) { c >= ' ' || c == '\n' || c == '\t' }

  predicate PlainText(t: Text) { forall i :: 0 <= i < |t| ==> PlainChar(t[i]) }

  /** What the parser makes of a printed character: it drops the backslash of an escape it does not know. */
  function CleanChar(c: char): Text {
    if PlainChar(c) then [c] else EscapeChar(c)[1..]
  }

  function CleanText(t: Text): Text {
    if t == [] then [] else CleanChar(t[0]) + CleanText(t[1..])
  }

  /** What parsing makes of a printed value. */
  function Clean(v: Value): Value {
    match v
    case Str(s) => Str(CleanText(s))
    case Array(a) => Array(CleanAll(a))
    case Object(o) => Object(CleanFields([], o))
    case _ => v
  }

  function CleanAll(a: seq<Value>): seq<Value> {
    if a == [] then [] else [Clean(a[0])] + CleanAll(a[1..])
  }

  function CleanFields(acc: seq<Field>, o: seq<Field>): seq<Field>
    decreases o
  {
    if o == [] then acc else CleanFields(Insert(acc, CleanText(o[0].key), Clean(o[0].value)), o[1..])
  }

  /** Every string and key uses only plain characters. */
  predicate Plain(v: Value) {
    match v
    case Str(s) => PlainText(s)
    case Array(a) => AllPlain(a)
    case Object(o) => FieldsPlain(o)
    case _ => true
  }

  predicate AllPlain(a: seq<Value>) { a == [] || (Plain(a[0]) && AllPlain(a[1..])) }

  predicate FieldsPlain(o: seq<Field>) {
    o == [] || (PlainText(o[0].key) && Plain(o[0].value) && FieldsPlain(o[1..]))
  }

  lemma {:induction false} CleanTextPlain(t: Text)
    ensures PlainText(CleanText(t))
    ensures PlainText(t) ==> CleanText(t) == t
    decreases |t|
  {
    if t != [] {
      CleanTextPlain(t[1..]);
      assert PlainText(CleanChar(t[0]));
      if PlainText(t) {
        assert forall i :: 0 <= i < |t[1..]| ==> t[1..][i] == t[i + 1];
        assert PlainChar(t[0]);
        assert t == [t[0]] + t[1..];
      }
    }
  }

  lemma {:induction false} InsertPlain(o: seq<Field>, k: Text, v: Value)
    requires FieldsPlain(o) && PlainText(k) && Plain(v)
    ensures FieldsPlain(Insert(o, k, v))
    decreases |o|
  {
    if o == [] {
      assert [Field(k, v)][1..] == [];
    } else {
      InsertPlain(o[1..], k, v);
      assert ([Field(k, v)] + o[1..])[1..] == o[1..];
      assert ([Field(k, v)] + o)[1..] == o;
      assert ([o[0]] + Insert(o[1..], k, v))[1..] == Insert(o[1..], k, v);
    }
  }

  /** Cleaning leaves only plain characters ... */
  lemma {:induction false} CleanIsPlain(v: Value)
    ensures Plain(Clean(v))
    decreases v
  {
    match v
    case Str(s) => CleanTextPlain(s);
    case Array(a) => CleanAllIsPlain(a);
    case Object(o) => CleanFieldsIsPlain([], o);
    case _ =>
  }

  lemma {:induction false} CleanAllIsPlain(a: seq<Value>)
    ensures AllPlain(CleanAll(a))
    decreases a
  {
    if a != [] {
      CleanIsPlain(a[0]);
      CleanAllIsPlain(a[1..]);
      assert ([Clean(a[0])] + CleanAll(a[1..]))[1..] == CleanAll(a[1..]);
    }
  }

  lemma {:induction false} CleanFieldsIsPlain(acc: seq<Field>, o: seq<Field>)
    requires FieldsPlain(acc)
    ensures FieldsPlain(CleanFields(acc, o))
    decreases o
  {
    if o != [] {
      CleanTextPlain(o[0].key);
      CleanIsPlain(o[0].value);
      InsertPlain(acc, CleanText(o[0].key), Clean(o[0].value));
      CleanFieldsIsPlain(Insert(acc, CleanText(o[0].key), Clean(o[0].value)), o[1..]);
    }
  }

  /** ... and changes nothing of a value that has no others. */
  lemma {:induction false} CleanKeepsPlain(v: Value)
    requires WellFormed(v) && Plain(v)
    ensures Clean(v) == v
    decreases v
  {
    match v
    case Str(s) => CleanTextPlain(s);
    case Array(a) => CleanAllKeepsPlain(a);
    case Object(o) =>
      CleanFieldsKeepsPlain([], o);
      assert [] + o == o;
    case _ =>
  }

  lemma {:induction false} CleanAllKeepsPlain(a: seq<Value>)
    requires AllWellFormed(a) && AllPlain(a)
    ensures CleanAll(a) == a
    decreases a
  {
    if a != [] {
      CleanKeepsPlain(a[0]);
      CleanAllKeepsPlain(a[1..]);
    }
  }

  lemma {:induction false} CleanFieldsKeepsPlain(acc: seq<Field>, o: seq<Field>)
    requires FieldsWellFormed(o) && Sorted(o) && FieldsPlain(o)
    requires AllBelow(acc, o)
    ensures CleanFields(acc, o) == acc + o
    decreases o, 1
  {
    if o != [] {
      var f := o[0];
      BelowRest(acc, o);
      FirstFieldKept(acc, o);
      CleanFieldsKeepsPlain(acc + [f], o[1..]);
      assert acc + [f] + o[1..] == acc + o;
    }
  }

  lemma {:induction false} FirstFieldKept(acc: seq<Field>, o: seq<Field>)
    requires o != [] && WellFormed(o[0].value) && PlainText(o[0].key) && Plain(o[0].value)
    requires forall i :: 0 <= i < |acc| ==> Less(acc[i].key, o[0].key)
    ensures CleanFields(acc, o) == CleanFields(acc + [o[0]], o[1..])
    decreases o, 0
  {
    CleanTextPlain(o[0].key);
    CleanKeepsPlain(o[0].value);
    InsertLast(acc, o[0].key, o[0].value);
  }

  /** Fields below all of `o` and the first of `o` are below the rest of `o`. */
  lemma BelowRest(acc: seq<Field>, o: seq<Field>)
    requires o != [] && Above(o[0].key, o[1..]) && AllBelow(acc, o)
    ensures AllBelow(acc + [o[0]], o[1..])
    ensures forall i :: 0 <= i < |acc| ==> Less(acc[i].key, o[0].key)
  {
    forall i | 0 <= i < |acc| ensures Above(acc[i].key, o[1..]) && Less(acc[i].key, o[0].key) {
      assert forall j :: 0 <= j < |o[1..]| ==> o[1..][j] == o[j + 1];
    }
  }

  // --------------------------------------------------------------- round trip

  /** `t` stands in `s` at `p`. */
  predicate At(s: Text, p: nat, t: Text) { p + |t| <= |s| && forall i :: 0 <= i < |t| ==> s[p + i] == t[i] }

  lemma AtSplit(s: Text, p: nat, a: Text, b: Text)
    requires At(s, p, a + b)
    ensures At(s, p, a) && At(s, p + |a|, b)
  {
    assert forall i :: 0 <= i < |a| ==> a[i] == (a + b)[i];
    assert forall i :: 0 <= i < |b| ==> b[i] == (a + b)[|a| + i];
  }

  lemma AtFirst(s: Text, p: nat, t: Text)
    requires At(s, p, t) && t != []
    ensures p < |s| && s[p] == t[0]
  {
    assert s[p + 0] == t[0];
  }

  /** All of `t` is skipped. */
  predicate Blank(t: Text) { t == [] || (IsSpace(t[0]) && Blank(t[1..])) }

  lemma {:induction false} SkipBlank(s: Text, p: nat, t: Text)
    requires At(s, p, t) && Blank(t) && p + |t| < |s| && !IsSpace(s[p + |t|])
    ensures Skip(s, p) == p + |t|
    decreases |t|
  {
    if t != [] {
      AtFirst(s, p, t);
      assert t == [t[0]] + t[1..];
      AtSplit(s, p, [t[0]], t[1..]);
      SkipBlank(s, p + 1, t[1..]);
    }
  }

  lemma {:induction false} SpacesBlank(k: int)
    ensures Blank(Spaces(k))
    decreases k
  {
    if k > 0 {
      SpacesBlank(k - 1);
      assert Spaces(k)[1..] == Spaces(k - 1);
    }
  }

  lemma LayoutBlank(indent: int, level: nat, lead: Text)
    requires Blank(lead)
    ensures Blank(Gap(indent, level, lead)) && Blank(Colon(indent)) && Blank([' ']) && Blank([])
  {
    var k := level * indent;
    SpacesBlank(k);
    assert (['\n'] + Spaces(k))[1..] == Spaces(k);
    assert [' '][1..] == [];
  }

  lemma {:induction false} DigitsRound(s: Text, p: nat, n: nat)
    requires At(s, p, Digits(n))
    ensures var e := p + |Digits(n)|; p < e && DigitsIn(s, p, e) && ValueIn(s, p, e) == n
    decreases n
  {
    if n >= 10 {
      AtSplit(s, p, Digits(n / 10), [Digit(n % 10)]);
      AtFirst(s, p + |Digits(n / 10)|, [Digit(n % 10)]);
      DigitsRound(s, p, n / 10);
    } else {
      AtFirst(s, p, [Digit(n)]);
      assert ValueIn(s, p, p) == 0;
    }
  }

  lemma {:induction false} DigitsNumeric(n: nat)
    ensures Digits(n) != [] && IsDigit(Digits(n)[0]) && forall i :: 0 <= i < |Digits(n)| ==> IsNumeric(Digits(n)[i])
  {
    if n >= 10 { DigitsNumeric(n / 10); }
  }

  lemma {:induction false} DecimalStarts(n: int)
    ensures var t := Decimal(n);
            t != [] && (t[0] == '-' || IsDigit(t[0])) && forall i :: 0 <= i < |t| ==> IsNumeric(t[i])
  {
    DigitsNumeric(if n < 0 then -n else n);
  }

  lemma {:induction false} DecimalRound(s: Text, p: nat, n: int)
    requires At(s, p, Decimal(n))
    ensures NumberOutcome(s, p, p + |Decimal(n)|) == Ok(Number(n), p + |Decimal(n)|)
  {
    if n < 0 {
      AtSplit(s, p, ['-'], Digits(-n));
      AtFirst(s, p, ['-']);
      DigitsRound(s, p + 1, -n);
    } else {
      DigitsRound(s, p, n);
    }
  }

  lemma {:induction false} NumberEndAt(s: Text, p: nat, t: Text)
    requires At(s, p, t) && (forall i :: 0 <= i < |t| ==> IsNumeric(t[i]))
    requires p + |t| < |s| ==> !IsNumeric(s[p + |t|])
    ensures NumberEnd(s, p) == p + |t|
    decreases |t|
  {
    if t != [] {
      AtFirst(s, p, t);
      assert t == [t[0]] + t[1..];
      AtSplit(s, p, [t[0]], t[1..]);
      NumberEndAt(s, p + 1, t[1..]);
    }
  }

  /** One printed character, read back onto `acc`. */
  lemma {:induction false} ReadChar(s: Text, p: nat, c: char, acc: Text)
    requires At(s, p, EscapeChar(c))
    ensures ReadString(s, p, acc) == ReadString(s, p + |EscapeChar(c)|, acc + CleanChar(c))
  {
    var e := EscapeChar(c);
    assert s[p + 0] == e[0];
    if |e| == 6 {
      ReadControl(s, p, e, acc);
    } else if |e| == 2 {
      assert s[p + 1] == e[1];
      assert CleanChar(c) == [Unescape(e[1])];
    }
  }

  lemma {:induction false} ReadControl(s: Text, p: nat, e: Text, acc: Text)
    requires |e| == 6 && p + 6 <= |s| && (forall i :: 0 <= i < 6 ==> s[p + i] == e[i])
    requires e[0] == '\\' && e[1] == 'u' && forall i :: 1 <= i < 6 ==> e[i] != '"' && e[i] != '\\'
    ensures ReadString(s, p, acc) == ReadString(s, p + 6, acc + e[1..])
  {
    assert s[p] == e[0] && s[p + 1] == e[1] && s[p + 2] == e[2] && s[p + 3] == e[3];
    assert s[p + 4] == e[4] && s[p + 5] == e[5];
    var a2 := acc + [e[1]];
    var a3 := a2 + [e[2]];
    var a4 := a3 + [e[3]];
    var a5 := a4 + [e[4]];
    assert ReadString(s, p, acc) == ReadString(s, p + 2, a2);
    assert ReadString(s, p + 2, a2) == ReadString(s, p + 3, a3);
    assert ReadString(s, p + 3, a3) == ReadString(s, p + 4, a4);
    assert ReadString(s, p + 4, a4) == ReadString(s, p + 5, a5);
    assert a5 + [e[5]] == acc + e[1..];
  }

  lemma {:induction false} FirstEscaped(s: Text, p: nat, t: Text)
    requires t != [] && At(s, p, EscapeBody(t) + ['"'])
    ensures At(s, p, EscapeChar(t[0])) && At(s, p + |EscapeChar(t[0])|, EscapeBody(t[1..]) + ['"'])
    ensures |EscapeBody(t)| == |EscapeChar(t[0])| + |EscapeBody(t[1..])|
  {
    var e, rest := EscapeChar(t[0]), EscapeBody(t[1..]) + ['"'];
    Regrouped(e, EscapeBody(t[1..]), ['"']);
    AtSplit(s, p, e, rest);
  }

  /** `acc` followed by what parsing makes of `t`. */
  function CleanOnto(acc: Text, t: Text): Text
    decreases |t|
  {
    if t == [] then acc else CleanOnto(acc + CleanChar(t[0]), t[1..])
  }

  lemma {:induction false} CleanOntoAppends(acc: Text, t: Text)
    ensures CleanOnto(acc, t) == acc + CleanText(t)
    decreases |t|
  {
    if t != [] {
      CleanOntoAppends(acc + CleanChar(t[0]), t[1..]);
      Regrouped(acc, CleanChar(t[0]), CleanText(t[1..]));
    }
  }

  lemma {:induction false} StringRound(s: Text, p: nat, t: Text, acc: Text)
    requires At(s, p, EscapeBody(t) + ['"'])
    ensures ReadString(s, p, acc) == (CleanOnto(acc, t), p + |EscapeBody(t)| + 1)
    decreases |t|
  {
    if t == [] {
      EmptyBody(s, p, t);
    } else {
      FirstEscaped(s, p, t);
      ReadChar(s, p, t[0], acc);
      StringRound(s, p + |EscapeChar(t[0])|, t[1..], acc + CleanChar(t[0]));
    }
  }

  lemma {:induction false} EmptyBody(s: Text, p: nat, t: Text)
    requires t == [] && At(s, p, EscapeBody(t) + ['"'])
    ensures p < |s| && s[p] == '"' && |EscapeBody(t)| == 0
  {
    assert EscapeBody(t) + ['"'] == ['"'];
    AtFirst(s, p, ['"']);
  }

  /** A quoted string as the parser meets it. */
  lemma {:induction false} QuotedRound(s: Text, p: nat, t: Text)
    requires At(s, p, EscapeString(t))
    ensures p < |s| && s[p] == '"' && ReadString(s, p + 1, []) == (CleanText(t), p + |EscapeString(t)|)
  {
    AtFirst(s, p, EscapeString(t));
    AtSplit(s, p, ['"'], EscapeBody(t) + ['"']);
    StringRound(s, p + 1, t, []);
    CleanOntoAppends([], t);
    assert [] + CleanText(t) == CleanText(t);
  }

  /** Printed text starts with a character that is neither space nor a closing bracket. */
  lemma {:induction false} DumpStarts(v: Value, indent: int, level: nat)
    ensures var d := Dump(v, indent, level); d != [] && !IsSpace(d[0]) && d[0] != ']' && d[0] != '}'
  {
    if v.Number? { DecimalStarts(v.n); }
  }

  /** Reading a value skips what blanks come first. */
  lemma {:induction false} ReadSkips(s: Text, p: nat, q: nat)
    requires Skip(s, p) == q && q < |s| && !IsSpace(s[q])
    ensures ReadValue(s, p) == ReadValue(s, q)
  {
    assert Skip(s, q) == q;
  }

  lemma {:induction false} NumberRound(s: Text, p: nat, n: int)
    requires var d := Decimal(n); At(s, p, d) && (p + |d| < |s| ==> !IsNumeric(s[p + |d|]))
    ensures ReadValue(s, p) == Ok(Number(n), p + |Decimal(n)|)
  {
    var d := Decimal(n);
    DecimalStarts(n);
    AtFirst(s, p, d);
    NumberEndAt(s, p, d);
    DecimalRound(s, p, n);
  }

  /** A value printed anywhere in a text is read back, cleaned, and exactly its text is consumed. */
  lemma {:induction false} ValueRound(s: Text, p: nat, v: Value, indent: int, level: nat)
    requires At(s, p, Dump(v, indent, level))
    requires var end := p + |Dump(v, indent, level)|; end < |s| ==> !IsNumeric(s[end])
    ensures ReadValue(s, p) == Ok(Clean(v), p + |Dump(v, indent, level)|)
    decreases v
  {
    match v
    case Number(n) => NumberRound(s, p, n);
    case Str(t) => StrRound(s, p, t);
    case Array(a) => ArrayRound(s, p, a, indent, level);
    case Object(o) => ObjectRound(s, p, o, indent, level);
    case Bool(b) => LiteralRound(s, p, v, if b then "true" else "false");
    case Null => LiteralRound(s, p, v, "null");
  }

  lemma {:induction false} LiteralRound(s: Text, p: nat, v: Value, t: Text)
    requires At(s, p, t)
    requires (v == Null && t == "null") || (v == Bool(true) && t == "true") || (v == Bool(false) && t == "false")
    ensures ReadValue(s, p) == Ok(v, p + |t|)
  {
    AtFirst(s, p, t);
  }

  lemma {:induction false} StrRound(s: Text, p: nat, t: Text)
    requires At(s, p, EscapeString(t))
    ensures ReadValue(s, p) == Ok(Str(CleanText(t)), p + |EscapeString(t)|)
  {
    QuotedRound(s, p, t);
  }

  lemma {:induction false} ArrayRound(s: Text, p: nat, a: seq<Value>, indent: int, level: nat)
    requires At(s, p, Dump(Array(a), indent, level))
    ensures ReadValue(s, p) == Ok(Array(CleanAll(a)), p + |Dump(Array(a), indent, level)|)
    decreases a, 1
  {
    if a == [] {
      EmptyArrayRound(s, p);
    } else {
      FilledArrayRound(s, p, a, indent, level);
    }
  }

  lemma {:induction false} EmptyArrayRound(s: Text, p: nat)
    requires At(s, p, "[]")
    ensures ReadValue(s, p) == Ok(Array([]), p + 2)
  {
    AtFirst(s, p, "[]");
    assert s[p + 1] == "[]"[1];
    assert ReadArray(s, p + 1, []) == Ok(Array([]), p + 2);
  }

  lemma {:induction false} FilledArrayRound(s: Text, p: nat, a: seq<Value>, indent: int, level: nat)
    requires a != [] && At(s, p, ['['] + Elements([], a, indent, level))
    ensures ReadValue(s, p) == Ok(Array(CleanAll(a)), p + 1 + |Elements([], a, indent, level)|)
    decreases a, 0, 4
  {
    AtSplit(s, p, ['['], Elements([], a, indent, level));
    AtFirst(s, p, ['[']);
    AllElementsRound(s, p + 1, a, indent, level);
  }

  lemma {:induction false} AllElementsRound(s: Text, p: nat, a: seq<Value>, indent: int, level: nat)
    requires a != [] && At(s, p, Elements([], a, indent, level))
    ensures ReadArray(s, p, []) == Ok(Array(CleanAll(a)), p + |Elements([], a, indent, level)|)
    decreases a, 0, 3
  {
    ElementsRound(s, p, [], a, indent, level, []);
    assert [] + CleanAll(a) == CleanAll(a);
  }

  /** Blanks, then a printed value, then what follows it. */
  lemma {:induction false} Located(s: Text, p: nat, blank: Text, d: Text, after: Text)
    requires At(s, p, blank + (d + after)) && Blank(blank) && d != [] && !IsSpace(d[0]) && after != []
    ensures var q := p + |blank|;
            && Skip(s, p) == q && At(s, q, d) && q < |s| && s[q] == d[0]
            && At(s, q + |d|, after) && q + |d| < |s| && s[q + |d|] == after[0]
  {
    var q := p + |blank|;
    AtSplit(s, p, blank, d + after);
    AtSplit(s, q, d, after);
    AtFirst(s, q, d);
    AtFirst(s, q + |d|, after);
    SkipBlank(s, p, blank);
  }

  lemma {:induction false} AfterElementStarts(a: seq<Value>, indent: int, level: nat)
    requires a != []
    ensures var t := AfterElement(a, indent, level); t != [] && !IsNumeric(t[0])
  {
  }

  lemma {:induction false} AfterMemberStarts(o: seq<Field>, indent: int, level: nat)
    requires o != []
    ensures var t := AfterMember(o, indent, level); t != [] && !IsNumeric(t[0])
  {
  }

  /** The first element stands from `q` to `r`. */
  lemma {:induction false} ElementsLocated(s: Text, p: nat, lead: Text, a: seq<Value>, indent: int, level: nat)
    returns (q: nat, r: nat)
    requires a != [] && Blank(lead) && At(s, p, Elements(lead, a, indent, level))
    ensures var d := Dump(a[0], indent, level + 1);
            Skip(s, p) == q < r < |s| && s[q] != ']' && At(s, q, d) && r == q + |d| && !IsNumeric(s[r])
    ensures At(s, r, AfterElement(a, indent, level))
    ensures p + |Elements(lead, a, indent, level)| == r + |AfterElement(a, indent, level)|
  {
    var d, after := Dump(a[0], indent, level + 1), AfterElement(a, indent, level);
    var gap := Gap(indent, level + 1, lead);
    q, r := p + |gap|, p + |gap| + |d|;
    LayoutBlank(indent, level + 1, lead);
    DumpStarts(a[0], indent, level + 1);
    AfterElementStarts(a, indent, level);
    Located(s, p, gap, d, after);
  }

  lemma {:induction false} ElementsRound(s: Text, p: nat, lead: Text, a: seq<Value>, indent: int, level: nat,
                                         acc: seq<Value>)
    requires a != [] && Blank(lead) && At(s, p, Elements(lead, a, indent, level))
    ensures ReadArray(s, p, acc) == Ok(Array(acc + CleanAll(a)), p + |Elements(lead, a, indent, level)|)
    decreases a, 0, 2
  {
    var r := FirstElement(s, p, lead, a, indent, level, acc);
    AfterElementRound(s, r, a, indent, level, acc + [Clean(a[0])]);
    CleanAllStep(acc, a);
  }

  /** The first turn of the array loop reads the first element, up to `r`. */
  lemma {:induction false} FirstElement(s: Text, p: nat, lead: Text, a: seq<Value>, indent: int, level: nat,
                                        acc: seq<Value>)
    returns (r: nat)
    requires a != [] && Blank(lead) && At(s, p, Elements(lead, a, indent, level))
    ensures ReadArray(s, p, acc) == ReadArray(s, SkipChar(s, Skip(s, r), ','), acc + [Clean(a[0])])
    ensures At(s, r, AfterElement(a, indent, level))
    ensures p + |Elements(lead, a, indent, level)| == r + |AfterElement(a, indent, level)|
    decreases a, 0, 1
  {
    var q;
    q, r := ElementsLocated(s, p, lead, a, indent, level);
    ValueRound(s, q, a[0], indent, level + 1);
    ElementRound(s, p, q, r, Clean(a[0]), acc);
  }

  lemma CleanAllStep(acc: seq<Value>, a: seq<Value>)
    requires a != []
    ensures acc + [Clean(a[0])] + CleanAll(a[1..]) == acc + CleanAll(a)
  {
    Regrouped(acc, [Clean(a[0])], CleanAll(a[1..]));
  }

  lemma Regrouped<T>(a: seq<T>, b: seq<T>, c: seq<T>)
    ensures a + b + c == a + (b + c)
  {
  }

  lemma {:induction false} AfterElementRound(s: Text, r: nat, a: seq<Value>, indent: int, level: nat, acc: seq<Value>)
    requires a != [] && At(s, r, AfterElement(a, indent, level))
    ensures ReadArray(s, SkipChar(s, Skip(s, r), ','), acc)
            == Ok(Array(acc + CleanAll(a[1..])), r + |AfterElement(a, indent, level)|)
    decreases a, 0, 0
  {
    if |a| == 1 {
      ArrayClosed(s, r, indent, level, acc);
      assert acc + CleanAll(a[1..]) == acc;
    } else {
      CommaAt(s, r, Elements([' '], a[1..], indent, level));
      assert Blank([' ']);
      ElementsRound(s, r + 1, [' '], a[1..], indent, level, acc);
    }
  }

  lemma {:induction false} CommaAt(s: Text, r: nat, rest: Text)
    requires At(s, r, [','] + rest)
    ensures SkipChar(s, Skip(s, r), ',') == r + 1 && At(s, r + 1, rest)
  {
    AtSplit(s, r, [','], rest);
    AtFirst(s, r, [',']);
  }

  lemma {:induction false} ArrayClosed(s: Text, r: nat, indent: int, level: nat, acc: seq<Value>)
    requires At(s, r, Gap(indent, level, []) + [']'])
    ensures ReadArray(s, SkipChar(s, Skip(s, r), ','), acc) == Ok(Array(acc), r + |Gap(indent, level, [])| + 1)
  {
    ClosedAt(s, r, indent, level, ']');
  }

  lemma {:induction false} ObjectClosed(s: Text, r: nat, indent: int, level: nat, acc: seq<Field>)
    requires At(s, r, Gap(indent, level, []) + ['}'])
    ensures ReadObject(s, SkipChar(s, Skip(s, r), ','), acc) == Ok(Object(acc), r + |Gap(indent, level, [])| + 1)
  {
    ClosedAt(s, r, indent, level, '}');
  }

  /** One turn of the array loop: a value from `q` to `r`. */
  lemma {:induction false} ElementRound(s: Text, p: nat, q: nat, r: nat, v: Value, acc: seq<Value>)
    requires Skip(s, p) == q && q < |s| && s[q] != ']' && ReadValue(s, q) == Ok(v, r) && r > q
    ensures ReadArray(s, p, acc) == ReadArray(s, SkipChar(s, Skip(s, r), ','), acc + [v])
  {
  }

  /** The layout before a closing bracket is skipped, and the bracket is not a comma. */
  lemma {:induction false} ClosedAt(s: Text, r: nat, indent: int, level: nat, bracket: char)
    requires At(s, r, Gap(indent, level, []) + [bracket]) && (bracket == ']' || bracket == '}')
    ensures var t := r + |Gap(indent, level, [])|;
            t < |s| && s[t] == bracket && Skip(s, r) == t && Skip(s, t) == t && SkipChar(s, t, ',') == t
  {
    LayoutBlank(indent, level, []);
    AtSplit(s, r, Gap(indent, level, []), [bracket]);
    AtFirst(s, r + |Gap(indent, level, [])|, [bracket]);
    SkipBlank(s, r, Gap(indent, level, []));
  }

  lemma {:induction false} ObjectRound(s: Text, p: nat, o: seq<Field>, indent: int, level: nat)
    requires At(s, p, Dump(Object(o), indent, level))
    ensures ReadValue(s, p) == Ok(Object(CleanFields([], o)), p + |Dump(Object(o), indent, level)|)
    decreases o, 1
  {
    if o == [] {
      EmptyObjectRound(s, p);
    } else {
      FilledObjectRound(s, p, o, indent, level);
    }
  }

  lemma {:induction false} EmptyObjectRound(s: Text, p: nat)
    requires At(s, p, "{}")
    ensures ReadValue(s, p) == Ok(Object([]), p + 2)
  {
    AtFirst(s, p, "{}");
    assert s[p + 1] == "{}"[1];
    assert ReadObject(s, p + 1, []) == Ok(Object([]), p + 2);
  }

  lemma {:induction false} FilledObjectRound(s: Text, p: nat, o: seq<Field>, indent: int, level: nat)
    requires o != [] && At(s, p, ['{'] + Members([], o, indent, level))
    ensures ReadValue(s, p) == Ok(Object(CleanFields([], o)), p + 1 + |Members([], o, indent, level)|)
    decreases o, 0, 4
  {
    AtSplit(s, p, ['{'], Members([], o, indent, level));
    AtFirst(s, p, ['{']);
    MembersRound(s, p + 1, [], o, indent, level, []);
  }

  /** The first key stands from `q` to `k`. */
  lemma {:induction false} KeyLocated(s: Text, p: nat, lead: Text, o: seq<Field>, indent: int, level: nat)
    returns (q: nat, k: nat)
    requires o != [] && Blank(lead) && At(s, p, Members(lead, o, indent, level))
    ensures Skip(s, p) == q && At(s, q, EscapeString(o[0].key)) && k == q + |EscapeString(o[0].key)|
    ensures At(s, k, AfterKey(o, indent, level))
    ensures p + |Members(lead, o, indent, level)| == k + |AfterKey(o, indent, level)|
  {
    var gap, key := Gap(indent, level + 1, lead), EscapeString(o[0].key);
    q, k := p + |gap|, p + |gap| + |key|;
    LayoutBlank(indent, level + 1, lead);
    QuotedStarts(o[0].key);
    Located(s, p, gap, key, AfterKey(o, indent, level));
  }

  lemma QuotedStarts(t: Text)
    ensures EscapeString(t) != [] && !IsSpace(EscapeString(t)[0])
  {
  }

  /** A colon, blanks, a printed value, then what follows it. */
  lemma {:induction false} ColonLocated(s: Text, k: nat, colon: Text, d: Text, after: Text)
    requires At(s, k, [':'] + (colon + (d + after)))
    requires Blank(colon) && d != [] && !IsSpace(d[0]) && after != []
    ensures var e := k + 1 + |colon|;
            && k < |s| && s[k] == ':' && Skip(s, k + 1) == e < |s| && !IsSpace(s[e]) && At(s, e, d)
            && At(s, e + |d|, after) && e + |d| < |s| && s[e + |d|] == after[0]
  {
    AtSplit(s, k, [':'], colon + (d + after));
    AtFirst(s, k, [':']);
    Located(s, k + 1, colon, d, after);
  }

  /** The value after a key ending at `k` stands from `e` to `r`. */
  lemma {:induction false} AfterKeyLocated(s: Text, k: nat, o: seq<Field>, indent: int, level: nat)
    returns (e: nat, r: nat)
    requires o != [] && At(s, k, AfterKey(o, indent, level))
    ensures k < |s| && s[k] == ':' && Skip(s, k + 1) == e < |s| && !IsSpace(s[e])
    ensures At(s, e, Dump(o[0].value, indent, level + 1)) && r == e + |Dump(o[0].value, indent, level + 1)|
    ensures r < |s| && !IsNumeric(s[r]) && At(s, r, AfterMember(o, indent, level))
    ensures k + |AfterKey(o, indent, level)| == r + |AfterMember(o, indent, level)|
  {
    var d, after := Dump(o[0].value, indent, level + 1), AfterMember(o, indent, level);
    e, r := k + 1 + |Colon(indent)|, k + 1 + |Colon(indent)| + |d|;
    LayoutBlank(indent, level, []);
    DumpStarts(o[0].value, indent, level + 1);
    AfterMemberStarts(o, indent, level);
    ColonLocated(s, k, Colon(indent), d, after);
  }

  lemma {:induction false} AfterKeyRound(s: Text, k: nat, o: seq<Field>, indent: int, level: nat) returns (r: nat)
    requires o != [] && At(s, k, AfterKey(o, indent, level))
    ensures k < |s| && s[k] == ':' && ReadValue(s, k + 1) == Ok(Clean(o[0].value), r)
    ensures At(s, r, AfterMember(o, indent, level))
    ensures k + |AfterKey(o, indent, level)| == r + |AfterMember(o, indent, level)|
    decreases o, 0, 0
  {
    var e;
    e, r := AfterKeyLocated(s, k, o, indent, level);
    ReadSkips(s, k + 1, e);
    ValueRound(s, e, o[0].value, indent, level + 1);
  }

  /** The first member is read from `q`, and its value ends at `r`. */
  lemma {:induction false} FirstMember(s: Text, p: nat, lead: Text, o: seq<Field>, indent: int, level: nat)
    returns (q: nat, r: nat)
    requires o != [] && Blank(lead) && At(s, p, Members(lead, o, indent, level))
    ensures Skip(s, p) == q < |s| && s[q] == '"'
    ensures ReadMember(s, q) == Entry(CleanText(o[0].key), Clean(o[0].value), SkipChar(s, Skip(s, r), ','))
    ensures At(s, r, AfterMember(o, indent, level))
    ensures p + |Members(lead, o, indent, level)| == r + |AfterMember(o, indent, level)|
    decreases o, 0, 2
  {
    var k;
    q, k := KeyLocated(s, p, lead, o, indent, level);
    r := KeyedMember(s, q, k, o, indent, level);
  }

  lemma {:induction false} KeyedMember(s: Text, q: nat, k: nat, o: seq<Field>, indent: int, level: nat)
    returns (r: nat)
    requires o != [] && At(s, q, EscapeString(o[0].key)) && k == q + |EscapeString(o[0].key)|
    requires At(s, k, AfterKey(o, indent, level))
    ensures q < |s| && s[q] == '"'
    ensures ReadMember(s, q) == Entry(CleanText(o[0].key), Clean(o[0].value), SkipChar(s, Skip(s, r), ','))
    ensures At(s, r, AfterMember(o, indent, level))
    ensures k + |AfterKey(o, indent, level)| == r + |AfterMember(o, indent, level)|
    decreases o, 0, 1
  {
    QuotedRound(s, q, o[0].key);
    r := AfterKeyRound(s, k, o, indent, level);
    MemberRead(s, q, k, CleanText(o[0].key), Clean(o[0].value), r);
  }

  /** A key up to `k`, a colon there, and a value up to `r`. */
  lemma {:induction false} MemberRead(s: Text, q: nat, k: nat, key: Text, v: Value, r: nat)
    requires q < |s| && ReadString(s, q + 1, []) == (key, k)
    requires k < |s| && s[k] == ':' && ReadValue(s, k + 1) == Ok(v, r)
    ensures ReadMember(s, q) == Entry(key, v, SkipChar(s, Skip(s, r), ','))
  {
    assert Skip(s, k) == k && SkipChar(s, k, ':') == k + 1;
  }

  lemma {:induction false} MembersRound(s: Text, p: nat, lead: Text, o: seq<Field>, indent: int, level: nat,
                                        acc: seq<Field>)
    requires o != [] && Blank(lead) && At(s, p, Members(lead, o, indent, level))
    ensures ReadObject(s, p, acc) == Ok(Object(CleanFields(acc, o)), p + |Members(lead, o, indent, level)|)
    decreases o, 0, 3
  {
    var q, r := FirstMember(s, p, lead, o, indent, level);
    AfterMemberRound(s, r, o, indent, level, Insert(acc, CleanText(o[0].key), Clean(o[0].value)));
  }

  lemma {:induction false} AfterMemberRound(s: Text, r: nat, o: seq<Field>, indent: int, level: nat, acc: seq<Field>)
    requires o != [] && At(s, r, AfterMember(o, indent, level))
    ensures ReadObject(s, SkipChar(s, Skip(s, r), ','), acc)
            == Ok(Object(CleanFields(acc, o[1..])), r + |AfterMember(o, indent, level)|)
    decreases o, 0, 0
  {
    if |o| == 1 {
      ObjectClosed(s, r, indent, level, acc);
    } else {
      NextMembersRound(s, r, o[1..], indent, level, acc);
    }
  }

  lemma {:induction false} NextMembersRound(s: Text, r: nat, o: seq<Field>, indent: int, level: nat, acc: seq<Field>)
    requires o != [] && At(s, r, [','] + Members([' '], o, indent, level))
    ensures ReadObject(s, SkipChar(s, Skip(s, r), ','), acc)
            == Ok(Object(CleanFields(acc, o)), r + 1 + |Members([' '], o, indent, level)|)
    decreases o, 0, 4
  {
    CommaAt(s, r, Members([' '], o, indent, level));
    assert Blank([' ']);
    MembersRound(s, r + 1, [' '], o, indent, level, acc);
  }

  /** Parsing a printed value gives its cleaned form, and reads exactly to the end, at every indent setting. */
  lemma {:induction false} ParseOfDump(v: Value, indent: int)
    ensures ReadValue(Dump(v, indent, 0), 0) == Ok(Clean(v), |Dump(v, indent, 0)|)
  {
    var d := Dump(v, indent, 0);
    ValueRound(d, 0, v, indent, 0);
  }

  /** The round trip holds exactly for the values whose strings and keys are plain. */
  lemma {:induction false} RoundTripIff(v: Value, indent: int)
    requires WellFormed(v)
    ensures ReadValue(Dump(v, indent, 0), 0) == Ok(v, |Dump(v, indent, 0)|) <==> Plain(v)
  {
    ParseOfDump(v, indent);
    CleanIsPlain(v);
    if Plain(v) { CleanKeepsPlain(v); }
  }

  /** Two control characters that come back as other text. */
  lemma {:induction false} ControlsDoNotReturn(indent: int)
    ensures ReadValue(Dump(Str(['\r']), indent, 0), 0) == Ok(Str(['r']), 4)
    ensures ReadValue(Dump(Str(['\U{01}']), indent, 0), 0) == Ok(Str("u0001"), 8)
  {
    ParseOfDump(Str(['\r']), indent);
    ParseOfDump(Str(['\U{01}']), indent);
    assert CleanText(['\r']) == CleanChar('\r') + CleanText([]) == ['r'];
    assert CleanText(['\U{01}']) == CleanChar('\U{01}') + CleanText([]) == "u0001";
    assert EscapeBody(['\r']) == EscapeChar('\r') + EscapeBody([]);
    assert EscapeBody(['\U{01}']) == EscapeChar('\U{01}') + EscapeBody([]);
  }

  // -------------------------------------------------------------- invariants

  /** Whatever the text, a parsed value keeps every object's keys distinct and in order. */
  lemma {:induction false} ParsedWellFormed(s: Text, p: nat)
    ensures ReadValue(s, p).Ok? ==> WellFormed(ReadValue(s, p).v)
    decreases Left(s, p), 0
  {
    var q := Skip(s, p);
    if q < |s| {
      if s[q] == '[' { ParsedArrayWellFormed(s, q + 1, []); }
      if s[q] == '{' { ParsedObjectWellFormed(s, q + 1, []); }
    }
  }

  lemma {:induction false} ParsedArrayWellFormed(s: Text, p: nat, acc: seq<Value>)
    requires WellFormed(Array(acc))
    ensures ReadArray(s, p, acc).Ok? ==> WellFormed(ReadArray(s, p, acc).v)
    decreases Left(s, p), 1
  {
    var q := Skip(s, p);
    if q < |s| && s[q] != ']' && ReadValue(s, q).Ok? {
      ParsedWellFormed(s, q);
      var v, t := ReadValue(s, q).v, SkipChar(s, Skip(s, ReadValue(s, q).pos), ',');
      AppendWellFormed(acc, v);
      if t != p { ParsedArrayWellFormed(s, t, acc + [v]); }
    }
  }

  lemma {:induction false} ParsedMemberWellFormed(s: Text, q: nat)
    requires q < |s|
    ensures ReadMember(s, q).Entry? ==> WellFormed(ReadMember(s, q).value)
    decreases Left(s, q), 0
  {
    ParsedWellFormed(s, ValueStart(s, q));
  }

  lemma {:induction false} ParsedObjectWellFormed(s: Text, p: nat, acc: seq<Field>)
    requires WellFormed(Object(acc))
    ensures ReadObject(s, p, acc).Ok? ==> WellFormed(ReadObject(s, p, acc).v)
    decreases Left(s, p), 1
  {
    var q := Skip(s, p);
    if q < |s| && s[q] != '}' {
      ParsedMemberWellFormed(s, q);
      var m := ReadMember(s, q);
      if m.Entry? {
        InsertKeepsObject(acc, m.key, m.value);
        ParsedObjectWellFormed(s, m.pos, Insert(acc, m.key, m.value));
      }
    }
  }

  lemma {:induction false} AppendWellFormed(a: seq<Value>, v: Value)
    requires AllWellFormed(a) && WellFormed(v)
    ensures AllWellFormed(a + [v])
    decreases |a|
  {
    if a == [] {
      assert (a + [v])[1..] == [];
    } else {
      assert (a + [v])[1..] == a[1..] + [v];
      AppendWellFormed(a[1..], v);
    }
  }

  lemma {:induction false} InsertWellFormed(o: seq<Field>, k: Text, v: Value)
    requires FieldsWellFormed(o) && WellFormed(v)
    ensures FieldsWellFormed(Insert(o, k, v))
    decreases |o|
  {
    if o == [] {
      assert [Field(k, v)][1..] == [];
    } else {
      InsertWellFormed(o[1..], k, v);
      assert ([Field(k, v)] + o[1..])[1..] == o[1..];
      assert ([Field(k, v)] + o)[1..] == o;
      assert ([o[0]] + Insert(o[1..], k, v))[1..] == Insert(o[1..], k, v);
    }
  }

  lemma InsertKeepsObject(o: seq<Field>, k: Text, v: Value)
    requires WellFormed(Object(o)) && WellFormed(v)
    ensures WellFormed(Object(Insert(o, k, v)))
  {
    InsertSorted(o, k, v);
    InsertWellFormed(o, k, v);
  }

  /** So parsing is stable: whatever a text parses to prints and parses to itself again, exactly when it is plain. */
  lemma ReparseIff(s: Text, indent: int)
    requires ReadValue(s, 0).Ok?
    ensures var v := ReadValue(s, 0).v;
            ReadValue(Dump(v, indent, 0), 0) == Ok(v, |Dump(v, indent, 0)|) <==> Plain(v)
  {
    ParsedWellFormed(s, 0);
    RoundTripIff(ReadValue(s, 0).v, indent);
  }

  // ------------------------------------------------------ arrays that do not end

  /** After blanks, `x` has a character that starts no value and is no comma or closing bracket. */
  predicate Stuck(s: Text, x: nat) {
    var q := Skip(s, x);
    q < |s| && s[q] !in ",]ntf\"[{-" && !IsDigit(s[q])
  }

  /** The positions at which array loops, however deeply nested, begin a turn while the value at `p` is read. */
  function ValueTurns(s: Text, p: nat): set<nat>
    decreases Left(s, p), 0
  {
    var q := Skip(s, p);
    if q >= |s| then {}
    else if s[q] == '[' then ArrayTurns(s, q + 1)
    else if s[q] == '{' then ObjectTurns(s, q + 1)
    else {}
  }

  function ArrayTurns(s: Text, p: nat): set<nat>
    decreases Left(s, p), 1
  {
    var q := Skip(s, p);
    if q >= |s| || s[q] == ']' then {}
    else
      {p} + ValueTurns(s, q)
      + if ReadValue(s, q).Ok? && NextTurn(s, q) > p then ArrayTurns(s, NextTurn(s, q)) else {}
  }

  /** Where the array loop goes on after a value that starts at `q`. */
  function NextTurn(s: Text, q: nat): (t: nat)
    requires ReadValue(s, q).Ok?
    ensures t >= q
  {
    SkipChar(s, Skip(s, ReadValue(s, q).pos), ',')
  }

  function ObjectTurns(s: Text, p: nat): set<nat>
    decreases Left(s, p), 1
  {
    var q := Skip(s, p);
    if q >= |s| || s[q] == '}' then {}
    else
      ValueTurns(s, ValueStart(s, q))
      + if ReadMember(s, q).Entry? then ObjectTurns(s, ReadMember(s, q).pos) else {}
  }

  predicate AnyStuck(s: Text, turns: set<nat>) { exists x :: x in turns && Stuck(s, x) }

  /** A turn ends where it began exactly at a stuck character. */
  lemma {:induction false} NoProgressIff(s: Text, p: nat, q: nat)
    requires q == Skip(s, p) && q < |s| && s[q] != ']' && ReadValue(s, q).Ok?
    ensures NextTurn(s, q) == p <==> p == q && Stuck(s, p)
    ensures Stuck(s, p) ==> NextTurn(s, q) == q && Stuck(s, q)
  {
    assert Skip(s, q) == q;
    if !Stuck(s, p) && s[q] != ',' { ValueMoves(s, q); }
  }

  lemma {:induction false} ValueMoves(s: Text, q: nat)
    requires q < |s| && !IsSpace(s[q]) && (s[q] in "ntf\"[{-" || IsDigit(s[q])) && ReadValue(s, q).Ok?
    ensures ReadValue(s, q).pos > q
  {
    assert Skip(s, q) == q;
  }

  /** Reading a value does not end if and only if one of the array loops it runs comes to a stuck character. */
  lemma {:induction false} HangsIff(s: Text, p: nat)
    ensures ReadValue(s, p) == Hang <==> AnyStuck(s, ValueTurns(s, p))
    decreases Left(s, p), 0
  {
    var q := Skip(s, p);
    if q < |s| && s[q] == '[' {
      ArrayHangsIff(s, q + 1, []);
    } else if q < |s| && s[q] == '{' {
      ObjectHangsIff(s, q + 1, []);
    } else {
      ScalarEnds(s, p);
    }
  }

  lemma {:induction false} ScalarEnds(s: Text, p: nat)
    requires var q := Skip(s, p); q < |s| ==> s[q] != '[' && s[q] != '{'
    ensures ReadValue(s, p) != Hang && ValueTurns(s, p) == {}
  {
  }

  lemma {:induction false} ArrayHangsIff(s: Text, p: nat, acc: seq<Value>)
    ensures ReadArray(s, p, acc) == Hang <==> AnyStuck(s, ArrayTurns(s, p))
    decreases Left(s, p), 1
  {
    var q := Skip(s, p);
    if q < |s| && s[q] != ']' {
      HangsIff(s, q);
      assert p in ArrayTurns(s, p) && ValueTurns(s, q) <= ArrayTurns(s, p);
      if ReadValue(s, q).Ok? {
        NoProgressIff(s, p, q);
        var t := NextTurn(s, q);
        if t > p { ArrayHangsIff(s, t, acc + [ReadValue(s, q).v]); }
      }
    }
  }

  lemma {:induction false} ObjectHangsIff(s: Text, p: nat, acc: seq<Field>)
    ensures ReadObject(s, p, acc) == Hang <==> AnyStuck(s, ObjectTurns(s, p))
    decreases Left(s, p), 1
  {
    var q := Skip(s, p);
    if q < |s| && s[q] != '}' {
      HangsIff(s, ValueStart(s, q));
      var m := ReadMember(s, q);
      if m.Entry? { ObjectHangsIff(s, m.pos, Insert(acc, m.key, m.value)); }
    }
  }

  /** Inside an array, a character that starts no value and is no comma or bracket is never passed. */
  lemma {:induction false} StuckArray(s: Text, p: nat, acc: seq<Value>)
    requires Stuck(s, p)
    ensures ReadArray(s, p, acc) == Hang
  {
    ArrayHangsIff(s, p, acc);
    assert p in ArrayTurns(s, p);
  }

  // -------------------------------------------------------------- the parser

  /** The parser object: a text and a position that only moves forward. */
  class Parser {
    const str: Text
    var pos: nat

    constructor (s: Text)
      ensures str == s && pos == 0
    {
      str, pos := s, 0;
    }

    method SkipWhitespace()
      modifies this
      ensures pos == Skip(str, old(pos))
    {
      while pos < |str| && IsSpace(str[pos])
        invariant Skip(str, pos) == Skip(str, old(pos))
        decreases Left(str, pos)
      {
        pos := pos + 1;
      }
    }

    method ParseString() returns (s: Text)
      modifies this
      ensures (s, pos) == ReadString(str, old(pos) + 1, [])
    {
      s := [];
      pos := pos + 1;
      while pos < |str|
        invariant ReadString(str, pos, s) == ReadString(str, old(pos) + 1, [])
        decreases Left(str, pos)
      {
        var c := str[pos];
        pos := pos + 1;
        if c == '"' { return; }
        if c == '\\' {
          if pos >= |str| { return; }
          s := s + [Unescape(str[pos])];
          pos := pos + 1;
        } else {
          s := s + [c];
        }
      }
    }

    method ParseNumber() returns (r: Outcome)
      requires pos < |str|
      modifies this
      ensures old(pos) <= pos <= |str| && pos == NumberEnd(str, old(pos)) && r == NumberOutcome(str, old(pos), pos)
    {
      var start := pos;
      while pos < |str| && IsNumeric(str[pos])
        invariant start <= pos <= |str| && NumberEnd(str, pos) == NumberEnd(str, start)
        decreases Left(str, pos)
      {
        pos := pos + 1;
      }
      r := NumberOutcome(str, start, pos);
    }

    method ParseValue() returns (r: Outcome)
      modifies this
      ensures r == ReadValue(str, old(pos)) && (r.Ok? ==> pos == r.pos)
      decreases Left(str, pos), 2
    {
      SkipWhitespace();
      if pos >= |str| { return Ok(Null, pos); }
      var c := str[pos];
      if c == 'n' { pos := pos + 4; return Ok(Null, pos); }
      if c == 't' { pos := pos + 4; return Ok(Bool(true), pos); }
      if c == 'f' { pos := pos + 5; return Ok(Bool(false), pos); }
      if c == '"' {
        var s := ParseString();
        return Ok(Str(s), pos);
      }
      if c == '[' { r := ParseArray(); return; }
      if c == '{' { r := ParseObject(); return; }
      if c == '-' || IsDigit(c) { r := ParseNumber(); return; }
      return Ok(Null, pos);
    }

    method ParseArray() returns (r: Outcome)
      requires pos < |str|
      modifies this
      ensures r == ReadArray(str, old(pos) + 1, []) && (r.Ok? ==> pos == r.pos)
      decreases Left(str, pos), 0
    {
      var a: seq<Value> := [];
      pos := pos + 1;
      ghost var first := pos;
      while pos < |str|
        invariant pos >= first && ReadArray(str, pos, a) == ReadArray(str, first, [])
        decreases Left(str, pos)
      {
        var start := pos;
        SkipWhitespace();
        if pos >= |str| { return Ok(Array(a), pos); }
        if str[pos] == ']' {
          pos := pos + 1;
          return Ok(Array(a), pos);
        }
        r := ParseValue();
        if !r.Ok? { return; }
        SkipWhitespace();
        pos := SkipChar(str, pos, ',');
        if pos == start { return Hang; }
        a := a + [r.v];
      }
      return Ok(Array(a), pos);
    }

    /** A key, its value, and the comma after it. */
    method ParseMember() returns (m: Entry)
      requires pos < |str|
      modifies this
      ensures m == ReadMember(str, old(pos)) && (m.Entry? ==> pos == m.pos)
      decreases Left(str, pos), 0
    {
      var key := ParseString();
      SkipWhitespace();
      pos := SkipChar(str, pos, ':');
      var r := ParseValue();
      if !r.Ok? { return Stopped(r); }
      SkipWhitespace();
      pos := SkipChar(str, pos, ',');
      return Entry(key, r.v, pos);
    }

    method ParseObject() returns (r: Outcome)
      requires pos < |str|
      modifies this
      ensures r == ReadObject(str, old(pos) + 1, []) && (r.Ok? ==> pos == r.pos)
      decreases Left(str, pos), 1
    {
      var o: seq<Field> := [];
      pos := pos + 1;
      ghost var first := pos;
      while pos < |str|
        invariant pos >= first && ReadObject(str, pos, o) == ReadObject(str, first, [])
        decreases Left(str, pos)
      {
        SkipWhitespace();
        if pos >= |str| { return Ok(Object(o), pos); }
        if str[pos] == '}' {
          pos := pos + 1;
          return Ok(Object(o), pos);
        }
        var m := ParseMember();
        if m.Stopped? { return m.end; }
        o := Insert(o, m.key, m.value);
      }
      return Ok(Object(o), pos);
    }
  }
}
