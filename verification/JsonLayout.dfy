/**
 Configuration texts laid out by hand: blanks of any kind and number between the tokens do not change what is parsed.
 */
module JsonLayout {
  import opened Json

  /** A value with the blanks around its tokens; a scalar stands as it is printed. */
  datatype Laid =
    | Scalar(v: Value)
    | Items(items: seq<Item>, close: Text)
    | Members(members: seq<Member>, close: Text)

  datatype Item = Item(before: Text, value: Laid, after: Text)

  datatype Member = Member(before: Text, key: Text, mid: Text, between: Text, value: Laid, after: Text)

  predicate IsBlank(c: char) { c in {' ', '\t', '\n', '\r', '\U{0B}', '\U{0C}'} }

  predicate AllBlank(t: Text) { forall i :: 0 <= i < |t| ==> IsBlank(t[i]) }

  predicate Sound(l: Laid) {
    match l
    case Scalar(v) => !v.Array? && !v.Object?
    case Items(items, close) => AllBlank(close) && SoundItems(items)
    case Members(members, close) => AllBlank(close) && SoundMembers(members)
  }

  predicate SoundItems(items: seq<Item>) {
    items == []
    || (AllBlank(items[0].before) && Sound(items[0].value) && AllBlank(items[0].after) && SoundItems(items[1..]))
  }

  predicate SoundMembers(ms: seq<Member>) {
    ms == []
    || (&& AllBlank(ms[0].before) && AllBlank(ms[0].mid) && AllBlank(ms[0].between) && AllBlank(ms[0].after)
        && Sound(ms[0].value) && SoundMembers(ms[1..]))
  }

  function ValueOf(l: Laid): Value {
    match l
    case Scalar(v) => v
    case Items(items, _) => Array(Values(items))
    case Members(members, _) => Object(Fields(members))
  }

  function Values(items: seq<Item>): seq<Value> {
    if items == [] then [] else [ValueOf(items[0].value)] + Values(items[1..])
  }

  function Fields(ms: seq<Member>): seq<Field> {
    if ms == [] then [] else [Field(ms[0].key, ValueOf(ms[0].value))] + Fields(ms[1..])
  }

  function Print(l: Laid): Text
    decreases l, 0
  {
    match l
    case Scalar(v) => Dump(v, -1, 0)
    case Items(items, close) => ['['] + (if items == [] then close + [']'] else PrintItems(items, close))
    case Members(members, close) => ['{'] + (if members == [] then close + ['}'] else PrintMembers(members, close))
  }

  function PrintItems(items: seq<Item>, close: Text): Text
    requires items != []
    decreases items, 1
  {
    items[0].before + (Print(items[0].value) + AfterItem(items, close))
  }

  function AfterItem(items: seq<Item>, close: Text): Text
    requires items != []
    decreases items, 0
  {
    if |items| == 1 then (items[0].after + close) + [']'] else items[0].after + ([','] + PrintItems(items[1..], close))
  }

  function PrintMembers(ms: seq<Member>, close: Text): Text
    requires ms != []
    decreases ms, 2
  {
    ms[0].before + (EscapeString(ms[0].key) + AfterKeyOf(ms, close))
  }

  function AfterKeyOf(ms: seq<Member>, close: Text): Text
    requires ms != []
    decreases ms, 1
  {
    ms[0].mid + ([':'] + (ms[0].between + (Print(ms[0].value) + AfterValue(ms, close))))
  }

  function AfterValue(ms: seq<Member>, close: Text): Text
    requires ms != []
    decreases ms, 0
  {
    if |ms| == 1 then (ms[0].after + close) + ['}'] else ms[0].after + ([','] + PrintMembers(ms[1..], close))
  }

  // ------------------------------------------------------------------ blanks

  lemma {:induction false} BlanksSkip(t: Text)
    requires AllBlank(t)
    ensures Blank(t)
    decreases |t|
  {
    if t != [] {
      assert forall i :: 0 <= i < |t[1..]| ==> t[1..][i] == t[i + 1];
      BlanksSkip(t[1..]);
    }
  }

  lemma BlanksJoin(a: Text, b: Text)
    requires AllBlank(a) && AllBlank(b)
    ensures AllBlank(a + b)
  {
  }

  /** Blanks and then a mark that is neither blank nor numeric. */
  lemma {:induction false} MarkLocated(s: Text, p: nat, blank: Text, mark: char, rest: Text)
    requires At(s, p, blank + ([mark] + rest)) && AllBlank(blank) && !IsSpace(mark)
    ensures var q := p + |blank|;
            q < |s| && s[q] == mark && Skip(s, p) == q && At(s, q + 1, rest)
  {
    AtSplit(s, p, blank, [mark] + rest);
    AtSplit(s, p + |blank|, [mark], rest);
    AtFirst(s, p + |blank|, [mark]);
    BlanksSkip(blank);
    SkipBlank(s, p, blank);
  }

  lemma {:induction false} CommaLaid(s: Text, p: nat, blank: Text, rest: Text)
    requires At(s, p, blank + ([','] + rest)) && AllBlank(blank)
    ensures SkipChar(s, Skip(s, p), ',') == p + |blank| + 1 && At(s, p + |blank| + 1, rest)
  {
    MarkLocated(s, p, blank, ',', rest);
  }

  lemma {:induction false} OpenLaid(s: Text, p: nat, mark: char, rest: Text)
    requires At(s, p, [mark] + rest)
    ensures p < |s| && s[p] == mark && At(s, p + 1, rest)
  {
    AtSplit(s, p, [mark], rest);
    AtFirst(s, p, [mark]);
  }

  /** What starts with blanks or such a mark does not start with a numeric character. */
  lemma NotNumeric(blank: Text, mark: char, rest: Text)
    requires AllBlank(blank) && !IsNumeric(mark)
    ensures var t := blank + ([mark] + rest); t != [] && !IsNumeric(t[0])
  {
    var t := blank + ([mark] + rest);
    assert t[0] == if blank == [] then mark else blank[0];
  }

  lemma PrintStarts(l: Laid)
    requires Sound(l)
    ensures Print(l) != [] && !IsSpace(Print(l)[0]) && Print(l)[0] != ']' && Print(l)[0] != '}'
  {
    if l.Scalar? { DumpStarts(l.v, -1, 0); }
  }

  lemma AfterItemStarts(items: seq<Item>, close: Text)
    requires items != [] && AllBlank(items[0].after) && AllBlank(close)
    ensures var t := AfterItem(items, close); t != [] && !IsNumeric(t[0])
  {
    if |items| == 1 {
      BlanksJoin(items[0].after, close);
      NotNumeric(items[0].after + close, ']', []);
      assert [']'] + [] == [']'];
    } else {
      NotNumeric(items[0].after, ',', PrintItems(items[1..], close));
    }
  }

  lemma AfterValueStarts(ms: seq<Member>, close: Text)
    requires ms != [] && AllBlank(ms[0].after) && AllBlank(close)
    ensures var t := AfterValue(ms, close); t != [] && !IsNumeric(t[0])
  {
    if |ms| == 1 {
      BlanksJoin(ms[0].after, close);
      NotNumeric(ms[0].after + close, '}', []);
      assert ['}'] + [] == ['}'];
    } else {
      NotNumeric(ms[0].after, ',', PrintMembers(ms[1..], close));
    }
  }

  // ------------------------------------------------------------------- reading

  /** A laid-out value is read as what its value cleans to, and exactly its text is consumed. */
  lemma {:induction false} LaidRound(s: Text, p: nat, l: Laid)
    requires Sound(l) && At(s, p, Print(l))
    requires var end := p + |Print(l)|; end < |s| ==> !IsNumeric(s[end])
    ensures ReadValue(s, p) == Ok(Clean(ValueOf(l)), p + |Print(l)|)
    decreases l, 0
  {
    match l
    case Scalar(v) => ValueRound(s, p, v, -1, 0);
    case Items(items, close) =>
      if items == [] { EmptyItems(s, p, close); } else { FilledItems(s, p, items, close); }
    case Members(members, close) =>
      if members == [] { EmptyMembers(s, p, close); } else { FilledMembers(s, p, members, close); }
  }

  lemma {:induction false} EmptyItems(s: Text, p: nat, close: Text)
    requires AllBlank(close) && At(s, p, ['['] + (close + [']']))
    ensures ReadValue(s, p) == Ok(Array([]), p + |close| + 2)
  {
    AtSplit(s, p, ['['], close + [']']);
    AtFirst(s, p, ['[']);
    assert close + [']'] == close + ([']'] + []);
    MarkLocated(s, p + 1, close, ']', []);
    assert ReadArray(s, p + 1, []) == Ok(Array([]), p + |close| + 2);
  }

  lemma {:induction false} EmptyMembers(s: Text, p: nat, close: Text)
    requires AllBlank(close) && At(s, p, ['{'] + (close + ['}']))
    ensures ReadValue(s, p) == Ok(Object([]), p + |close| + 2)
  {
    AtSplit(s, p, ['{'], close + ['}']);
    AtFirst(s, p, ['{']);
    assert close + ['}'] == close + (['}'] + []);
    MarkLocated(s, p + 1, close, '}', []);
    assert ReadObject(s, p + 1, []) == Ok(Object([]), p + |close| + 2);
  }

  lemma {:induction false} FilledItems(s: Text, p: nat, items: seq<Item>, close: Text)
    requires items != [] && SoundItems(items) && AllBlank(close) && At(s, p, ['['] + PrintItems(items, close))
    ensures ReadValue(s, p) == Ok(Array(CleanAll(Values(items))), p + 1 + |PrintItems(items, close)|)
    decreases items, 4
  {
    OpenLaid(s, p, '[', PrintItems(items, close));
    AllItems(s, p + 1, items, close);
  }

  lemma {:induction false} AllItems(s: Text, p: nat, items: seq<Item>, close: Text)
    requires items != [] && SoundItems(items) && AllBlank(close) && At(s, p, PrintItems(items, close))
    ensures ReadArray(s, p, []) == Ok(Array(CleanAll(Values(items))), p + |PrintItems(items, close)|)
    decreases items, 3
  {
    ItemsRound(s, p, items, close, []);
    assert [] + CleanAll(Values(items)) == CleanAll(Values(items));
  }

  lemma {:induction false} ItemsRound(s: Text, p: nat, items: seq<Item>, close: Text, acc: seq<Value>)
    requires items != [] && SoundItems(items) && AllBlank(close) && At(s, p, PrintItems(items, close))
    ensures ReadArray(s, p, acc)
            == Ok(Array(acc + CleanAll(Values(items))), p + |PrintItems(items, close)|)
    decreases items, 2
  {
    var r := FirstItem(s, p, items, close, acc);
    var first := Clean(ValueOf(items[0].value));
    AfterItemRound(s, r, items, close, acc + [first]);
    ValuesStep(items);
    Regrouped(acc, [first], CleanAll(Values(items[1..])));
  }

  lemma ValuesStep(items: seq<Item>)
    requires items != []
    ensures CleanAll(Values(items)) == [Clean(ValueOf(items[0].value))] + CleanAll(Values(items[1..]))
  {
    assert Values(items)[1..] == Values(items[1..]);
  }

  lemma {:induction false} FirstItem(s: Text, p: nat, items: seq<Item>, close: Text, acc: seq<Value>)
    returns (r: nat)
    requires items != [] && SoundItems(items) && AllBlank(close) && At(s, p, PrintItems(items, close))
    ensures ReadArray(s, p, acc)
            == ReadArray(s, SkipChar(s, Skip(s, r), ','), acc + [Clean(ValueOf(items[0].value))])
    ensures At(s, r, AfterItem(items, close))
    ensures p + |PrintItems(items, close)| == r + |AfterItem(items, close)|
    decreases items, 1
  {
    var q;
    q, r := ItemLaid(s, p, items, close);
    LaidRound(s, q, items[0].value);
    ElementRound(s, p, q, r, Clean(ValueOf(items[0].value)), acc);
  }

  /** The first element stands from `q` to `r`. */
  lemma {:induction false} ItemLaid(s: Text, p: nat, items: seq<Item>, close: Text) returns (q: nat, r: nat)
    requires items != [] && SoundItems(items) && AllBlank(close) && At(s, p, PrintItems(items, close))
    ensures Skip(s, p) == q < r < |s| && s[q] != ']' && At(s, q, Print(items[0].value))
    ensures r == q + |Print(items[0].value)| && !IsNumeric(s[r]) && At(s, r, AfterItem(items, close))
    ensures p + |PrintItems(items, close)| == r + |AfterItem(items, close)|
  {
    var d, before := Print(items[0].value), items[0].before;
    q, r := p + |before|, p + |before| + |d|;
    BlanksSkip(before);
    PrintStarts(items[0].value);
    AfterItemStarts(items, close);
    Located(s, p, before, d, AfterItem(items, close));
  }

  lemma {:induction false} AfterItemRound(s: Text, r: nat, items: seq<Item>, close: Text, acc: seq<Value>)
    requires items != [] && SoundItems(items) && AllBlank(close) && At(s, r, AfterItem(items, close))
    ensures ReadArray(s, SkipChar(s, Skip(s, r), ','), acc)
            == Ok(Array(acc + CleanAll(Values(items[1..]))), r + |AfterItem(items, close)|)
    decreases items, 0
  {
    if |items| == 1 {
      BlanksJoin(items[0].after, close);
      ItemsClosed(s, r, items[0].after + close, acc);
      assert acc + CleanAll(Values(items[1..])) == acc;
    } else {
      NextItems(s, r, items[0].after, items[1..], close, acc);
    }
  }

  lemma {:induction false} NextItems(s: Text, r: nat, after: Text, items: seq<Item>, close: Text, acc: seq<Value>)
    requires items != [] && SoundItems(items) && AllBlank(close) && AllBlank(after)
    requires At(s, r, after + ([','] + PrintItems(items, close)))
    ensures ReadArray(s, SkipChar(s, Skip(s, r), ','), acc)
            == Ok(Array(acc + CleanAll(Values(items))), r + |after| + 1 + |PrintItems(items, close)|)
    decreases items, 5
  {
    CommaLaid(s, r, after, PrintItems(items, close));
    ItemsRound(s, r + |after| + 1, items, close, acc);
  }

  lemma {:induction false} ItemsClosed(s: Text, r: nat, blank: Text, acc: seq<Value>)
    requires AllBlank(blank) && At(s, r, blank + [']'])
    ensures ReadArray(s, SkipChar(s, Skip(s, r), ','), acc) == Ok(Array(acc), r + |blank| + 1)
  {
    assert blank + [']'] == blank + ([']'] + []);
    MarkLocated(s, r, blank, ']', []);
    assert Skip(s, r + |blank|) == r + |blank|;
  }

  lemma {:induction false} FilledMembers(s: Text, p: nat, ms: seq<Member>, close: Text)
    requires ms != [] && SoundMembers(ms) && AllBlank(close) && At(s, p, ['{'] + PrintMembers(ms, close))
    ensures ReadValue(s, p) == Ok(Object(CleanFields([], Fields(ms))), p + 1 + |PrintMembers(ms, close)|)
    decreases ms, 5
  {
    OpenLaid(s, p, '{', PrintMembers(ms, close));
    MembersLaid(s, p + 1, ms, close, []);
  }

  lemma {:induction false} MembersLaid(s: Text, p: nat, ms: seq<Member>, close: Text, acc: seq<Field>)
    requires ms != [] && SoundMembers(ms) && AllBlank(close) && At(s, p, PrintMembers(ms, close))
    ensures ReadObject(s, p, acc) == Ok(Object(CleanFields(acc, Fields(ms))), p + |PrintMembers(ms, close)|)
    decreases ms, 4
  {
    var q, r := FirstMemberLaid(s, p, ms, close);
    AfterValueRound(s, r, ms, close, Insert(acc, CleanText(ms[0].key), Clean(ValueOf(ms[0].value))));
    FieldsStep(acc, ms);
  }

  lemma FieldsStep(acc: seq<Field>, ms: seq<Member>)
    requires ms != []
    ensures CleanFields(acc, Fields(ms))
            == CleanFields(Insert(acc, CleanText(ms[0].key), Clean(ValueOf(ms[0].value))), Fields(ms[1..]))
  {
    assert Fields(ms)[1..] == Fields(ms[1..]);
  }

  lemma {:induction false} FirstMemberLaid(s: Text, p: nat, ms: seq<Member>, close: Text)
    returns (q: nat, r: nat)
    requires ms != [] && SoundMembers(ms) && AllBlank(close) && At(s, p, PrintMembers(ms, close))
    ensures Skip(s, p) == q < |s| && s[q] == '"'
    ensures ReadMember(s, q)
            == Entry(CleanText(ms[0].key), Clean(ValueOf(ms[0].value)), SkipChar(s, Skip(s, r), ','))
    ensures At(s, r, AfterValue(ms, close))
    ensures p + |PrintMembers(ms, close)| == r + |AfterValue(ms, close)|
    decreases ms, 3
  {
    var k;
    q, k := KeyLaid(s, p, ms, close);
    r := MemberLaid(s, q, k, ms, close);
  }

  lemma {:induction false} MemberLaid(s: Text, q: nat, k: nat, ms: seq<Member>, close: Text) returns (r: nat)
    requires ms != [] && SoundMembers(ms) && AllBlank(close)
    requires At(s, q, EscapeString(ms[0].key)) && k == q + |EscapeString(ms[0].key)| && At(s, k, AfterKeyOf(ms, close))
    ensures q < |s| && s[q] == '"'
    ensures ReadMember(s, q)
            == Entry(CleanText(ms[0].key), Clean(ValueOf(ms[0].value)), SkipChar(s, Skip(s, r), ','))
    ensures At(s, r, AfterValue(ms, close))
    ensures k + |AfterKeyOf(ms, close)| == r + |AfterValue(ms, close)|
    decreases ms, 2
  {
    var c;
    QuotedRound(s, q, ms[0].key);
    c, r := ValueLaid(s, k, ms, close);
    SpacedMember(s, q, k, c, CleanText(ms[0].key), Clean(ValueOf(ms[0].value)), r);
  }

  /** A key up to `k`, a colon at `c` after blanks, and a value up to `r`. */
  lemma {:induction false} SpacedMember(s: Text, q: nat, k: nat, c: nat, key: Text, v: Value, r: nat)
    requires q < |s| && ReadString(s, q + 1, []) == (key, k)
    requires Skip(s, k) == c < |s| && s[c] == ':' && ReadValue(s, c + 1) == Ok(v, r)
    ensures ReadMember(s, q) == Entry(key, v, SkipChar(s, Skip(s, r), ','))
  {
    assert ValueStart(s, q) == c + 1;
  }

  lemma {:induction false} KeyLaid(s: Text, p: nat, ms: seq<Member>, close: Text) returns (q: nat, k: nat)
    requires ms != [] && SoundMembers(ms) && At(s, p, PrintMembers(ms, close))
    ensures Skip(s, p) == q && At(s, q, EscapeString(ms[0].key)) && k == q + |EscapeString(ms[0].key)|
    ensures At(s, k, AfterKeyOf(ms, close))
    ensures p + |PrintMembers(ms, close)| == k + |AfterKeyOf(ms, close)|
  {
    var before, key := ms[0].before, EscapeString(ms[0].key);
    q, k := p + |before|, p + |before| + |key|;
    BlanksSkip(before);
    QuotedStarts(ms[0].key);
    assert AfterKeyOf(ms, close) != [];
    Located(s, p, before, key, AfterKeyOf(ms, close));
  }

  /** The colon after a key stands at `c`, and the value from `e` to `r`. */
  lemma {:induction false} ColonLaid(s: Text, k: nat, ms: seq<Member>, close: Text) returns (c: nat, e: nat, r: nat)
    requires ms != [] && SoundMembers(ms) && AllBlank(close) && At(s, k, AfterKeyOf(ms, close))
    ensures Skip(s, k) == c < |s| && s[c] == ':' && Skip(s, c + 1) == e < |s| && !IsSpace(s[e])
    ensures At(s, e, Print(ms[0].value)) && r == e + |Print(ms[0].value)| && r < |s| && !IsNumeric(s[r])
    ensures At(s, r, AfterValue(ms, close))
    ensures k + |AfterKeyOf(ms, close)| == r + |AfterValue(ms, close)|
  {
    var d, mid, between, after := Print(ms[0].value), ms[0].mid, ms[0].between, AfterValue(ms, close);
    c, e, r := k + |mid|, k + |mid| + 1 + |between|, k + |mid| + 1 + |between| + |d|;
    BlanksSkip(between);
    PrintStarts(ms[0].value);
    AfterValueStarts(ms, close);
    ColonPlaced(s, k, mid, between, d, after);
  }

  lemma {:induction false} ColonPlaced(s: Text, k: nat, mid: Text, between: Text, d: Text, after: Text)
    requires At(s, k, mid + ([':'] + (between + (d + after)))) && AllBlank(mid) && Blank(between)
    requires d != [] && !IsSpace(d[0]) && after != []
    ensures var c, e := k + |mid|, k + |mid| + 1 + |between|;
            && Skip(s, k) == c < |s| && s[c] == ':' && Skip(s, c + 1) == e < |s| && s[e] == d[0] && At(s, e, d)
            && At(s, e + |d|, after) && e + |d| < |s| && s[e + |d|] == after[0]
  {
    MarkLocated(s, k, mid, ':', between + (d + after));
    Located(s, k + |mid| + 1, between, d, after);
  }

  lemma {:induction false} ValueLaid(s: Text, k: nat, ms: seq<Member>, close: Text) returns (c: nat, r: nat)
    requires ms != [] && SoundMembers(ms) && AllBlank(close) && At(s, k, AfterKeyOf(ms, close))
    ensures Skip(s, k) == c < |s| && s[c] == ':' && ReadValue(s, c + 1) == Ok(Clean(ValueOf(ms[0].value)), r)
    ensures At(s, r, AfterValue(ms, close))
    ensures k + |AfterKeyOf(ms, close)| == r + |AfterValue(ms, close)|
    decreases ms, 1
  {
    var e;
    c, e, r := ColonLaid(s, k, ms, close);
    LaidRound(s, e, ms[0].value);
    ReadSkips(s, c + 1, e);
  }

  lemma {:induction false} AfterValueRound(s: Text, r: nat, ms: seq<Member>, close: Text, acc: seq<Field>)
    requires ms != [] && SoundMembers(ms) && AllBlank(close) && At(s, r, AfterValue(ms, close))
    ensures ReadObject(s, SkipChar(s, Skip(s, r), ','), acc)
            == Ok(Object(CleanFields(acc, Fields(ms[1..]))), r + |AfterValue(ms, close)|)
    decreases ms, 0
  {
    if |ms| == 1 {
      BlanksJoin(ms[0].after, close);
      MembersClosed(s, r, ms[0].after + close, acc);
    } else {
      NextMembers(s, r, ms[0].after, ms[1..], close, acc);
    }
  }

  lemma {:induction false} NextMembers(s: Text, r: nat, after: Text, ms: seq<Member>, close: Text, acc: seq<Field>)
    requires ms != [] && SoundMembers(ms) && AllBlank(close) && AllBlank(after)
    requires At(s, r, after + ([','] + PrintMembers(ms, close)))
    ensures ReadObject(s, SkipChar(s, Skip(s, r), ','), acc)
            == Ok(Object(CleanFields(acc, Fields(ms))), r + |after| + 1 + |PrintMembers(ms, close)|)
    decreases ms, 5
  {
    CommaLaid(s, r, after, PrintMembers(ms, close));
    MembersLaid(s, r + |after| + 1, ms, close, acc);
  }

  lemma {:induction false} MembersClosed(s: Text, r: nat, blank: Text, acc: seq<Field>)
    requires AllBlank(blank) && At(s, r, blank + ['}'])
    ensures ReadObject(s, SkipChar(s, Skip(s, r), ','), acc) == Ok(Object(acc), r + |blank| + 1)
  {
    assert blank + ['}'] == blank + (['}'] + []);
    MarkLocated(s, r, blank, '}', []);
    assert Skip(s, r + |blank|) == r + |blank|;
  }

  /** Blanks before a laid-out text and between its tokens change nothing: any two layouts of a value are parsed as the
      same one, that of its printed form. */
  lemma {:induction false} LayoutIrrelevant(l: Laid, lead: Text, indent: int)
    requires Sound(l) && AllBlank(lead)
    ensures ReadValue(lead + Print(l), 0) == Ok(Clean(ValueOf(l)), |lead| + |Print(l)|)
    ensures ReadValue(Dump(ValueOf(l), indent, 0), 0).Ok?
    ensures ReadValue(lead + Print(l), 0).v == ReadValue(Dump(ValueOf(l), indent, 0), 0).v
  {
    LedPlaced(lead, Print(l), l);
    LaidRound(lead + Print(l), |lead|, l);
    ReadSkips(lead + Print(l), 0, |lead|);
    ParseOfDump(ValueOf(l), indent);
  }

  lemma {:induction false} LedPlaced(lead: Text, t: Text, l: Laid)
    requires Sound(l) && AllBlank(lead) && t == Print(l)
    ensures var s := lead + t; At(s, |lead|, t) && Skip(s, 0) == |lead| < |s| && !IsSpace(s[|lead|])
  {
    var s := lead + t;
    PrintStarts(l);
    BlanksSkip(lead);
    AtSplit(s, 0, lead, t);
    AtFirst(s, |lead|, t);
    SkipBlank(s, 0, lead);
  }
}
