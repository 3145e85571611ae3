/**
 * JSON values, the two canonical printers (the updater's in Go, the release
 * pipeline's in TypeScript) and the proof that printed text is unambiguous.
 */
module CanonicalText {

  /** A decoded document; a number keeps the text it was spelled with. */
  datatype Value =
    | Null
    | Bool(b: bool)
    | Num(text: string)
    | Str(s: string)
    | Arr(items: seq<Value>)
    | Obj(members: seq<Member>)

  datatype Member = Member(key: string, value: Value)

  /**
   * Go's encoder writes short escapes for backspace and form feed only from Go
   * 1.22 on; JavaScript's number printing is a foreign function of the text.
   */
  datatype Style = Go(shortEscapes: bool) | Js(number: string -> string)

  const BACKSPACE: char := 8 as char
  const FORM_FEED: char := 12 as char
  const LINE_SEPARATOR: char := 0x2028 as char
  const PARAGRAPH_SEPARATOR: char := 0x2029 as char

  function HexDigit(n: nat): char
    requires n < 16
  {
    if n < 10 then (48 + n) as char else (87 + n) as char
  }

  /** One character of a quoted string. */
  function Esc(style: Style, c: char): (r: string)
    ensures |r| > 0 && r[0] != '"'
  {
    if c == '"' then ['\\', '"']
    else if c == '\\' then ['\\', '\\']
    else if c == '\n' then ['\\', 'n']
    else if c == '\r' then ['\\', 'r']
    else if c == '\t' then ['\\', 't']
    else if c == BACKSPACE && (style.Js? || style.shortEscapes) then ['\\', 'b']
    else if c == FORM_FEED && (style.Js? || style.shortEscapes) then ['\\', 'f']
    else if c < ' ' then ['\\', 'u', '0', '0', HexDigit(c as nat / 16), HexDigit(c as nat % 16)]
    else if style.Go? && c == LINE_SEPARATOR then ['\\', 'u', '2', '0', '2', '8']
    else if style.Go? && c == PARAGRAPH_SEPARATOR then ['\\', 'u', '2', '0', '2', '9']
    else [c]
  }

  function EscAll(style: Style, s: string): string {
    if s == [] then [] else Esc(style, s[0]) + EscAll(style, s[1..])
  }

  function Quote(style: Style, s: string): string { ['"'] + (EscAll(style, s) + ['"']) }

  function NumText(style: Style, t: string): string { if style.Go? then t else style.number(t) }

  // ---- the text of a value in the order its members stand ----

  function Text(style: Style, v: Value): string
    decreases v, 0
  {
    match v
    case Null => ['n', 'u', 'l', 'l']
    case Bool(b) => if b then ['t', 'r', 'u', 'e'] else ['f', 'a', 'l', 's', 'e']
    case Num(t) => NumText(style, t)
    case Str(s) => Quote(style, s)
    case Arr(items) => ['['] + (ItemsText(style, items) + [']'])
    case Obj(members) => ['{'] + (MembersText(style, members) + ['}'])
  }

  function ItemsText(style: Style, items: seq<Value>): string
    decreases items, 0
  {
    if items == [] then [] else Text(style, items[0]) + MoreItems(style, items[1..])
  }

  function MoreItems(style: Style, items: seq<Value>): string
    decreases items, 1
  {
    if items == [] then [] else [','] + ItemsText(style, items)
  }

  function Entry(style: Style, m: Member): string
    decreases m, 0
  {
    Quote(style, m.key) + ([':'] + Text(style, m.value))
  }

  function MembersText(style: Style, members: seq<Member>): string
    decreases members, 0
  {
    if members == [] then [] else Entry(style, members[0]) + MoreMembers(style, members[1..])
  }

  function MoreMembers(style: Style, members: seq<Member>): string
    decreases members, 1
  {
    if members == [] then [] else [','] + MembersText(style, members)
  }

  // ---- numbers ----

  predicate NumChar(c: char) { '0' <= c <= '9' || c == '-' || c == '+' || c == '.' || c == 'e' || c == 'E' }

  /** A JSON number's shape, as far as telling it from its surroundings goes. */
  predicate NumberText(t: string) {
    |t| > 0 && (t[0] == '-' || '0' <= t[0] <= '9') && forall i :: 0 <= i < |t| ==> NumChar(t[i])
  }

  /** Every number is spelled as a number and printed as it is spelled. */
  predicate PlainNumbers(style: Style, v: Value)
    decreases v
  {
    match v
    case Num(t) => NumberText(t) && NumText(style, t) == t
    case Arr(items) => forall i :: 0 <= i < |items| ==> PlainNumbers(style, items[i])
    case Obj(members) => forall i :: 0 <= i < |members| ==> PlainNumbers(style, members[i].value)
    case _ => true
  }

  /** Every number is printed as a number. */
  predicate PrintsNumbers(style: Style, v: Value)
    decreases v
  {
    match v
    case Num(t) => NumberText(NumText(style, t))
    case Arr(items) => forall i :: 0 <= i < |items| ==> PrintsNumbers(style, items[i])
    case Obj(members) => forall i :: 0 <= i < |members| ==> PrintsNumbers(style, members[i].value)
    case _ => true
  }

  lemma {:induction false} PlainPrintsNumbers(style: Style, v: Value)
    requires PlainNumbers(style, v)
    ensures PrintsNumbers(style, v)
    decreases v
  {
    match v
    case Arr(items) =>
      forall i | 0 <= i < |items| ensures PrintsNumbers(style, items[i]) { PlainPrintsNumbers(style, items[i]); }
    case Obj(members) =>
      forall i | 0 <= i < |members| ensures PrintsNumbers(style, members[i].value) {
        PlainPrintsNumbers(style, members[i].value);
      }
    case _ =>
  }

  /** What printing in two styles alike comes to: the same structure, strings quoted alike, numbers printed alike. */
  predicate Like(f: Style, g: Style, v: Value, w: Value)
    decreases v
  {
    match v
    case Num(t) => w.Num? && NumText(f, t) == NumText(g, w.text)
    case Str(s) => w == v && Quote(f, s) == Quote(g, s)
    case Arr(items) => w.Arr? && |items| == |w.items| && forall i :: 0 <= i < |items| ==> Like(f, g, items[i], w.items[i])
    case Obj(ms) => w.Obj? && |ms| == |w.members| && forall i :: 0 <= i < |ms| ==> LikeMember(f, g, ms[i], w.members[i])
    case _ => v == w
  }

  predicate LikeMember(f: Style, g: Style, m: Member, n: Member)
    decreases m
  {
    m.key == n.key && Quote(f, m.key) == Quote(g, m.key) && Like(f, g, m.value, n.value)
  }

  /** In one style that prints numbers as they are spelled, alike means equal. */
  lemma {:induction false} LikeIsEqual(style: Style, v: Value, w: Value)
    requires PlainNumbers(style, v) && PlainNumbers(style, w) && Like(style, style, v, w)
    ensures v == w
    decreases v
  {
    match v
    case Arr(items) =>
      forall i | 0 <= i < |items| ensures items[i] == w.items[i] { LikeIsEqual(style, items[i], w.items[i]); }
      assert items == w.items;
    case Obj(ms) =>
      forall i | 0 <= i < |ms| ensures ms[i] == w.members[i] {
        assert LikeMember(style, style, ms[i], w.members[i]);
        LikeIsEqual(style, ms[i].value, w.members[i].value);
      }
      assert ms == w.members;
    case _ =>
  }

  // ---- unambiguous text ----

  /** Escapes of both styles form one prefix-free code that never starts with the closing quote. */
  lemma EscPrefixFree(f: Style, g: Style, c: char, d: char, x: string, y: string)
    requires Esc(f, c) + x == Esc(g, d) + y
    ensures c == d && x == y && Esc(f, c) == Esc(g, d)
  {
    var a, b := Esc(f, c), Esc(g, d);
    assert (a + x)[0] == a[0] && (b + y)[0] == b[0];
    if a[0] == '\\' {
      assert (a + x)[1] == a[1] && (b + y)[1] == b[1];
      if a[1] == 'u' {
        assert (a + x)[2] == a[2] && (b + y)[2] == b[2];
        assert (a + x)[4] == a[4] && (b + y)[4] == b[4];
        assert (a + x)[5] == a[5] && (b + y)[5] == b[5];
      }
    }
    assert |a| == |b|;
    assert a == (a + x)[..|a|] && b == (b + y)[..|b|];
    assert x == (a + x)[|a|..] && y == (b + y)[|b|..];
  }

  lemma Assoc(a: string, b: string, c: string)
    ensures (a + b) + c == a + (b + c)
  {}

  /** Dropping the same first character from two equal texts. */
  lemma Uncons(c: char, a: string, b: string)
    requires [c] + a == [c] + b
    ensures a == b
  {
    assert a == ([c] + a)[1..] && b == ([c] + b)[1..];
  }

  lemma SameLength(a: string, b: string, x: string, y: string)
    requires a + x == b + y && |a| == |b|
    ensures a == b && x == y
  {
    assert a == (a + x)[..|a|] && b == (b + y)[..|b|];
    assert x == (a + x)[|a|..] && y == (b + y)[|b|..];
  }

  lemma {:induction false} EscAllUnique(f: Style, g: Style, s: string, t: string, x: string, y: string)
    requires EscAll(f, s) + (['"'] + x) == EscAll(g, t) + (['"'] + y)
    ensures s == t && x == y && EscAll(f, s) == EscAll(g, t)
  {
    var p, q := ['"'] + x, ['"'] + y;
    assert p[0] == '"' && q[0] == '"';
    if s != [] {
      Assoc(Esc(f, s[0]), EscAll(f, s[1..]), p);
      assert (EscAll(f, s) + p)[0] == Esc(f, s[0])[0];
    }
    if t != [] {
      Assoc(Esc(g, t[0]), EscAll(g, t[1..]), q);
      assert (EscAll(g, t) + q)[0] == Esc(g, t[0])[0];
    }
    if s == [] && t == [] {
      assert [] + p == p && [] + q == q;
      Uncons('"', x, y);
    } else {
      assert [] + p == p && [] + q == q;
      EscPrefixFree(f, g, s[0], t[0], EscAll(f, s[1..]) + p, EscAll(g, t[1..]) + q);
      EscAllUnique(f, g, s[1..], t[1..], x, y);
      assert s == [s[0]] + s[1..] && t == [t[0]] + t[1..];
    }
  }

  /** Opening a bracketed text: the bracket, then the inside, then the closing one and what follows. */
  lemma Opened(open: char, inner: string, close: char, x: string)
    ensures ([open] + (inner + [close])) + x == [open] + (inner + ([close] + x))
  {}

  lemma QuoteUnique(f: Style, g: Style, s: string, t: string, x: string, y: string)
    requires Quote(f, s) + x == Quote(g, t) + y
    ensures s == t && x == y && Quote(f, s) == Quote(g, t)
  {
    Opened('"', EscAll(f, s), '"', x);
    Opened('"', EscAll(g, t), '"', y);
    Uncons('"', EscAll(f, s) + (['"'] + x), EscAll(g, t) + (['"'] + y));
    EscAllUnique(f, g, s, t, x, y);
  }

  /** What may follow a value: nothing, a comma or a closing bracket. */
  predicate Ends(x: string) { x == [] || x[0] == ',' || x[0] == ']' || x[0] == '}' }

  /** How many leading characters may belong to a number. */
  function Span(s: string): nat {
    if s == [] || !NumChar(s[0]) then 0 else 1 + Span(s[1..])
  }

  lemma {:induction false} SpanOf(t: string, x: string)
    requires Ends(x) && forall i :: 0 <= i < |t| ==> NumChar(t[i])
    ensures Span(t + x) == |t|
  {
    if t == [] {
      assert t + x == x;
    } else {
      SpanOf(t[1..], x);
      assert (t + x)[1..] == t[1..] + x;
    }
  }

  lemma NumberUnique(t: string, u: string, x: string, y: string)
    requires NumberText(t) && NumberText(u) && Ends(x) && Ends(y) && t + x == u + y
    ensures t == u && x == y
  {
    SpanOf(t, x);
    SpanOf(u, y);
    SameLength(t, u, x, y);
  }

  /** The first character tells the kinds of values apart. */
  function Kind(v: Value): nat {
    match v case Null => 0 case Bool(b) => (if b then 1 else 2) case Num(_) => 3 case Str(_) => 4 case Arr(_) => 5 case Obj(_) => 6
  }

  function KindOf(c: char): nat {
    if c == 'n' then 0 else if c == 't' then 1 else if c == 'f' then 2
    else if c == '"' then 4 else if c == '[' then 5 else if c == '{' then 6 else 3
  }

  lemma FirstTells(style: Style, v: Value)
    requires PrintsNumbers(style, v)
    ensures |Text(style, v)| > 0 && KindOf(Text(style, v)[0]) == Kind(v)
    ensures Text(style, v)[0] != ']' && Text(style, v)[0] != ','
  {}

  lemma ScalarUnique(f: Style, g: Style, v: Value, w: Value, x: string, y: string)
    requires PrintsNumbers(f, v) && PrintsNumbers(g, w) && Ends(x) && Ends(y)
    requires Kind(v) == Kind(w) < 5 && Text(f, v) + x == Text(g, w) + y
    ensures Like(f, g, v, w) && x == y
  {
    match v
    case Null => SameLength(Text(f, v), Text(g, w), x, y);
    case Bool(_) => SameLength(Text(f, v), Text(g, w), x, y);
    case Num(t) => NumberUnique(NumText(f, t), NumText(g, w.text), x, y);
    case Str(s) => QuoteUnique(f, g, s, w.s, x, y);
  }

  lemma KindsAgree(f: Style, g: Style, v: Value, w: Value, x: string, y: string)
    requires PrintsNumbers(f, v) && PrintsNumbers(g, w) && Text(f, v) + x == Text(g, w) + y
    ensures Kind(v) == Kind(w)
  {
    FirstTells(f, v);
    FirstTells(g, w);
    assert (Text(f, v) + x)[0] == Text(f, v)[0] && (Text(g, w) + y)[0] == Text(g, w)[0];
  }

  /** Printed text reads back one way only: equal texts followed by value ends come from equal values. */
  lemma TextUnique(style: Style, v: Value, w: Value, x: string, y: string)
    requires PlainNumbers(style, v) && PlainNumbers(style, w) && Ends(x) && Ends(y)
    requires Text(style, v) + x == Text(style, w) + y
    ensures v == w && x == y
  {
    PlainPrintsNumbers(style, v);
    PlainPrintsNumbers(style, w);
    TextsAlike(style, style, v, w, x, y);
    LikeIsEqual(style, v, w);
  }

  /** Texts of two styles, followed by value ends, are equal only for values that print alike throughout. */
  lemma {:induction false} TextsAlike(f: Style, g: Style, v: Value, w: Value, x: string, y: string)
    requires PrintsNumbers(f, v) && PrintsNumbers(g, w) && Ends(x) && Ends(y)
    requires Text(f, v) + x == Text(g, w) + y
    ensures Like(f, g, v, w) && x == y
    decreases v, 0
  {
    KindsAgree(f, g, v, w, x, y);
    match v
    case Arr(items) => ArraysAlike(f, g, items, w.items, x, y);
    case Obj(members) => ObjectsAlike(f, g, members, w.members, x, y);
    case _ => ScalarUnique(f, g, v, w, x, y);
  }

  lemma {:induction false} ArraysAlike(f: Style, g: Style, v: seq<Value>, w: seq<Value>, x: string, y: string)
    requires PrintsNumbers(f, Arr(v)) && PrintsNumbers(g, Arr(w))
    requires Text(f, Arr(v)) + x == Text(g, Arr(w)) + y
    ensures Like(f, g, Arr(v), Arr(w)) && x == y
    decreases v, 2
  {
    var p, q := [']'] + x, [']'] + y;
    Opened('[', ItemsText(f, v), ']', x);
    Opened('[', ItemsText(g, w), ']', y);
    Uncons('[', ItemsText(f, v) + p, ItemsText(g, w) + q);
    ItemsAlike(f, g, v, w, p, q);
    Uncons(']', x, y);
  }

  lemma {:induction false} ObjectsAlike(f: Style, g: Style, v: seq<Member>, w: seq<Member>, x: string, y: string)
    requires PrintsNumbers(f, Obj(v)) && PrintsNumbers(g, Obj(w))
    requires Text(f, Obj(v)) + x == Text(g, Obj(w)) + y
    ensures Like(f, g, Obj(v), Obj(w)) && x == y
    decreases v, 2
  {
    var p, q := ['}'] + x, ['}'] + y;
    Opened('{', MembersText(f, v), '}', x);
    Opened('{', MembersText(g, w), '}', y);
    Uncons('{', MembersText(f, v) + p, MembersText(g, w) + q);
    MembersAlike(f, g, v, w, p, q);
    Uncons('}', x, y);
  }

  /** What follows the first item: the closing bracket, or a comma and the rest. */
  lemma MoreItemsEnd(style: Style, v: seq<Value>, x: string)
    requires |x| > 0 && x[0] == ']'
    ensures var p := MoreItems(style, v) + x; |p| > 0 && Ends(p) && (p[0] == ']' <==> v == [])
    ensures v == [] ==> MoreItems(style, v) + x == x
    ensures v != [] ==> MoreItems(style, v) + x == [','] + (ItemsText(style, v) + x)
  {
    if v != [] {
      Assoc([','], ItemsText(style, v), x);
      assert ([','] + (ItemsText(style, v) + x))[0] == ',';
    }
  }

  /** The text of items before a closing bracket starts with an item, or is the bracket. */
  lemma ItemsStart(style: Style, v: seq<Value>, x: string)
    requires PrintsNumbers(style, Arr(v)) && |x| > 0 && x[0] == ']'
    ensures |ItemsText(style, v) + x| > 0 && ((ItemsText(style, v) + x)[0] == ']' <==> v == [])
    ensures v == [] ==> ItemsText(style, v) + x == x
    ensures v != [] ==> ItemsText(style, v) + x == Text(style, v[0]) + (MoreItems(style, v[1..]) + x)
  {
    if v != [] {
      FirstTells(style, v[0]);
      Assoc(Text(style, v[0]), MoreItems(style, v[1..]), x);
      assert (Text(style, v[0]) + (MoreItems(style, v[1..]) + x))[0] == Text(style, v[0])[0];
    }
  }

  lemma LikeItems(f: Style, g: Style, v: seq<Value>, w: seq<Value>)
    requires v != [] && w != [] && Like(f, g, v[0], w[0]) && |v| == |w|
    requires |v| > 1 ==> Like(f, g, Arr(v[1..]), Arr(w[1..]))
    ensures Like(f, g, Arr(v), Arr(w))
  {
    forall i | 0 <= i < |v| ensures Like(f, g, v[i], w[i]) {
      if i > 0 { assert Like(f, g, v[1..][i - 1], w[1..][i - 1]); }
    }
  }

  lemma LikeMembers(f: Style, g: Style, v: seq<Member>, w: seq<Member>)
    requires v != [] && w != [] && LikeMember(f, g, v[0], w[0]) && |v| == |w|
    requires |v| > 1 ==> Like(f, g, Obj(v[1..]), Obj(w[1..]))
    ensures Like(f, g, Obj(v), Obj(w))
  {
    forall i | 0 <= i < |v| ensures LikeMember(f, g, v[i], w[i]) {
      if i > 0 { assert LikeMember(f, g, v[1..][i - 1], w[1..][i - 1]); }
    }
  }

  lemma {:induction false} ItemsAlike(f: Style, g: Style, v: seq<Value>, w: seq<Value>, x: string, y: string)
    requires PrintsNumbers(f, Arr(v)) && PrintsNumbers(g, Arr(w))
    requires |x| > 0 && x[0] == ']' && |y| > 0 && y[0] == ']'
    requires ItemsText(f, v) + x == ItemsText(g, w) + y
    ensures Like(f, g, Arr(v), Arr(w)) && x == y
    decreases v, 1
  {
    ItemsStart(f, v, x);
    ItemsStart(g, w, y);
    if v != [] {
      MoreItemsEnd(f, v[1..], x);
      MoreItemsEnd(g, w[1..], y);
      TextsAlike(f, g, v[0], w[0], MoreItems(f, v[1..]) + x, MoreItems(g, w[1..]) + y);
      if |v| > 1 {
        Uncons(',', ItemsText(f, v[1..]) + x, ItemsText(g, w[1..]) + y);
        ItemsAlike(f, g, v[1..], w[1..], x, y);
      }
      LikeItems(f, g, v, w);
    }
  }

  lemma MoreMembersEnd(style: Style, v: seq<Member>, x: string)
    requires |x| > 0 && x[0] == '}'
    ensures var p := MoreMembers(style, v) + x; |p| > 0 && Ends(p) && (p[0] == '}' <==> v == [])
    ensures v == [] ==> MoreMembers(style, v) + x == x
    ensures v != [] ==> MoreMembers(style, v) + x == [','] + (MembersText(style, v) + x)
  {
    if v != [] {
      Assoc([','], MembersText(style, v), x);
      assert ([','] + (MembersText(style, v) + x))[0] == ',';
    }
  }

  lemma EntrySplit(style: Style, m: Member, p: string)
    ensures Entry(style, m) + p == Quote(style, m.key) + ([':'] + (Text(style, m.value) + p))
    ensures (Entry(style, m) + p)[0] == '"'
  {
    var k, t := Quote(style, m.key), Text(style, m.value);
    Assoc(k, [':'] + t, p);
    Assoc([':'], t, p);
    assert k[0] == '"';
  }

  lemma MembersStart(style: Style, v: seq<Member>, x: string)
    requires |x| > 0 && x[0] == '}'
    ensures |MembersText(style, v) + x| > 0 && ((MembersText(style, v) + x)[0] == '}' <==> v == [])
    ensures v == [] ==> MembersText(style, v) + x == x
    ensures v != [] ==> MembersText(style, v) + x == Entry(style, v[0]) + (MoreMembers(style, v[1..]) + x)
  {
    if v != [] {
      Assoc(Entry(style, v[0]), MoreMembers(style, v[1..]), x);
      EntrySplit(style, v[0], MoreMembers(style, v[1..]) + x);
    }
  }

  lemma {:induction false} MembersAlike(f: Style, g: Style, v: seq<Member>, w: seq<Member>, x: string, y: string)
    requires PrintsNumbers(f, Obj(v)) && PrintsNumbers(g, Obj(w))
    requires |x| > 0 && x[0] == '}' && |y| > 0 && y[0] == '}'
    requires MembersText(f, v) + x == MembersText(g, w) + y
    ensures Like(f, g, Obj(v), Obj(w)) && x == y
    decreases v, 1
  {
    MembersStart(f, v, x);
    MembersStart(g, w, y);
    if v != [] {
      var p, q := MoreMembers(f, v[1..]) + x, MoreMembers(g, w[1..]) + y;
      MoreMembersEnd(f, v[1..], x);
      MoreMembersEnd(g, w[1..], y);
      EntriesAlike(f, g, v[0], w[0], p, q);
      if |v| > 1 {
        Uncons(',', MembersText(f, v[1..]) + x, MembersText(g, w[1..]) + y);
        MembersAlike(f, g, v[1..], w[1..], x, y);
      }
      LikeMembers(f, g, v, w);
    }
  }

  lemma {:induction false} EntriesAlike(f: Style, g: Style, m: Member, n: Member, p: string, q: string)
    requires PrintsNumbers(f, m.value) && PrintsNumbers(g, n.value) && Ends(p) && Ends(q)
    requires Entry(f, m) + p == Entry(g, n) + q
    ensures LikeMember(f, g, m, n) && p == q
    decreases m, 1
  {
    var a, b := Text(f, m.value) + p, Text(g, n.value) + q;
    EntrySplit(f, m, p);
    EntrySplit(g, n, q);
    QuoteUnique(f, g, m.key, n.key, [':'] + a, [':'] + b);
    Uncons(':', a, b);
    TextsAlike(f, g, m.value, n.value, p, q);
  }
}
