/** Reading canonical text back, as sections 2 to 7 of RFC 8259 read it, without any white space. */
module CanonicalDecode {
  import opened CanonicalText
  import opened Canonical
  import opened Options
  import opened Lex

  // ---- strings ----

  function HexValue(c: char): Option<nat> {
    if '0' <= c <= '9' then Some(c as nat - '0' as nat)
    else if 'a' <= c <= 'f' then Some(10 + (c as nat - 'a' as nat))
    else if 'A' <= c <= 'F' then Some(10 + (c as nat - 'A' as nat))
    else None
  }

  /** Four hexadecimal digits that spell a character by themselves. */
  function ReadHex(t: string): Option<char>
    requires |t| == 4
  {
    var a, b, c, d := HexValue(t[0]), HexValue(t[1]), HexValue(t[2]), HexValue(t[3]);
    if a.None? || b.None? || c.None? || d.None? then None
    else
      var n := 4096 * a.value + 256 * b.value + 16 * c.value + d.value;
      if 0xD800 <= n < 0xE000 || n >= 0x10000 then None else Some(n as char)
  }

  /** One character of a quoted string, plain or escaped, and what follows it. */
  function ReadChar(t: string): (r: Option<(char, string)>)
    ensures r.Some? ==> |r.value.1| < |t|
  {
    if t == [] || t[0] == '"' || t[0] < ' ' then None
    else if t[0] != '\\' then Some((t[0], t[1..]))
    else if |t| == 1 then None
    else if t[1] == '"' || t[1] == '\\' || t[1] == '/' then Some((t[1], t[2..]))
    else if t[1] == 'b' then Some((8 as char, t[2..]))
    else if t[1] == 'f' then Some((12 as char, t[2..]))
    else if t[1] == 'n' then Some((10 as char, t[2..]))
    else if t[1] == 'r' then Some((13 as char, t[2..]))
    else if t[1] == 't' then Some((9 as char, t[2..]))
    else if t[1] == 'u' && |t| >= 6 && ReadHex(t[2..6]).Some? then Some((ReadHex(t[2..6]).value, t[6..]))
    else None
  }

  /** The rest of a quoted string after its opening quote, and what follows its closing one. */
  function ReadString(t: string): (r: Option<(string, string)>)
    ensures r.Some? ==> |r.value.1| < |t|
  {
    if t == [] then None
    else if t[0] == '"' then Some(([], t[1..]))
    else
      var c := ReadChar(t);
      if c.None? then None
      else
        var rest := ReadString(c.value.1);
        if rest.None? then None else Some(([c.value.0] + rest.value.0, rest.value.1))
  }

  /** Every escape reads back as the character it stands for. */
  lemma ReadEsc(style: Style, c: char, x: string)
    ensures ReadChar(Esc(style, c) + x) == Some((c, x))
    ensures (Esc(style, c) + x)[0] != '"'
  {
    var e := Esc(style, c);
    var t := e + x;
    assert t[0] == e[0] && t[|e|..] == x;
    if |e| > 1 { assert t[1] == e[1]; }
    if |e| == 6 {
      assert t[2] == e[2] && t[3] == e[3] && t[4] == e[4] && t[5] == e[5];
      var h := t[2..6];
      assert h[0] == e[2] && h[1] == e[3] && h[2] == e[4] && h[3] == e[5];
    }
  }

  lemma MoreCharsRead(t: string, c: char, u: string, s: string, x: string)
    requires t != [] && t[0] != '"' && ReadChar(t) == Some((c, u)) && ReadString(u) == Some((s, x))
    ensures ReadString(t) == Some(([c] + s, x))
  {}

  lemma {:induction false} ReadEscAll(style: Style, s: string, x: string)
    ensures ReadString(EscAll(style, s) + (['"'] + x)) == Some((s, x))
  {
    var q := ['"'] + x;
    assert q[0] == '"' && q[1..] == x;
    if s == [] {
      assert [] + q == q;
    } else {
      var e, rest := Esc(style, s[0]), EscAll(style, s[1..]);
      Assoc(e, rest, q);
      ReadEsc(style, s[0], rest + q);
      ReadEscAll(style, s[1..], x);
      MoreCharsRead(e + (rest + q), s[0], rest + q, s[1..], x);
      assert s == [s[0]] + s[1..];
    }
  }

  /** Reading a whole quoted string. */
  function Unquote(t: string): Option<string> {
    if t == [] || t[0] != '"' then None
    else
      var r := ReadString(t[1..]);
      if r.None? || r.value.1 != [] then None else Some(r.value.0)
  }

  /** Unquoting undoes quoting, in either printer's style. */
  lemma UnquoteQuote(style: Style, s: string)
    ensures Unquote(Quote(style, s)) == Some(s)
  {
    ReadEscAll(style, s, []);
    assert ['"'] + [] == ['"'];
    assert Quote(style, s)[1..] == EscAll(style, s) + ['"'];
  }

  // ---- values ----

  predicate Starts(t: string, word: string) { |t| >= |word| && t[..|word|] == word }

  lemma SpanWithin(t: string)
    ensures Span(t) <= |t|
  {}

  /** One value and what follows it. */
  function ReadValue(t: string): (r: Option<(Value, string)>)
    ensures r.Some? ==> |r.value.1| < |t|
    decreases |t|, 0
  {
    SpanWithin(t);
    if t == [] then None
    else if Starts(t, "null") then Some((Null, t[4..]))
    else if Starts(t, "true") then Some((Bool(true), t[4..]))
    else if Starts(t, "false") then Some((Bool(false), t[5..]))
    else if t[0] == '"' then
      var s := ReadString(t[1..]);
      if s.None? then None else Some((Str(s.value.0), s.value.1))
    else if t[0] == '[' then
      if |t| > 1 && t[1] == ']' then Some((Arr([]), t[2..]))
      else
        var items := ReadItems(t[1..]);
        if items.None? then None else Some((Arr(items.value.0), items.value.1))
    else if t[0] == '{' then
      if |t| > 1 && t[1] == '}' then Some((Obj([]), t[2..]))
      else
        var members := ReadMembers(t[1..]);
        if members.None? then None else Some((Obj(members.value.0), members.value.1))
    else if Span(t) > 0 && NumberText(t[..Span(t)]) then Some((Num(t[..Span(t)]), t[Span(t)..]))
    else None
  }

  /** One item or more, up to the closing bracket. */
  function ReadItems(t: string): (r: Option<(seq<Value>, string)>)
    ensures r.Some? ==> |r.value.1| < |t|
    decreases |t|, 1
  {
    var v := ReadValue(t);
    if v.None? || v.value.1 == [] then None
    else if v.value.1[0] == ']' then Some(([v.value.0], v.value.1[1..]))
    else if v.value.1[0] != ',' then None
    else
      var more := ReadItems(v.value.1[1..]);
      if more.None? then None else Some(([v.value.0] + more.value.0, more.value.1))
  }

  /** One member: its key, a colon, its value. */
  function ReadMember(t: string): (r: Option<(Member, string)>)
    ensures r.Some? ==> |r.value.1| < |t|
    decreases |t|, 1
  {
    if t == [] || t[0] != '"' then None
    else
      var k := ReadString(t[1..]);
      if k.None? || k.value.1 == [] || k.value.1[0] != ':' then None
      else
        var v := ReadValue(k.value.1[1..]);
        if v.None? then None else Some((Member(k.value.0, v.value.0), v.value.1))
  }

  /** One member or more, up to the closing brace. */
  function ReadMembers(t: string): (r: Option<(seq<Member>, string)>)
    ensures r.Some? ==> |r.value.1| < |t|
    decreases |t|, 2
  {
    var m := ReadMember(t);
    if m.None? || m.value.1 == [] then None
    else if m.value.1[0] == '}' then Some(([m.value.0], m.value.1[1..]))
    else if m.value.1[0] != ',' then None
    else
      var more := ReadMembers(m.value.1[1..]);
      if more.None? then None else Some(([m.value.0] + more.value.0, more.value.1))
  }

  // ---- reading back what was printed ----

  /** The text of a value followed by something that may follow one reads back as that value. */
  lemma {:induction false} ReadText(style: Style, v: Value, x: string)
    requires PlainNumbers(style, v) && Ends(x)
    ensures ReadValue(Text(style, v) + x) == Some((v, x))
    decreases v, 0
  {
    match v
    case Null => ReadWord("null", x);
    case Bool(b) => ReadWord(if b then "true" else "false", x);
    case Num(t) => ReadNumber(t, x);
    case Str(s) => ReadQuoted(style, s, x);
    case Arr(items) => ReadArray(style, items, x);
    case Obj(ms) => ReadObject(style, ms, x);
  }

  lemma ReadWord(word: string, x: string)
    requires word == "null" || word == "true" || word == "false"
    ensures ReadValue(word + x)
            == Some((if word == "null" then Null else if word == "true" then Bool(true) else Bool(false), x))
  {
    var t := word + x;
    assert t[..|word|] == word && t[|word|..] == x;
    assert t[0] == word[0];
    if word != "null" { NotWord(t, "null"); }
    if word == "false" { NotWord(t, "true"); }
  }

  lemma ReadNumber(n: string, x: string)
    requires NumberText(n) && Ends(x)
    ensures ReadValue(n + x) == Some((Num(n), x))
  {
    var t := n + x;
    SpanOf(n, x);
    assert t[..|n|] == n && t[|n|..] == x && t[0] == n[0];
    NotWord(t, "null");
    NotWord(t, "true");
    NotWord(t, "false");
  }

  lemma NotWord(t: string, word: string)
    requires |t| > 0 && |word| > 0 && t[0] != word[0]
    ensures !Starts(t, word)
  {
    assert |t| >= |word| ==> t[..|word|][0] == t[0];
  }

  /** Text that starts with a quote or a bracket is none of the words. */
  lemma Bracketed(t: string)
    requires |t| > 0 && (t[0] == '"' || t[0] == '[' || t[0] == '{')
    ensures !Starts(t, "null") && !Starts(t, "true") && !Starts(t, "false")
  {
    NotWord(t, "null");
    NotWord(t, "true");
    NotWord(t, "false");
  }

  lemma ReadQuoted(style: Style, s: string, x: string)
    ensures ReadValue(Quote(style, s) + x) == Some((Str(s), x))
  {
    var t := Quote(style, s) + x;
    Opened('"', EscAll(style, s), '"', x);
    assert t[0] == '"' && t[1..] == EscAll(style, s) + (['"'] + x);
    Bracketed(t);
    ReadEscAll(style, s, x);
  }

  lemma {:induction false} ReadArray(style: Style, items: seq<Value>, x: string)
    requires PlainNumbers(style, Arr(items))
    ensures ReadValue(Text(style, Arr(items)) + x) == Some((Arr(items), x))
    decreases items, 3
  {
    var t, p := Text(style, Arr(items)) + x, [']'] + x;
    Opened('[', ItemsText(style, items), ']', x);
    assert t[0] == '[' && t[1..] == ItemsText(style, items) + p;
    Bracketed(t);
    PlainPrintsNumbers(style, Arr(items));
    ItemsStart(style, items, p);
    assert t[1] == t[1..][0];
    assert p[1..] == x;
    if items == [] {
      assert t[2..] == t[1..][1..];
    } else {
      ReadItemsText(style, items, x, p, t[1..]);
    }
  }

  lemma LastItemRead(t: string, v: Value, x: string)
    requires ReadValue(t) == Some((v, [']'] + x))
    ensures ReadItems(t) == Some(([v], x))
  {
    assert ([']'] + x)[0] == ']' && ([']'] + x)[1..] == x;
  }

  lemma MoreItemsRead(t: string, v: Value, u: string, items: seq<Value>, x: string)
    requires ReadValue(t) == Some((v, [','] + u)) && ReadItems(u) == Some((items, x))
    ensures ReadItems(t) == Some(([v] + items, x))
  {
    assert ([','] + u)[0] == ',' && ([','] + u)[1..] == u;
  }

  lemma HeadAndTail<T>(s: seq<T>)
    requires s != []
    ensures s == [s[0]] + s[1..] && (|s| == 1 ==> s == [s[0]])
  {}

  /** The first item of a list, and what is left of the list: the closing bracket, or a comma and the other items. */
  lemma {:induction false} ReadHead(style: Style, items: seq<Value>, p: string, t: string) returns (u: string)
    requires PlainNumbers(style, Arr(items)) && items != [] && |p| > 0 && p[0] == ']' && t == ItemsText(style, items) + p
    ensures |items| == 1 ==> ReadValue(t) == Some((items[0], p))
    ensures |items| > 1 ==> ReadValue(t) == Some((items[0], [','] + u)) && u == ItemsText(style, items[1..]) + p
    decreases items, 1
  {
    PlainPrintsNumbers(style, Arr(items));
    ItemsStart(style, items, p);
    MoreItemsEnd(style, items[1..], p);
    ReadText(style, items[0], MoreItems(style, items[1..]) + p);
    u := ItemsText(style, items[1..]) + p;
  }

  lemma {:induction false} ReadItemsText(style: Style, items: seq<Value>, x: string, p: string, t: string)
    requires PlainNumbers(style, Arr(items)) && items != [] && p == [']'] + x && t == ItemsText(style, items) + p
    ensures ReadItems(t) == Some((items, x))
    decreases items, 2
  {
    var u := ReadHead(style, items, p, t);
    if |items| == 1 {
      LastItemRead(t, items[0], x);
      HeadAndTail(items);
    } else {
      var rest := items[1..];
      ReadItemsText(style, rest, x, p, u);
      MoreItemsRead(t, items[0], u, rest, x);
      HeadAndTail(items);
    }
  }

  lemma {:induction false} ReadObject(style: Style, ms: seq<Member>, x: string)
    requires PlainNumbers(style, Obj(ms))
    ensures ReadValue(Text(style, Obj(ms)) + x) == Some((Obj(ms), x))
    decreases ms, 4
  {
    var t, p := Text(style, Obj(ms)) + x, ['}'] + x;
    Opened('{', MembersText(style, ms), '}', x);
    assert t[0] == '{' && t[1..] == MembersText(style, ms) + p;
    Bracketed(t);
    MembersStart(style, ms, p);
    assert t[1] == t[1..][0];
    assert p[1..] == x;
    if ms == [] {
      assert t[2..] == t[1..][1..];
    } else {
      ReadMembersText(style, ms, x, p, t[1..]);
    }
  }

  lemma {:induction false} ReadEntry(style: Style, m: Member, p: string)
    requires PlainNumbers(style, m.value) && Ends(p)
    ensures ReadMember(Entry(style, m) + p) == Some((m, p))
    decreases m, 1
  {
    var t, a := Entry(style, m) + p, Text(style, m.value) + p;
    EntrySplit(style, m, p);
    Opened('"', EscAll(style, m.key), '"', [':'] + a);
    assert t[0] == '"' && t[1..] == EscAll(style, m.key) + (['"'] + ([':'] + a));
    ReadEscAll(style, m.key, [':'] + a);
    assert ([':'] + a)[0] == ':' && ([':'] + a)[1..] == a;
    ReadText(style, m.value, p);
  }

  lemma LastMemberRead(t: string, m: Member, x: string)
    requires ReadMember(t) == Some((m, ['}'] + x))
    ensures ReadMembers(t) == Some(([m], x))
  {
    assert (['}'] + x)[0] == '}' && (['}'] + x)[1..] == x;
  }

  lemma MoreMembersRead(t: string, m: Member, u: string, ms: seq<Member>, x: string)
    requires ReadMember(t) == Some((m, [','] + u)) && ReadMembers(u) == Some((ms, x))
    ensures ReadMembers(t) == Some(([m] + ms, x))
  {
    assert ([','] + u)[0] == ',' && ([','] + u)[1..] == u;
  }

  /** The first member of a list, and what is left of the list: the closing brace, or a comma and the other members. */
  lemma {:induction false} ReadFirst(style: Style, ms: seq<Member>, p: string, t: string) returns (u: string)
    requires PlainNumbers(style, Obj(ms)) && ms != [] && |p| > 0 && p[0] == '}' && t == MembersText(style, ms) + p
    ensures |ms| == 1 ==> ReadMember(t) == Some((ms[0], p))
    ensures |ms| > 1 ==> ReadMember(t) == Some((ms[0], [','] + u)) && u == MembersText(style, ms[1..]) + p
    decreases ms, 2
  {
    MembersStart(style, ms, p);
    MoreMembersEnd(style, ms[1..], p);
    ReadEntry(style, ms[0], MoreMembers(style, ms[1..]) + p);
    u := MembersText(style, ms[1..]) + p;
  }

  lemma {:induction false} ReadMembersText(style: Style, ms: seq<Member>, x: string, p: string, t: string)
    requires PlainNumbers(style, Obj(ms)) && ms != [] && p == ['}'] + x && t == MembersText(style, ms) + p
    ensures ReadMembers(t) == Some((ms, x))
    decreases ms, 3
  {
    var u := ReadFirst(style, ms, p, t);
    if |ms| == 1 {
      LastMemberRead(t, ms[0], x);
      HeadAndTail(ms);
    } else {
      var rest := ms[1..];
      ReadMembersText(style, rest, x, p, u);
      MoreMembersRead(t, ms[0], u, rest, x);
      HeadAndTail(ms);
    }
  }

  /** A whole document. */
  function Decode(t: string): Option<Value> {
    var r := ReadValue(t);
    if r.None? || r.value.1 != [] then None else Some(r.value.0)
  }

  /** A canonical document is its own canonical form. */
  lemma {:induction false} CanonTwice(short: bool, v: Value)
    requires Valid(v)
    ensures Canon(Go(short), Canon(Go(short), v)) == Canon(Go(short), v)
    decreases v
  {
    match v
    case Arr(items) =>
      forall i | 0 <= i < |items| ensures Canon(Go(short), Canon(Go(short), items[i])) == Canon(Go(short), items[i]) {
        CanonTwice(short, items[i]);
      }
      assert Canon(Go(short), Canon(Go(short), v)).items == Canon(Go(short), v).items;
    case Obj(ms) =>
      var a := CanonMembers(Go(short), ms);
      var s := SortMembers(Go(short), a);
      CanonOfObj(Go(short), ms);
      CanonOfObj(Go(short), s);
      SortKeeps(Go(short), a);
      SortOrders(Go(short), a);
      forall i | 0 <= i < |s| ensures CanonMembers(Go(short), s)[i] == s[i] {
        assert s[i] in a;
        var j :| 0 <= j < |a| && a[j] == s[i];
        CanonTwice(short, ms[j].value);
      }
      assert CanonMembers(Go(short), s) == s;
      SortedStays(short, s);
    case _ =>
  }

  lemma SortedStays(short: bool, s: seq<Member>)
    requires Ordered(Go(short), s)
    ensures SortMembers(Go(short), s) == s
  {
    forall i, j | 0 <= i < j < |s| ensures s[i].key != s[j].key {
      assert Precedes(Go(short), s[i].key, s[j].key);
      if s[i].key == s[j].key { LessIrreflexive(s[i].key); }
    }
    SortKeeps(Go(short), s);
    SortOrders(Go(short), s);
    OrderedUnique(short, SortMembers(Go(short), s), s);
  }

  /** Decoding a document's canonical text gives the document back, up to the order of keys. */
  lemma DecodePrint(short: bool, v: Value)
    requires Valid(v) && PlainNumbers(Go(short), v)
    ensures Decode(Print(Go(short), v)).Some?
    ensures Decode(Print(Go(short), v)) == Some(Canon(Go(short), v)) && Same(v, Decode(Print(Go(short), v)).value)
  {
    CanonKeepsNumbers(Go(short), v);
    ReadText(Go(short), Canon(Go(short), v), []);
    assert Print(Go(short), v) + [] == Print(Go(short), v);
    CanonTwice(short, v);
    OneFormIsSame(short, v, Canon(Go(short), v));
  }
}
