/**
 * Framing one top-level JSON object at a time out of a byte stream, by tracking
 * brace depth and string state only. The grammar below is RFC 8259's, kept
 * concrete: whitespace, escapes and scalar spellings are all preserved.
 */
module Framing {
  const MAX_OBJECT_DEPTH: nat := 64
  const DECODE_MAX_BYTES: nat := 2097152

  datatype Frame =
    | Object(text: string, next: nat)
    | EndOfStream
    | Truncated
    | NotObject
    | TooDeep
    | TooLong

  predicate IsSpace(c: char) { c == ' ' || c == '\t' || c == '\r' || c == '\n' }

  predicate Blank(s: string) { forall i :: 0 <= i < |s| ==> IsSpace(s[i]) }

  /** White space is space, tab, line feed and carriage return, as section 2 of RFC 8259 has it. */
  lemma BlankExactly(s: string)
    ensures Blank(s) <==> forall c :: c in s ==> c as int == 32 || c as int == 9 || c as int == 10 || c as int == 13
  {
    if Blank(s) {
      forall c | c in s ensures IsSpace(c) {
        var i :| 0 <= i < |s| && s[i] == c;
      }
    } else {
      forall i | 0 <= i < |s| ensures s[i] in s {}
    }
  }

  // ---- the lexer state the framing keeps ----

  datatype State = State(depth: nat, inString: bool, escaped: bool)

  const START := State(0, false, false)

  function Step(l: State, c: char): State {
    if l.inString then
      if l.escaped then l.(escaped := false)
      else if c == '\\' then l.(escaped := true)
      else if c == '"' then l.(inString := false)
      else l
    else if c == '"' then l.(inString := true)
    else if c == '{' then l.(depth := l.depth + 1)
    else if c == '}' && l.depth > 0 then l.(depth := l.depth - 1)
    else l
  }

  function Lex(l: State, s: string): State {
    if s == [] then l else Step(Lex(l, s[..|s| - 1]), s[|s| - 1])
  }

  /** From `l`, every nonempty prefix of `s` ends at a depth between `lo` and `hi`. */
  ghost predicate Within(l: State, lo: nat, hi: nat, s: string) {
    s == [] || (Within(l, lo, hi, s[..|s| - 1]) && lo <= Lex(l, s).depth <= hi)
  }

  /** Every nonempty prefix of `s` leaves at least one and at most 64 braces open. */
  ghost predicate Open(s: string) { Within(START, 1, MAX_OBJECT_DEPTH, s) }

  /** The depth just returned to zero, for the first time. */
  ghost predicate Closes(s: string) {
    |s| > 0 && Open(s[..|s| - 1]) && Lex(START, s).depth == 0
  }

  /** What one call may answer at `pos`, given the byte budget of a call. */
  ghost predicate Framed(input: string, pos: nat, max: nat, f: Frame)
    requires pos <= |input|
  {
    match f
    case Object(text, next) =>
      pos <= next <= |input| && next - pos <= max && |text| <= next - pos
      && Blank(input[pos..next - |text|]) && text == input[next - |text|..next]
      && |text| > 0 && text[0] == '{' && Closes(text)
    case EndOfStream => |input| - pos <= max && Blank(input[pos..])
    case Truncated => |input| - pos <= max && OpenUntil(input, pos, |input|)
    case NotObject =>
      exists k: nat :: StartsWrong(input, pos, k) && k + 1 - pos <= max
    case TooDeep =>
      exists k: nat, e: nat :: OpensAt(input, pos, k, e) && e < |input| && e + 1 - pos <= max
                     && Lex(START, input[k..e + 1]).depth == MAX_OBJECT_DEPTH + 1
    case TooLong =>
      |input| - pos > max
      && (Blank(input[pos..pos + max]) || OpenUntil(input, pos, pos + max))
  }

  /** Blanks up to `k`, then an object that is still open at `e`. */
  ghost predicate OpensAt(input: string, pos: nat, k: nat, e: nat) {
    pos <= k < e <= |input| && Blank(input[pos..k]) && input[k] == '{' && Open(input[k..e])
  }

  ghost predicate OpenUntil(input: string, pos: nat, e: nat) {
    exists k: nat :: OpensAt(input, pos, k, e)
  }

  /** Blanks up to `k`, then something other than an opening brace. */
  ghost predicate StartsWrong(input: string, pos: nat, k: nat) {
    pos <= k < |input| && Blank(input[pos..k]) && !IsSpace(input[k]) && input[k] != '{'
  }

  lemma LexSnoc(l: State, s: string, c: char)
    ensures Lex(l, s + [c]) == Step(Lex(l, s), c)
  {
    assert (s + [c])[..|s|] == s;
  }

  lemma OpenSnoc(s: string, c: char)
    requires Open(s) && 1 <= Step(Lex(START, s), c).depth <= MAX_OBJECT_DEPTH
    ensures Open(s + [c])
  {
    LexSnoc(START, s, c);
    assert (s + [c])[..|s|] == s;
  }

  /** Reads one complete top-level object, byte by byte, without looking ahead. */
  method NextDockerJSONValue(input: string, pos: nat, maxObjectBytes: int) returns (f: Frame)
    requires pos <= |input|
    ensures Framed(input, pos, if maxObjectBytes <= 0 then DECODE_MAX_BYTES + 1 else maxObjectBytes, f)
  {
    var max: nat := if maxObjectBytes <= 0 then DECODE_MAX_BYTES + 1 else maxObjectBytes;
    var at: nat := pos;
    var read: nat := 0;
    while true
      invariant pos <= at <= |input| && read == at - pos && read <= max
      invariant Blank(input[pos..at])
      decreases |input| - at
    {
      if at == |input| {
        assert input[pos..at] == input[pos..];
        return EndOfStream;
      }
      var c := input[at];
      read := read + 1;
      if read > max { return TooLong; }
      if IsSpace(c) {
        assert input[pos..at + 1] == input[pos..at] + [c];
        at := at + 1;
        continue;
      }
      if c != '{' {
        assert StartsWrong(input, pos, at);
        return NotObject;
      }
      f := ReadBody(input, pos, at, max);
      return;
    }
  }

  /** One byte of the inner loop: strings hide braces, a backslash hides the next character. */
  method ReadChar(l: State, c: char) returns (next: State)
    requires l.depth > 0
    ensures next == Step(l, c)
  {
    var depth, inString, escaped := l.depth, l.inString, l.escaped;
    if inString {
      if escaped { escaped := false; }
      else if c == '\\' { escaped := true; }
      else if c == '"' { inString := false; }
    } else if c == '"' {
      inString := true;
    } else if c == '{' {
      depth := depth + 1;
    } else if c == '}' {
      depth := depth - 1;
    }
    next := State(depth, inString, escaped);
  }

  /** The inner loop: from the opening brace at `k` to the matching closing one. */
  method ReadBody(input: string, pos: nat, k: nat, max: nat) returns (f: Frame)
    requires pos <= k < |input| && Blank(input[pos..k]) && input[k] == '{' && k + 1 - pos <= max
    ensures Framed(input, pos, max, f)
  {
    var b := [input[k]];
    var at: nat, read: nat := k + 1, k + 1 - pos;
    var l := State(1, false, false);
    OpenBrace(input, k);
    while true
      invariant read == at - pos && Inside(input, pos, max, k, at, l) && b == input[k..at]
      decreases |input| - at
    {
      if at == |input| {
        TruncatedHere(input, pos, max, k, l);
        return Truncated;
      }
      read := read + 1;
      if read > max {
        TooLongHere(input, pos, max, k, at, l);
        return TooLong;
      }
      var c := input[at];
      at := at + 1;
      b := b + [c];
      ghost var was := l;
      l := ReadChar(l, c);
      CharRead(input, pos, max, k, at, was, l);
      if l.depth > MAX_OBJECT_DEPTH { return TooDeep; }
      if l.depth == 0 { return Object(b, at); }
    }
  }

  /** The inner loop before position `at`: blanks, then an object that is still open, within budget. */
  ghost predicate Inside(input: string, pos: nat, max: nat, k: nat, at: nat, l: State) {
    && pos <= k < at <= |input| && at - pos <= max && Blank(input[pos..k]) && input[k] == '{'
    && OpenAs(input[k..at], l)
  }

  /** What one more byte comes to: too deep, the end of the object, or a text that is still open. */
  lemma CharRead(input: string, pos: nat, max: nat, k: nat, at: nat, was: State, l: State)
    requires at > 0 && Inside(input, pos, max, k, at - 1, was) && at <= |input| && at - pos <= max && l == Step(was, input[at - 1])
    ensures if l.depth > MAX_OBJECT_DEPTH then Framed(input, pos, max, TooDeep)
            else if l.depth == 0 then Framed(input, pos, max, Object(input[k..at], at))
            else Inside(input, pos, max, k, at, l)
  {
    if l.depth > MAX_OBJECT_DEPTH { TooDeepHere(input, pos, max, k, at, was); }
    else if l.depth == 0 { ObjectHere(input, pos, max, k, at, was); }
    else { OpenGrows(input, k, at, was, input[at - 1]); }
  }

  /** The text is open, and reading it leaves the lexer in this state. */
  ghost predicate OpenAs(s: string, l: State) { Open(s) && Lex(START, s) == l && 1 <= l.depth <= MAX_OBJECT_DEPTH }

  lemma OpenBrace(input: string, k: nat)
    requires k < |input| && input[k] == '{'
    ensures input[k..k + 1] == [input[k]] && OpenAs(input[k..k + 1], State(1, false, false))
  {
    var b := [input[k]];
    assert b[..0] == [];
    assert Lex(START, b) == Step(START, input[k]);
    assert input[k..k + 1] == b;
  }

  lemma Snoc(input: string, k: nat, at: nat)
    requires k < at <= |input|
    ensures input[k..at] == input[k..at - 1] + [input[at - 1]]
  {}

  lemma OpenGrows(input: string, k: nat, at: nat, was: State, c: char)
    requires k + 1 < at <= |input| && c == input[at - 1] && OpenAs(input[k..at - 1], was)
    requires 1 <= Step(was, c).depth <= MAX_OBJECT_DEPTH
    ensures OpenAs(input[k..at], Step(was, c))
  {
    Snoc(input, k, at);
    LexSnoc(START, input[k..at - 1], c);
    OpenSnoc(input[k..at - 1], c);
  }

  lemma TruncatedHere(input: string, pos: nat, max: nat, k: nat, l: State)
    requires Inside(input, pos, max, k, |input|, l)
    ensures Framed(input, pos, max, Truncated)
  {
    assert OpensAt(input, pos, k, |input|);
  }

  lemma TooLongHere(input: string, pos: nat, max: nat, k: nat, at: nat, l: State)
    requires Inside(input, pos, max, k, at, l) && at == pos + max < |input|
    ensures Framed(input, pos, max, TooLong)
  {
    assert OpensAt(input, pos, k, pos + max);
  }

  lemma TooDeepHere(input: string, pos: nat, max: nat, k: nat, at: nat, was: State)
    requires pos <= k && k + 1 < at <= |input| && at - pos <= max && Blank(input[pos..k]) && input[k] == '{'
    requires OpenAs(input[k..at - 1], was) && Step(was, input[at - 1]).depth == MAX_OBJECT_DEPTH + 1
    ensures Framed(input, pos, max, TooDeep)
  {
    Snoc(input, k, at);
    LexSnoc(START, input[k..at - 1], input[at - 1]);
    assert OpensAt(input, pos, k, at - 1);
    assert input[k..at - 1 + 1] == input[k..at];
  }

  lemma ObjectHere(input: string, pos: nat, max: nat, k: nat, at: nat, was: State)
    requires pos <= k && k + 1 < at <= |input| && at - pos <= max && Blank(input[pos..k]) && input[k] == '{'
    requires OpenAs(input[k..at - 1], was) && Step(was, input[at - 1]).depth == 0
    ensures Framed(input, pos, max, Object(input[k..at], at))
  {
    var front, c := input[k..at - 1], input[at - 1];
    Snoc(input, k, at);
    LexSnoc(START, front, c);
    ClosesSnoc(front, c);
    FramedObject(input, pos, max, k, input[k..at]);
  }

  lemma ClosesSnoc(front: string, c: char)
    requires Open(front) && Lex(START, front + [c]).depth == 0
    ensures Closes(front + [c])
  {
    assert (front + [c])[..|front|] == front;
  }

  lemma FramedObject(input: string, pos: nat, max: nat, k: nat, text: string)
    requires pos <= k && |text| > 0 && k + |text| <= |input| && k + |text| - pos <= max
    requires Blank(input[pos..k]) && input[k] == '{' && text == input[k..k + |text|] && Closes(text)
    ensures Framed(input, pos, max, Object(text, k + |text|))
  {
    var next := k + |text|;
    assert next - |text| == k;
    assert text[0] == input[k];
  }

  // ---- concrete JSON ----

  /** One unit of a string body: a plain character, or a backslash and what it escapes. */
  datatype Unit = Plain(c: char) | Escape(c: char)

  datatype Value =
    | Scalar(spelling: string)
    | Text(body: seq<Unit>)
    | Array(blank: string, items: seq<Padded>)
    | Record(blank: string, members: seq<Member>)

  datatype Padded = Padded(before: string, value: Value, after: string)

  datatype Member = Member(before: string, key: seq<Unit>, after: string, item: Padded)

  function Units(body: seq<Unit>): string {
    if body == [] then ""
    else Units(body[..|body| - 1]) +
         (match body[|body| - 1] case Plain(c) => [c] case Escape(c) => ['\\', c])
  }

  function Quoted(body: seq<Unit>): string { "\"" + Units(body) + "\"" }

  function Print(v: Value): string {
    match v
    case Scalar(spelling) => spelling
    case Text(body) => Quoted(body)
    case Array(blank, items) => "[" + (if items == [] then blank else PrintItems(items)) + "]"
    case Record(blank, members) => "{" + (if members == [] then blank else PrintMembers(members)) + "}"
  }

  function PrintPadded(p: Padded): string { p.before + Print(p.value) + p.after }

  function PrintItems(items: seq<Padded>): string
    requires items != []
  {
    if |items| == 1 then PrintPadded(items[0])
    else PrintPadded(items[0]) + "," + PrintItems(items[1..])
  }

  function PrintMember(m: Member): string {
    m.before + Quoted(m.key) + m.after + ":" + PrintPadded(m.item)
  }

  function PrintMembers(members: seq<Member>): string
    requires members != []
  {
    if |members| == 1 then PrintMember(members[0])
    else PrintMember(members[0]) + "," + PrintMembers(members[1..])
  }

  /** Numbers and literals contain neither quotes nor braces. */
  predicate Inert(s: string) { forall i :: 0 <= i < |s| ==> s[i] != '"' && s[i] != '{' && s[i] != '}' }

  predicate ValidUnits(body: seq<Unit>) {
    forall i :: 0 <= i < |body| ==> body[i].Plain? ==> body[i].c != '"' && body[i].c != '\\'
  }

  predicate Valid(v: Value) {
    match v
    case Scalar(spelling) => Inert(spelling)
    case Text(body) => ValidUnits(body)
    case Array(blank, items) => Blank(blank) && forall p :: p in items ==> ValidPadded(p)
    case Record(blank, members) => Blank(blank) && forall m :: m in members ==> ValidMember(m)
  }

  predicate ValidPadded(p: Padded) { Blank(p.before) && Blank(p.after) && Valid(p.value) }

  predicate ValidMember(m: Member) {
    Blank(m.before) && Blank(m.after) && ValidUnits(m.key) && ValidPadded(m.item)
  }

  function Max(a: nat, b: nat): nat { if a >= b then a else b }

  /** How deeply objects nest; arrays do not count, as they do not for the framing. */
  function ObjectDepth(v: Value): nat {
    match v
    case Scalar(_) => 0
    case Text(_) => 0
    case Array(_, items) => ItemsDepth(items)
    case Record(_, members) => 1 + MembersDepth(members)
  }

  function ItemsDepth(items: seq<Padded>): nat {
    if items == [] then 0 else Max(ObjectDepth(items[0].value), ItemsDepth(items[1..]))
  }

  function MembersDepth(members: seq<Member>): nat {
    if members == [] then 0 else Max(ObjectDepth(members[0].item.value), MembersDepth(members[1..]))
  }

  // ---- scanning printed JSON ----

  /** From outside strings at depth `d`, `s` stays within `d..d+h` and comes back to depth `d`. */
  ghost predicate Neutral(d: nat, h: nat, s: string) {
    && Lex(State(d, false, false), s) == State(d, false, false)
    && Within(State(d, false, false), d, d + h, s)
  }

  lemma {:induction false} LexConcat(l: State, a: string, b: string)
    ensures Lex(l, a + b) == Lex(Lex(l, a), b)
  {
    if b == [] {
      assert a + b == a;
    } else {
      LexConcat(l, a, b[..|b| - 1]);
      assert (a + b)[..|a + b| - 1] == a + b[..|b| - 1];
    }
  }

  lemma {:induction false} WithinConcat(l: State, lo: nat, hi: nat, a: string, b: string)
    requires Within(l, lo, hi, a) && Within(Lex(l, a), lo, hi, b)
    ensures Within(l, lo, hi, a + b)
  {
    if b == [] {
      assert a + b == a;
    } else {
      WithinConcat(l, lo, hi, a, b[..|b| - 1]);
      LexConcat(l, a, b);
      assert (a + b)[..|a + b| - 1] == a + b[..|b| - 1];
    }
  }

  lemma {:induction false} WithinWiden(l: State, lo: nat, hi: nat, lower: nat, upper: nat, s: string)
    requires Within(l, lo, hi, s) && lower <= lo && hi <= upper
    ensures Within(l, lower, upper, s)
  {
    if s != [] { WithinWiden(l, lo, hi, lower, upper, s[..|s| - 1]); }
  }

  lemma NeutralConcat(d: nat, h: nat, a: string, b: string)
    requires Neutral(d, h, a) && Neutral(d, h, b)
    ensures Neutral(d, h, a + b)
  {
    LexConcat(State(d, false, false), a, b);
    WithinConcat(State(d, false, false), d, d + h, a, b);
  }

  lemma NeutralWiden(d: nat, h: nat, k: nat, s: string)
    requires Neutral(d, h, s) && h <= k
    ensures Neutral(d, k, s)
  {
    WithinWiden(State(d, false, false), d, d + h, d, d + k, s);
  }

  lemma {:induction false} InertNeutral(d: nat, s: string)
    requires Inert(s)
    ensures Neutral(d, 0, s)
  {
    if s != [] { InertNeutral(d, s[..|s| - 1]); }
  }

  lemma BlankInert(s: string)
    requires Blank(s)
    ensures Inert(s)
  {
    forall i | 0 <= i < |s| ensures s[i] != '"' && s[i] != '{' && s[i] != '}' { assert IsSpace(s[i]); }
  }

  /** Inside a string body nothing but the closing quote ends the string. */
  lemma {:induction false} UnitsStayInside(d: nat, body: seq<Unit>)
    requires ValidUnits(body)
    ensures Lex(State(d, true, false), Units(body)) == State(d, true, false)
    ensures Within(State(d, true, false), d, d, Units(body))
  {
    if body != [] {
      var front, u := body[..|body| - 1], body[|body| - 1];
      UnitsStayInside(d, front);
      var l, s := State(d, true, false), Units(front);
      if u.Plain? {
        WithinSnoc(l, d, d, s, u.c);
      } else {
        WithinSnoc(l, d, d, s, '\\');
        WithinSnoc(l, d, d, s + ['\\'], u.c);
        assert Units(body) == s + ['\\'] + [u.c];
      }
    }
  }

  lemma WithinSnoc(l: State, lo: nat, hi: nat, s: string, c: char)
    requires Within(l, lo, hi, s) && lo <= Step(Lex(l, s), c).depth <= hi
    ensures Lex(l, s + [c]) == Step(Lex(l, s), c)
    ensures Within(l, lo, hi, s + [c])
  {
    LexSnoc(l, s, c);
    assert (s + [c])[..|s|] == s;
  }

  lemma QuotedNeutral(d: nat, body: seq<Unit>)
    requires ValidUnits(body)
    ensures Neutral(d, 0, Quoted(body))
  {
    var l, u := State(d, false, false), Units(body);
    UnitsStayInside(d, body);
    WithinSnoc(l, d, d, [], '"');
    assert [] + ['"'] == "\"";
    LexConcat(l, "\"", u);
    WithinConcat(l, d, d, "\"", u);
    WithinSnoc(l, d, d, "\"" + u, '"');
  }

  lemma {:induction false} PrintNeutral(d: nat, v: Value)
    requires Valid(v)
    ensures Neutral(d, ObjectDepth(v), Print(v))
    decreases v
  {
    match v {
      case Scalar(spelling) => InertNeutral(d, spelling);
      case Text(body) => QuotedNeutral(d, body);
      case Array(blank, items) =>
        var inner := if items == [] then blank else PrintItems(items);
        if items == [] {
          BlankInert(blank);
          InertNeutral(d, blank);
        } else {
          ItemsNeutral(d, items);
        }
        InertNeutral(d, "[");
        InertNeutral(d, "]");
        var h := ObjectDepth(v);
        NeutralWiden(d, if items == [] then 0 else h, h, inner);
        NeutralWiden(d, 0, h, "[");
        NeutralWiden(d, 0, h, "]");
        NeutralConcat(d, h, "[", inner);
        NeutralConcat(d, h, "[" + inner, "]");
      case Record(blank, members) =>
        MembersNeutralIn(d + 1, blank, members);
        BracesNeutral(d, MembersDepth(members), if members == [] then blank else PrintMembers(members));
    }
  }

  lemma MembersNeutralIn(d: nat, blank: string, members: seq<Member>)
    requires Blank(blank) && forall m :: m in members ==> ValidMember(m)
    ensures Neutral(d, MembersDepth(members), if members == [] then blank else PrintMembers(members))
    decreases members, 1
  {
    if members == [] {
      BlankInert(blank);
      InertNeutral(d, blank);
    } else {
      MembersNeutral(d, members);
    }
  }

  /** Braces around a neutral text one level deeper. */
  lemma BracesNeutral(d: nat, h: nat, inner: string)
    requires Neutral(d + 1, h, inner)
    ensures Neutral(d, 1 + h, "{" + inner + "}")
    ensures Within(State(d, false, false), d + 1, d + 1 + h, "{" + inner)
  {
    var l := State(d, false, false);
    WithinSnoc(l, d + 1, d + 1 + h, [], '{');
    assert [] + ['{'] == "{";
    LexConcat(l, "{", inner);
    WithinConcat(l, d + 1, d + 1 + h, "{", inner);
    WithinWiden(l, d + 1, d + 1 + h, d, d + 1 + h, "{" + inner);
    WithinSnoc(l, d, d + 1 + h, "{" + inner, '}');
  }

  lemma PaddedNeutral(d: nat, p: Padded)
    requires ValidPadded(p)
    ensures Neutral(d, ObjectDepth(p.value), PrintPadded(p))
    decreases p, 0
  {
    var h := ObjectDepth(p.value);
    BlankInert(p.before);
    BlankInert(p.after);
    InertNeutral(d, p.before);
    InertNeutral(d, p.after);
    NeutralWiden(d, 0, h, p.before);
    NeutralWiden(d, 0, h, p.after);
    PrintNeutral(d, p.value);
    NeutralConcat(d, h, p.before, Print(p.value));
    NeutralConcat(d, h, p.before + Print(p.value), p.after);
  }

  lemma {:induction false} ItemsNeutral(d: nat, items: seq<Padded>)
    requires items != [] && forall p :: p in items ==> ValidPadded(p)
    ensures Neutral(d, ItemsDepth(items), PrintItems(items))
    decreases items
  {
    var h := ItemsDepth(items);
    PaddedNeutral(d, items[0]);
    NeutralWiden(d, ObjectDepth(items[0].value), h, PrintPadded(items[0]));
    if |items| > 1 {
      ItemsNeutral(d, items[1..]);
      NeutralWiden(d, ItemsDepth(items[1..]), h, PrintItems(items[1..]));
      InertNeutral(d, ",");
      NeutralWiden(d, 0, h, ",");
      NeutralConcat(d, h, PrintPadded(items[0]), ",");
      NeutralConcat(d, h, PrintPadded(items[0]) + ",", PrintItems(items[1..]));
    }
  }

  lemma MemberNeutral(d: nat, m: Member)
    requires ValidMember(m)
    ensures Neutral(d, ObjectDepth(m.item.value), PrintMember(m))
    decreases m
  {
    var h := ObjectDepth(m.item.value);
    BlankInert(m.before);
    BlankInert(m.after);
    InertNeutral(d, m.before);
    InertNeutral(d, m.after);
    InertNeutral(d, ":");
    QuotedNeutral(d, m.key);
    PaddedNeutral(d, m.item);
    NeutralConcat(d, 0, m.before, Quoted(m.key));
    NeutralConcat(d, 0, m.before + Quoted(m.key), m.after);
    NeutralConcat(d, 0, m.before + Quoted(m.key) + m.after, ":");
    NeutralWiden(d, 0, h, m.before + Quoted(m.key) + m.after + ":");
    NeutralConcat(d, h, m.before + Quoted(m.key) + m.after + ":", PrintPadded(m.item));
  }

  lemma {:induction false} MembersNeutral(d: nat, members: seq<Member>)
    requires members != [] && forall m :: m in members ==> ValidMember(m)
    ensures Neutral(d, MembersDepth(members), PrintMembers(members))
    decreases members, 0
  {
    var h := MembersDepth(members);
    MemberNeutral(d, members[0]);
    NeutralWiden(d, ObjectDepth(members[0].item.value), h, PrintMember(members[0]));
    if |members| > 1 {
      MembersNeutral(d, members[1..]);
      NeutralWiden(d, MembersDepth(members[1..]), h, PrintMembers(members[1..]));
      InertNeutral(d, ",");
      NeutralWiden(d, 0, h, ",");
      NeutralConcat(d, h, PrintMember(members[0]), ",");
      NeutralConcat(d, h, PrintMember(members[0]) + ",", PrintMembers(members[1..]));
    }
  }

  // ---- framing undoes concatenation ----

  lemma {:induction false} WithinPrefix(l: State, lo: nat, hi: nat, s: string, i: nat)
    requires Within(l, lo, hi, s) && i <= |s|
    ensures Within(l, lo, hi, s[..i])
    ensures i > 0 ==> lo <= Lex(l, s[..i]).depth <= hi
  {
    if i == |s| {
      assert s[..i] == s;
    } else {
      WithinPrefix(l, lo, hi, s[..|s| - 1], i);
      assert s[..|s| - 1][..i] == s[..i];
    }
  }

  lemma SliceOfSlice(s: string, k: nat, m: nat, n: nat)
    requires k <= m <= n <= |s|
    ensures s[k..n][..m - k] == s[k..m]
  {}

  /** A text that begins with one that closes is not open. */
  lemma ClosesOnce(text: string, s: string)
    requires Closes(text) && |text| <= |s| && text == s[..|text|]
    ensures !Open(s)
  {
    if Open(s) { WithinPrefix(START, 1, MAX_OBJECT_DEPTH, s, |text|); }
  }

  lemma BlankAt(input: string, pos: nat, m: nat, k: nat)
    requires pos <= k < m <= |input| && Blank(input[pos..m])
    ensures IsSpace(input[k])
  {
    assert input[pos..m][k - pos] == input[k];
  }

  /** Two positions reached over blanks and holding non-blanks are the same position. */
  lemma SameStart(input: string, pos: nat, k: nat, m: nat)
    requires pos <= k < |input| && pos <= m < |input|
    requires Blank(input[pos..k]) && !IsSpace(input[k]) && Blank(input[pos..m]) && !IsSpace(input[m])
    ensures k == m
  {
    if k < m { BlankAt(input, pos, m, k); }
    if m < k { BlankAt(input, pos, k, m); }
  }

  /** Blanks up to `k`, then a text that starts with a brace and closes. */
  ghost predicate ObjectAt(input: string, pos: nat, k: nat, text: string) {
    && pos <= k && k + |text| <= |input| && Blank(input[pos..k]) && input[k..k + |text|] == text
    && |text| > 0 && text[0] == '{' && Closes(text)
  }

  lemma FirstOf(input: string, pos: nat, k: nat, text: string)
    requires ObjectAt(input, pos, k, text)
    ensures input[k] == '{' && !IsSpace(input[k])
  {
    assert input[k..k + |text|][0] == input[k];
  }

  /** Whatever else starts after the blanks starts at the object. */
  lemma StartsThere(input: string, pos: nat, k: nat, text: string, m: nat)
    requires ObjectAt(input, pos, k, text) && pos <= m < |input| && Blank(input[pos..m]) && !IsSpace(input[m])
    ensures m == k
  {
    FirstOf(input, pos, k, text);
    SameStart(input, pos, k, m);
  }

  /** Of two texts at one place, both closing, neither is shorter. */
  lemma ClosesFirst(input: string, k: nat, t: string, text: string)
    requires k + |text| <= |input| && k + |t| <= |input| && input[k..k + |text|] == text && input[k..k + |t|] == t
    requires Closes(t) && Closes(text)
    ensures |t| >= |text|
  {
    if |t| < |text| {
      SliceOfSlice(input, k, k + |text| - 1, k + |text|);
      SliceOfSlice(input, k, k + |t|, k + |text| - 1);
      ClosesOnce(t, text[..|text| - 1]);
    }
  }

  lemma SameText(input: string, pos: nat, k: nat, text: string, t: string, m: nat)
    requires ObjectAt(input, pos, k, text) && ObjectAt(input, pos, m, t)
    ensures t == text && m == k
  {
    FirstOf(input, pos, m, t);
    StartsThere(input, pos, k, text, m);
    ClosesFirst(input, k, t, text);
    ClosesFirst(input, k, text, t);
  }

  /** Past the object's end nothing is open any more. */
  lemma NotOpenPast(input: string, pos: nat, k: nat, text: string, m: nat, e: nat)
    requires ObjectAt(input, pos, k, text) && k + |text| <= e
    ensures !OpensAt(input, pos, m, e)
  {
    if OpensAt(input, pos, m, e) {
      StartsThere(input, pos, k, text, m);
      SliceOfSlice(input, k, k + |text|, e);
      ClosesOnce(text, input[k..e]);
    }
  }

  /** Nowhere does the object exceed the depth bound. */
  lemma NotTooDeep(input: string, pos: nat, k: nat, text: string, m: nat, e: nat)
    requires ObjectAt(input, pos, k, text) && OpensAt(input, pos, m, e) && e < |input|
    ensures Lex(START, input[m..e + 1]).depth <= MAX_OBJECT_DEPTH
  {
    StartsThere(input, pos, k, text, m);
    if k + |text| <= e {
      NotOpenPast(input, pos, k, text, m, e);
    } else if k + |text| == e + 1 {
      assert input[m..e + 1] == text;
    } else {
      InsideDepth(input, k, text, e + 1);
    }
  }

  /** At blanks followed by a text that closes within budget, every admissible answer is that text. */
  lemma FramedUnique(input: string, pos: nat, max: nat, k: nat, text: string, f: Frame)
    requires ObjectAt(input, pos, k, text) && k + |text| - pos <= max
    requires Framed(input, pos, max, f)
    ensures f == Object(text, k + |text|)
  {
    var end := pos + max;
    FirstOf(input, pos, k, text);
    NeverOpenPast(input, pos, k, text, |input|);
    NeverBlankPast(input, pos, k, text, |input|);
    NeverOpenPast(input, pos, k, text, end);
    if end <= |input| { NeverBlankPast(input, pos, k, text, end); }
    NeverWrong(input, pos, k, text);
    NeverTooDeep(input, pos, k, text);
    if f.Object? { SameText(input, pos, k, text, f.text, f.next - |f.text|); }
  }

  lemma NeverOpenPast(input: string, pos: nat, k: nat, text: string, e: nat)
    requires ObjectAt(input, pos, k, text) && k + |text| <= e
    ensures !OpenUntil(input, pos, e)
  {
    forall m: nat ensures !OpensAt(input, pos, m, e) { NotOpenPast(input, pos, k, text, m, e); }
  }

  lemma NeverBlankPast(input: string, pos: nat, k: nat, text: string, e: nat)
    requires ObjectAt(input, pos, k, text) && k < e <= |input|
    ensures !Blank(input[pos..e])
  {
    FirstOf(input, pos, k, text);
    if Blank(input[pos..e]) { BlankAt(input, pos, e, k); }
  }

  lemma NeverWrong(input: string, pos: nat, k: nat, text: string)
    requires ObjectAt(input, pos, k, text)
    ensures forall m: nat :: !StartsWrong(input, pos, m)
  {
    FirstOf(input, pos, k, text);
    forall m: nat ensures !StartsWrong(input, pos, m) {
      if StartsWrong(input, pos, m) { StartsThere(input, pos, k, text, m); }
    }
  }

  lemma NeverTooDeep(input: string, pos: nat, k: nat, text: string)
    requires ObjectAt(input, pos, k, text)
    ensures forall m: nat, e: nat :: OpensAt(input, pos, m, e) && e < |input| ==>
              Lex(START, input[m..e + 1]).depth <= MAX_OBJECT_DEPTH
  {
    forall m: nat, e: nat | OpensAt(input, pos, m, e) && e < |input|
      ensures Lex(START, input[m..e + 1]).depth <= MAX_OBJECT_DEPTH
    {
      NotTooDeep(input, pos, k, text, m, e);
    }
  }

  lemma InsideDepth(input: string, k: nat, text: string, e: nat)
    requires k < e < k + |text| <= |input| && input[k..k + |text|] == text && Closes(text)
    ensures Lex(START, input[k..e]).depth <= MAX_OBJECT_DEPTH
  {
    SliceOfSlice(input, k, k + |text| - 1, k + |text|);
    SliceOfSlice(input, k, e, k + |text| - 1);
    WithinPrefix(START, 1, MAX_OBJECT_DEPTH, text[..|text| - 1], e - k);
  }

  /** A valid object within the depth bound closes exactly at its end. */
  lemma ObjectCloses(v: Value)
    requires Valid(v) && v.Record? && ObjectDepth(v) <= 64
    ensures Closes(Print(v)) && Print(v)[0] == '{'
  {
    var inner := if v.members == [] then v.blank else PrintMembers(v.members);
    MembersNeutralIn(1, v.blank, v.members);
    BracesClose(MembersDepth(v.members), inner);
  }

  lemma BracesClose(h: nat, inner: string)
    requires Neutral(1, h, inner) && 1 + h <= MAX_OBJECT_DEPTH
    ensures Closes("{" + inner + "}")
  {
    BracesNeutral(0, h, inner);
    WithinWiden(START, 1, 1 + h, 1, MAX_OBJECT_DEPTH, "{" + inner);
    assert ("{" + inner + "}")[..|inner| + 1] == "{" + inner;
  }

  /** An object with the blanks before it. */
  datatype Piece = Piece(blank: string, value: Value)

  /** Fits the depth bound, and together with its leading blanks the byte bound of one call. */
  predicate Framable(p: Piece, max: nat) {
    && Blank(p.blank) && Valid(p.value) && p.value.Record? && ObjectDepth(p.value) <= 64
    && |p.blank| + |Print(p.value)| <= max
  }

  function Join(ps: seq<Piece>, tail: string): string {
    if ps == [] then tail else ps[0].blank + Print(ps[0].value) + Join(ps[1..], tail)
  }

  /** The rest of the input at `pos` is these objects, then blanks. */
  ghost predicate Holds(input: string, pos: nat, max: nat, ps: seq<Piece>, tail: string) {
    && pos <= |input| && input[pos..] == Join(ps, tail)
    && (forall p :: p in ps ==> Framable(p, max)) && Blank(tail) && |tail| <= max
  }

  lemma ThreeParts(input: string, pos: nat, a: string, b: string, c: string)
    requires pos <= |input| && input[pos..] == a + b + c
    ensures pos + |a| + |b| <= |input|
    ensures input[pos..pos + |a|] == a && input[pos + |a|..pos + |a| + |b|] == b && input[pos + |a| + |b|..] == c
  {
    var s := input[pos..];
    assert s[..|a|] == a && s[|a|..|a| + |b|] == b && s[|a| + |b|..] == c;
    assert input[pos..pos + |a|] == s[..|a|];
    assert input[pos + |a|..pos + |a| + |b|] == s[|a|..|a| + |b|];
    assert input[pos + |a| + |b|..] == s[|a| + |b|..];
  }

  /** One call takes off exactly the first object's text. */
  lemma NextObject(input: string, pos: nat, max: nat, ps: seq<Piece>, tail: string, f: Frame)
    requires Holds(input, pos, max, ps, tail) && ps != [] && Framed(input, pos, max, f)
    ensures f.Object? && f.text == Print(ps[0].value)
    ensures Holds(input, f.next, max, ps[1..], tail)
  {
    HeldFirst(input, pos, max, ps, tail);
    FramedUnique(input, pos, max, pos + |ps[0].blank|, Print(ps[0].value), f);
  }

  /** The first piece stands at the position, and the others behind it. */
  lemma HeldFirst(input: string, pos: nat, max: nat, ps: seq<Piece>, tail: string)
    requires Holds(input, pos, max, ps, tail) && ps != []
    ensures var text, k := Print(ps[0].value), pos + |ps[0].blank|;
            ObjectAt(input, pos, k, text) && k + |text| - pos <= max && Holds(input, k + |text|, max, ps[1..], tail)
  {
    var p := ps[0];
    assert p in ps;
    ObjectCloses(p.value);
    ThreeParts(input, pos, p.blank, Print(p.value), Join(ps[1..], tail));
  }

  /** After the last object only the end of the stream is left. */
  lemma NoMoreObjects(input: string, pos: nat, max: nat, tail: string, f: Frame)
    requires Holds(input, pos, max, [], tail) && Framed(input, pos, max, f)
    ensures f == EndOfStream
  {
    assert input[pos..] == tail;
    forall k | pos <= k < |input| ensures IsSpace(input[k]) { assert tail[k - pos] == input[k]; }
  }

  function Texts(ps: seq<Piece>): (r: seq<string>)
    ensures |r| == |ps|
  {
    if ps == [] then [] else [Print(ps[0].value)] + Texts(ps[1..])
  }

  /** Repeated calls return exactly the object texts, in order, then the end of the stream. */
  method FrameAll(input: string, maxObjectBytes: int, ghost ps: seq<Piece>, ghost tail: string)
    returns (texts: seq<string>, last: Frame)
    ensures !last.Object?
    ensures Holds(input, 0, if maxObjectBytes <= 0 then DECODE_MAX_BYTES + 1 else maxObjectBytes, ps, tail) ==>
              texts == Texts(ps) && last == EndOfStream
  {
    ghost var max: nat := if maxObjectBytes <= 0 then DECODE_MAX_BYTES + 1 else maxObjectBytes;
    ghost var left := ps;
    var pos: nat := 0;
    texts := [];
    while true
      invariant pos <= |input|
      invariant Holds(input, 0, max, ps, tail) ==> Holds(input, pos, max, left, tail) && texts + Texts(left) == Texts(ps)
      decreases |input| - pos
    {
      last := NextDockerJSONValue(input, pos, maxObjectBytes);
      if Holds(input, 0, max, ps, tail) {
        if left == [] { NoMoreObjects(input, pos, max, tail, last); }
        else { NextObject(input, pos, max, left, tail, last); }
      }
      if !last.Object? { return; }
      texts, pos := texts + [last.text], last.next;
      if left != [] { left := left[1..]; }
    }
  }
}
