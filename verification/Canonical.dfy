/** Canonical printing: independent of key order, unambiguous, and the same in Go and TypeScript where both can be. */
module Canonical {
  import opened Lex
  import opened CanonicalText

  // ---- key order ----

  /** UTF-16 code units of one character. */
  function Units(c: char): seq<nat> {
    var n := c as nat;
    if n < 0x10000 then [n] else [0xD800 + (n - 0x10000) / 0x400, 0xDC00 + (n - 0x10000) % 0x400]
  }

  function UnitsOf(s: string): seq<nat> {
    if s == [] then [] else Units(s[0]) + UnitsOf(s[1..])
  }

  predicate LessUnits(a: seq<nat>, b: seq<nat>) {
    |b| > 0 && (|a| == 0 || a[0] < b[0] || (a[0] == b[0] && LessUnits(a[1..], b[1..])))
  }

  /** Go compares keys byte by byte, which is code-point order; JavaScript compares UTF-16 code units. */
  predicate Precedes(style: Style, a: string, b: string) {
    if style.Go? then Less(a, b) else LessUnits(UnitsOf(a), UnitsOf(b))
  }

  /** One character at the top of the basic plane, the other one beyond it. */
  predicate Straddles(c: char, d: char) { 0xE000 <= c as nat < 0x10000 <= d as nat }

  /** The first characters in which the keys differ straddle the end of the basic plane. */
  predicate Clash(a: string, b: string) {
    && |a| > 0 && |b| > 0
    && (if a[0] == b[0] then Clash(a[1..], b[1..]) else Straddles(a[0], b[0]) || Straddles(b[0], a[0]))
  }

  /** The two orders agree on two keys exactly when the keys do not clash. */
  lemma {:induction false} OrdersAgree(a: string, b: string)
    ensures (Less(a, b) <==> LessUnits(UnitsOf(a), UnitsOf(b))) <==> !Clash(a, b)
  {
    if |a| > 0 && |b| > 0 {
      UnitsSplit(a);
      UnitsSplit(b);
      if a[0] == b[0] {
        OrdersAgree(a[1..], b[1..]);
        LessPrefixed(Units(a[0]), UnitsOf(a[1..]), UnitsOf(b[1..]));
      } else {
        CharsOrdered(a[0], b[0], UnitsOf(a[1..]), UnitsOf(b[1..]));
      }
    }
  }

  lemma UnitsSplit(s: string)
    requires s != []
    ensures UnitsOf(s) == Units(s[0]) + UnitsOf(s[1..])
  {}

  lemma LessPrefixed(p: seq<nat>, x: seq<nat>, y: seq<nat>)
    requires 0 < |p| <= 2
    ensures LessUnits(p + x, p + y) <==> LessUnits(x, y)
  {
    assert (p + x)[1..] == p[1..] + x && (p + y)[1..] == p[1..] + y;
    if |p| == 2 {
      assert (p[1..] + x)[1..] == x && (p[1..] + y)[1..] == y;
    } else {
      assert p[1..] + x == x && p[1..] + y == y;
    }
  }

  /** Different first characters decide the order of units, against the order of characters when they straddle. */
  lemma CharsOrdered(c: char, d: char, x: seq<nat>, y: seq<nat>)
    requires c != d
    ensures LessUnits(Units(c) + x, Units(d) + y) <==> if Straddles(c, d) || Straddles(d, c) then d < c else c < d
  {
    var p, q := Units(c) + x, Units(d) + y;
    assert p[0] == Units(c)[0] && q[0] == Units(d)[0];
    if p[0] == q[0] { assert p[1..][0] == Units(c)[1] && q[1..][0] == Units(d)[1]; }
  }

  lemma {:induction false} UnitsTell(a: string, b: string)
    requires UnitsOf(a) == UnitsOf(b)
    ensures a == b
  {
    if |a| > 0 && |b| > 0 {
      UnitsSplit(a);
      UnitsSplit(b);
      assert UnitsOf(a)[0] == Units(a[0])[0] && UnitsOf(b)[0] == Units(b[0])[0];
      if |Units(a[0])| == 2 { assert UnitsOf(a)[1] == Units(a[0])[1] && UnitsOf(b)[1] == Units(b[0])[1]; }
      assert a[0] == b[0];
      assert UnitsOf(a[1..]) == UnitsOf(a)[|Units(a[0])|..] && UnitsOf(b[1..]) == UnitsOf(b)[|Units(b[0])|..];
      UnitsTell(a[1..], b[1..]);
      assert a == [a[0]] + a[1..] && b == [b[0]] + b[1..];
    }
  }

  lemma {:induction false} LessUnitsTransitive(a: seq<nat>, b: seq<nat>, c: seq<nat>)
    requires LessUnits(a, b) && LessUnits(b, c)
    ensures LessUnits(a, c)
  {
    if |a| > 0 && a[0] == b[0] == c[0] { LessUnitsTransitive(a[1..], b[1..], c[1..]); }
  }

  lemma {:induction false} LessUnitsTotal(a: seq<nat>, b: seq<nat>)
    ensures a == b || LessUnits(a, b) || LessUnits(b, a)
  {
    if |a| > 0 && |b| > 0 && a[0] == b[0] {
      LessUnitsTotal(a[1..], b[1..]);
      assert a == [a[0]] + a[1..] && b == [b[0]] + b[1..];
    }
  }

  lemma PrecedesTransitive(style: Style, a: string, b: string, c: string)
    requires Precedes(style, a, b) && Precedes(style, b, c)
    ensures Precedes(style, a, c)
  {
    if style.Go? { LessTransitive(a, b, c); } else { LessUnitsTransitive(UnitsOf(a), UnitsOf(b), UnitsOf(c)); }
  }

  lemma PrecedesTotal(style: Style, a: string, b: string)
    requires a != b
    ensures Precedes(style, a, b) || Precedes(style, b, a)
  {
    if style.Go? {
      LessTotal(a, b);
    } else {
      LessUnitsTotal(UnitsOf(a), UnitsOf(b));
      if UnitsOf(a) == UnitsOf(b) { UnitsTell(a, b); }
    }
  }

  // ---- sorting members ----

  function InsertMember(style: Style, m: Member, ms: seq<Member>): seq<Member> {
    if ms == [] then [m]
    else if Precedes(style, m.key, ms[0].key) then [m] + ms
    else [ms[0]] + InsertMember(style, m, ms[1..])
  }

  function SortMembers(style: Style, ms: seq<Member>): seq<Member> {
    if ms == [] then [] else InsertMember(style, ms[0], SortMembers(style, ms[1..]))
  }

  /** The value with the members of every object sorted by key. */
  function Canon(style: Style, v: Value): Value {
    match v
    case Arr(items) => Arr(seq(|items|, i requires 0 <= i < |items| => Canon(style, items[i])))
    case Obj(members) =>
      Obj(SortMembers(style, seq(|members|, i requires 0 <= i < |members| => Member(members[i].key, Canon(style, members[i].value)))))
    case _ => v
  }

  /** The canonical text of a value. */
  function Print(style: Style, v: Value): string { Text(style, Canon(style, v)) }

  predicate KeysDistinct(ms: seq<Member>) {
    forall i, j :: 0 <= i < j < |ms| ==> ms[i].key != ms[j].key
  }

  /** Decoding keeps one member per key. */
  predicate Valid(v: Value) {
    match v
    case Arr(items) => forall i :: 0 <= i < |items| ==> Valid(items[i])
    case Obj(members) => KeysDistinct(members) && forall i :: 0 <= i < |members| ==> Valid(members[i].value)
    case _ => true
  }

  predicate Ordered(style: Style, ms: seq<Member>) {
    forall i, j :: 0 <= i < j < |ms| ==> Precedes(style, ms[i].key, ms[j].key)
  }

  lemma {:induction false} InsertKeeps(style: Style, m: Member, ms: seq<Member>)
    ensures forall x :: x in InsertMember(style, m, ms) <==> x == m || x in ms
    ensures |InsertMember(style, m, ms)| == |ms| + 1
  {
    if ms != [] && !Precedes(style, m.key, ms[0].key) {
      InsertKeeps(style, m, ms[1..]);
      assert ms == [ms[0]] + ms[1..];
    }
  }

  lemma {:induction false} SortKeeps(style: Style, ms: seq<Member>)
    ensures forall x :: x in SortMembers(style, ms) <==> x in ms
    ensures |SortMembers(style, ms)| == |ms|
  {
    if ms != [] {
      SortKeeps(style, ms[1..]);
      InsertKeeps(style, ms[0], SortMembers(style, ms[1..]));
      assert ms == [ms[0]] + ms[1..];
    }
  }

  lemma {:induction false} InsertOrders(style: Style, m: Member, ms: seq<Member>)
    requires Ordered(style, ms) && forall x :: x in ms ==> x.key != m.key
    ensures Ordered(style, InsertMember(style, m, ms))
  {
    if ms != [] {
      if Precedes(style, m.key, ms[0].key) {
        forall j | 0 <= j < |ms| ensures Precedes(style, m.key, ms[j].key) {
          if j > 0 { PrecedesTransitive(style, m.key, ms[0].key, ms[j].key); }
        }
      } else {
        assert ms[0] in ms;
        PrecedesTotal(style, m.key, ms[0].key);
        InsertOrders(style, m, ms[1..]);
        InsertKeeps(style, m, ms[1..]);
        var t := InsertMember(style, m, ms[1..]);
        forall j | 0 <= j < |t| ensures Precedes(style, ms[0].key, t[j].key) {
          assert t[j] in t;
        }
      }
    }
  }

  lemma {:induction false} SortOrders(style: Style, ms: seq<Member>)
    requires KeysDistinct(ms)
    ensures Ordered(style, SortMembers(style, ms))
  {
    if ms != [] {
      SortOrders(style, ms[1..]);
      SortKeeps(style, ms[1..]);
      InsertOrders(style, ms[0], SortMembers(style, ms[1..]));
    }
  }

  function Keys(ms: seq<Member>): (r: seq<string>)
    ensures |r| == |ms| && forall i :: 0 <= i < |r| ==> r[i] == ms[i].key
  {
    seq(|ms|, i requires 0 <= i < |ms| => ms[i].key)
  }

  /** A key-ordered list is determined by its members. */
  lemma OrderedUnique(short: bool, s: seq<Member>, t: seq<Member>)
    requires Ordered(Go(short), s) && Ordered(Go(short), t) && forall x :: x in s <==> x in t
    ensures s == t
  {
    forall k ensures k in Keys(s) <==> k in Keys(t) {
      KeysCovered(s, t, k);
      KeysCovered(t, s, k);
    }
    AscendingUnique(Keys(s), Keys(t));
    assert |s| == |t| by { assert |Keys(s)| == |Keys(t)|; }
    forall i | 0 <= i < |s| ensures s[i] == t[i] {
      assert s[i] in t;
      var j :| 0 <= j < |t| && t[j] == s[i];
      assert Keys(s)[i] == Keys(t)[i];
      if i != j { LessIrreflexive(t[i].key); }
    }
  }

  lemma KeysCovered(s: seq<Member>, t: seq<Member>, k: string)
    requires forall x :: x in s ==> x in t
    ensures k in Keys(s) ==> k in Keys(t)
  {
    if k in Keys(s) {
      var i :| 0 <= i < |s| && Keys(s)[i] == k;
      assert s[i] in t;
      var j :| 0 <= j < |t| && t[j] == s[i];
      assert Keys(t)[j] == k;
    }
  }

  // ---- equality up to key order ----

  /** Some member of `ns` has this key and an equal value. */
  predicate Matched(m: Member, ns: seq<Member>)
    decreases m, 0
  {
    exists j :: 0 <= j < |ns| && ns[j].key == m.key && Same(m.value, ns[j].value)
  }

  predicate HasKey(ms: seq<Member>, key: string) {
    exists i :: 0 <= i < |ms| && ms[i].key == key
  }

  /** Equal up to the order of object members, at every depth. */
  predicate Same(v: Value, w: Value)
    decreases v, 1
  {
    match v
    case Arr(items) => w.Arr? && |items| == |w.items| && forall i :: 0 <= i < |items| ==> Same(items[i], w.items[i])
    case Obj(ms) =>
      && w.Obj?
      && (forall i :: 0 <= i < |ms| ==> Matched(ms[i], w.members))
      && (forall j :: 0 <= j < |w.members| ==> HasKey(ms, w.members[j].key))
    case _ => v == w
  }

  function CanonMembers(style: Style, ms: seq<Member>): (r: seq<Member>)
    ensures |r| == |ms| && forall i :: 0 <= i < |r| ==> r[i] == Member(ms[i].key, Canon(style, ms[i].value))
  {
    seq(|ms|, i requires 0 <= i < |ms| => Member(ms[i].key, Canon(style, ms[i].value)))
  }

  lemma CanonOfObj(style: Style, ms: seq<Member>)
    ensures Canon(style, Obj(ms)) == Obj(SortMembers(style, CanonMembers(style, ms)))
  {
    assert CanonMembers(style, ms) == seq(|ms|, i requires 0 <= i < |ms| => Member(ms[i].key, Canon(style, ms[i].value)));
  }

  /** Lists over the same keys whose equal-keyed entries agree have the same elements. */
  lemma ElementsAgree(ms: seq<Member>, ns: seq<Member>, a: seq<Member>, b: seq<Member>)
    requires |a| == |ms| && |b| == |ns|
    requires forall i :: 0 <= i < |ms| ==> HasKey(ns, ms[i].key)
    requires forall j :: 0 <= j < |ns| ==> HasKey(ms, ns[j].key)
    requires forall i, j :: 0 <= i < |ms| && 0 <= j < |ns| && ns[j].key == ms[i].key ==> a[i] == b[j]
    ensures forall x :: x in a <==> x in b
  {
    forall x ensures x in a <==> x in b {
      if x in a {
        var i :| 0 <= i < |a| && a[i] == x;
        assert HasKey(ns, ms[i].key);
        var j :| 0 <= j < |ns| && ns[j].key == ms[i].key;
        assert b[j] == x;
      }
      if x in b {
        var j :| 0 <= j < |b| && b[j] == x;
        assert HasKey(ms, ns[j].key);
        var i :| 0 <= i < |ms| && ms[i].key == ns[j].key;
        assert a[i] == x;
      }
    }
  }

  /** Values that are the same up to key order have one canonical form. */
  lemma {:induction false} SameHaveOneForm(s: bool, v: Value, w: Value)
    requires Valid(v) && Valid(w) && Same(v, w)
    ensures Canon(Go(s), v) == Canon(Go(s), w)
    decreases v
  {
    match v
    case Arr(items) =>
      forall i | 0 <= i < |items| ensures Canon(Go(s), items[i]) == Canon(Go(s), w.items[i]) {
        SameHaveOneForm(s, items[i], w.items[i]);
      }
      assert Canon(Go(s), v).items == Canon(Go(s), w).items;
    case Obj(ms) =>
      var ns := w.members;
      var a, b := CanonMembers(Go(s), ms), CanonMembers(Go(s), ns);
      forall i, j | 0 <= i < |ms| && 0 <= j < |ns| && ns[j].key == ms[i].key ensures a[i] == b[j] {
        assert Matched(ms[i], ns);
        var k :| 0 <= k < |ns| && ns[k].key == ms[i].key && Same(ms[i].value, ns[k].value);
        assert k == j;
        SameHaveOneForm(s, ms[i].value, ns[j].value);
      }
      forall i | 0 <= i < |ms| ensures HasKey(ns, ms[i].key) { assert Matched(ms[i], ns); }
      ElementsAgree(ms, ns, a, b);
      SortedFormsAgree(s, a, b);
      CanonOfObj(Go(s), ms);
      CanonOfObj(Go(s), ns);
    case _ =>
  }

  lemma SortedFormsAgree(s: bool, a: seq<Member>, b: seq<Member>)
    requires KeysDistinct(a) && KeysDistinct(b) && forall x :: x in a <==> x in b
    ensures SortMembers(Go(s), a) == SortMembers(Go(s), b)
  {
    SortKeeps(Go(s), a);
    SortKeeps(Go(s), b);
    SortOrders(Go(s), a);
    SortOrders(Go(s), b);
    OrderedUnique(s, SortMembers(Go(s), a), SortMembers(Go(s), b));
  }

  /** Equal canonical forms come from values that are the same up to key order. */
  lemma {:induction false} OneFormIsSame(s: bool, v: Value, w: Value)
    requires Canon(Go(s), v) == Canon(Go(s), w)
    ensures Same(v, w)
    decreases v
  {
    match v
    case Arr(items) =>
      forall i | 0 <= i < |items| ensures Same(items[i], w.items[i]) {
        assert Canon(Go(s), v).items[i] == Canon(Go(s), w).items[i];
        OneFormIsSame(s, items[i], w.items[i]);
      }
    case Obj(ms) =>
      var ns := w.members;
      var a, b := CanonMembers(Go(s), ms), CanonMembers(Go(s), ns);
      CanonOfObj(Go(s), ms);
      CanonOfObj(Go(s), ns);
      SortKeeps(Go(s), a);
      SortKeeps(Go(s), b);
      forall i | 0 <= i < |ms| ensures Matched(ms[i], ns) {
        assert a[i] in b;
        var j :| 0 <= j < |b| && b[j] == a[i];
        OneFormIsSame(s, ms[i].value, ns[j].value);
      }
      forall j | 0 <= j < |ns| ensures HasKey(ms, ns[j].key) {
        assert b[j] in a;
        var i :| 0 <= i < |a| && a[i] == b[j];
        assert ms[i].key == ns[j].key;
      }
    case _ =>
  }

  lemma {:induction false} CanonKeepsNumbers(style: Style, v: Value)
    requires PlainNumbers(style, v)
    ensures PlainNumbers(style, Canon(style, v))
    decreases v
  {
    match v
    case Arr(items) =>
      forall i | 0 <= i < |items| ensures PlainNumbers(style, Canon(style, items[i])) {
        CanonKeepsNumbers(style, items[i]);
      }
    case Obj(ms) =>
      var a := CanonMembers(style, ms);
      forall i | 0 <= i < |a| ensures PlainNumbers(style, a[i].value) {
        CanonKeepsNumbers(style, ms[i].value);
      }
      CanonOfObj(style, ms);
      SortKeeps(style, a);
      var t := SortMembers(style, a);
      forall i | 0 <= i < |t| ensures PlainNumbers(style, t[i].value) {
        assert t[i] in a;
      }
    case _ =>
  }

  /** Two documents print the same canonical text exactly when they are equal up to key order. */
  lemma PrintsEqualIffSame(s: bool, v: Value, w: Value)
    requires Valid(v) && Valid(w) && PlainNumbers(Go(s), v) && PlainNumbers(Go(s), w)
    ensures Print(Go(s), v) == Print(Go(s), w) <==> Same(v, w)
  {
    if Same(v, w) { SameHaveOneForm(s, v, w); }
    if Print(Go(s), v) == Print(Go(s), w) {
      CanonKeepsNumbers(Go(s), v);
      CanonKeepsNumbers(Go(s), w);
      assert Print(Go(s), v) + [] == Print(Go(s), w) + [];
      TextUnique(Go(s), Canon(Go(s), v), Canon(Go(s), w), [], []);
      OneFormIsSame(s, v, w);
    }
  }
}
