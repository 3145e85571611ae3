/**
 * The two printers themselves: the updater's loops, proved to compute the
 * canonical text, and where the Go and TypeScript texts agree.
 */
module CanonicalPrinters {
  import opened Lex
  import opened CanonicalText
  import opened Canonical
  import opened Options
  import Nano

  // ---- the updater's printer ----

  /** Sorts indices by key, as the updater sorts its order slice. */
  method SortOrder(keys: seq<string>) returns (order: seq<nat>)
    requires forall i, j :: 0 <= i < j < |keys| ==> keys[i] != keys[j]
    ensures forall i :: 0 <= i < |order| ==> order[i] < |keys|
    ensures forall k: nat :: k < |keys| ==> k in order
    ensures forall i, j :: 0 <= i < j < |order| ==> Less(keys[order[i]], keys[order[j]])
  {
    order := [];
    for n := 0 to |keys|
      invariant forall i :: 0 <= i < |order| ==> order[i] < n
      invariant forall k: nat :: k < n ==> k in order
      invariant forall i, j :: 0 <= i < j < |order| ==> Less(keys[order[i]], keys[order[j]])
    {
      var p := |order|;
      while p > 0 && Less(keys[n], keys[order[p - 1]])
        invariant 0 <= p <= |order|
        invariant forall i :: p <= i < |order| ==> Less(keys[n], keys[order[i]])
      {
        p := p - 1;
      }
      PlacedInOrder(keys, order, p, n);
      ghost var was := order;
      order := order[..p] + [n] + order[p..];
      forall k: nat | k <= n ensures k in order {
        assert k < n ==> k in was;
        Placed(was, p, n, k);
      }
    }
  }

  /** Inserting an index after every smaller key and before every larger one keeps the order. */
  lemma PlacedInOrder(keys: seq<string>, order: seq<nat>, p: nat, n: nat)
    requires n < |keys| && p <= |order| && forall i :: 0 <= i < |order| ==> order[i] < n
    requires forall i, j :: 0 <= i < j < |keys| ==> keys[i] != keys[j]
    requires forall i, j :: 0 <= i < j < |order| ==> Less(keys[order[i]], keys[order[j]])
    requires forall i :: p <= i < |order| ==> Less(keys[n], keys[order[i]])
    requires p > 0 ==> !Less(keys[n], keys[order[p - 1]])
    ensures var next := order[..p] + [n] + order[p..];
            && (forall i :: 0 <= i < |next| ==> next[i] <= n)
            && forall i, j :: 0 <= i < j < |next| ==> Less(keys[next[i]], keys[next[j]])
  {
    var next := order[..p] + [n] + order[p..];
    forall i | 0 <= i < p ensures Less(keys[order[i]], keys[n]) {
      LessTotal(keys[order[p - 1]], keys[n]);
      if i < p - 1 { LessTransitive(keys[order[i]], keys[order[p - 1]], keys[n]); }
    }
    forall i, j | 0 <= i < j < |next| ensures Less(keys[next[i]], keys[next[j]]) {}
  }

  lemma Placed(order: seq<nat>, p: nat, n: nat, k: nat)
    requires p <= |order| && (k == n || k in order)
    ensures k in order[..p] + [n] + order[p..]
  {
    var next := order[..p] + [n] + order[p..];
    if k == n {
      assert next[p] == n;
    } else {
      var i :| 0 <= i < |order| && order[i] == k;
      assert next[if i < p then i else i + 1] == k;
    }
  }

  /** Members arrive in any order; keys and values are collected, sorted by key and paired again. */
  method ConvertCanonical(v: Value, short: bool) returns (c: Value)
    requires Valid(v)
    ensures c == Canon(Go(short), v)
    decreases v
  {
    match v {
      case Obj(members) =>
        var keys: seq<string>, vals: seq<Value> := [], [];
        for i := 0 to |members|
          invariant |keys| == |vals| == i
          invariant forall k :: 0 <= k < i ==> keys[k] == members[k].key && vals[k] == Canon(Go(short), members[k].value)
        {
          var nested := ConvertCanonical(members[i].value, short);
          keys, vals := keys + [members[i].key], vals + [nested];
        }
        var order := SortOrder(keys);
        var sorted: seq<Member> := [];
        for i := 0 to |order|
          invariant |sorted| == i
          invariant forall k :: 0 <= k < i ==> sorted[k] == Member(keys[order[k]], vals[order[k]])
        {
          sorted := sorted + [Member(keys[order[i]], vals[order[i]])];
        }
        SortedIsCanon(short, members, order, sorted);
        c := Obj(sorted);
      case Arr(items) =>
        var out: seq<Value> := [];
        for i := 0 to |items|
          invariant |out| == i
          invariant forall k :: 0 <= k < i ==> out[k] == Canon(Go(short), items[k])
        {
          var nested := ConvertCanonical(items[i], short);
          out := out + [nested];
        }
        assert out == Canon(Go(short), v).items;
        c := Arr(out);
      case _ => c := v;
    }
  }

  /** Picking every member once in key order is sorting. */
  lemma SortedIsCanon(short: bool, members: seq<Member>, order: seq<nat>, sorted: seq<Member>)
    requires KeysDistinct(members) && |sorted| == |order|
    requires forall i :: 0 <= i < |order| ==> order[i] < |members|
    requires forall k: nat :: k < |members| ==> k in order
    requires forall i, j :: 0 <= i < j < |order| ==> Less(members[order[i]].key, members[order[j]].key)
    requires forall i :: 0 <= i < |order| ==>
               sorted[i] == Member(members[order[i]].key, Canon(Go(short), members[order[i]].value))
    ensures Canon(Go(short), Obj(members)) == Obj(sorted)
  {
    var a := CanonMembers(Go(short), members);
    SortKeeps(Go(short), a);
    SortOrders(Go(short), a);
    forall x ensures x in sorted <==> x in SortMembers(Go(short), a) {
      if x in sorted {
        var i :| 0 <= i < |sorted| && sorted[i] == x;
        assert a[order[i]] == x;
      }
      if x in a {
        var k :| 0 <= k < |a| && a[k] == x;
        assert k in order;
        var i :| 0 <= i < |order| && order[i] == k;
        assert sorted[i] == x;
      }
    }
    OrderedUnique(short, sorted, SortMembers(Go(short), a));
    CanonOfObj(Go(short), members);
  }

  /** What is still to be written of a list once `i` elements are out. */
  function ItemsLeft(style: Style, items: seq<Value>, i: nat): string
    requires i <= |items|
  {
    if i == 0 then ItemsText(style, items) else MoreItems(style, items[i..])
  }

  function MembersLeft(style: Style, members: seq<Member>, i: nat): string
    requires i <= |members|
  {
    if i == 0 then MembersText(style, members) else MoreMembers(style, members[i..])
  }

  function Comma(i: nat): string { if i == 0 then [] else [','] }

  lemma Shifted(out: string, comma: string, t: string, rest: string)
    ensures ((out + comma) + t) + rest == out + (comma + (t + rest))
    ensures comma == [] ==> out + comma == out && comma + (t + rest) == t + rest
  {}

  /** Writing one element moves it from what is left to what is out. */
  lemma ItemWritten(style: Style, items: seq<Value>, i: nat, out: string)
    requires i < |items|
    ensures ((out + Comma(i)) + Text(style, items[i])) + ItemsLeft(style, items, i + 1) == out + ItemsLeft(style, items, i)
    ensures i == 0 ==> out + Comma(i) == out
  {
    assert items[i..][0] == items[i] && items[i..][1..] == items[i + 1..];
    assert items[0..] == items;
    assert ItemsText(style, items[i..]) == Text(style, items[i]) + MoreItems(style, items[i + 1..]);
    Shifted(out, Comma(i), Text(style, items[i]), ItemsLeft(style, items, i + 1));
  }

  lemma MemberWritten(style: Style, members: seq<Member>, i: nat, out: string)
    requires i < |members|
    ensures ((out + Comma(i)) + Entry(style, members[i])) + MembersLeft(style, members, i + 1) == out + MembersLeft(style, members, i)
    ensures i == 0 ==> out + Comma(i) == out
  {
    assert members[i..][0] == members[i] && members[i..][1..] == members[i + 1..];
    assert members[0..] == members;
    assert MembersText(style, members[i..]) == Entry(style, members[i]) + MoreMembers(style, members[i + 1..]);
    Shifted(out, Comma(i), Entry(style, members[i]), MembersLeft(style, members, i + 1));
  }

  method WriteItems(buf: string, items: seq<Value>, short: bool) returns (out: string)
    ensures out == buf + ItemsText(Go(short), items)
    decreases items, 0
  {
    out := buf;
    for i := 0 to |items|
      invariant out + ItemsLeft(Go(short), items, i) == buf + ItemsText(Go(short), items)
    {
      ItemWritten(Go(short), items, i, out);
      if i > 0 { out := out + [',']; }
      out := WriteCanonicalValue(out, items[i], short);
    }
  }

  method WriteEntry(buf: string, m: Member, short: bool) returns (out: string)
    ensures out == buf + Entry(Go(short), m)
    decreases m, 2
  {
    var key := Quote(Go(short), m.key);
    out := WriteCanonicalValue(buf + key + [':'], m.value, short);
    Assoc(buf, key, [':']);
    Assoc(buf, key + [':'], Text(Go(short), m.value));
    Assoc(key, [':'], Text(Go(short), m.value));
  }

  method WriteMembers(buf: string, members: seq<Member>, short: bool) returns (out: string)
    ensures out == buf + MembersText(Go(short), members)
    decreases members, 0
  {
    out := buf;
    for i := 0 to |members|
      invariant out + MembersLeft(Go(short), members, i) == buf + MembersText(Go(short), members)
    {
      MemberWritten(Go(short), members, i, out);
      if i > 0 { out := out + [',']; }
      out := WriteEntry(out, members[i], short);
    }
  }

  lemma Enclosed(buf: string, open: char, inner: string, close: char)
    ensures ((buf + [open]) + inner) + [close] == buf + ([open] + (inner + [close]))
  {}

  /** Appends the canonical text of a converted value to the buffer. */
  method WriteCanonicalValue(buf: string, c: Value, short: bool) returns (out: string)
    ensures out == buf + Text(Go(short), c)
    decreases c, 1
  {
    match c {
      case Obj(members) =>
        out := WriteMembers(buf + ['{'], members, short);
        out := out + ['}'];
        Enclosed(buf, '{', MembersText(Go(short), members), '}');
      case Arr(items) =>
        out := WriteItems(buf + ['['], items, short);
        out := out + [']'];
        Enclosed(buf, '[', ItemsText(Go(short), items), ']');
      case _ => out := buf + Text(Go(short), c);
    }
  }

  /** The updater's canonical text of a decoded document. */
  method CanonicalJson(v: Value, short: bool) returns (text: string)
    requires Valid(v)
    ensures text == Print(Go(short), v)
  {
    var c := ConvertCanonical(v, short);
    text := WriteCanonicalValue([], c, short);
  }

  // ---- where the two texts agree ----

  /** The characters the two string encoders treat alike. */
  predicate AgreedChar(short: bool, c: char) {
    && c != LINE_SEPARATOR && c != PARAGRAPH_SEPARATOR
    && (short || (c != BACKSPACE && c != FORM_FEED))
  }

  predicate AgreedString(short: bool, s: string) { forall i :: 0 <= i < |s| ==> AgreedChar(short, s[i]) }

  lemma CharsAgree(short: bool, number: string -> string, c: char, x: string, y: string)
    ensures Esc(Go(short), c) == Esc(Js(number), c) <==> AgreedChar(short, c)
    ensures Esc(Go(short), c) + x == Esc(Js(number), c) + y ==> AgreedChar(short, c) && x == y
  {
    var a, b := Esc(Go(short), c), Esc(Js(number), c);
    if !AgreedChar(short, c) {
      assert (a + x)[0] == a[0] && (b + y)[0] == b[0];
      assert a[0] == '\\';
      if b[0] == '\\' { assert (a + x)[1] == a[1] && (b + y)[1] == b[1]; }
    } else if a + x == b + y {
      SameLength(a, b, x, y);
    }
  }

  lemma {:induction false} EscapesAgree(short: bool, number: string -> string, s: string)
    ensures EscAll(Go(short), s) + ['"'] == EscAll(Js(number), s) + ['"'] <==> AgreedString(short, s)
  {
    if s != [] {
      var p, q := EscAll(Go(short), s[1..]), EscAll(Js(number), s[1..]);
      Assoc(Esc(Go(short), s[0]), p, ['"']);
      Assoc(Esc(Js(number), s[0]), q, ['"']);
      CharsAgree(short, number, s[0], p + ['"'], q + ['"']);
      EscapesAgree(short, number, s[1..]);
      assert s == [s[0]] + s[1..];
    }
  }

  /**
   * The two encoders quote a string alike exactly when it has no line or paragraph
   * separator and, before Go 1.22, no backspace or form feed.
   */
  lemma QuotesAgree(short: bool, number: string -> string, s: string)
    ensures Quote(Go(short), s) == Quote(Js(number), s) <==> AgreedString(short, s)
  {
    EscapesAgree(short, number, s);
    var p, q := EscAll(Go(short), s) + ['"'], EscAll(Js(number), s) + ['"'];
    if ['"'] + p == ['"'] + q { Uncons('"', p, q); }
  }

  /** No two keys of one object clash, so both printers sort them alike. */
  predicate SiblingsAgree(ms: seq<Member>) {
    forall i, j :: 0 <= i < |ms| && 0 <= j < |ms| ==> !Clash(ms[i].key, ms[j].key)
  }

  /** Strings both encoders quote alike, sibling keys both orders sort alike, numbers JavaScript prints as spelled. */
  predicate Portable(short: bool, number: string -> string, v: Value) {
    match v
    case Num(t) => number(t) == t
    case Str(s) => AgreedString(short, s)
    case Arr(items) => forall i :: 0 <= i < |items| ==> Portable(short, number, items[i])
    case Obj(ms) =>
      && SiblingsAgree(ms)
      && forall i :: 0 <= i < |ms| ==> AgreedString(short, ms[i].key) && Portable(short, number, ms[i].value)
    case _ => true
  }

  lemma {:induction false} InsertsAgree(short: bool, number: string -> string, m: Member, ms: seq<Member>)
    requires forall i :: 0 <= i < |ms| ==> !Clash(m.key, ms[i].key)
    ensures InsertMember(Go(short), m, ms) == InsertMember(Js(number), m, ms)
  {
    if ms != [] {
      OrdersAgree(m.key, ms[0].key);
      InsertsAgree(short, number, m, ms[1..]);
    }
  }

  lemma {:induction false} SortsAgree(short: bool, number: string -> string, ms: seq<Member>)
    requires SiblingsAgree(ms)
    ensures SortMembers(Go(short), ms) == SortMembers(Js(number), ms)
  {
    if ms != [] {
      SortsAgree(short, number, ms[1..]);
      var t := SortMembers(Go(short), ms[1..]);
      SortKeeps(Go(short), ms[1..]);
      forall i | 0 <= i < |t| ensures !Clash(ms[0].key, t[i].key) {
        assert t[i] in ms[1..];
      }
      InsertsAgree(short, number, ms[0], t);
    }
  }

  /** Siblings that agree still do in any list of the same members. */
  lemma SiblingsStay(a: seq<Member>, t: seq<Member>)
    requires SiblingsAgree(a) && forall x :: x in t ==> x in a
    ensures SiblingsAgree(t)
  {
    forall i, j | 0 <= i < |t| && 0 <= j < |t| ensures !Clash(t[i].key, t[j].key) {
      assert t[i] in a && t[j] in a;
    }
  }

  lemma {:induction false} CanonsAgree(short: bool, number: string -> string, v: Value)
    requires Portable(short, number, v)
    ensures Canon(Go(short), v) == Canon(Js(number), v)
    ensures Portable(short, number, Canon(Go(short), v))
    decreases v
  {
    match v
    case Arr(items) =>
      forall i | 0 <= i < |items|
        ensures Canon(Go(short), items[i]) == Canon(Js(number), items[i])
        ensures Portable(short, number, Canon(Go(short), items[i]))
      {
        CanonsAgree(short, number, items[i]);
      }
      assert Canon(Go(short), v).items == Canon(Js(number), v).items;
    case Obj(ms) =>
      var a, b := CanonMembers(Go(short), ms), CanonMembers(Js(number), ms);
      forall i | 0 <= i < |ms| ensures a[i] == b[i] && Portable(short, number, a[i].value) {
        CanonsAgree(short, number, ms[i].value);
      }
      assert a == b;
      SortsAgree(short, number, a);
      CanonOfObj(Go(short), ms);
      CanonOfObj(Js(number), ms);
      SortKeeps(Go(short), a);
      var t := SortMembers(Go(short), a);
      SiblingsStay(a, t);
      forall i | 0 <= i < |t| ensures AgreedString(short, t[i].key) && Portable(short, number, t[i].value) {
        assert t[i] in a;
      }
    case _ =>
  }

  lemma {:induction false} TextsAgree(short: bool, number: string -> string, v: Value)
    requires Portable(short, number, v)
    ensures Text(Go(short), v) == Text(Js(number), v)
    decreases v, 0
  {
    match v
    case Str(s) => QuotesAgree(short, number, s);
    case Arr(items) => ItemsAgree(short, number, items);
    case Obj(ms) => MembersAgree(short, number, ms);
    case _ =>
  }

  lemma {:induction false} ItemsAgree(short: bool, number: string -> string, items: seq<Value>)
    requires forall i :: 0 <= i < |items| ==> Portable(short, number, items[i])
    ensures ItemsText(Go(short), items) == ItemsText(Js(number), items)
    ensures MoreItems(Go(short), items) == MoreItems(Js(number), items)
    decreases items
  {
    if items != [] {
      TextsAgree(short, number, items[0]);
      ItemsAgree(short, number, items[1..]);
    }
  }

  lemma {:induction false} MembersAgree(short: bool, number: string -> string, ms: seq<Member>)
    requires Portable(short, number, Obj(ms))
    ensures MembersText(Go(short), ms) == MembersText(Js(number), ms)
    ensures MoreMembers(Go(short), ms) == MoreMembers(Js(number), ms)
    decreases ms
  {
    if ms != [] {
      QuotesAgree(short, number, ms[0].key);
      TextsAgree(short, number, ms[0].value);
      MembersAgree(short, number, ms[1..]);
    }
  }

  /** The members of one object as the two printers order them. */
  function GoSorted(short: bool, ms: seq<Member>): seq<Member> { SortMembers(Go(short), CanonMembers(Go(short), ms)) }
  function JsSorted(number: string -> string, ms: seq<Member>): seq<Member> { SortMembers(Js(number), CanonMembers(Js(number), ms)) }

  /** Where a member ends up when both styles print the object alike. */
  lemma PlaceOf(short: bool, number: string -> string, ms: seq<Member>, i: nat) returns (p: nat)
    requires KeysDistinct(ms) && i < |ms|
    requires Like(Go(short), Js(number), Obj(GoSorted(short, ms)), Obj(JsSorted(number, ms)))
    ensures p < |GoSorted(short, ms)| == |JsSorted(number, ms)|
    ensures GoSorted(short, ms)[p].key == ms[i].key == JsSorted(number, ms)[p].key
    ensures AgreedString(short, ms[i].key)
    ensures Like(Go(short), Js(number), Canon(Go(short), ms[i].value), Canon(Js(number), ms[i].value))
  {
    var a, b := CanonMembers(Go(short), ms), CanonMembers(Js(number), ms);
    var s, t := GoSorted(short, ms), JsSorted(number, ms);
    SortKeeps(Go(short), a);
    SortKeeps(Js(number), b);
    assert a[i] in s;
    p :| 0 <= p < |s| && s[p] == a[i];
    assert LikeMember(Go(short), Js(number), s[p], t[p]);
    assert t[p] in b;
    var k :| 0 <= k < |b| && b[k] == t[p];
    assert ms[k].key == ms[i].key;
    QuotesAgree(short, number, ms[i].key);
  }

  lemma SortedOrdered(short: bool, number: string -> string, ms: seq<Member>)
    requires KeysDistinct(ms)
    ensures Ordered(Go(short), GoSorted(short, ms)) && Ordered(Js(number), JsSorted(number, ms))
  {
    SortOrders(Go(short), CanonMembers(Go(short), ms));
    SortOrders(Js(number), CanonMembers(Js(number), ms));
  }

  /** Both orders sort two siblings alike, so their keys do not clash. */
  lemma NoClash(short: bool, number: string -> string, ms: seq<Member>, i: nat, j: nat)
    requires KeysDistinct(ms) && i < |ms| && j < |ms|
    requires Like(Go(short), Js(number), Obj(GoSorted(short, ms)), Obj(JsSorted(number, ms)))
    ensures !Clash(ms[i].key, ms[j].key)
  {
    var p := PlaceOf(short, number, ms, i);
    var q := PlaceOf(short, number, ms, j);
    SortedOrdered(short, number, ms);
    ClashTurns(ms[i].key, ms[j].key);
    if p < q {
      PlacedAlike(short, number, GoSorted(short, ms), JsSorted(number, ms), p, q);
    } else if q < p {
      PlacedAlike(short, number, GoSorted(short, ms), JsSorted(number, ms), q, p);
    }
  }

  /** Two keys at the same places in both orders do not clash. */
  lemma PlacedAlike(short: bool, number: string -> string, s: seq<Member>, t: seq<Member>, p: nat, q: nat)
    requires Ordered(Go(short), s) && Ordered(Js(number), t) && p < q < |s| == |t|
    requires s[p].key == t[p].key && s[q].key == t[q].key
    ensures !Clash(s[p].key, s[q].key)
  {
    assert Precedes(Go(short), s[p].key, s[q].key) && Precedes(Js(number), t[p].key, t[q].key);
    OrdersAgree(s[p].key, s[q].key);
  }

  lemma {:induction false} ClashTurns(a: string, b: string)
    ensures Clash(a, b) <==> Clash(b, a)
    ensures !Clash(a, a)
  {
    if |a| > 0 {
      ClashTurns(a[1..], if |b| > 0 then b[1..] else []);
    }
  }

  lemma {:induction false} LikeIsPortable(short: bool, number: string -> string, v: Value)
    requires Valid(v) && Like(Go(short), Js(number), Canon(Go(short), v), Canon(Js(number), v))
    ensures Portable(short, number, v)
    decreases v
  {
    match v
    case Str(s) => QuotesAgree(short, number, s);
    case Arr(items) =>
      forall i | 0 <= i < |items| ensures Portable(short, number, items[i]) {
        assert Like(Go(short), Js(number), Canon(Go(short), v).items[i], Canon(Js(number), v).items[i]);
        LikeIsPortable(short, number, items[i]);
      }
    case Obj(ms) =>
      CanonOfObj(Go(short), ms);
      CanonOfObj(Js(number), ms);
      forall i | 0 <= i < |ms| ensures AgreedString(short, ms[i].key) && Portable(short, number, ms[i].value) {
        var _ := PlaceOf(short, number, ms, i);
        LikeIsPortable(short, number, ms[i].value);
      }
      forall i, j | 0 <= i < |ms| && 0 <= j < |ms| ensures !Clash(ms[i].key, ms[j].key) {
        NoClash(short, number, ms, i, j);
      }
    case _ =>
  }

  lemma {:induction false} CanonPrintsNumbers(style: Style, v: Value)
    requires PrintsNumbers(style, v)
    ensures PrintsNumbers(style, Canon(style, v))
    decreases v
  {
    match v
    case Arr(items) =>
      forall i | 0 <= i < |items| ensures PrintsNumbers(style, Canon(style, items[i])) {
        CanonPrintsNumbers(style, items[i]);
      }
    case Obj(ms) =>
      var a := CanonMembers(style, ms);
      forall i | 0 <= i < |a| ensures PrintsNumbers(style, a[i].value) {
        CanonPrintsNumbers(style, ms[i].value);
      }
      CanonOfObj(style, ms);
      SortKeeps(style, a);
      var t := SortMembers(style, a);
      forall i | 0 <= i < |t| ensures PrintsNumbers(style, t[i].value) {
        assert t[i] in a;
      }
    case _ =>
  }

  lemma PortablePrintsAlike(short: bool, number: string -> string, v: Value)
    requires Portable(short, number, v)
    ensures Print(Go(short), v) == Print(Js(number), v)
  {
    CanonsAgree(short, number, v);
    TextsAgree(short, number, Canon(Go(short), v));
  }

  /**
   * Both printers give a document the same canonical text exactly when it is portable:
   * whatever JavaScript makes of numbers, as long as it prints them as numbers.
   */
  lemma PrintersAgree(short: bool, number: string -> string, v: Value)
    requires Valid(v) && PrintsNumbers(Go(short), v) && PrintsNumbers(Js(number), v)
    ensures Print(Go(short), v) == Print(Js(number), v) <==> Portable(short, number, v)
  {
    if Portable(short, number, v) { PortablePrintsAlike(short, number, v); }
    if Print(Go(short), v) == Print(Js(number), v) {
      CanonPrintsNumbers(Go(short), v);
      CanonPrintsNumbers(Js(number), v);
      assert Print(Go(short), v) + [] == Print(Js(number), v) + [];
      TextsAlike(Go(short), Js(number), Canon(Go(short), v), Canon(Js(number), v), [], []);
      LikeIsPortable(short, number, v);
    }
  }

  /** A surrogate pair sorts below U+FF61 in units, above it in code points, and a document with both keys prints differently. */
  lemma OrdersDisagree(number: string -> string)
    ensures var a, b := [0xFF61 as char], [0x10000 as char];
            && Precedes(Go(true), a, b) && Precedes(Js(number), b, a)
            && var doc := Obj([Member(a, Null), Member(b, Null)]);
               Valid(doc) && Print(Go(true), doc) != Print(Js(number), doc)
  {
    var a, b := [0xFF61 as char], [0x10000 as char];
    UnitsSplit(a);
    UnitsSplit(b);
    assert Clash(a, b);
    var ms := [Member(a, Null), Member(b, Null)];
    assert Clash(ms[0].key, ms[1].key);
    PrintersAgree(true, number, Obj(ms));
  }

  // ---- ASCII documents with canonically spelled integers ----

  const MAX_SAFE_INTEGER: nat := 9007199254740991

  predicate Ascii(s: string) { forall i :: 0 <= i < |s| ==> (s[i] as nat) < 128 }

  /** An integer JavaScript represents exactly, spelled without sign on zero, leading zeros, fraction or exponent. */
  ghost predicate SafeInteger(t: string) {
    exists n: nat :: n <= MAX_SAFE_INTEGER && (t == Nano.Spell(n) || (n > 0 && t == ['-'] + Nano.Spell(n)))
  }

  ghost predicate PlainDocument(v: Value) {
    match v
    case Num(t) => SafeInteger(t)
    case Str(s) => Ascii(s)
    case Arr(items) => forall i :: 0 <= i < |items| ==> PlainDocument(items[i])
    case Obj(ms) => forall i :: 0 <= i < |ms| ==> Ascii(ms[i].key) && PlainDocument(ms[i].value)
    case _ => true
  }

  lemma {:induction false} AsciiNeverClashes(a: string, b: string)
    requires Ascii(a) && Ascii(b)
    ensures !Clash(a, b)
  {
    if |a| > 0 && |b| > 0 && a[0] == b[0] { AsciiNeverClashes(a[1..], b[1..]); }
  }

  lemma {:induction false} PlainIsPortable(number: string -> string, v: Value)
    requires PlainDocument(v) && forall t :: SafeInteger(t) ==> number(t) == t
    ensures Portable(true, number, v)
    decreases v
  {
    match v
    case Arr(items) =>
      forall i | 0 <= i < |items| ensures Portable(true, number, items[i]) {
        PlainIsPortable(number, items[i]);
      }
    case Obj(ms) =>
      forall i | 0 <= i < |ms| ensures Portable(true, number, ms[i].value) {
        PlainIsPortable(number, ms[i].value);
      }
      forall i, j | 0 <= i < |ms| && 0 <= j < |ms| ensures !Clash(ms[i].key, ms[j].key) {
        AsciiNeverClashes(ms[i].key, ms[j].key);
      }
    case _ =>
  }

  // ---- signed manifests ----

  const SIGNATURE: string := "signature"

  function Without(ms: seq<Member>, key: string): seq<Member> {
    if ms == [] then []
    else (if ms[0].key == key then [] else [ms[0]]) + Without(ms[1..], key)
  }

  lemma {:induction false} WithoutKeeps(ms: seq<Member>, key: string)
    ensures forall m :: m in Without(ms, key) <==> m in ms && m.key != key
    ensures KeysDistinct(ms) ==> KeysDistinct(Without(ms, key))
  {
    if ms != [] {
      WithoutKeeps(ms[1..], key);
      assert ms == [ms[0]] + ms[1..];
      var t := Without(ms[1..], key);
      if KeysDistinct(ms) && ms[0].key != key {
        forall j | 0 <= j < |t| ensures t[j].key != ms[0].key {
          assert t[j] in ms[1..];
        }
      }
    }
  }

  /** The bytes the updater verifies: only an object or null passes its decoding. */
  function CanonicalSignedBytes(short: bool, doc: Value): Option<string> {
    match doc
    case Obj(ms) => Some(Print(Go(short), Obj(Without(ms, SIGNATURE))))
    case Null => Some(Print(Go(short), Null))
    case _ => None
  }

  /** The bytes the release pipeline signs: only an object is accepted. */
  function CanonicalizeManifest(number: string -> string, doc: Value): Option<string> {
    match doc
    case Obj(ms) => Some(Print(Js(number), Obj(Without(ms, SIGNATURE))))
    case _ => None
  }

  /** A plain manifest is verified over exactly the bytes that were signed; only null is taken by one side alone. */
  lemma SignedBytesAgree(number: string -> string, doc: Value)
    requires PlainDocument(doc) && forall t :: SafeInteger(t) ==> number(t) == t
    ensures CanonicalSignedBytes(true, doc) == CanonicalizeManifest(number, doc) <==> !doc.Null?
  {
    if doc.Obj? {
      var rest := Without(doc.members, SIGNATURE);
      WithoutKeeps(doc.members, SIGNATURE);
      forall i | 0 <= i < |rest| ensures Ascii(rest[i].key) && PlainDocument(rest[i].value) {
        assert rest[i] in doc.members;
      }
      PlainIsPortable(number, Obj(rest));
      PortablePrintsAlike(true, number, Obj(rest));
    }
  }

  /** A signature covers everything but itself and the order of keys: equal signed bytes mean the same document otherwise. */
  lemma SignatureCoversDocument(short: bool, ms: seq<Member>, ns: seq<Member>)
    requires Valid(Obj(ms)) && Valid(Obj(ns)) && PlainNumbers(Go(short), Obj(ms)) && PlainNumbers(Go(short), Obj(ns))
    ensures CanonicalSignedBytes(short, Obj(ms)) == CanonicalSignedBytes(short, Obj(ns))
            <==> Same(Obj(Without(ms, "signature")), Obj(Without(ns, "signature")))
  {
    StrippedIsValid(short, ms);
    StrippedIsValid(short, ns);
    PrintsEqualIffSame(short, Obj(Without(ms, SIGNATURE)), Obj(Without(ns, SIGNATURE)));
  }

  lemma StrippedIsValid(short: bool, ms: seq<Member>)
    requires Valid(Obj(ms)) && PlainNumbers(Go(short), Obj(ms))
    ensures Valid(Obj(Without(ms, SIGNATURE))) && PlainNumbers(Go(short), Obj(Without(ms, SIGNATURE)))
  {
    WithoutKeeps(ms, SIGNATURE);
    var rest := Without(ms, SIGNATURE);
    forall i | 0 <= i < |rest| ensures Valid(rest[i].value) && PlainNumbers(Go(short), rest[i].value) {
      assert rest[i] in ms;
    }
  }
}
