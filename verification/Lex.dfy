/** Byte-order comparison of strings and sorted, duplicate-free string lists. */
module Lex {

  /** Strict lexicographic order, the order Go's `<` puts on strings. */
  predicate Less(a: string, b: string) {
    |b| > 0 && (|a| == 0 || a[0] < b[0] || (a[0] == b[0] && Less(a[1..], b[1..])))
  }

  lemma {:induction false} LessIrreflexive(a: string)
    ensures !Less(a, a)
  {
    if |a| > 0 { LessIrreflexive(a[1..]); }
  }

  lemma {:induction false} LessTransitive(a: string, b: string, c: string)
    requires Less(a, b) && Less(b, c)
    ensures Less(a, c)
  {
    if |a| > 0 && a[0] == b[0] == c[0] { LessTransitive(a[1..], b[1..], c[1..]); }
  }

  lemma {:induction false} LessTotal(a: string, b: string)
    ensures a == b || Less(a, b) || Less(b, a)
  {
    if |a| > 0 && |b| > 0 && a[0] == b[0] {
      LessTotal(a[1..], b[1..]);
      assert a == [a[0]] + a[1..] && b == [b[0]] + b[1..];
    }
  }

  lemma LessAsymmetric(a: string, b: string)
    requires Less(a, b)
    ensures !Less(b, a) && a != b
  {
    LessIrreflexive(a);
    if Less(b, a) { LessTransitive(a, b, a); }
  }

  /** Sorted and free of duplicates. */
  ghost predicate Ascending(s: seq<string>) {
    forall i, j :: 0 <= i < j < |s| ==> Less(s[i], s[j])
  }

  /** Adds one string to a sorted list, keeping it sorted and duplicate free. */
  function Insert(d: string, s: seq<string>): (r: seq<string>) {
    if s == [] then [d]
    else if d == s[0] then s
    else if Less(d, s[0]) then [d] + s
    else [s[0]] + Insert(d, s[1..])
  }

  lemma {:induction false} InsertElements(d: string, s: seq<string>)
    ensures forall x :: x in Insert(d, s) <==> x == d || x in s
  {
    if s != [] && d != s[0] && !Less(d, s[0]) {
      InsertElements(d, s[1..]);
      assert s == [s[0]] + s[1..];
    }
  }

  lemma {:induction false} InsertAscending(d: string, s: seq<string>)
    requires Ascending(s)
    ensures Ascending(Insert(d, s))
  {
    if s == [] || d == s[0] {
    } else if Less(d, s[0]) {
      var r := [d] + s;
      forall i, j | 0 <= i < j < |r| ensures Less(r[i], r[j]) {
        if i == 0 && j > 1 { LessTransitive(d, s[0], s[j - 1]); }
      }
    } else {
      LessTotal(d, s[0]);
      InsertAscending(d, s[1..]);
      InsertElements(d, s[1..]);
      var t := Insert(d, s[1..]);
      var r := [s[0]] + t;
      forall i, j | 0 <= i < j < |r| ensures Less(r[i], r[j]) {
        if i == 0 { assert r[j] == t[j - 1] && t[j - 1] in t; }
      }
    }
  }

  /** A strictly sorted list is determined by its elements. */
  lemma {:induction false} AscendingUnique(s: seq<string>, t: seq<string>)
    requires Ascending(s) && Ascending(t)
    requires forall x :: x in s <==> x in t
    ensures s == t
  {
    if |s| > 0 { assert s[0] in s; }
    if |t| > 0 { assert t[0] in t; }
    if |s| > 0 {
      HeadsAgree(s, t);
      TailElements(s);
      TailElements(t);
      AscendingUnique(s[1..], t[1..]);
      assert s == [s[0]] + s[1..] && t == [t[0]] + t[1..];
    }
  }

  lemma HeadsAgree(s: seq<string>, t: seq<string>)
    requires Ascending(s) && Ascending(t) && s != [] && t != []
    requires forall x :: x in s <==> x in t
    ensures s[0] == t[0]
  {
    assert s[0] in t && t[0] in s;
    var i :| 0 <= i < |t| && t[i] == s[0];
    var j :| 0 <= j < |s| && s[j] == t[0];
    if i > 0 && j > 0 { LessAsymmetric(s[0], t[0]); }
  }

  lemma TailElements(s: seq<string>)
    requires Ascending(s) && s != []
    ensures forall x :: x in s[1..] <==> x in s && x != s[0]
  {
    LessIrreflexive(s[0]);
    forall x | x in s && x != s[0] ensures x in s[1..] {
      var i :| 0 <= i < |s| && s[i] == x;
      assert s[1..][i - 1] == x;
    }
  }

  ghost function ElementsOf(s: seq<string>): set<string> { set d | d in s }

  /** A strictly sorted list has as many entries as elements. */
  lemma {:induction false} AscendingSize(s: seq<string>)
    requires Ascending(s)
    ensures |ElementsOf(s)| == |s|
  {
    if s != [] {
      AscendingSize(s[1..]);
      TailElements(s);
      assert ElementsOf(s) == ElementsOf(s[1..]) + {s[0]};
    }
  }
}
