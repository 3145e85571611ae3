/** Which containers a snapshot reports when there are more than it may hold: priority first, the rest in fair rotation. */
module Selection {
  import opened Lex

  const MAX_CONTAINERS: nat := 20

  datatype Container = Container(key: string, running: bool, unhealthy: bool, changed: bool)

  function Rank(x: Container): nat {
    if x.unhealthy || x.changed then 0 else if x.running then 1 else 2
  }

  predicate Before(x: Container, y: Container) {
    Rank(x) < Rank(y) || (Rank(x) == Rank(y) && Less(x.key, y.key))
  }

  // ---- the sorted order ----

  predicate DistinctKeys(s: seq<Container>) { forall i, j :: 0 <= i < j < |s| ==> s[i].key != s[j].key }

  predicate InOrder(s: seq<Container>) { forall i, j :: 0 <= i < j < |s| ==> Before(s[i], s[j]) }

  /** Places an element after every equal or smaller one, as a stable sort does. */
  function Place(x: Container, s: seq<Container>): seq<Container> {
    if s == [] then [x]
    else if Before(x, s[|s| - 1]) then Place(x, s[..|s| - 1]) + [s[|s| - 1]]
    else s + [x]
  }

  function Sorted(s: seq<Container>): seq<Container> {
    if s == [] then [] else Place(s[|s| - 1], Sorted(s[..|s| - 1]))
  }

  lemma BeforeTransitive(x: Container, y: Container, z: Container)
    requires Before(x, y) && Before(y, z)
    ensures Before(x, z)
  {
    if Rank(x) == Rank(y) == Rank(z) { LessTransitive(x.key, y.key, z.key); }
  }

  lemma BeforeTotal(x: Container, y: Container)
    requires x.key != y.key
    ensures Before(x, y) || Before(y, x)
    ensures !(Before(x, y) && Before(y, x))
  {
    LessTotal(x.key, y.key);
    if Less(x.key, y.key) { LessAsymmetric(x.key, y.key); }
  }

  lemma {:induction false} PlaceKeeps(x: Container, s: seq<Container>)
    requires InOrder(s) && forall y :: y in s ==> y.key != x.key
    ensures InOrder(Place(x, s)) && |Place(x, s)| == |s| + 1
    ensures forall y :: y in Place(x, s) <==> y == x || y in s
  {
    if s != [] {
      var front, last := s[..|s| - 1], s[|s| - 1];
      assert last in s && s == front + [last];
      BeforeTotal(x, last);
      if Before(x, last) {
        PlaceKeeps(x, front);
        var t := Place(x, front);
        forall i | 0 <= i < |t| ensures Before(t[i], last) {
          assert t[i] in t;
          if t[i] != x {
            var j :| 0 <= j < |front| && front[j] == t[i];
            assert Before(s[j], s[|s| - 1]);
          }
        }
      } else {
        forall i | 0 <= i < |s| ensures Before(s[i], x) {
          if i < |s| - 1 { BeforeTransitive(s[i], last, x); }
        }
      }
    }
  }

  /** Sorting keeps exactly the elements, in strict order. */
  lemma SortedSpec(s: seq<Container>)
    requires DistinctKeys(s)
    ensures InOrder(Sorted(s)) && |Sorted(s)| == |s|
    ensures forall y :: y in Sorted(s) <==> y in s
    ensures forall i, j :: 0 <= i < j < |Sorted(s)| ==> Preferred(Sorted(s)[i], Sorted(s)[j])
  {
    SortedKeeps(s);
    forall i, j | 0 <= i < j < |Sorted(s)| ensures Preferred(Sorted(s)[i], Sorted(s)[j]) {
      BeforeIsPreferred(Sorted(s)[i], Sorted(s)[j]);
    }
  }

  lemma {:induction false} SortedKeeps(s: seq<Container>)
    requires DistinctKeys(s)
    ensures InOrder(Sorted(s)) && |Sorted(s)| == |s|
    ensures forall y :: y in Sorted(s) <==> y in s
  {
    if s != [] {
      var front, last := s[..|s| - 1], s[|s| - 1];
      SortedKeeps(front);
      assert s == front + [last];
      PlaceKeeps(last, Sorted(front));
    }
  }

  // ---- what is selected ----

  function Cap(limit: int): nat { if limit <= 0 then 0 else if limit > MAX_CONTAINERS then MAX_CONTAINERS else limit }

  /** How many leading elements are prioritised or running. */
  function Cut(v: seq<Container>): (r: nat)
    ensures r <= |v|
  {
    if v == [] || Rank(v[0]) >= 2 then 0 else 1 + Cut(v[1..])
  }

  lemma {:induction false} CutSpec(v: seq<Container>)
    ensures forall i :: 0 <= i < Cut(v) ==> Rank(v[i]) < 2
    ensures Cut(v) < |v| ==> Rank(v[Cut(v)]) >= 2
  {
    if v != [] && Rank(v[0]) < 2 {
      CutSpec(v[1..]);
      forall i | 0 <= i < Cut(v) ensures Rank(v[i]) < 2 {
        if i > 0 { assert v[i] == v[1..][i - 1]; }
      }
    }
  }

  /** Unhealthy, just changed, or running. */
  predicate Pressing(x: Container) { x.unhealthy || x.changed || x.running }

  /** How many containers are. */
  function CountPressing(s: seq<Container>): nat {
    if s == [] then 0 else CountPressing(s[..|s| - 1]) + (if Pressing(s[|s| - 1]) then 1 else 0)
  }

  /** The order in which containers are preferred: unhealthy or changed ones, then running ones, then the rest, each by key. */
  predicate Preferred(x: Container, y: Container) {
    if (x.unhealthy || x.changed) != (y.unhealthy || y.changed) then x.unhealthy || x.changed
    else if !x.unhealthy && !x.changed && x.running != y.running then x.running
    else Less(x.key, y.key)
  }

  lemma BeforeIsPreferred(x: Container, y: Container)
    ensures Before(x, y) <==> Preferred(x, y)
    ensures Rank(x) < 2 <==> Pressing(x)
  {}

  function Min(a: nat, b: nat): nat { if a <= b then a else b }

  /** Where a rotation starts in a tail of `m` containers. */
  function Start(rotation: nat, m: nat): (r: nat)
    requires m > 0
    ensures r < m
  {
    rotation % m
  }

  /** The index `i` places after a start, around the end. */
  function Around(start: nat, i: nat, m: nat): nat { if start + i < m then start + i else start + i - m }

  /** `n` elements of the tail from a start, around its end. */
  function Rotated(tail: seq<Container>, start: nat, n: nat): (r: seq<Container>)
    requires start < |tail| && n <= |tail|
    ensures |r| == n && forall i :: 0 <= i < n ==> r[i] == tail[Around(start, i, |tail|)]
  {
    seq(n, i requires 0 <= i < n => tail[Around(start, i, |tail|)])
  }

  /** The head of the sorted order and a window of its tail. */
  function WithRotated(head: seq<Container>, tail: seq<Container>, start: nat, spare: nat): seq<Container>
    requires start < |tail| && spare <= |tail|
  {
    head + Rotated(tail, start, spare)
  }

  function SelectedParts(head: seq<Container>, tail: seq<Container>, cap: nat, rotation: nat): seq<Container> {
    if |head| >= cap then head[..cap]
    else if tail == [] then head
    else WithRotated(head, tail, Start(rotation, |tail|), Min(cap - |head|, |tail|))
  }

  /** The selection as a function of the sorted containers. */
  function Selected(v: seq<Container>, cap: nat, rotation: nat): seq<Container> {
    if |v| <= cap then v else SelectedParts(v[..Cut(v)], v[Cut(v)..], cap, rotation)
  }

  /** What a snapshot reports. */
  function Choose(input: seq<Container>, limit: int, rotation: nat): seq<Container> {
    if limit <= 0 then [] else Selected(Sorted(input), Cap(limit), rotation)
  }

  method SortContainers(s: seq<Container>) returns (v: seq<Container>)
    ensures v == Sorted(s)
  {
    v := [];
    for i := 0 to |s|
      invariant v == Sorted(s[..i])
    {
      assert s[..i + 1][..i] == s[..i];
      v := Place(s[i], v);
    }
    assert s[..|s|] == s;
  }

  /** Counts the leading prioritised and running containers. */
  method CountUrgent(v: seq<Container>) returns (cut: nat)
    ensures cut == Cut(v)
  {
    cut := 0;
    CutSpec(v);
    while cut < |v| && Rank(v[cut]) < 2
      invariant cut <= Cut(v)
    {
      cut := cut + 1;
    }
  }

  /** Fills the places left after the head from the tail, starting at the rotation. */
  method FillRotated(head: seq<Container>, tail: seq<Container>, cap: nat, rotation: nat) returns (out: seq<Container>)
    requires |head| < cap && tail != []
    ensures out == SelectedParts(head, tail, cap, rotation)
  {
    out := head;
    var start := Start(rotation, |tail|);
    while |out| < cap && |out| - |head| < |tail|
      invariant |head| <= |out| <= cap && |out| - |head| <= |tail|
      invariant out == head + Rotated(tail, start, |out| - |head|)
    {
      RotatedIndex(start, |out| - |head|, |tail|);
      RotatedGrows(tail, start, |out| - |head|);
      out := out + [tail[(start + |out| - |head|) % |tail|]];
    }
  }

  method SelectDockerContainers(input: seq<Container>, limit: int, rotation: nat) returns (out: seq<Container>)
    ensures out == Choose(input, limit, rotation)
  {
    if limit <= 0 { return []; }
    var cap := limit;
    if cap > MAX_CONTAINERS { cap := MAX_CONTAINERS; }
    var v := SortContainers(input);
    if |v| <= cap { return v; }
    var cut := CountUrgent(v);
    if cut >= cap {
      assert v[..cut][..cap] == v[..cap];
      return v[..cap];
    }
    out := FillRotated(v[..cut], v[cut..], cap, rotation);
  }

  lemma RotatedGrows(tail: seq<Container>, start: nat, n: nat)
    requires start < |tail| && n < |tail|
    ensures Rotated(tail, start, n + 1) == Rotated(tail, start, n) + [tail[Around(start, n, |tail|)]]
  {}

  // ---- size, membership, priority ----

  lemma MulAtLeast(k: int, m: nat)
    requires k >= 1
    ensures k * m >= m
  {}

  lemma Distribute(q: int, d: int, m: nat)
    ensures (q - d) * m == q * m - d * m
  {}

  /** A remainder is determined by any way of writing the number. */
  lemma ModUnique(x: nat, q: int, a: nat, m: nat)
    requires a < m && x == q * m + a
    ensures x % m == a
  {
    var d, r := x / m, x % m;
    assert x == d * m + r;
    Distribute(q, d, m);
    Distribute(d, q, m);
    if q > d { MulAtLeast(q - d, m); }
    if d > q { MulAtLeast(d - q, m); }
  }

  lemma RotatedIndex(a: nat, i: nat, n: nat)
    requires a < n && i < n
    ensures (a + i) % n == Around(a, i, n)
  {
    if a + i < n { ModUnique(a + i, 0, a + i, n); } else { ModUnique(a + i, 1, a + i - n, n); }
  }

  /** The members of a rotated window of the tail, by their index. */
  predicate Covers(start: nat, n: nat, spare: nat, p: nat) {
    if p >= start then p - start < spare else p + n - start < spare
  }

  lemma RotatedMembers(tail: seq<Container>, start: nat, spare: nat, p: nat)
    requires start < |tail| && spare <= |tail| && p < |tail| && DistinctKeys(tail)
    ensures tail[p] in Rotated(tail, start, spare) <==> Covers(start, |tail|, spare, p)
  {
    var n := |tail|;
    var r := Rotated(tail, start, spare);
    if Covers(start, n, spare, p) {
      var i := if p >= start then p - start else p + n - start;
      assert r[i] == tail[p];
    }
    if tail[p] in r {
      var i :| 0 <= i < |r| && r[i] == tail[p];
      assert Around(start, i, n) == p;
    }
  }

  /** Distinct keys survive sorting. */
  lemma {:induction false} SortedDistinct(s: seq<Container>)
    requires DistinctKeys(s)
    ensures DistinctKeys(Sorted(s))
  {
    SortedKeeps(s);
    var v := Sorted(s);
    forall i, j | 0 <= i < j < |v| ensures v[i].key != v[j].key {
      assert v[i] in s && v[j] in s;
      assert Before(v[i], v[j]);
      var a :| 0 <= a < |s| && s[a] == v[i];
      var b :| 0 <= b < |s| && s[b] == v[j];
      if a == b { BeforeIrreflexive(v[i]); }
    }
  }

  lemma BeforeIrreflexive(x: Container)
    ensures !Before(x, x)
  {
    LessIrreflexive(x.key);
  }

  /** The selection holds as many distinct containers as fit, all of them from the input. */
  lemma SelectionSize(input: seq<Container>, limit: int, rotation: nat)
    requires DistinctKeys(input) && limit > 0
    ensures var out := Choose(input, limit, rotation);
            && |out| == Min(Min(limit, 20), |input|)
            && DistinctKeys(out)
            && forall x :: x in out ==> x in input
  {
    SortedKeeps(input);
    SortedDistinct(input);
    SelectedSize(Sorted(input), Cap(limit), rotation);
  }

  lemma SelectedSize(v: seq<Container>, cap: nat, rotation: nat)
    requires DistinctKeys(v)
    ensures var out := Selected(v, cap, rotation);
            |out| == Min(cap, |v|) && DistinctKeys(out) && forall x :: x in out ==> x in v
  {
    if |v| > cap { PartsSize(v[..Cut(v)], v[Cut(v)..], cap, rotation); }
  }

  lemma PartsSize(head: seq<Container>, tail: seq<Container>, cap: nat, rotation: nat)
    requires DistinctKeys(head) && DistinctKeys(tail) && Apart(head, tail) && cap < |head| + |tail|
    ensures var out := SelectedParts(head, tail, cap, rotation);
            |out| == cap && DistinctKeys(out) && forall x :: x in out ==> x in head || x in tail
  {
    if |head| < cap { RotationSize(head, tail, Start(rotation, |tail|), cap - |head|); }
  }

  predicate Apart(head: seq<Container>, tail: seq<Container>) {
    forall i, j :: 0 <= i < |head| && 0 <= j < |tail| ==> head[i].key != tail[j].key
  }

  /** The head and a window of the tail share no key. */
  lemma RotationSize(head: seq<Container>, tail: seq<Container>, start: nat, spare: nat)
    requires DistinctKeys(head) && DistinctKeys(tail) && Apart(head, tail) && start < |tail| && spare <= |tail|
    ensures var out := WithRotated(head, tail, start, spare);
            |out| == |head| + spare && DistinctKeys(out) && forall x :: x in out ==> x in head || x in tail
  {
    var r := Rotated(tail, start, spare);
    var out := head + r;
    forall i, j | 0 <= i < j < |out| ensures out[i].key != out[j].key {
      if j >= |head| {
        assert out[j] == tail[Around(start, j - |head|, |tail|)];
        if i >= |head| { assert out[i] == tail[Around(start, i - |head|, |tail|)]; }
      }
    }
  }

  /** Ranks never fall along the sorted order, so the cut separates all prioritised and running ones. */
  lemma CutSeparates(v: seq<Container>)
    requires InOrder(v)
    ensures forall i :: 0 <= i < |v| ==> (Rank(v[i]) < 2 <==> i < Cut(v))
  {
    CutSpec(v);
    forall i | Cut(v) <= i < |v| ensures Rank(v[i]) >= 2 {
      if i > Cut(v) { assert Before(v[Cut(v)], v[i]); }
    }
  }

  /** When the head fits, all of it is selected. */
  lemma HeadSelected(head: seq<Container>, tail: seq<Container>, cap: nat, rotation: nat, i: nat)
    requires |head| <= cap && i < |head|
    ensures head[i] in SelectedParts(head, tail, cap, rotation)
  {
    assert SelectedParts(head, tail, cap, rotation)[i] == head[i];
  }

  lemma NotInFront(v: seq<Container>, cap: nat)
    requires DistinctKeys(v) && cap < |v|
    ensures v[cap] !in v[..cap]
  {
    forall i | 0 <= i < cap ensures v[..cap][i] != v[cap] {
      assert v[i].key != v[cap].key;
    }
  }

  lemma InFront(v: seq<Container>, cap: nat, j: nat)
    requires j < cap <= |v|
    ensures v[j] in v[..cap]
  {
    assert v[..cap][j] == v[j];
  }

  /** How many containers are prioritised or running. */
  function Urgent(s: seq<Container>): nat { Cut(Sorted(s)) }

  lemma {:induction false} PlaceCounts(x: Container, s: seq<Container>)
    ensures CountPressing(Place(x, s)) == CountPressing(s) + (if Pressing(x) then 1 else 0)
  {
    if s != [] {
      var front, last := s[..|s| - 1], s[|s| - 1];
      if Before(x, last) {
        PlaceCounts(x, front);
        assert Place(x, s)[..|Place(x, s)| - 1] == Place(x, front);
      } else {
        assert (s + [x])[..|s|] == s;
      }
    }
  }

  lemma {:induction false} SortedCounts(s: seq<Container>)
    ensures CountPressing(Sorted(s)) == CountPressing(s)
  {
    if s != [] {
      SortedCounts(s[..|s| - 1]);
      PlaceCounts(s[|s| - 1], Sorted(s[..|s| - 1]));
    }
  }

  lemma {:induction false} CutCounts(v: seq<Container>, k: nat)
    requires InOrder(v) && k <= |v|
    ensures CountPressing(v[..k]) == Min(k, Cut(v))
  {
    if k > 0 {
      CutCounts(v, k - 1);
      CutSeparates(v);
      BeforeIsPreferred(v[k - 1], v[k - 1]);
      assert v[..k][..k - 1] == v[..k - 1];
    }
  }

  /** The cut falls after exactly the containers that are unhealthy, changed or running. */
  lemma UrgentIsPressing(input: seq<Container>)
    requires DistinctKeys(input)
    ensures Urgent(input) == CountPressing(input)
  {
    SortedKeeps(input);
    SortedCounts(input);
    var v := Sorted(input);
    CutCounts(v, |v|);
    assert v[..|v|] == v;
  }

  /**
   * Every unhealthy, changed or running container is selected exactly when they all fit;
   * when they do not, whoever is selected is preferred to every one of them left out.
   */
  lemma PriorityFirst(input: seq<Container>, limit: int, rotation: nat)
    requires DistinctKeys(input) && limit > 0
    ensures var out := Choose(input, limit, rotation);
            && ((forall x :: x in input && Pressing(x) ==> x in out) <==> CountPressing(input) <= Min(limit, 20))
            && (forall x, y :: x in out && y in input && y !in out && Pressing(y) ==> Preferred(x, y))
  {
    UrgentIsPressing(input);
    PriorityByRank(input, limit, rotation);
    var out := Choose(input, limit, rotation);
    forall x ensures Rank(x) < 2 <==> Pressing(x) { BeforeIsPreferred(x, x); }
    forall x, y | x in out && y in input && y !in out && Pressing(y) ensures Preferred(x, y) { BeforeIsPreferred(x, y); }
  }

  lemma PriorityByRank(input: seq<Container>, limit: int, rotation: nat)
    requires DistinctKeys(input) && limit > 0
    ensures var out := Choose(input, limit, rotation);
            && ((forall x :: x in input && Rank(x) < 2 ==> x in out) <==> Urgent(input) <= Cap(limit))
            && (forall x, y :: x in out && y in input && y !in out && Rank(y) < 2 ==> Before(x, y))
  {
    SortedKeeps(input);
    SortedDistinct(input);
    var v, cap := Sorted(input), Cap(limit);
    CutSeparates(v);
    var out := Selected(v, cap, rotation);
    if Urgent(input) <= cap {
      forall x | x in input && Rank(x) < 2 ensures x in out {
        assert x in v;
        var i :| 0 <= i < |v| && v[i] == x;
        if |v| > cap { HeadSelected(v[..Cut(v)], v[Cut(v)..], cap, rotation, i); }
      }
    } else {
      assert out == v[..Cut(v)][..cap] == v[..cap];
      NotInFront(v, cap);
      forall j: nat | j < cap ensures v[j] in out { InFront(v, cap, j); }
      forall x, y | x in out && y in input && y !in out ensures Before(x, y) {
        assert y in v;
        var i :| 0 <= i < |out| && out[i] == x;
        var j :| 0 <= j < |v| && v[j] == y;
        assert Before(v[i], v[j]);
      }
    }
  }

  /** Whatever fits in order is selected in order: everything, or the pressing ones. */
  lemma SelectedFront(input: seq<Container>, limit: int, rotation: nat, i: nat)
    requires DistinctKeys(input) && limit > 0 && i < Min(Min(limit, 20), |input|)
    requires |input| <= Min(limit, 20) || i < CountPressing(input)
    ensures i < |Choose(input, limit, rotation)| && i < |Sorted(input)|
    ensures Choose(input, limit, rotation)[i] == Sorted(input)[i]
  {
    SortedLength(input);
    UrgentIsPressing(input);
    var v, cap := Sorted(input), Cap(limit);
    if |v| > cap { HeadExactly(v[..Cut(v)], v[Cut(v)..], cap, rotation, i); }
  }

  /** The places the pressing ones leave go to the others from the rotation's place on, around their end. */
  lemma SelectedRest(input: seq<Container>, limit: int, rotation: nat, k: nat) returns (tail: seq<Container>)
    requires DistinctKeys(input) && limit > 0
    requires CountPressing(input) + k < Min(limit, 20) < |input|
    ensures CountPressing(input) <= |Sorted(input)| == |input| && tail == Sorted(input)[CountPressing(input)..] && tail != []
    ensures CountPressing(input) + k < |Choose(input, limit, rotation)|
    ensures Choose(input, limit, rotation)[CountPressing(input) + k] == tail[Turned(rotation, k, |tail|)]
  {
    SortedLength(input);
    UrgentIsPressing(input);
    tail := Sorted(input)[CountPressing(input)..];
    TailExactly(Sorted(input)[..CountPressing(input)], tail, Cap(limit), rotation, k);
  }

  lemma {:induction false} PlaceLength(x: Container, s: seq<Container>)
    ensures |Place(x, s)| == |s| + 1
  {
    if s != [] && Before(x, s[|s| - 1]) { PlaceLength(x, s[..|s| - 1]); }
  }

  lemma {:induction false} SortedLength(s: seq<Container>)
    ensures |Sorted(s)| == |s|
  {
    if s != [] {
      SortedLength(s[..|s| - 1]);
      PlaceLength(s[|s| - 1], Sorted(s[..|s| - 1]));
    }
  }

  /** The place `k` after the rotation's, around the end of `m` containers. */
  function Turned(rotation: nat, k: nat, m: nat): (r: nat)
    requires m > 0
    ensures r < m
  {
    (rotation + k) % m
  }

  lemma HeadExactly(head: seq<Container>, tail: seq<Container>, cap: nat, rotation: nat, i: nat)
    requires i < cap < |head| + |tail| && i < |head|
    ensures |SelectedParts(head, tail, cap, rotation)| == cap && SelectedParts(head, tail, cap, rotation)[i] == head[i]
  {}

  lemma TailExactly(head: seq<Container>, tail: seq<Container>, cap: nat, rotation: nat, k: nat)
    requires |head| + k < cap < |head| + |tail|
    ensures |SelectedParts(head, tail, cap, rotation)| == cap
    ensures SelectedParts(head, tail, cap, rotation)[|head| + k] == tail[Turned(rotation, k, |tail|)]
  {
    var start := Start(rotation, |tail|);
    assert SelectedParts(head, tail, cap, rotation) == head + Rotated(tail, start, cap - |head|);
    RotatedIndex(start, k, |tail|);
    ModSum(rotation, k, |tail|);
  }

  /** A sum's remainder is the remainder of the sum with one term reduced. */
  lemma ModSum(a: nat, b: nat, m: nat)
    requires m > 0
    ensures (a % m + b) % m == (a + b) % m
  {
    var q, r := (a % m + b) / m, (a % m + b) % m;
    var d := a / m;
    Distribute(q + d, d, m);
    ModUnique(a + b, q + d, r, m);
  }

  // ---- fairness ----

  /** The numbers among `n` consecutive ones that satisfy a test. */
  ghost function Hits(test: nat -> bool, from: nat, n: nat): set<nat> {
    set r: nat | from <= r < from + n && test(r)
  }

  /** How many of `n` consecutive numbers satisfy a test. */
  ghost function Tally(test: nat -> bool, from: nat, n: nat): nat { |Hits(test, from, n)| }

  lemma TallyEmpty(f: nat -> bool, from: nat)
    ensures Tally(f, from, 0) == 0
  {
    assert Hits(f, from, 0) == {};
  }

  lemma TallyLast(f: nat -> bool, from: nat, n: nat)
    ensures Tally(f, from, n + 1) == Tally(f, from, n) + (if f(from + n) then 1 else 0)
  {
    assert Hits(f, from, n + 1) == Hits(f, from, n) + (if f(from + n) then {from + n} else {});
  }

  lemma TallyFirst(f: nat -> bool, from: nat, n: nat)
    ensures Tally(f, from, n + 1) == (if f(from) then 1 else 0) + Tally(f, from + 1, n)
  {
    assert Hits(f, from, n + 1) == (if f(from) then {from} else {}) + Hits(f, from + 1, n);
  }

  predicate AdvancesAt(start: nat -> nat, m: nat, r: nat) {
    start(r) < m && start(r + 1) == if start(r) + 1 == m then 0 else start(r) + 1
  }

  /** Starts that advance by one from rotation to rotation, around the end of `m` containers. */
  ghost predicate Cyclic(start: nat -> nat, m: nat) {
    forall r: nat :: AdvancesAt(start, m, r)
  }

  lemma {:induction false} StartAhead(start: nat -> nat, m: nat, from: nat, k: nat)
    requires Cyclic(start, m) && k <= m
    ensures start(from + k) == Around(start(from), k, m)
  {
    assert AdvancesAt(start, m, from);
    if k == 0 {
      assert from + k == from;
    } else {
      StartAhead(start, m, from, k - 1);
      var r := from + (k - 1);
      assert AdvancesAt(start, m, r);
      assert from + k == r + 1;
    }
  }

  /** The test says which rotations cover index `p`. */
  ghost predicate TestsCover(f: nat -> bool, start: nat -> nat, m: nat, spare: nat, p: nat) {
    forall r: nat :: f(r) == Covers(start(r), m, spare, p)
  }

  /** Starting right after the index, the first rotations miss it and the last `spare` ones cover it. */
  lemma TallyAfter(f: nat -> bool, start: nat -> nat, m: nat, spare: nat, p: nat, from: nat, n: nat)
    requires Cyclic(start, m) && p < m && spare <= m && n <= m && TestsCover(f, start, m, spare, p)
    requires start(from) == (if p + 1 == m then 0 else p + 1)
    ensures Tally(f, from, n) == if n <= m - spare then 0 else n - (m - spare)
  {
    TallyEmpty(f, from);
    var k := 0;
    while k < n
      invariant k <= n && Tally(f, from, k) == if k <= m - spare then 0 else k - (m - spare)
    {
      TallyLast(f, from, k);
      StartAhead(start, m, from, k);
      CoversAfter(m, spare, p, k);
      assert f(from + k) == Covers(start(from + k), m, spare, p);
      k := k + 1;
    }
  }

  lemma CoversAfter(m: nat, spare: nat, p: nat, k: nat)
    requires p < m && spare <= m && k < m
    ensures Covers(Around(if p + 1 == m then 0 else p + 1, k, m), m, spare, p) <==> k >= m - spare
  {}

  /** A full round counts the same wherever it starts. */
  lemma RoundAnywhere(f: nat -> bool, m: nat, from: nat, steps: nat, to: nat)
    requires to == from + steps && forall r: nat :: f(r + m) == f(r)
    ensures Tally(f, to, m) == Tally(f, from, m)
  {
    var q := from;
    while q < to
      invariant from <= q <= to && Tally(f, q, m) == Tally(f, from, m)
    {
      TallyFirst(f, q, m);
      TallyLast(f, q, m);
      assert f(q + m) == f(q);
      q := q + 1;
    }
  }

  /** Over one full round every index is covered exactly `spare` times. */
  lemma FairRound(f: nat -> bool, start: nat -> nat, m: nat, spare: nat, p: nat, from: nat)
    requires Cyclic(start, m) && p < m && spare <= m && TestsCover(f, start, m, spare, p)
    ensures Tally(f, from, m) == spare
  {
    var q := GoalAhead(start, m, p, from);
    forall r: nat ensures f(r + m) == f(r) {
      StartAhead(start, m, r, m);
      assert AdvancesAt(start, m, r);
    }
    RoundAnywhere(f, m, from, q - from, q);
    TallyAfter(f, start, m, spare, p, q, m);
  }

  /** Some later rotation starts right after the index. */
  lemma GoalAhead(start: nat -> nat, m: nat, p: nat, from: nat) returns (q: nat)
    requires Cyclic(start, m) && p < m
    ensures q >= from && start(q) == if p + 1 == m then 0 else p + 1
  {
    var goal := if p + 1 == m then 0 else p + 1;
    assert AdvancesAt(start, m, from);
    var k := if goal >= start(from) then goal - start(from) else goal + m - start(from);
    StartAhead(start, m, from, k);
    q := from + k;
  }

  /** Remainders advance this way. */
  lemma RemainderIsCyclic(m: nat)
    requires m > 0
    ensures Cyclic((r: nat) => Start(r, m), m)
  {
    var start := (r: nat) => Start(r, m);
    forall r: nat ensures AdvancesAt(start, m, r) {
      var q := r / m;
      assert r == q * m + r % m;
      if r % m + 1 == m {
        Distribute(q + 1, q, m);
        ModUnique(r + 1, q + 1, 0, m);
      } else {
        ModUnique(r + 1, q, r % m + 1, m);
      }
    }
  }

  /** The rotations that select a container. */
  function Selecting(input: seq<Container>, limit: int, x: Container): nat -> bool {
    (r: nat) => x in Choose(input, limit, r)
  }

  /** A container of the tail is selected exactly when the rotation covers its place there. */
  lemma TailCovers(head: seq<Container>, tail: seq<Container>, cap: nat, p: nat, rotation: nat)
    requires DistinctKeys(tail) && Apart(head, tail) && |head| < cap < |head| + |tail| && p < |tail|
    ensures tail[p] in SelectedParts(head, tail, cap, rotation)
            <==> Covers(Start(rotation, |tail|), |tail|, cap - |head|, p)
  {
    var start, spare := Start(rotation, |tail|), cap - |head|;
    RotatedMembers(tail, start, spare, p);
    assert tail[p] !in head;
    assert SelectedParts(head, tail, cap, rotation) == head + Rotated(tail, start, spare);
  }

  lemma SplitDistinct(v: seq<Container>, cut: nat)
    requires DistinctKeys(v) && cut <= |v|
    ensures v == v[..cut] + v[cut..] && DistinctKeys(v[cut..]) && Apart(v[..cut], v[cut..])
  {}

  lemma TailPlace(v: seq<Container>, x: Container) returns (p: nat)
    requires InOrder(v) && x in v && Rank(x) == 2
    ensures Cut(v) <= p < |v| && v[p] == x
  {
    p :| 0 <= p < |v| && v[p] == x;
    CutSeparates(v);
  }

  /** The place of a container in the tail decides which rotations select it. */
  lemma SelectingIsCovering(input: seq<Container>, limit: int, x: Container, head: seq<Container>, tail: seq<Container>, p: nat)
    requires limit > 0 && Sorted(input) == head + tail && |head| == Cut(Sorted(input))
    requires DistinctKeys(tail) && Apart(head, tail) && |head| < Cap(limit) < |head| + |tail|
    requires p < |tail| && tail[p] == x
    ensures TestsCover(Selecting(input, limit, x), (q: nat) => Start(q, |tail|), |tail|, Cap(limit) - |head|, p)
  {
    var v := Sorted(input);
    assert v[..Cut(v)] == head && v[Cut(v)..] == tail;
    forall r: nat ensures Selecting(input, limit, x)(r) == Covers(Start(r, |tail|), |tail|, Cap(limit) - |head|, p) {
      TailCovers(head, tail, Cap(limit), p, r);
    }
  }

  /**
   * Fairness: when the urgent containers fit but not all containers do, over as many
   * consecutive rotations as there are remaining containers each of them is selected
   * exactly as often as there are spare places.
   */
  lemma FairSelection(input: seq<Container>, limit: int, x: Container, from: nat, rounds: nat)
    requires DistinctKeys(input) && limit > 0 && x in input && !x.unhealthy && !x.changed && !x.running
    requires CountPressing(input) < Min(limit, 20) < |input| && rounds == |input| - CountPressing(input)
    ensures Tally(Selecting(input, limit, x), from, rounds) == Min(limit, 20) - CountPressing(input)
  {
    UrgentIsPressing(input);
    var head, tail, p := UrgentTail(input, x);
    FairParts(input, limit, x, head, tail, p, from, rounds);
  }

  /** The sorted input is the urgent containers and the rest, where the container has a place. */
  lemma UrgentTail(input: seq<Container>, x: Container) returns (head: seq<Container>, tail: seq<Container>, p: nat)
    requires DistinctKeys(input) && x in input && Rank(x) == 2
    ensures Sorted(input) == head + tail && |head| == Urgent(input) && |tail| == |input| - Urgent(input)
    ensures DistinctKeys(tail) && Apart(head, tail) && p < |tail| && tail[p] == x
  {
    SortedKeeps(input);
    SortedDistinct(input);
    head, tail, p := TailOf(Sorted(input), x);
  }

  lemma TailOf(v: seq<Container>, x: Container) returns (head: seq<Container>, tail: seq<Container>, p: nat)
    requires InOrder(v) && DistinctKeys(v) && x in v && Rank(x) == 2
    ensures v == head + tail && |head| == Cut(v)
    ensures DistinctKeys(tail) && Apart(head, tail) && p < |tail| && tail[p] == x
  {
    var q := TailPlace(v, x);
    SplitDistinct(v, Cut(v));
    head, tail, p := v[..Cut(v)], v[Cut(v)..], q - Cut(v);
  }

  lemma FairParts(input: seq<Container>, limit: int, x: Container,
                  head: seq<Container>, tail: seq<Container>, p: nat, from: nat, m: nat)
    requires limit > 0 && Sorted(input) == head + tail && |head| == Cut(Sorted(input)) && m == |tail|
    requires DistinctKeys(tail) && Apart(head, tail) && |head| < Cap(limit) < |head| + m
    requires p < m && tail[p] == x
    ensures Tally(Selecting(input, limit, x), from, m) == Cap(limit) - |head|
  {
    var spare := Cap(limit) - |head|;
    var start := (q: nat) => Start(q, |tail|);
    SelectingIsCovering(input, limit, x, head, tail, p);
    RemainderIsCyclic(m);
    FairRound(Selecting(input, limit, x), start, m, spare, p, from);
  }
}
