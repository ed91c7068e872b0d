/** Making the names of a graph's nodes unique, in place. */
module GraphNames {
  import MixedRadix

  /** Characters a name holds, its terminator aside. */
  const MAX_NAME := 63

  function Digit(d: nat): char
    requires d < 10
  {
    '0' + d as char
  }

  function Decimal(k: nat): (s: string)
    ensures |s| > 0 && forall c :: c in s ==> '0' <= c <= '9'
  {
    if k < 10 then [Digit(k)] else Decimal(k / 10) + [Digit(k % 10)]
  }

  function Truncated(s: string): string {
    if |s| <= MAX_NAME then s else s[..MAX_NAME]
  }

  /** The name tried for `name` with number `k`. */
  function Candidate(k: nat, name: string): string {
    Truncated(Decimal(k) + "#" + name)
  }

  // ---------- candidates differ ----------

  lemma {:induction false} DecimalInjective(a: nat, b: nat)
    requires Decimal(a) == Decimal(b)
    ensures a == b
    decreases a
  {
    var s := Decimal(a);
    assert s[|s| - 1] == Digit(a % 10) && s[|s| - 1] == Digit(b % 10);
    if a >= 10 {
      assert s[..|s| - 1] == Decimal(a / 10);
      assert b >= 10 && s[..|s| - 1] == Decimal(b / 10);
      DecimalInjective(a / 10, b / 10);
    }
  }

  const MOST: nat := 0x4000_0000_0000_0000

  /** A node count is an `int`. */
  predicate Count(n: nat) {
    n < 0x8000_0000
  }

  lemma SquareFits(n: nat)
    requires Count(n)
    ensures n * n <= MOST
  {
    SquareMonotone(n, 0x8000_0000);
  }

  lemma SquareMonotone(n: nat, m: nat)
    requires n <= m
    ensures n * n <= m * m
  {
    assert (m - n) * n >= 0 && (m - n) * m >= 0;
    assert (m - n) * n == m * n - n * n && (m - n) * m == m * m - n * m;
  }

  function Ten(d: nat): nat {
    if d == 0 then 1 else 10 * Ten(d - 1)
  }

  lemma {:induction false} DecimalShort(k: nat, d: nat)
    requires d > 0 && k < Ten(d)
    ensures |Decimal(k)| <= d
    decreases d
  {
    if k >= 10 {
      DecimalShort(k / 10, d - 1);
    }
  }

  lemma {:induction false} DecimalMonotone(a: nat, b: nat)
    requires a <= b
    ensures |Decimal(a)| <= |Decimal(b)|
    decreases b
  {
    if a >= 10 {
      DecimalMonotone(a / 10, b / 10);
    }
  }

  lemma MostIsShort()
    ensures MOST < Ten(19)
  {
    assert Ten(10) == 10_000_000_000;
    assert Ten(15) == 100_000 * Ten(10);
    assert Ten(19) == 10_000 * Ten(15);
  }

  /** Numbers up to the square of an `int` give different candidates, whatever the names:
      the digits and the mark survive truncation. */
  lemma {:induction false} CandidateInjective(a: nat, x: string, b: nat, y: string)
    requires a < MOST && b < MOST && Candidate(a, x) == Candidate(b, y)
    ensures a == b
  {
    MostIsShort();
    DecimalShort(a, 19);
    DecimalShort(b, 19);
    hide Decimal, Ten;
    var p, q, c := |Decimal(a)|, |Decimal(b)|, Candidate(a, x);
    Opens(a, x);
    Opens(b, y);
    NoMark(a, c);
    NoMark(b, c);
    assert p == q;
    DecimalInjective(a, b);
  }

  /** The mark is none of the digits before it. */
  lemma NoMark(k: nat, c: string)
    requires |c| >= |Decimal(k)| && c[..|Decimal(k)|] == Decimal(k)
    ensures forall p :: 0 <= p < |Decimal(k)| ==> c[p] != '#'
  {
    hide Decimal;
    forall p | 0 <= p < |Decimal(k)| ensures c[p] != '#' {
      assert c[..|Decimal(k)|][p] in Decimal(k);
    }
  }

  lemma Opens(k: nat, name: string)
    requires |Decimal(k)| < MAX_NAME
    ensures var c := Candidate(k, name); var p := |Decimal(k)|;
            |c| > p && c[..p] == Decimal(k) && c[p] == '#'
  {
    hide Decimal;
  }

  // ---------- what the pass does ----------

  /** The number tried after `j` failures at node `i` of `n`. */
  function Tried(i: nat, n: nat, j: nat): nat {
    if j == 0 then i else Tried(i, n, j - 1) + n
  }

  /** The candidate tried after `j` failures. */
  function Attempt(name: string, i: nat, n: nat, j: nat): string {
    Candidate(Tried(i, n, j), name)
  }

  /** All of the first `j` candidates are taken. */
  predicate Taken(name: string, i: nat, n: nat, j: nat, earlier: seq<string>) {
    forall m: nat :: m < j ==> Attempt(name, i, n, m) in earlier
  }

  /** Node `i` keeps its name if no earlier node ends up with it, and otherwise gets the
      first candidate no earlier node ends up with. */
  ghost predicate Chosen(name: string, i: nat, n: nat, earlier: seq<string>, r: string) {
    if name !in earlier then r == name
    else r !in earlier && exists j: nat :: r == Attempt(name, i, n, j) && Taken(name, i, n, j, earlier)
  }

  ghost predicate Uniquified(was: seq<string>, now: seq<string>): (r: bool)
    ensures r ==> |now| == |was|
  {
    |now| == |was| && forall i :: 0 <= i < |was| ==> Chosen(was[i], i, |was|, now[..i], now[i])
  }

  predicate Distinct(names: seq<string>) {
    forall i, j :: 0 <= i < j < |names| ==> names[i] != names[j]
  }

  /** The names end up pairwise distinct. */
  lemma {:induction false} NamesDistinct(was: seq<string>, now: seq<string>)
    requires Uniquified(was, now)
    ensures Distinct(now)
  {
    forall i, j | 0 <= i < j < |now| ensures now[i] != now[j] {
      assert Chosen(was[j], j, |was|, now[..j], now[j]);
      assert now[..j][i] == now[i];
    }
  }

  /** A node's name stays exactly when no earlier node ends up with it. */
  lemma {:induction false} KeptExactly(was: seq<string>, now: seq<string>, i: nat)
    requires Uniquified(was, now) && i < |was|
    ensures now[i] == was[i] <==> was[i] !in now[..i]
  {
    assert Chosen(was[i], i, |was|, now[..i], now[i]);
  }

  /** A second pass changes nothing. */
  lemma {:induction false} Idempotent(was: seq<string>, now: seq<string>, again: seq<string>)
    requires Uniquified(was, now) && Uniquified(now, again)
    ensures again == now
  {
    hide Chosen, Distinct;
    NamesDistinct(was, now);
    DistinctKept(now, again, |now|);
    assert again[..|now|] == again && now[..|now|] == now;
  }

  lemma NotBefore(names: seq<string>, k: nat)
    requires Distinct(names) && k < |names|
    ensures names[k] !in names[..k]
  {
  }

  lemma {:induction false} DistinctKept(was: seq<string>, now: seq<string>, k: nat)
    requires Distinct(was) && |now| == |was| && Uniquified(was, now) && k <= |was|
    ensures now[..k] == was[..k]
  {
    hide Chosen, Distinct, Uniquified;
    if k > 0 {
      DistinctKept(was, now, k - 1);
      NotBefore(was, k - 1);
      KeptExactly(was, now, k - 1);
      OneMore(was, now, k - 1);
    }
  }

  lemma OneMore(a: seq<string>, b: seq<string>, k: nat)
    requires k < |a| == |b| && a[..k] == b[..k] && a[k] == b[k]
    ensures a[..k + 1] == b[..k + 1]
  {
    assert a[..k + 1] == a[..k] + [a[k]] && b[..k + 1] == b[..k] + [b[k]];
  }

  // ---------- why the search ends ----------

  lemma {:induction false} TriedIs(i: nat, n: nat, j: nat)
    ensures Tried(i, n, j) == i + j * n
  {
    if j > 0 {
      TriedIs(i, n, j - 1);
    }
  }

  lemma TriedFits(i: nat, n: nat, j: nat)
    requires j <= i < n
    ensures Tried(i, n, j) < n * n
  {
    TriedIs(i, n, j);
    hide Tried;
    assert (n - 1 - j) * n >= 0;
    assert (n - 1) * n == n * n - n && (n - 1 - j) * n == (n - 1) * n - j * n;
  }

  lemma {:induction false} TriedApart(i: nat, n: nat, j: nat, m: nat)
    requires m < j && n > 0
    ensures Tried(i, n, m) < Tried(i, n, j)
  {
    if m < j - 1 {
      TriedApart(i, n, j - 1, m);
    }
  }

  lemma {:induction false} Pigeonhole(a: set<string>, b: set<string>)
    requires a <= b
    ensures |a| <= |b|
  {
    if a != {} {
      var x :| x in a;
      Pigeonhole(a - {x}, b - {x});
    }
  }

  ghost function Elements(names: seq<string>): set<string> {
    set s | s in names
  }

  lemma {:induction false} ElementsFew(names: seq<string>)
    ensures |Elements(names)| <= |names|
  {
    if names != [] {
      var n := |names| - 1;
      ElementsFew(names[..n]);
      assert Elements(names) == Elements(names[..n]) + {names[n]};
    }
  }

  /** The candidates tried so far. */
  ghost function Attempts(name: string, i: nat, n: nat, j: nat): set<string> {
    if j == 0 then {} else Attempts(name, i, n, j - 1) + {Attempt(name, i, n, j - 1)}
  }

  lemma {:induction false} AttemptsAre(name: string, i: nat, n: nat, j: nat, s: string)
    ensures s in Attempts(name, i, n, j) <==> exists m: nat :: m < j && s == Attempt(name, i, n, m)
  {
    hide Attempt;
    if j > 0 {
      AttemptsAre(name, i, n, j - 1, s);
      if m: nat :| m < j && s == Attempt(name, i, n, m) {
        assert m < j - 1 || m == j - 1;
      }
      if s == Attempt(name, i, n, j - 1) {
        var m: nat := j - 1;
        assert m < j && s == Attempt(name, i, n, m);
      }
    }
  }

  /** Different numbers, different candidates: there are as many as attempts. */
  lemma {:induction false} AttemptsCount(name: string, i: nat, n: nat, j: nat)
    requires i < n && j <= i + 1 && Count(n)
    ensures |Attempts(name, i, n, j)| == j
  {
    hide Candidate, Tried;
    if j > 0 {
      AttemptsCount(name, i, n, j - 1);
      var s := Attempt(name, i, n, j - 1);
      AttemptsAre(name, i, n, j - 1, s);
      if m: nat :| m < j - 1 && s == Attempt(name, i, n, m) {
        TriedFits(i, n, j - 1);
        TriedFits(i, n, m);
        SquareFits(n);
        CandidateInjective(Tried(i, n, j - 1), name, Tried(i, n, m), name);
        TriedApart(i, n, j - 1, m);
        assert false;
      }
    }
  }

  /** No more candidates are taken than there are earlier nodes, so the numbers stay
      below the square of the node count. */
  lemma {:induction false} FewTried(name: string, i: nat, n: nat, j: nat, earlier: seq<string>)
    requires i < n && Count(n) && |earlier| == i && Taken(name, i, n, j, earlier)
    ensures j <= i && Tried(i, n, j) < n * n
  {
    hide Attempt, Tried, Attempts;
    var m := if j <= i then j else i + 1;
    AttemptsCount(name, i, n, m);
    forall s | s in Attempts(name, i, n, m) ensures s in earlier {
      AttemptsAre(name, i, n, m, s);
    }
    assert Attempts(name, i, n, m) <= Elements(earlier);
    Pigeonhole(Attempts(name, i, n, m), Elements(earlier));
    ElementsFew(earlier);
    TriedFits(i, n, if j <= i then j else i);
  }

  // ---------- which first names stay ----------

  ghost predicate FirstsKept(was: seq<string>, now: seq<string>)
    requires |was| == |now|
  {
    KeptBelow(was, now, |was|)
  }

  /** The first node of every name keeps it, among the first `k` nodes. */
  ghost predicate KeptBelow(was: seq<string>, now: seq<string>, k: nat)
    requires k <= |was| == |now|
  {
    forall i :: 0 <= i < k && was[i] !in was[..i] ==> now[i] == was[i]
  }

  /** For a node `m` whose name is not new, the number that the names before it call
      for: the first whose candidate is none of them. */
  predicate Makes(was: seq<string>, m: nat, j: nat)
    requires m < |was|
  {
    && Attempt(was[m], m, |was|, j) !in was[..m]
    && Taken(was[m], m, |was|, j, was[..m])
  }

  /** Some node's made-up name is one that the graph has already. */
  ghost predicate Clashes(was: seq<string>) {
    exists m, j: nat :: 0 <= m < |was| && was[m] in was[..m] && Makes(was, m, j) && Attempt(was[m], m, |was|, j) in was
  }

  /** Names made up for different nodes differ: their numbers leave different
      remainders. */
  lemma {:induction false} MadeUpApart(x: string, m: nat, q: nat, y: string, i: nat, r: nat, n: nat)
    requires i < m < n && q <= m && r <= i && Count(n)
    ensures Attempt(x, m, n, q) != Attempt(y, i, n, r)
  {
    hide Candidate, Tried;
    TriedFits(m, n, q);
    TriedFits(i, n, r);
    SquareFits(n);
    if Attempt(x, m, n, q) == Attempt(y, i, n, r) {
      CandidateInjective(Tried(m, n, q), x, Tried(i, n, r), y);
      TriedIs(m, n, q);
      TriedIs(i, n, r);
      MixedRadix.DivUnique(q, m, r, i, n);
      assert false;
    }
  }

  /** How a renamed node came by its name. */
  lemma {:induction false} Renamed(was: seq<string>, now: seq<string>, m: nat) returns (j: nat)
    requires Uniquified(was, now) && Count(|was|) && m < |was| && was[m] in now[..m]
    ensures j <= m && now[m] == Attempt(was[m], m, |was|, j) && now[m] !in now[..m]
    ensures Taken(was[m], m, |was|, j, now[..m])
  {
    hide Attempt;
    assert Chosen(was[m], m, |was|, now[..m], now[m]);
    j :| now[m] == Attempt(was[m], m, |was|, j) && Taken(was[m], m, |was|, j, now[..m]);
    FewTried(was[m], m, |was|, j, now[..m]);
  }

  /** A candidate for node `m` that an earlier node ends up with is an earlier node's
      old name. */
  lemma {:induction false} TakenByOld(was: seq<string>, now: seq<string>, m: nat, q: nat)
    requires Uniquified(was, now) && Count(|was|) && q <= m < |was|
    requires Attempt(was[m], m, |was|, q) in now[..m]
    ensures Attempt(was[m], m, |was|, q) in was[..m]
  {
    hide Attempt, Chosen, Taken;
    var i :| 0 <= i < m && now[..m][i] == Attempt(was[m], m, |was|, q);
    KeptExactly(was, now, i);
    if now[i] != was[i] {
      var r := Renamed(was, now, i);
      MadeUpApart(was[m], m, q, was[i], i, r, |was|);
      assert false;
    }
    assert was[..m][i] == was[i];
  }

  /** A name among the old ones before `m`, first names kept, is among the new ones. */
  lemma {:induction false} OldIsNew(was: seq<string>, now: seq<string>, m: nat, s: string)
    requires m <= |was| == |now| && KeptBelow(was, now, m) && s in was[..m]
    ensures s in now[..m]
  {
    var i := FirstOf(was[..m], s);
    assert was[..i] == was[..m][..i];
    assert now[..m][i] == s;
  }

  lemma {:induction false} FirstOf(names: seq<string>, s: string) returns (i: nat)
    requires s in names
    ensures i < |names| && names[i] == s && s !in names[..i]
  {
    if s in names[..|names| - 1] {
      i := FirstOf(names[..|names| - 1], s);
      assert names[..|names| - 1][..i] == names[..i];
    } else {
      i := |names| - 1;
    }
  }

  /** While first names are kept, a node is renamed exactly if its name is not new, with
      the number the old names call for. */
  lemma {:induction false} RenamedMakes(was: seq<string>, now: seq<string>, m: nat, j: nat)
    requires Uniquified(was, now) && Count(|was|) && m < |was| && KeptBelow(was, now, m)
    requires was[m] in was[..m] && Makes(was, m, j)
    ensures was[m] in now[..m] && now[m] == Attempt(was[m], m, |was|, j)
  {
    hide Attempt, Chosen, KeptBelow, Uniquified;
    OldIsNew(was, now, m, was[m]);
    var r := Renamed(was, now, m);
    FewTried(was[m], m, |was|, j, was[..m]);
    if r < j {
      OldIsNew(was, now, m, Attempt(was[m], m, |was|, r));
      assert false;
    }
    if j < r {
      TakenByOld(was, now, m, j);
      assert false;
    }
  }

  /** And every renamed node calls for the number it got. */
  lemma {:induction false} MakesRenamed(was: seq<string>, now: seq<string>, m: nat) returns (j: nat)
    requires Uniquified(was, now) && Count(|was|) && m < |was| && KeptBelow(was, now, m)
    requires was[m] in was[..m]
    ensures Makes(was, m, j) && now[m] == Attempt(was[m], m, |was|, j)
  {
    hide Attempt, Chosen, KeptBelow;
    OldIsNew(was, now, m, was[m]);
    j := Renamed(was, now, m);
    if Attempt(was[m], m, |was|, j) in was[..m] {
      OldIsNew(was, now, m, now[m]);
      assert false;
    }
    forall q: nat | q < j ensures Attempt(was[m], m, |was|, q) in was[..m] {
      TakenByOld(was, now, m, q);
    }
  }

  /** The first node of every name keeps it exactly when no name made up for a node, by
      the names before it, is one the graph has. */
  lemma {:induction false} FirstsKeptExactly(was: seq<string>, now: seq<string>)
    requires Uniquified(was, now) && Count(|was|)
    ensures FirstsKept(was, now) <==> !Clashes(was)
  {
    hide Attempt, Chosen, Makes;
    if FirstsKept(was, now) && Clashes(was) {
      var m, j: nat :| 0 <= m < |was| && was[m] in was[..m] && Makes(was, m, j) && Attempt(was[m], m, |was|, j) in was;
      ClashShows(was, now, m, j);
      assert false;
    }
    if !FirstsKept(was, now) {
      NotKeptClashes(was, now, |was|);
    }
  }

  lemma {:induction false} ClashShows(was: seq<string>, now: seq<string>, m: nat, j: nat)
    requires Uniquified(was, now) && Count(|was|) && m < |was| && was[m] in was[..m] && Makes(was, m, j)
    requires Attempt(was[m], m, |was|, j) in was
    ensures !FirstsKept(was, now)
  {
    hide Attempt, Chosen, Taken;
    if FirstsKept(was, now) {
      RenamedMakes(was, now, m, j);
      var i := FirstOf(was, Attempt(was[m], m, |was|, j));
      PrefixHolds(was, m, i);
      assert now[..i][m] == now[m];
      KeptExactly(was, now, i);
      assert false;
    }
  }

  lemma PrefixHolds(names: seq<string>, m: nat, i: nat)
    requires m <= |names| && i < |names|
    ensures i < m ==> names[i] in names[..m]
  {
    if i < m {
      assert names[..m][i] == names[i];
    }
  }

  /** The first node that loses a new name lost it to a made-up one. */
  lemma {:induction false} NotKeptClashes(was: seq<string>, now: seq<string>, k: nat)
    requires Uniquified(was, now) && Count(|was|) && k <= |was| && !KeptBelow(was, now, k)
    ensures Clashes(was)
    decreases k
  {
    hide Attempt, Chosen, Makes;
    if !KeptBelow(was, now, k - 1) {
      NotKeptClashes(was, now, k - 1);
    } else {
      var i := k - 1;
      KeptExactly(was, now, i);
      var m :| 0 <= m < i && now[..i][m] == was[i];
      assert was[..i][m] == was[m];
      assert KeptBelow(was, now, m);
      var j := MakesRenamed(was, now, m);
      assert Attempt(was[m], m, |was|, j) in was;
    }
  }

  /** A name that could have been made up: a number, the mark, and more. */
  predicate LooksMadeUp(s: string) {
    exists p :: 0 < p < |s| && MarkAfterDigits(s, p)
  }

  predicate MarkAfterDigits(s: string, p: int)
    requires 0 <= p < |s|
  {
    s[p] == '#' && forall q :: 0 <= q < p ==> '0' <= s[q] <= '9'
  }

  lemma {:induction false} AttemptLooksMadeUp(name: string, i: nat, n: nat, j: nat)
    requires j <= i < n && Count(n)
    ensures LooksMadeUp(Attempt(name, i, n, j))
  {
    TriedFits(i, n, j);
    SquareFits(n);
    MostIsShort();
    DecimalShort(Tried(i, n, j), 19);
    hide Decimal, Ten, Tried;
    var k := Tried(i, n, j);
    Opens(k, name);
    var c, p := Candidate(k, name), |Decimal(k)|;
    forall q | 0 <= q < p ensures '0' <= c[q] <= '9' {
      assert c[..p][q] in Decimal(k);
    }
    assert MarkAfterDigits(c, p);
  }

  /** In graphs without names like these every first name stays, and a node whose name is
      not new is numbered by its place. */
  lemma {:induction false} PlainFirstsKept(was: seq<string>, now: seq<string>)
    requires Uniquified(was, now) && Count(|was|)
    requires forall i :: 0 <= i < |was| ==> !LooksMadeUp(was[i])
    ensures FirstsKept(was, now)
    ensures forall i :: 0 <= i < |was| && was[i] in was[..i] ==> now[i] == Candidate(i, was[i])
  {
    hide Attempt, Chosen, Taken, LooksMadeUp, Uniquified;
    forall m, j: nat | 0 <= m < |was| && was[m] in was[..m] && Makes(was, m, j)
      ensures Attempt(was[m], m, |was|, j) !in was
    {
      FewTried(was[m], m, |was|, j, was[..m]);
      AttemptLooksMadeUp(was[m], m, |was|, j);
    }
    FirstsKeptExactly(was, now);
    forall i | 0 <= i < |was| && was[i] in was[..i] ensures now[i] == Candidate(i, was[i]) {
      AttemptLooksMadeUp(was[i], i, |was|, 0);
      NothingTaken(was, i);
      RenamedMakes(was, now, i, 0);
      FirstAttempt(was[i], i, |was|);
    }
  }

  lemma FirstAttempt(name: string, i: nat, n: nat)
    ensures Attempt(name, i, n, 0) == Candidate(i, name)
  {
  }

  lemma NothingTaken(was: seq<string>, i: nat)
    requires i < |was| && LooksMadeUp(Attempt(was[i], i, |was|, 0))
    requires forall m :: 0 <= m < |was| ==> !LooksMadeUp(was[m])
    ensures Makes(was, i, 0)
  {
    hide Attempt, LooksMadeUp;
  }

  /** In general a node can end up with a name that a later node has first. */
  lemma FirstNotKept(now: seq<string>)
    requires Uniquified(["a", "a", "1#a"], now)
    ensures now == ["a", "1#a", "2#1#a"] && !FirstsKept(["a", "a", "1#a"], now)
  {
    var was := ["a", "a", "1#a"];
    assert Chosen(was[0], 0, 3, now[..0], now[0]);
    assert now[..1] == ["a"];
    assert Chosen(was[1], 1, 3, now[..1], now[1]);
    assert Attempt("a", 1, 3, 0) == "1#a";
    FirstFree("a", 1, 3, now[..1], now[1]);
    assert now[..2] == ["a", "1#a"];
    assert Chosen(was[2], 2, 3, now[..2], now[2]);
    assert Attempt("1#a", 2, 3, 0) == "2#1#a";
    FirstFree("1#a", 2, 3, now[..2], now[2]);
    assert was[2] !in was[..2];
  }

  lemma FirstFree(name: string, i: nat, n: nat, earlier: seq<string>, r: string)
    requires Chosen(name, i, n, earlier, r) && name in earlier && Attempt(name, i, n, 0) !in earlier
    ensures r == Attempt(name, i, n, 0)
  {
    hide Attempt;
    var j: nat :| r == Attempt(name, i, n, j) && Taken(name, i, n, j, earlier);
  }

  // ---------- whether the old name stays readable ----------

  ghost predicate Contains(s: string, t: string) {
    exists o :: OccursAt(s, t, o)
  }

  predicate OccursAt(s: string, t: string, o: int) {
    0 <= o && o + |t| <= |s| && s[o..o + |t|] == t
  }

  /** The whole name fits behind the number. */
  predicate Fits(k: nat, name: string) {
    |Decimal(k)| + 1 + |name| <= MAX_NAME
  }

  /** The name repeats the end of the number and the mark, over and over: it is found
      again one repetition early. */
  predicate Echoes(k: nat, name: string) {
    var d := Decimal(k);
    exists o :: 0 <= o <= |d| && o + |name| <= MAX_NAME && name <= d[o..] + "#" + name
  }

  /** A candidate contains its name exactly if the name fits behind the number or echoes
      it. */
  lemma {:induction false} ContainsExactly(k: nat, name: string)
    requires |Decimal(k)| < MAX_NAME && |name| <= MAX_NAME
    ensures Contains(Candidate(k, name), name) <==> Fits(k, name) || Echoes(k, name)
  {
    hide Decimal;
    var d, c, whole := Decimal(k), Candidate(k, name), Decimal(k) + "#" + name;
    if Fits(k, name) {
      assert OccursAt(c, name, |d| + 1);
    } else {
      assert |c| == MAX_NAME && c == whole[..MAX_NAME];
      forall o | 0 <= o && o + |name| <= MAX_NAME
        ensures OccursAt(c, name, o) <==> o <= |d| && name <= d[o..] + "#" + name
      {
        assert c[o..o + |name|] == whole[o..o + |name|];
        assert whole[o..] == d[o..] + "#" + name;
        assert whole[o..o + |name|] == whole[o..][..|name|];
      }
    }
  }

  /** A name echoes a number only if it opens with the mark, behind any digits. */
  lemma {:induction false} EchoOpensWithMark(k: nat, name: string)
    requires |Decimal(k)| <= 19 && !Fits(k, name) && Echoes(k, name)
    ensures |name| > 0 && (name[0] == '#' || LooksMadeUp(name))
  {
    hide Decimal;
    var d := Decimal(k);
    var o :| 0 <= o <= |d| && o + |name| <= MAX_NAME && name <= d[o..] + "#" + name;
    var e, p := d[o..] + "#" + name, |d| - o;
    assert name[p] == e[p] == '#';
    forall q | 0 <= q < p ensures '0' <= name[q] <= '9' {
      assert name[q] == e[q] == d[o + q] && d[o + q] in d;
    }
    assert MarkAfterDigits(name, p);
  }

  lemma {:induction false} NumberShort(i: nat, n: nat, j: nat)
    requires j <= i < n && Count(n)
    ensures |Decimal(Tried(i, n, j))| <= 19
  {
    TriedFits(i, n, j);
    SquareFits(n);
    MostIsShort();
    DecimalShort(Tried(i, n, j), 19);
  }

  /** Whatever the names, a renamed node contains its old name exactly if that fits behind
      its number or echoes it; where it fits, it ends in it. */
  lemma {:induction false} RenamedContains(was: seq<string>, now: seq<string>, i: nat) returns (j: nat)
    requires Uniquified(was, now) && Count(|was|) && i < |was| && was[i] in now[..i] && |was[i]| <= MAX_NAME
    ensures j <= i && now[i] == Attempt(was[i], i, |was|, j)
    ensures Contains(now[i], was[i]) <==> Fits(Tried(i, |was|, j), was[i]) || Echoes(Tried(i, |was|, j), was[i])
    ensures Fits(Tried(i, |was|, j), was[i]) ==> EndsIn(now[i], was[i])
  {
    hide Tried, Chosen, Contains, Echoes, Taken, Uniquified, Decimal;
    j := Renamed(was, now, i);
    NumberShort(i, |was|, j);
    ContainsExactly(Tried(i, |was|, j), was[i]);
  }

  predicate EndsIn(s: string, t: string) {
    |t| <= |s| && s[|s| - |t|..] == t
  }

  /** In particular where it fits behind any number there can be. */
  lemma {:induction false} EndsInOldName(was: seq<string>, now: seq<string>, i: nat)
    requires Uniquified(was, now) && Count(|was|) && i < |was|
    requires |was[i]| + 1 + |Decimal(|was| * |was|)| <= MAX_NAME
    ensures EndsIn(now[i], was[i])
  {
    hide Decimal, Tried, Attempt, Chosen, Contains, Echoes;
    if was[i] in now[..i] {
      var j := RenamedContains(was, now, i);
      TriedFits(i, |was|, j);
      DecimalMonotone(Tried(i, |was|, j), |was| * |was|);
    } else {
      KeptExactly(was, now, i);
    }
  }

  /** A renamed node still contains its old name exactly if that fits behind the number
      it calls for, or echoes it. */
  lemma {:induction false} OldNameExactly(was: seq<string>, now: seq<string>, i: nat, j: nat)
    requires Uniquified(was, now) && Count(|was|) && !Clashes(was)
    requires i < |was| && was[i] in was[..i] && Makes(was, i, j) && |was[i]| <= MAX_NAME
    ensures Contains(now[i], was[i]) <==> Fits(Tried(i, |was|, j), was[i]) || Echoes(Tried(i, |was|, j), was[i])
  {
    hide Candidate, Tried, Chosen, Clashes, Contains, Fits, Echoes, Taken, Uniquified;
    FirstsKeptExactly(was, now);
    FewTried(was[i], i, |was|, j, was[..i]);
    RenamedMakes(was, now, i, j);
    NumberShort(i, |was|, j);
    ContainsExactly(Tried(i, |was|, j), was[i]);
  }

  /** In graphs whose names look unlike made-up ones, a node still contains its old name
      exactly if it is the first with that name or the name fits behind its place. */
  lemma {:induction false} PlainOldNameExactly(was: seq<string>, now: seq<string>, i: nat)
    requires Uniquified(was, now) && Count(|was|) && i < |was| && |was[i]| <= MAX_NAME
    requires forall m :: 0 <= m < |was| ==> !LooksMadeUp(was[m]) && (was[m] == "" || was[m][0] != '#')
    ensures Contains(now[i], was[i]) <==> was[i] !in was[..i] || Fits(i, was[i])
  {
    hide Candidate, Chosen, LooksMadeUp, Fits, Echoes, Uniquified;
    PlainFirstsKept(was, now);
    if was[i] in was[..i] {
      NumberShort(i, |was|, 0);
      ContainsExactly(i, was[i]);
      if !Fits(i, was[i]) && Echoes(i, was[i]) {
        EchoOpensWithMark(i, was[i]);
        assert false;
      }
    } else {
      assert OccursAt(now[i], was[i], 0);
    }
  }

  /** Two nodes with one name of 62 letters: the second loses it. */
  lemma {:induction false} LongNameLost(name: string, now: seq<string>)
    requires |name| == 62 && forall c :: c in name ==> 'a' <= c <= 'z'
    requires Uniquified([name, name], now)
    ensures !Contains(now[1], name)
  {
    var was := [name, name];
    assert name[0] in name;
    forall p | 0 <= p < |name| ensures !MarkAfterDigits(name, p) {
      assert name[p] in name;
    }
    assert was[..1] == [name];
    hide Candidate, Chosen, Uniquified, Contains;
    PlainOldNameExactly(was, now, 1);
  }

  // ---------- the loops ----------

  /** On graphs of up to 46340 nodes every number tried fits an `int`. */
  lemma NumbersFit(name: string, i: nat, n: nat, j: nat, earlier: seq<string>)
    requires i < n <= 46340 && |earlier| == i && Taken(name, i, n, j, earlier)
    ensures Tried(i, n, j) < 0x8000_0000
  {
    FewTried(name, i, n, j, earlier);
    hide Tried;
    SquareMonotone(n, 46340);
  }

  /** Renames the nodes in place. */
  method UniqueNames(names: array<string>)
    requires Count(names.Length)
    modifies names
    ensures Uniquified(old(names[..]), names[..])
  {
    hide Candidate, Chosen;
    var n := names.Length;
    ghost var was := names[..];
    var seen: set<string> := {};
    for i := 0 to n
      invariant seen == Elements(names[..i])
      invariant names[i..] == was[i..]
      invariant forall m :: 0 <= m < i ==> Chosen(was[m], m, n, names[..m], names[m])
    {
      ghost var earlier := names[..i];
      var name := names[i];
      assert name == was[i..][0];
      if name !in seen {
        KeepName(name, i, n, earlier);
      } else {
        name := FreeName(name, i, n, seen, earlier);
      }
      seen := seen + {name};
      names[i] := name;
      assert names[..i] == earlier && names[..i + 1] == earlier + [name];
      assert names[i + 1..] == was[i..][1..];
      forall m | 0 <= m < i ensures names[..m] == earlier[..m] && names[m] == earlier[m] {
      }
      assert forall m :: 0 <= m < i ==> Chosen(was[m], m, n, earlier[..m], earlier[m]);
    }
  }

  lemma KeepName(name: string, i: nat, n: nat, earlier: seq<string>)
    requires name !in earlier
    ensures Chosen(name, i, n, earlier, name)
  {
  }

  /** Tries one number after another; a taken candidate is one more earlier name used
      up. */
  method FreeName(name: string, i: nat, n: nat, seen: set<string>, ghost earlier: seq<string>) returns (r: string)
    requires i < n && Count(n) && |earlier| == i && seen == Elements(earlier) && name in seen
    ensures Chosen(name, i, n, earlier, r)
  {
    hide Candidate;
    var k := i;
    ghost var j := 0;
    r := Candidate(k, name);
    while r in seen
      invariant k == Tried(i, n, j)
      invariant r == Candidate(k, name) && Taken(name, i, n, j, earlier)
      invariant j <= i
      decreases i - j
    {
      FewTried(name, i, n, j + 1, earlier);
      k, j := k + n, j + 1;
      r := Candidate(k, name);
    }
  }
}
