/** Numbers written in digits of different bases. */
module MixedRadix {
  /** The number with digits `hi` and `lo`, `lo` below `base`. */
  function Join(hi: nat, lo: nat, base: nat): nat {
    hi * base + lo
  }

  function High(x: nat, base: nat): nat
    requires base > 0
  {
    x / base
  }

  function Low(x: nat, base: nat): (r: nat)
    requires base > 0
    ensures r < base
  {
    x % base
  }

  function Area(a: nat, b: nat): nat {
    a * b
  }

  lemma DivUnique(q: int, r: int, p: int, s: int, base: int)
    requires base > 0 && 0 <= r < base && 0 <= s < base && q * base + r == p * base + s
    ensures q == p && r == s
  {
    AreaGrows(q, p, base);
    AreaGrows(p, q, base);
  }

  lemma AreaGrows(q: int, p: int, base: int)
    requires base > 0
    ensures q > p ==> q * base >= p * base + base
  {
    if q > p {
      assert (q - p - 1) * base >= 0;
      assert (q - p - 1) * base == q * base - p * base - base;
    }
  }

  lemma SplitJoin(hi: nat, lo: nat, base: nat)
    requires lo < base
    ensures High(Join(hi, lo, base), base) == hi && Low(Join(hi, lo, base), base) == lo
  {
    var x := Join(hi, lo, base);
    DivUnique(hi, lo, x / base, x % base, base);
  }

  lemma JoinSplit(x: nat, base: nat)
    requires base > 0
    ensures Join(High(x, base), Low(x, base), base) == x
  {
  }

  lemma JoinBelow(hi: nat, lo: nat, base: nat, n: nat)
    requires hi < n && lo < base
    ensures Join(hi, lo, base) < Area(n, base)
  {
    AreaGrows(n, hi, base);
  }

  lemma HighBelow(x: nat, base: nat, n: nat)
    requires base > 0 && x < Area(n, base)
    ensures High(x, base) < n
  {
    var q := x / base;
    AreaGrows(q, n - 1, base);
    assert (n - 1) * base == n * base - base;
  }

  lemma AreaPositive(a: nat, b: nat)
    requires a > 0 && b > 0
    ensures Area(a, b) > 0
  {
    AreaGrows(a, 0, b);
  }

  lemma Associates(a: nat, b: nat, c: nat)
    ensures a * b * c == a * (b * c)
  {
  }

  lemma AreaCommutes(a: nat, b: nat)
    ensures Area(a, b) == Area(b, a)
  {
  }

  lemma AreaRotates(a: nat, b: nat, c: nat)
    ensures Area(Area(b, c), a) == Area(Area(a, b), c)
  {
    assert (b * c) * a == a * (b * c);
  }

  lemma PartsArea(T: nat, parts: nat, dim: nat)
    ensures Area(parts, Area(dim, T)) == Area(T, Area(parts, dim))
  {
    assert parts * (dim * T) == (parts * dim) * T;
  }

  lemma AreaMonotone(a: nat, b: nat, c: nat)
    requires a <= b
    ensures Area(a, c) <= Area(b, c)
  {
    assert (b - a) * c >= 0;
    assert (b - a) * c == b * c - a * c;
  }
}
