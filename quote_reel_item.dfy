/**
 * The background picture of a quote card: a Horner-style hash of the quote id's
 * UTF-16 code units, reduced modulo the number of pictures at every step, picks
 * the picture. Nothing else of the card is modelled.
 */
module QuoteReelItem {
  import opened Domain

  const Radix: int := 31

  function Pow(b: int, e: nat): int {
    if e == 0 then 1 else b * Pow(b, e - 1)
  }

  /** The polynomial sum of c_i * 31^(n-1-i) over the code units c_0 .. c_(n-1). */
  function Poly(u: seq<int>): int {
    if u == [] then 0 else u[0] * Pow(Radix, |u| - 1) + Poly(u[1..])
  }

  /** The hash after each step of the loop: the previous hash times 31 plus the next unit, reduced modulo n. */
  function Hash(u: seq<int>, n: nat): (h: int)
    requires n > 0
    requires forall i :: 0 <= i < |u| ==> u[i] >= 0
    ensures 0 <= h < n
  {
    if u == [] then 0 else (Hash(u[..|u| - 1], n) * Radix + u[|u| - 1]) % n
  }

  /** A remainder is determined by any quotient-remainder split of the dividend. */
  lemma ModUnique(y: int, n: int, d: int, r: int)
    requires n > 0 && 0 <= r < n && y == n * d + r
    ensures y % n == r
  {
    var d', r' := y / n, y % n;
    assert n * d' + r' == y;
    if d > d' {
      MulAtLeast(n, d - d');
      assert false;
    } else if d < d' {
      MulAtLeast(n, d' - d);
      assert false;
    }
  }

  lemma MulAtLeast(n: int, k: int)
    requires n > 0 && k >= 1
    ensures n * k >= n
  {
  }

  /** Reducing the running hash at every step gives the same result as reducing once at the end. */
  lemma StepReduction(a: nat, c: int, n: nat)
    requires n > 0
    ensures ((a % n) * Radix + c) % n == (a * Radix + c) % n
  {
    var q := a / n;
    var b := (a % n) * Radix + c;
    assert a == n * q + a % n;
    assert a * Radix + c == n * (q * Radix) + b;
    ModUnique(b, n, b / n, b % n);
    ModUnique(a * Radix + c, n, q * Radix + b / n, b % n);
  }

  /** Appending a unit to the polynomial multiplies it by 31 and adds the unit. */
  lemma {:induction false} PolyAppend(p: seq<int>, c: int)
    ensures Poly(p + [c]) == Poly(p) * Radix + c
  {
    if p == [] {
      assert [] + [c] == [c];
    } else {
      assert (p + [c])[1..] == p[1..] + [c];
      PolyAppend(p[1..], c);
      assert Pow(Radix, |p|) == Pow(Radix, |p| - 1) * Radix;
      calc {
        Poly(p + [c]);
        p[0] * Pow(Radix, |p|) + Poly(p[1..] + [c]);
        p[0] * (Pow(Radix, |p| - 1) * Radix) + Poly(p[1..]) * Radix + c;
        (p[0] * Pow(Radix, |p| - 1) + Poly(p[1..])) * Radix + c;
      }
    }
  }

  lemma {:induction false} PolyNonNegative(u: seq<int>)
    requires forall i :: 0 <= i < |u| ==> u[i] >= 0
    ensures Poly(u) >= 0
  {
    if u != [] {
      PolyNonNegative(u[1..]);
      PowPositive(|u| - 1);
    }
  }

  lemma {:induction false} PowPositive(e: nat)
    ensures Pow(Radix, e) > 0
  {
    if e > 0 {
      PowPositive(e - 1);
    }
  }

  /** The hash the loop computes is the polynomial of the id's code units modulo the picture count. */
  lemma {:induction false} HashIsPolyMod(u: seq<int>, n: nat)
    requires n > 0
    requires forall i :: 0 <= i < |u| ==> u[i] >= 0
    ensures Hash(u, n) == Poly(u) % n
  {
    if u != [] {
      var p, c := u[..|u| - 1], u[|u| - 1];
      assert u == p + [c];
      var a := Poly(p);
      assert Hash(p, n) == a % n by { HashIsPolyMod(p, n); }
      assert Poly(u) == a * Radix + c by { PolyAppend(p, c); }
      assert a >= 0 by { PolyNonNegative(p); }
      assert ((a % n) * Radix + c) % n == (a * Radix + c) % n by { StepReduction(a, c, n); }
      assert Hash(u, n) == (Hash(p, n) * Radix + c) % n;
    }
  }

  /**
   * `bgImage`: the picture for a quote id. With no pictures JavaScript's
   * `% 0` yields NaN and the lookup yields `undefined`, modelled as `None`.
   */
  method BackgroundImage(quoteId: string, backgroundImages: seq<string>) returns (image: Option<string>)
    ensures |backgroundImages| == 0 ==> image.None?
    ensures |backgroundImages| > 0 ==> image == Some(backgroundImages[Poly(Utf16(quoteId)) % |backgroundImages|])
    ensures image.Some? ==> image.value in backgroundImages
    ensures |backgroundImages| > 0 && quoteId == "" ==> image == Some(backgroundImages[0])
  {
    var n := |backgroundImages|;
    if n == 0 {
      return None;
    }
    var units := Utf16(quoteId);
    var hash := 0;
    for i := 0 to |units|
      invariant 0 <= hash < n
      invariant hash == Hash(units[..i], n)
    {
      assert units[..i + 1][..i] == units[..i];
      hash := (hash * Radix + units[i]) % n;
    }
    assert units[..|units|] == units;
    assert hash == Poly(units) % n by { HashIsPolyMod(units, n); }
    if quoteId == "" {
      assert units == [] && hash == 0;
    }
    image := Some(backgroundImages[hash]);
  }
}
