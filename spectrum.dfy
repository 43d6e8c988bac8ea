/**
 * The coefficient spectrum of core/spectrum.go: a sample count and a slice
 * of coefficients. The struct is a value, but the slice inside it is a
 * header onto a shared backing array, so `ret := self` copies only the
 * header: every operation below overwrites the receiver's own coefficients
 * and returns a spectrum that aliases them. The model keeps that sharing:
 * the coefficients are an `array<real>`, the operations modify it in place
 * and return the receiver itself.
 *
 * Each operation is proved against a function on sequences (Sum,
 * Difference, Product, Quotient, Scaled) of the coefficients before the
 * call; the lemmas after them state what those functions promise.
 */
module Spectra {
  import opened Wrappers
  import Helpers

  /** a[j] + b[j] on the first n indices; a unchanged from n on. */
  function Sum(a: seq<real>, b: seq<real>, n: int): seq<real>
    requires n <= |a| && n <= |b|
  {
    seq(|a|, j requires 0 <= j < |a| => if j < n then a[j] + b[j] else a[j])
  }

  /** a[j] - b[j] on the first n indices; a unchanged from n on. */
  function Difference(a: seq<real>, b: seq<real>, n: int): seq<real>
    requires n <= |a| && n <= |b|
  {
    seq(|a|, j requires 0 <= j < |a| => if j < n then a[j] - b[j] else a[j])
  }

  /** a[j] * b[j] on the first n indices; a unchanged from n on. */
  function Product(a: seq<real>, b: seq<real>, n: int): seq<real>
    requires n <= |a| && n <= |b|
  {
    seq(|a|, j requires 0 <= j < |a| => if j < n then a[j] * b[j] else a[j])
  }

  /** The first n entries of b are nonzero. */
  predicate NonzeroUpTo(b: seq<real>, n: int)
    requires n <= |b|
  {
    forall j :: 0 <= j < n ==> b[j] != 0.0
  }

  /** a[j] / b[j] on the first n indices; a unchanged from n on. */
  function Quotient(a: seq<real>, b: seq<real>, n: int): seq<real>
    requires n <= |a| && n <= |b|
    requires NonzeroUpTo(b, n)
  {
    seq(|a|, j requires 0 <= j < |a| => if j < n then a[j] / b[j] else a[j])
  }

  /** a[j] * f on the first n indices; a unchanged from n on. */
  function Scaled(a: seq<real>, f: real, n: int): seq<real>
  {
    seq(|a|, j requires 0 <= j < |a| => if j < n then a[j] * f else a[j])
  }

  /** The first n entries of a are zero. */
  predicate Black(a: seq<real>, n: int)
    requires n <= |a|
  {
    forall j :: 0 <= j < n ==> a[j] == 0.0
  }

  /** a and b agree on their first n entries. */
  predicate SameUpTo(a: seq<real>, b: seq<real>, n: int)
    requires n <= |a| && n <= |b|
  {
    forall j :: 0 <= j < n ==> a[j] == b[j]
  }

  datatype CoefficientSpectrum = CoefficientSpectrum(nSpectrumSamples: int, c: array<real>)
  {
    /**
     * Both spectra hold at least nSpectrumSamples coefficients: indexing
     * past the end of a slice makes the source panic.
     */
    predicate Fits(c2: CoefficientSpectrum)
      reads c, c2.c
    {
      nSpectrumSamples <= c.Length && nSpectrumSamples <= c2.c.Length
    }

    /** c[i] += c2.c[i] for i < nSpectrumSamples, in the receiver's own array. */
    method Add(c2: CoefficientSpectrum) returns (ret: CoefficientSpectrum)
      requires Fits(c2)
      modifies c
      ensures ret == this
      ensures c[..] == Sum(old(c[..]), old(c2.c[..]), nSpectrumSamples)
    {
      ghost var a, b := c[..], c2.c[..];
      var i := 0;
      while i < nSpectrumSamples
        invariant 0 <= i <= Max0(nSpectrumSamples)
        invariant forall j :: 0 <= j < c.Length ==> c[j] == (if j < i then a[j] + b[j] else a[j])
        invariant forall j :: i <= j < c2.c.Length ==> c2.c[j] == b[j]
      {
        c[i] := c[i] + c2.c[i];
        i := i + 1;
      }
      ret := this;
    }

    /** c[i] -= c2.c[i] for i < nSpectrumSamples, in the receiver's own array. */
    method Subtract(c2: CoefficientSpectrum) returns (ret: CoefficientSpectrum)
      requires Fits(c2)
      modifies c
      ensures ret == this
      ensures c[..] == Difference(old(c[..]), old(c2.c[..]), nSpectrumSamples)
    {
      ghost var a, b := c[..], c2.c[..];
      var i := 0;
      while i < nSpectrumSamples
        invariant 0 <= i <= Max0(nSpectrumSamples)
        invariant forall j :: 0 <= j < c.Length ==> c[j] == (if j < i then a[j] - b[j] else a[j])
        invariant forall j :: i <= j < c2.c.Length ==> c2.c[j] == b[j]
      {
        c[i] := c[i] - c2.c[i];
        i := i + 1;
      }
      ret := this;
    }

    /** c[i] *= c2.c[i] for i < nSpectrumSamples, in the receiver's own array. */
    method MultiplyCS(c2: CoefficientSpectrum) returns (ret: CoefficientSpectrum)
      requires Fits(c2)
      modifies c
      ensures ret == this
      ensures c[..] == Product(old(c[..]), old(c2.c[..]), nSpectrumSamples)
    {
      ghost var a, b := c[..], c2.c[..];
      var i := 0;
      while i < nSpectrumSamples
        invariant 0 <= i <= Max0(nSpectrumSamples)
        invariant forall j :: 0 <= j < c.Length ==> c[j] == (if j < i then a[j] * b[j] else a[j])
        invariant forall j :: i <= j < c2.c.Length ==> c2.c[j] == b[j]
      {
        c[i] := c[i] * c2.c[i];
        i := i + 1;
      }
      assert c[..] == Product(a, b, nSpectrumSamples) by {
        forall j | 0 <= j < c.Length
          ensures c[..][j] == Product(a, b, nSpectrumSamples)[j]
        {
        }
      }
      ret := this;
    }

    /** c[i] *= f for i < nSpectrumSamples, in the receiver's own array. */
    method MultiplyF(f: real) returns (ret: CoefficientSpectrum)
      requires nSpectrumSamples <= c.Length
      modifies c
      ensures ret == this
      ensures c[..] == Scaled(old(c[..]), f, nSpectrumSamples)
    {
      ghost var a := c[..];
      var i := 0;
      while i < nSpectrumSamples
        invariant 0 <= i <= Max0(nSpectrumSamples)
        invariant forall j :: 0 <= j < c.Length ==> c[j] == (if j < i then a[j] * f else a[j])
      {
        c[i] := c[i] * f;
        i := i + 1;
      }
      assert c[..] == Scaled(a, f, nSpectrumSamples) by {
        forall j | 0 <= j < c.Length
          ensures c[..][j] == Scaled(a, f, nSpectrumSamples)[j]
        {
        }
      }
      ret := this;
    }

    /**
     * c[i] /= c2.c[i] for i < nSpectrumSamples, in the receiver's own array.
     * The divisors must be nonzero (the source would produce an infinity or
     * a NaN).
     */
    method Divide(c2: CoefficientSpectrum) returns (ret: CoefficientSpectrum)
      requires Fits(c2)
      requires NonzeroUpTo(c2.c[..], nSpectrumSamples)
      modifies c
      ensures ret == this
      ensures c[..] == Quotient(old(c[..]), old(c2.c[..]), nSpectrumSamples)
    {
      ghost var a, b := c[..], c2.c[..];
      var i := 0;
      while i < nSpectrumSamples
        invariant 0 <= i <= Max0(nSpectrumSamples)
        invariant forall j :: 0 <= j < c.Length ==> c[j] == (if j < i then a[j] / b[j] else a[j])
        invariant forall j :: i <= j < c2.c.Length ==> c2.c[j] == b[j]
      {
        c[i] := c[i] / c2.c[i];
        i := i + 1;
      }
      ret := this;
    }

    /** True exactly when the first nSpectrumSamples coefficients of both spectra agree. */
    method Equal(c2: CoefficientSpectrum) returns (e: bool)
      requires Fits(c2)
      ensures e <==> SameUpTo(c[..], c2.c[..], nSpectrumSamples)
    {
      var i := 0;
      while i < nSpectrumSamples
        invariant 0 <= i <= Max0(nSpectrumSamples)
        invariant forall j :: 0 <= j < i ==> c[j] == c2.c[j]
      {
        if c[i] != c2.c[i] {
          return false;
        }
        i := i + 1;
      }
      return true;
    }

    /** Multiplies the receiver's first nSpectrumSamples coefficients by -1; c2 is never read. */
    method Negate(c2: CoefficientSpectrum) returns (ret: CoefficientSpectrum)
      requires nSpectrumSamples <= c.Length
      modifies c
      ensures ret == this
      ensures c[..] == Scaled(old(c[..]), -1.0, nSpectrumSamples)
    {
      ghost var a := c[..];
      var i := 0;
      while i < nSpectrumSamples
        invariant 0 <= i <= Max0(nSpectrumSamples)
        invariant forall j :: 0 <= j < c.Length ==> c[j] == (if j < i then a[j] * -1.0 else a[j])
      {
        c[i] := c[i] * -1.0;
        i := i + 1;
      }
      ret := this;
    }

    /** True exactly when the first nSpectrumSamples coefficients are all zero. */
    method IsBlack() returns (b: bool)
      requires nSpectrumSamples <= c.Length
      ensures b <==> Black(c[..], nSpectrumSamples)
    {
      var i := 0;
      while i < nSpectrumSamples
        invariant 0 <= i <= Max0(nSpectrumSamples)
        invariant forall j :: 0 <= j < i ==> c[j] == 0.0
      {
        if c[i] != 0.0 {
          return false;
        }
        i := i + 1;
      }
      return true;
    }
  }

  /** The loop bound of the operations: they run for max(0, nSpectrumSamples) steps. */
  function Max0(n: int): (m: nat)
    ensures n <= 0 ==> m == 0
    ensures n >= 0 ==> m == n
  {
    if n < 0 then 0 else n
  }

  /**
   * NewCoefficientSpectrum as written: the struct is built with a nil
   * coefficient slice, so the fill loop panics at its first store, c[0] = v,
   * and never completes an iteration. The model returns None for that panic: the constructor succeeds exactly when the sample
   * count is at most zero, and then holds no coefficients.
   */
  method NewCoefficientSpectrum(nSpectrumSamples: int, v: real) returns (r: Option<CoefficientSpectrum>)
    ensures r.Some? <==> nSpectrumSamples <= 0
    ensures r.Some? ==> r.value.nSpectrumSamples == nSpectrumSamples && r.value.c.Length == 0
  {
    var c := new real[0];
    if 0 < nSpectrumSamples {
      // The fill loop's first store, c[0] = v, is out of range of the empty slice.
      return None;
    }
    return Some(CoefficientSpectrum(nSpectrumSamples, c));
  }

  /**
   * The constructor as evidently intended: a fresh slice of
   * nSpectrumSamples coefficients, every one equal to v.
   */
  method NewCoefficientSpectrumIntended(nSpectrumSamples: nat, v: real) returns (s: CoefficientSpectrum)
    ensures s.nSpectrumSamples == nSpectrumSamples && s.c.Length == nSpectrumSamples
    ensures forall j :: 0 <= j < nSpectrumSamples ==> s.c[j] == v
    ensures fresh(s.c)
  {
    var c := new real[nSpectrumSamples];
    var i := 0;
    while i < nSpectrumSamples
      invariant 0 <= i <= nSpectrumSamples
      invariant forall j :: 0 <= j < i ==> c[j] == v
    {
      c[i] := v;
      i := i + 1;
    }
    s := CoefficientSpectrum(nSpectrumSamples, c);
  }

  /**
   * LerpSPD: c1.MultiplyF(1 - t).Add(c2.MultiplyF(t)). Go evaluates the
   * receiver before the argument, so c1 is scaled first, then c2, and the
   * sum lands in c1's array, which the result shares. Both inputs are
   * overwritten. With separate arrays c1 ends up holding the lerp (see
   * LerpSPDSeparate) and c2 its scaled copy; when c1 and c2 share one array,
   * it is scaled twice and then added to itself (see LerpSPDAliased).
   */
  method LerpSPD(c1: CoefficientSpectrum, c2: CoefficientSpectrum, t: real) returns (r: CoefficientSpectrum)
    requires c1.Fits(c2) && c2.nSpectrumSamples <= c2.c.Length
    modifies c1.c, c2.c
    ensures r == c1
    ensures c1.c != c2.c ==>
      && c2.c[..] == Scaled(old(c2.c[..]), t, c2.nSpectrumSamples)
      && c1.c[..] == Sum(Scaled(old(c1.c[..]), 1.0 - t, c1.nSpectrumSamples), c2.c[..], c1.nSpectrumSamples)
    ensures c1.c == c2.c ==>
      var both := Scaled(Scaled(old(c1.c[..]), 1.0 - t, c1.nSpectrumSamples), t, c2.nSpectrumSamples);
      c1.c[..] == Sum(both, both, c1.nSpectrumSamples)
  {
    var a := c1.MultiplyF(1.0 - t);
    var b := c2.MultiplyF(t);
    r := a.Add(b);
  }

  /**
   * With separate arrays, each of the first coefficients of LerpSPD's
   * result is the lerp of the two inputs' coefficients.
   */
  lemma {:induction false} LerpSPDSeparate(a: seq<real>, b: seq<real>, t: real, n1: int, n2: int, j: int)
    requires 0 <= j < n1 <= |a| && n1 <= |b| && j < n2 <= |b|
    ensures Sum(Scaled(a, 1.0 - t, n1), Scaled(b, t, n2), n1)[j] == Helpers.Lerp(t, a[j], b[j])
  {
  }

  /**
   * When both arguments share one array, LerpSPD leaves 2t(1 - t) times
   * each coefficient instead of the coefficient itself.
   */
  lemma {:induction false} LerpSPDAliased(a: seq<real>, t: real, n: int, j: int)
    requires 0 <= j < n <= |a|
    ensures var both := Scaled(Scaled(a, 1.0 - t, n), t, n);
      Sum(both, both, n)[j] == 2.0 * t * (1.0 - t) * a[j]
  {
    var both := Scaled(Scaled(a, 1.0 - t, n), t, n);
    assert both[j] == a[j] * (1.0 - t) * t;
  }

  /** Subtract undoes Add: (a + b) - b == a, on every index. */
  lemma {:induction false} DifferenceUndoesSum(a: seq<real>, b: seq<real>, n: int)
    requires n <= |a| && n <= |b|
    ensures Difference(Sum(a, b, n), b, n) == a
  {
    var s := Sum(a, b, n);
    var d := Difference(s, b, n);
    assert |d| == |a|;
    forall j | 0 <= j < |a|
      ensures d[j] == a[j]
    {
      if j < n {
        assert s[j] == a[j] + b[j];
      }
    }
  }

  /** Divide undoes MultiplyCS by nonzero coefficients: (a * b) / b == a. */
  lemma {:induction false} QuotientUndoesProduct(a: seq<real>, b: seq<real>, n: int)
    requires n <= |a| && n <= |b|
    requires NonzeroUpTo(b, n)
    ensures Quotient(Product(a, b, n), b, n) == a
  {
    var p := Product(a, b, n);
    var q := Quotient(p, b, n);
    assert |q| == |a|;
    forall j | 0 <= j < |a|
      ensures q[j] == a[j]
    {
      if j < n {
        assert p[j] == a[j] * b[j];
        assert b[j] != 0.0;
        assert (a[j] * b[j]) / b[j] == a[j];
      }
    }
  }

  /** MultiplyF(1) leaves the coefficients unchanged. */
  lemma {:induction false} ScaledOne(a: seq<real>, n: int)
    ensures Scaled(a, 1.0, n) == a
  {
    var s := Scaled(a, 1.0, n);
    assert |s| == |a|;
    forall j | 0 <= j < |a|
      ensures s[j] == a[j]
    {
    }
  }

  /** MultiplyF(0) makes IsBlack true, whatever the coefficients were. */
  lemma {:induction false} ScaledZeroBlack(a: seq<real>, n: int)
    requires n <= |a|
    ensures Black(Scaled(a, 0.0, n), n)
  {
    var s := Scaled(a, 0.0, n);
    forall j | 0 <= j < n
      ensures s[j] == 0.0
    {
      assert s[j] == a[j] * 0.0;
    }
  }

  /** Two scalings in a row are one scaling by the product of the factors. */
  lemma {:induction false} ScaledTwice(a: seq<real>, f: real, g: real, n: int)
    ensures Scaled(Scaled(a, f, n), g, n) == Scaled(a, f * g, n)
  {
    var s := Scaled(a, f, n);
    var t := Scaled(s, g, n);
    var u := Scaled(a, f * g, n);
    assert |t| == |u|;
    forall j | 0 <= j < |a|
      ensures t[j] == u[j]
    {
      if j < n {
        assert t[j] == (a[j] * f) * g;
      }
    }
  }

  /** Negating twice restores the original coefficients. */
  lemma {:induction false} NegateTwice(a: seq<real>, n: int)
    ensures Scaled(Scaled(a, -1.0, n), -1.0, n) == a
  {
    ScaledTwice(a, -1.0, -1.0, n);
    ScaledOne(a, n);
  }

  /** Adding a spectrum to itself (c2 aliasing the receiver) doubles it. */
  lemma {:induction false} SumSelfDoubles(a: seq<real>, n: int)
    requires n <= |a|
    ensures Sum(a, a, n) == Scaled(a, 2.0, n)
  {
    var s := Sum(a, a, n);
    var d := Scaled(a, 2.0, n);
    assert |s| == |d|;
    forall j | 0 <= j < |a|
      ensures s[j] == d[j]
    {
    }
  }

  /** Subtracting a spectrum from itself makes it black. */
  lemma {:induction false} DifferenceSelfBlack(a: seq<real>, n: int)
    requires n <= |a|
    ensures Black(Difference(a, a, n), n)
  {
    var d := Difference(a, a, n);
    forall j | 0 <= j < n
      ensures d[j] == 0.0
    {
    }
  }

  /** The element-wise operations touch only the first n coefficients. */
  lemma {:induction false} TailUnchanged(a: seq<real>, b: seq<real>, f: real, n: int)
    requires 0 <= n <= |a| && n <= |b|
    ensures Sum(a, b, n)[n..] == a[n..]
    ensures Difference(a, b, n)[n..] == a[n..]
    ensures Product(a, b, n)[n..] == a[n..]
    ensures Scaled(a, f, n)[n..] == a[n..]
  {
    var s, d, p, t := Sum(a, b, n), Difference(a, b, n), Product(a, b, n), Scaled(a, f, n);
    assert s[n..] == a[n..] by {
      forall j | n <= j < |a| ensures s[j] == a[j] { }
    }
    assert d[n..] == a[n..] by {
      forall j | n <= j < |a| ensures d[j] == a[j] { }
    }
    assert p[n..] == a[n..] by {
      forall j | n <= j < |a| ensures p[j] == a[j] { }
    }
    assert t[n..] == a[n..] by {
      forall j | n <= j < |a| ensures t[j] == a[j] { }
    }
  }

  /** Equal is reflexive, and looks at nothing past the first n coefficients. */
  lemma {:induction false} SameUpToPrefix(a: seq<real>, b: seq<real>, n: int)
    requires 0 <= n <= |a| && n <= |b|
    ensures SameUpTo(a, a, n)
    ensures SameUpTo(a, b, n) <==> a[..n] == b[..n]
  {
    if SameUpTo(a, b, n) {
      assert a[..n] == b[..n];
    }
    if a[..n] == b[..n] {
      forall j | 0 <= j < n
        ensures a[j] == b[j]
      {
        assert a[..n][j] == b[..n][j];
      }
    }
  }
}
