/** The arithmetic of `isoSwappOMatic`: which bracket comes next, which shutter
    duration and which ISO the current bracket programs. */
module Exposure {
  import opened Media

  /** What the user calibrated with `setBracketBright` / `setBracketDim`: the
      device's ISO and exposure duration at the moment the button was pressed. */
  datatype Calibration = Calibration(iso: real, duration: CMTime)

  /** One exposure programming request, `setExposureModeCustomWithDuration(_:ISO:)`. */
  datatype Setting = Setting(duration: CMTime, iso: real)

  // ---------------------------------------------------------------- bracket rotation

  /** `currentBracket++` followed by the wrap to 1 once it passes `bracketMax`:
      the brackets are the residues modulo `bracketMax`, numbered from 1. */
  function NextBracket(current: int, bracketMax: int): (next: int)
    requires 1 <= current <= bracketMax
    ensures 1 <= next <= bracketMax
    ensures next == current % bracketMax + 1
  {
    var c := current + 1;
    if c > bracketMax then 1 else c
  }

  /** The bracket reached after `n` consecutive calls of `isoSwappOMatic`. */
  function BracketAfter(current: int, bracketMax: int, n: nat): int
    requires 1 <= current <= bracketMax
    decreases n
  {
    if n == 0 then current else BracketAfter(NextBracket(current, bracketMax), bracketMax, n - 1)
  }

  /** Euclidean division is unique: a quotient and remainder that recompose `x`
      are the ones Dafny's `/` and `%` produce. */
  lemma DivModUnique(x: int, m: int, q: int, r: int)
    requires m >= 1 && 0 <= r < m && x == q * m + r
    ensures x / m == q && x % m == r
  {
    var q', r' := x / m, x % m;
    assert x == q' * m + r' && 0 <= r' < m;
    var d := q - q';
    assert d * m == r' - r by {
      assert q * m - q' * m == (q - q') * m;
    }
    if d > 0 {
      assert false;
    } else if d < 0 {
      assert false;
    }
  }

  lemma ShiftMod(x: int, m: int)
    requires x >= 0 && m >= 1
    ensures (x + m) % m == x % m
  {
    var q, r := x / m, x % m;
    assert x == q * m + r && 0 <= r < m;
    assert x + m == (q + 1) * m + r;
    DivModUnique(x + m, m, q + 1, r);
  }

  /** After `n` calls the rotation has moved `n` places around the cycle
      `1, 2, …, bracketMax, 1, …`. */
  lemma {:induction false} BracketCycle(current: int, bracketMax: int, n: nat)
    requires 1 <= current <= bracketMax
    ensures BracketAfter(current, bracketMax, n) == (current - 1 + n) % bracketMax + 1
    ensures 1 <= BracketAfter(current, bracketMax, n) <= bracketMax
    decreases n
  {
    if n > 0 {
      var next := NextBracket(current, bracketMax);
      BracketCycle(next, bracketMax, n - 1);
      if current == bracketMax {
        ShiftMod(n - 1, bracketMax);
        assert current - 1 + n == (n - 1) + bracketMax;
      }
    }
  }

  /** Starting from bracket 1 (as every recording does), `bracketMax` calls bring the
      rotation back to 1, and the calls in between visit 2, 3, … in order. */
  lemma BracketReturnsToOne(bracketMax: int, j: nat)
    requires bracketMax >= 1 && j <= bracketMax
    ensures BracketAfter(1, bracketMax, j) == if j == bracketMax then 1 else j + 1
  {
    BracketCycle(1, bracketMax, j);
    if j == bracketMax {
      assert (1 - 1 + j) % bracketMax == 0;
    }
  }

  // ---------------------------------------------------------------- shutter duration

  /** Swift's `/` on `Int64`, which rounds toward zero. The quotient `q` satisfies
      `a == q * b + rem` with the remainder `rem` having the sign of `a` and a
      magnitude smaller than `b`. */
  function TruncDiv(a: int, b: int): (q: int)
    requires b > 0
    ensures a >= 0 ==> 0 <= a - q * b < b
    ensures a < 0 ==> -b < a - q * b <= 0
  {
    if a >= 0 then a / b else -((-a) / b)
  }

  /** One `k`-th multiple of the truncated `b`-th part of `a` is no larger than `a`
      in magnitude (for `1 <= k <= b`); it therefore fits wherever `a` fits. */
  lemma SegmentMultipleBound(a: int, b: int, k: int)
    requires 1 <= k <= b
    ensures a >= 0 ==> 0 <= TruncDiv(a, b) * k <= a
    ensures a < 0 ==> a <= TruncDiv(a, b) * k <= 0
  {
    if a >= 0 {
      QuotientMultipleBound(a, b, k);
    } else {
      QuotientMultipleBound(-a, b, k);
      assert TruncDiv(a, b) * k == -(((-a) / b) * k);
    }
  }

  lemma QuotientMultipleBound(a: int, b: int, k: int)
    requires a >= 0 && 1 <= k <= b
    ensures 0 <= (a / b) * k <= a
  {
    var q := a / b;
    assert q * b <= a;
    MulMonotone(q, k, b);
  }

  lemma MulMonotone(q: int, k: int, b: int)
    requires q >= 0 && 0 <= k <= b
    ensures 0 <= q * k <= q * b
  {
    assert q * b - q * k == q * (b - k);
  }

  /** The value of the programmed `CMTime`, lines `t`, `tLeng`, `segmentT` and
      `timeDurationVal` of `isoSwappOMatic`, with Swift's overflow checking.
      `None` means the process traps: only the first subtraction can overflow,
      the later steps stay within `Int64` (see `SegmentMultipleBound`).
      Because `t + bright == dim`, the value is the `currentBracket`-th multiple
      of the truncated `bracketMax`-th part of the dim duration. */
  function DurationValue(dim: int64, bright: int64, bracketMax: int, currentBracket: int): (r: Option<int64>)
    requires 1 <= currentBracket <= bracketMax
    ensures r.None? <==> !InInt64(dim as int - bright as int)
    ensures r.Some? ==> r.value as int == TruncDiv(dim as int, bracketMax) * currentBracket
    ensures r.Some? && dim >= 0 ==> 0 <= r.value <= dim
  {
    var t := dim as int - bright as int;
    if !InInt64(t) then None
    else
      var tLeng := t + bright as int;
      var segmentT := TruncDiv(tLeng, bracketMax);
      SegmentMultipleBound(tLeng, bracketMax, currentBracket);
      Some((segmentT * currentBracket) as int64)
  }

  /** The last bracket programs exactly the calibrated dim duration if and only
      if that duration is a whole multiple of `bracketMax`; otherwise truncation
      leaves it short. */
  lemma LastBracketIsDim(dim: int64, bright: int64, bracketMax: int)
    requires bracketMax >= 1 && dim >= 0
    requires InInt64(dim as int - bright as int)
    ensures DurationValue(dim, bright, bracketMax, bracketMax) == Some(dim) <==> (dim as int) % bracketMax == 0
  {
    var q := TruncDiv(dim as int, bracketMax);
    assert q == dim as int / bracketMax;
    if (dim as int) % bracketMax == 0 {
      assert dim as int == (dim as int / bracketMax) * bracketMax;
    }
    if DurationValue(dim, bright, bracketMax, bracketMax) == Some(dim) {
      DivModUnique(dim as int, bracketMax, q, 0);
    }
  }

  // ---------------------------------------------------------------- ISO

  /** `segment * Float(currentBracket)` where `segment = ((dim - bright) + dim) /
      Float(bracketMax)`, over the reals (Float rounding is not modelled). */
  function IsoTarget(dimIso: real, brightIso: real, bracketMax: int, currentBracket: int): real
    requires bracketMax >= 1
  {
    ((dimIso - brightIso) + dimIso) / (bracketMax as real) * (currentBracket as real)
  }

  /** The targets of consecutive brackets are equally spaced, one segment of
      `(2 * dim - bright) / bracketMax` apart, and the last bracket targets
      `2 * dim - bright`. */
  lemma IsoTargetSpacing(dimIso: real, brightIso: real, bracketMax: int, k: int)
    requires bracketMax >= 1
    ensures IsoTarget(dimIso, brightIso, bracketMax, k + 1) - IsoTarget(dimIso, brightIso, bracketMax, k)
         == (2.0 * dimIso - brightIso) / (bracketMax as real)
    ensures IsoTarget(dimIso, brightIso, bracketMax, bracketMax) == 2.0 * dimIso - brightIso
  {
    var seg := ((dimIso - brightIso) + dimIso) / (bracketMax as real);
    assert seg * ((k + 1) as real) - seg * (k as real) == seg;
    assert seg * (bracketMax as real) == (dimIso - brightIso) + dimIso;
  }

  /** The two `if`s after the ISO computation: raise to `minISO`, then lower to
      `maxISO`. The result lies in the device range whenever that range is not
      empty, equals the target when the target is already in range, and is
      `maxISO` when the range is empty. */
  function ClampIso(v: real, minIso: real, maxIso: real): (r: real)
    ensures minIso <= maxIso ==> minIso <= r <= maxIso
    ensures minIso <= v <= maxIso ==> r == v
    ensures minIso <= maxIso && v < minIso ==> r == minIso
    ensures v > maxIso || minIso > maxIso ==> r == maxIso
  {
    var raised := if v < minIso then minIso else v;
    if raised > maxIso then maxIso else raised
  }

  /** The exposure programmed for `currentBracket`, or `None` when computing it
      traps on `Int64` overflow. The duration keeps the bright calibration's
      timescale. */
  function ProgrammedExposure(bright: Calibration, dim: Calibration, bracketMax: int, currentBracket: int,
                              minIso: real, maxIso: real): (r: Option<Setting>)
    requires 1 <= currentBracket <= bracketMax
    ensures r.None? <==> !InInt64(dim.duration.value as int - bright.duration.value as int)
    ensures r.Some? ==> r.value.duration.timescale == bright.duration.timescale
    ensures r.Some? ==> r.value.duration.value as int == TruncDiv(dim.duration.value as int, bracketMax) * currentBracket
    ensures r.Some? && minIso <= maxIso ==> minIso <= r.value.iso <= maxIso
    ensures r.Some? ==> r.value.iso == ClampIso(IsoTarget(dim.iso, bright.iso, bracketMax, currentBracket), minIso, maxIso)
  {
    var iso := ClampIso(IsoTarget(dim.iso, bright.iso, bracketMax, currentBracket), minIso, maxIso);
    match DurationValue(dim.duration.value, bright.duration.value, bracketMax, currentBracket)
    case None => None
    case Some(v) => Some(Setting(CMTime(v, bright.duration.timescale), iso))
  }
}
