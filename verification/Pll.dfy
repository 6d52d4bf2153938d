/** The search for PLL dividers in sysctl.c, over the reals.

    A PLL divides its input by NR, multiplies it by NF to get the frequency of
    its oscillator, and divides that by OD.
 */
module PllArithmetic {

  lemma DivMul(a: real, b: real)
    requires b != 0.0
    ensures a / b * b == a
  {
  }

  lemma DivUnique(a: real, b: real, q: real)
    requires b != 0.0 && q * b == a
    ensures q == a / b
  {
    DivMul(a, b);
    assert (q - a / b) * b == 0.0;
  }

  lemma MulDivAssoc(a: real, b: real, c: real)
    requires c != 0.0
    ensures a * b / c == a * (b / c)
  {
    DivMul(b, c);
    assert a * (b / c) * c == a * (b / c * c);
    DivUnique(a * b, c, a * (b / c));
  }

  /** The output for dividers, with the input frequency divided first. */
  function Output(fin: real, nr: int, nf: int, od: int): real
    requires nr > 0 && od > 0
  {
    fin / (nr as real) * (nf as real) / (od as real)
  }

  lemma OutputTimes(fin: real, nr: int, nf: int, od: int)
    requires nr > 0 && od > 0
    ensures Output(fin, nr, nf, od) * ((nr * od) as real) == fin * (nf as real)
  {
    var a, b, c := nr as real, nf as real, od as real;
    DivMul(fin, a);
    DivMul(fin / a * b, c);
    var f := Output(fin, nr, nf, od);
    assert (nr * od) as real == a * c by { CastProduct(nr, od); }
    assert f * (a * c) == (f * c) * a == (fin / a * b) * a == (fin / a * a) * b;
  }

  lemma CastProduct(m: int, n: int)
    ensures (m * n) as real == (m as real) * (n as real)
  {
  }

  /** Dividers in the same ratio as a candidate have the output of the candidate. */
  lemma SameRatio(fin: real, nfi: int, nr: int, nfx: int, nrx: int, od: int)
    requires nr > 0 && nrx > 0 && od > 0 && nfx * nr == nfi * (nrx * od)
    ensures Output(fin, nrx, nfx, od) == fin * (nfi as real / nr as real)
  {
    var f, d, n := Output(fin, nrx, nfx, od), (nrx * od) as real, nr as real;
    OutputTimes(fin, nrx, nfx, od);
    CastProduct(nfx, nr);
    CastProduct(nfi, nrx * od);
    assert (nrx * od) > 0 by { assert nrx * od >= 1 * 1; }
    assert f * d == fin * (nfx as real);
    assert f * n * d == fin * (nfx as real) * n == fin * (nfi as real) * d;
    assert f * n == fin * (nfi as real) by {
      assert (f * n - fin * (nfi as real)) * d == 0.0;
    }
    DivUnique(fin * (nfi as real), n, f);
    MulDivAssoc(fin, nfi as real, n);
  }

  /** The error of the search is the relative error of the output. */
  lemma ErrorOfOutput(fin: real, fout: real, ratio: real)
    requires fin > 0.0 && fout > 0.0
    ensures fout / fin > 0.0 && ratio / (fout / fin) == fin * ratio / fout
  {
    var val := fout / fin;
    DivMul(fout, fin);
    assert val > 0.0;
    DivMul(fin * ratio, fout);
    var q := fin * ratio / fout;
    assert q * val * fin == q * (val * fin) == q * fout == fin * ratio;
    assert (q * val - ratio) * fin == 0.0;
    DivUnique(ratio, val, q);
  }
}

module Pll {
  import opened PllArithmetic
  import opened Wrappers

  const VCO_MIN: real := 350000000.0
  const VCO_MAX: real := 1750000000.0
  const REF_MIN: real := 13671900.0
  const REF_MAX: real := 1750000000.0
  const NR_MIN: int := 1
  const NR_MAX: int := 16
  const NF_MIN: int := 1
  const NF_MAX: int := 64
  const NO_MIN: int := 1
  const NO_MAX: int := 16
  const NB_MIN: int := 1
  const NB_MAX: int := 64
  const TERR: real := 0.5 / 32.0   // half of the step that the largest NF allows

  datatype Dividers = Dividers(nr: int, nf: int, od: int, nb: int, fvco: real, err: real)

  /** Rounding to the nearest integer, and to the even one halfway. */
  function Rint(x: real): int {
    var f := x.Floor;
    var d := x - f as real;
    if d < 0.5 then f else if d > 0.5 then f + 1 else if f % 2 == 0 then f else f + 1
  }

  function Ceil(x: real): int {
    -((-x).Floor)
  }

  function Abs(x: real): real {
    if x < 0.0 then -x else x
  }

  /** What the hardware asks of the dividers, and that err is the relative error
      of the output. */
  ghost predicate Fits(d: Dividers, fin: real, fout: real) {
    && NR_MIN <= d.nr <= NR_MAX && NF_MIN <= d.nf <= NF_MAX && NO_MIN <= d.od <= NO_MAX && NB_MIN <= d.nb <= NB_MAX
    && d.nb == d.nf
    && d.fvco == fin / (d.nr as real) * (d.nf as real) && VCO_MIN <= d.fvco <= VCO_MAX
    && REF_MIN <= fin / (d.nr as real)
    && fout > 0.0 && d.err == 1.0 - Output(fin, d.nr, d.nf, d.od) / fout
  }

  /** The scaling of a candidate ratio nfi / nr. */
  datatype Scaled = Scaled(nrx: int, nfx: int, no: int)

  ghost predicate SameAs(s: Scaled, nfi: int, nr: int) {
    s.nrx >= 1 && s.nfx >= 1 && NO_MIN <= s.no <= NO_MAX && s.nfx * nr == nfi * (s.nrx * s.no)
  }

  function DivisorUpTo(nr: int, limit: int): (no: int)
    requires nr >= 1 && limit >= 1
    ensures 1 <= no <= limit && nr % no == 0
  {
    if limit == 1 || nr % limit == 0 then limit else DivisorUpTo(nr, limit - 1)
  }

  /** The common divisor that goes into OD: the largest divisor of nr that is at
      most the given limit. */
  method LargestDivisor(nr: int, limit: int) returns (no: int)
    requires nr >= 1 && limit >= 1
    ensures 1 <= no <= limit && nr % no == 0 && nr / no >= 1
    ensures forall d :: no < d <= limit && nr % d == 0 ==> false
    ensures no == DivisorUpTo(nr, limit)
  {
    no := limit;
    while no > NO_MIN
      invariant 1 <= no <= limit && DivisorUpTo(nr, no) == DivisorUpTo(nr, limit)
      invariant forall d :: no < d <= limit ==> nr % d != 0
      decreases no
    {
      if nr / no < NR_MIN {
        SmallerThanDivisor(nr, no);
        no := no - 1;
        continue;
      }
      if nr % no == 0 {
        break;
      }
      no := no - 1;
    }
  }

  lemma SmallerThanDivisor(nr: int, no: int)
    requires nr >= 1 && no >= 1 && nr / no < 1
    ensures nr % no != 0
  {
  }

  lemma ScaledUp(nfi: int, nr: int, no: int)
    requires nfi >= 1 && nr >= 1 && NO_MIN <= no <= NO_MAX
    ensures SameAs(Scaled(nr, nfi * no, no), nfi, nr)
  {
    assert nfi * no >= 1;
    assert nfi * no * nr == nfi * (nr * no);
  }

  lemma ScaledThrough(nfi: int, nr: int, no: int, nor: int)
    requires nfi >= 1 && nr >= 1 && no >= 1 && nor >= 1 && nr % no == 0 && no * nor <= NO_MAX
    ensures SameAs(Scaled(nr / no, nfi * nor, no * nor), nfi, nr)
  {
    var nrx := nr / no;
    assert nr == nrx * no;
    assert nrx >= 1;
    assert nfi * nor >= 1 && no * nor >= 1;
    assert nfi * nor * (nrx * no) == nfi * (nrx * (no * nor));
  }

  lemma AtLeastOnce(fout: real)
    requires 0.0 < fout <= VCO_MAX
    ensures (VCO_MAX / fout).Floor >= 1
  {
    DivMul(VCO_MAX, fout);
    assert VCO_MAX / fout >= 1.0;
  }

  lemma QuotientAtLeastOne(a: int, b: int)
    requires 1 <= b <= a
    ensures a / b >= 1 && b * (a / b) <= a
  {
  }

  function Least(a: int, b: int): int {
    if a < b then a else b
  }

  /** The scaling of a first candidate, in either way. */
  function FirstUp(nfi: int, nr: int, noT: int): Scaled
    requires nfi >= 1
  {
    var no := Least(Least(NF_MAX / nfi, NO_MAX), noT);
    Scaled(nr, nfi * no, no)
  }

  function FirstScaled(nfi: int, nr: int, fout: real): Scaled
    requires 1 <= nfi < NF_MAX && nr >= 1 && 0.0 < fout <= VCO_MAX
  {
    AtLeastOnce(fout);
    var noT := (VCO_MAX / fout).Floor;
    var limit := Least(noT, NO_MAX);
    var no := DivisorUpTo(nr, limit);
    var nor := Least(limit / no, NF_MAX / nfi);
    if (no * nor < noT / 2 || no * nor < Ceil(VCO_MIN / fout)) && no * nor < NF_MAX / nfi then FirstUp(nfi, nr, noT)
    else Scaled(nr / no, nfi * nor, no * nor)
  }

  /** Dividers within the limits of the hardware. */
  predicate Allowed(s: Scaled, fin: real)
    requires s.nrx >= 1
  {
    && s.nrx <= NR_MAX && NF_MIN <= s.nfx <= NB_MAX && REF_MIN <= fin / (s.nrx as real)
    && VCO_MIN <= fin / (s.nrx as real) * (s.nfx as real) <= VCO_MAX
  }

  /** The error of the ratio nfi / nr that is nearest to the one asked for. */
  function ErrorAt(nfi: int, fin: real, fout: real): real
    requires fin > 0.0 && fout > 0.0 && fout / fin > 0.0
  {
    var nr := Rint(nfi as real / (fout / fin));
    if nr == 0 then 1.0 else 1.0 - (nfi as real / nr as real) / (fout / fin)
  }

  /** This multiplier gives dividers that the hardware allows, with an error that
      the search looks at. */
  ghost predicate Usable(nfi: int, fin: real, fout: real)
    requires fin > 0.0 && 0.0 < fout <= VCO_MAX && fout / fin > 0.0
  {
    var nr := Rint(nfi as real / (fout / fin));
    && 1 <= nfi < NF_MAX && nr >= 1 && fin / (nr as real) <= REF_MAX
    && Abs(ErrorAt(nfi, fin, fout)) < TERR * 1.000001
    && var s := FirstScaled(nfi, nr, fout); s.nrx >= 1 && Allowed(s, fin)
  }

  /** OD as large as NF allows; the oscillator runs faster by the same factor. */
  method RescaleUp(nfi: int, nr: int, noT: int, firstx: bool) returns (s: Option<Scaled>)
    requires 1 <= nfi < NF_MAX && nr >= 1 && noT >= 1
    ensures s.Some? ==> SameAs(s.value, nfi, nr)
    ensures firstx ==> s == Some(FirstUp(nfi, nr, noT))
  {
    QuotientAtLeastOne(NF_MAX, nfi);
    var no := NF_MAX / nfi;
    if no > NO_MAX {
      no := NO_MAX;
    }
    if no > noT {
      no := noT;
    }
    if no > 1 && !firstx {
      return None;
    }
    ScaledUp(nfi, nr, no);
    return Some(Scaled(nr, nfi * no, no));
  }

  /** A common divisor goes from NR to OD, and a factor into NF and OD. */
  method RescaleThrough(nfi: int, nr: int, no: int, nor: int, firstx: bool) returns (s: Option<Scaled>)
    requires nfi >= 1 && nr >= 1 && no >= 1 && nor >= 1 && nr % no == 0 && no * nor <= NO_MAX
    ensures s.Some? ==> SameAs(s.value, nfi, nr)
    ensures firstx ==> s == Some(Scaled(nr / no, nfi * nor, no * nor))
  {
    ScaledThrough(nfi, nr, no, nor);
    if no * nor > NO_MAX {
      return None;
    }
    if nor > 1 && !firstx {
      return None;
    }
    return Some(Scaled(nr / no, nfi * nor, no * nor));
  }

  lemma FactorFits(limit: int, no: int, nor: int)
    requires 1 <= no <= limit && 0 <= nor <= limit / no
    ensures no * nor <= limit
  {
    assert no * nor <= no * (limit / no);
  }

  /** The two ways of rescaling a candidate, so that the oscillator runs fast. */
  method Rescale(nfi: int, nr: int, fout: real, firstx: bool) returns (s: Option<Scaled>)
    requires 1 <= nfi < NF_MAX && nr >= 1 && 0.0 < fout <= VCO_MAX
    ensures s.Some? ==> SameAs(s.value, nfi, nr)
    ensures firstx ==> s == Some(FirstScaled(nfi, nr, fout))
  {
    AtLeastOnce(fout);
    var noT := (VCO_MAX / fout).Floor;
    var limit := if noT > NO_MAX then NO_MAX else noT;
    var no := LargestDivisor(nr, limit);
    if nr % no != 0 {
      return None;
    }
    QuotientAtLeastOne(limit, no);
    QuotientAtLeastOne(NF_MAX, nfi);
    var nor, nore := limit / no, NF_MAX / nfi;
    if nor > nore {
      nor := nore;
    }
    FactorFits(limit, no, nor);
    var product := no * nor;
    var noe := Ceil(VCO_MIN / fout);
    if (product < noT / 2 || product < noe) && product < NF_MAX / nfi {
      s := RescaleUp(nfi, nr, noT, firstx);
    } else {
      s := RescaleThrough(nfi, nr, no, nor, firstx);
    }
  }

  lemma CandidateError(fin: real, fout: real, nfi: int, nr: int, s: Scaled)
    requires fin > 0.0 && fout > 0.0 && nr >= 1 && SameAs(s, nfi, nr)
    ensures fout / fin > 0.0
    ensures 1.0 - (nfi as real / nr as real) / (fout / fin) == 1.0 - Output(fin, s.nrx, s.nfx, s.no) / fout
  {
    SameRatio(fin, nfi, nr, s.nfx, s.nrx, s.no);
    ErrorOfOutput(fin, fout, nfi as real / nr as real);
  }

  /** One turn of the search, for one multiplier; best is what was found before. */
  method Candidate(nfi: int, fin: real, fout: real, merr: real, best: Option<Dividers>) returns (d: Option<Dividers>)
    requires fin > 0.0 && 0.0 < fout <= VCO_MAX && 0 <= nfi < NF_MAX
    ensures d.Some? ==> Fits(d.value, fin, fout)
    ensures d.Some? ==> Abs(d.value.err) < merr * 1.000001 || Abs(d.value.err) < 0.0000000000000001
    ensures d.Some? && best.Some? ==> d.value.nr <= best.value.nr
    ensures fout / fin > 0.0 && (d.Some? ==> d.value.err == ErrorAt(nfi, fin, fout))
    ensures best == None && merr == TERR ==> (d.Some? <==> Usable(nfi, fin, fout))
  {
    d := None;
    ErrorOfOutput(fin, fout, 0.0);
    var val := fout / fin;
    var nr := Rint(nfi as real / val);
    if nr == 0 { return; }
    if nr < NR_MIN { return; }
    if fin / (nr as real) > REF_MAX { return; }
    var nval := nfi as real / nr as real;
    var err := 1.0 - nval / val;
    if !(Abs(err) < merr * 1.000001 || Abs(err) < 0.0000000000000001) { return; }
    RintZero(val);
    var s := Rescale(nfi, nr, fout, best == None);
    if s == None { return; }
    CandidateError(fin, fout, nfi, nr, s.value);
    d := Check(s.value, fin, fout, err, merr, best);
  }

  /** The limits of the hardware, one by one. */
  method WithinLimits(s: Scaled, fin: real) returns (nb: int, fvco: real, allowed: bool)
    requires s.nrx >= 1 && s.nfx >= 1
    ensures fvco == fin / (s.nrx as real) * (s.nfx as real) && nb == s.nfx && (allowed <==> Allowed(s, fin))
  {
    nb, fvco, allowed := s.nfx, fin / (s.nrx as real) * (s.nfx as real), false;
    if nb < NB_MIN { nb := NB_MIN; }
    if nb > NB_MAX { return; }
    if fvco < VCO_MIN { return; }
    if fvco > VCO_MAX { return; }
    if s.nfx < NF_MIN { return; }
    if fin / (s.nrx as real) < REF_MIN { return; }
    if s.nrx > NR_MAX { return; }
    allowed := true;
  }

  /** What the hardware asks, and whether a candidate is better than the best. */
  method Check(s: Scaled, fin: real, fout: real, err: real, merr: real, best: Option<Dividers>)
    returns (d: Option<Dividers>)
    requires s.nrx >= 1 && s.nfx >= 1 && NO_MIN <= s.no <= NO_MAX && fout > 0.0
    requires err == 1.0 - Output(fin, s.nrx, s.nfx, s.no) / fout
    ensures d.Some? ==> Fits(d.value, fin, fout) && d.value.err == err
    ensures d.Some? ==> Allowed(s, fin)
    ensures d.Some? && best.Some? ==> d.value.nr <= best.value.nr
    ensures best == None ==> (d.Some? <==> Allowed(s, fin))
  {
    d := None;
    var Scaled(nrx, nfx, no) := s;
    var nb, fvco, allowed := WithinLimits(s, fin);
    if !allowed { return; }
    if !(Abs(err) < merr * 0.999999 || no > if best.Some? then best.value.od else 0) { return; }
    if best.Some? && nrx > best.value.nr { return; }
    d := Some(Dividers(nrx, nfx, no, nb, fvco, err));
  }

  lemma RintZero(val: real)
    requires val > 0.0
    ensures Rint(0.0 / val) == 0
  {
    assert 0.0 / val == 0.0;
  }

  /** A multiplier among those the search has tried is usable. */
  ghost predicate SomeUsable(fin: real, fout: real, end: int)
    requires fin > 0.0 && 0.0 < fout <= VCO_MAX && fout / fin > 0.0
  {
    exists n :: (fout / fin).Floor <= n < end && Usable(n, fin, fout)
  }

  /** The best error may grow a little from turn to turn. */
  function Slack(nfi: int): real {
    TERR * (1.0 + 0.000002 * (nfi as real))
  }

  /** The best so far comes from a multiplier tried. */
  ghost predicate Came(at: int, nfi: int, fin: real, fout: real, err: real, merr: real)
    requires fin > 0.0 && fout > 0.0 && fout / fin > 0.0
  {
    && (fout / fin).Floor <= at < nfi <= NF_MAX
    && err == ErrorAt(at, fin, fout) && merr == Abs(err) && merr <= Slack(nfi)
  }

  lemma Creeps(merr: real, err: real, nfi: int)
    requires 0 <= nfi < NF_MAX && 0.0 <= merr <= Slack(nfi)
    requires Abs(err) < merr * 1.000001 || Abs(err) < 0.0000000000000001
    ensures Abs(err) <= Slack(nfi + 1)
  {
  }

  /** An error so close to the bound that the slack in the comparisons decides. */
  ghost predicate Marginal(n: int, fin: real, fout: real)
    requires fin > 0.0 && fout > 0.0 && fout / fin > 0.0
  {
    && (fout / fin).Floor <= n < NF_MAX
    && TERR * 0.999999 <= Abs(ErrorAt(n, fin, fout)) <= TERR * 1.00013
  }

  ghost predicate SomeMarginal(fin: real, fout: real)
    requires fin > 0.0 && fout > 0.0 && fout / fin > 0.0
  {
    exists n :: Marginal(n, fin, fout)
  }

  /** The search of sysctl_pll_source_set_freq. */
  method Search(freqIn: nat, freq: nat) returns (found: Option<Dividers>)
    requires freqIn > 0 && 0 < freq <= 1750000000
    ensures found.Some? ==>
              Fits(found.value, freqIn as real, freq as real) && Abs(found.value.err) < TERR * 0.999999
    ensures (freq as real) / (freqIn as real) > 0.0
    ensures found.Some? ==> SomeUsable(freqIn as real, freq as real, NF_MAX)
    ensures found == None ==>
              !SomeUsable(freqIn as real, freq as real, NF_MAX) || SomeMarginal(freqIn as real, freq as real)
  {
    var fin, fout := freqIn as real, freq as real;
    ErrorOfOutput(fin, fout, 0.0);
    var val := fout / fin;
    var merr := Abs(TERR);
    found := None;
    var nfi := val.Floor;
    ghost var at := nfi;
    while nfi < NF_MAX
      invariant nfi >= val.Floor >= 0
      invariant found.Some? ==> Fits(found.value, fin, fout)
      invariant if found == None then merr == TERR && !SomeUsable(fin, fout, nfi)
                else SomeUsable(fin, fout, nfi) && Came(at, nfi, fin, fout, found.value.err, merr)
    {
      var d := Candidate(nfi, fin, fout, merr, found);
      if d.Some? {
        Creeps(merr, d.value.err, nfi);
        found, at := d, nfi;
        merr := Abs(d.value.err);
      }
      nfi := nfi + 1;
    }
    assert found.Some? && Abs(found.value.err) >= TERR * 0.999999 ==> Marginal(at, fin, fout);
    if found.Some? && Abs(found.value.err) >= TERR * 0.999999 {
      found := None;
    }
  }

  /** The relative error is below 1/64. */
  lemma WithinOneStep(f: real, fout: real, err: real)
    requires fout > 0.0 && err == 1.0 - f / fout && Abs(err) < TERR * 0.999999
    ensures Abs(f - fout) < fout / 64.0
  {
    DivMul(f, fout);
    ProductBelow(f / fout - 1.0, fout, f - fout);
  }

  lemma ProductBelow(e: real, x: real, d: real)
    requires x > 0.0 && -1.0 < e * 64.0 < 1.0 && d == e * x
    ensures Abs(d) < x / 64.0
  {
    assert (1.0 - e * 64.0) * x > 0.0 && (1.0 + e * 64.0) * x > 0.0;
    assert e * 64.0 * x == d * 64.0;
  }

  /** Register values that meet every limit and hit the frequency asked for. */
  ghost predicate Programmed(clkr: nat, clkf: nat, clkod: nat, bwadj: nat, fin: real, fout: real) {
    && clkr < 16 && clkf < 64 && clkod < 16 && bwadj < 64 && bwadj == clkf
    && VCO_MIN <= fin / ((clkr + 1) as real) * ((clkf + 1) as real) <= VCO_MAX
    && REF_MIN <= fin / ((clkr + 1) as real)
    && Abs(Output(fin, clkr + 1, clkf + 1, clkod + 1) - fout) < fout / 64.0
  }

  lemma FitsProgrammed(d: Dividers, fin: real, fout: real)
    requires Fits(d, fin, fout) && Abs(d.err) < TERR * 0.999999
    ensures Programmed(d.nr - 1, d.nf - 1, d.od - 1, d.nb - 1, fin, fout)
  {
    WithinOneStep(Output(fin, d.nr, d.nf, d.od), fout, d.err);
  }

  class PllUnit {
    const freqIn: nat               // the frequency of the selected source
    var clkr: nat
    var clkf: nat
    var clkod: nat
    var bwadj: nat

    constructor (freqIn: nat)
      ensures this.freqIn == freqIn
    {
      this.freqIn := freqIn;
    }

    /** sysctl_pll_get_freq: the frequency for the register values, rounded down. */
    function GetFreq(): int
      reads this
    {
      Output(freqIn as real, clkr + 1, clkf + 1, clkod + 1).Floor
    }

    /** sysctl_pll_source_set_freq: zero, or the frequency reached.  The registers
        change only in the second case; their fields are wide enough, and the
        frequency is within one part in 64 of what was asked for. */
    method SetFreq(freq: nat) returns (result: int)
      requires 0 < freq <= 1750000000
      modifies this
      ensures freqIn == 0 ==> result == 0
      ensures freqIn > 0 ==> 0.0 < freq as real <= VCO_MAX && (freq as real) / (freqIn as real) > 0.0
      ensures freqIn > 0 && SomeUsable(freqIn as real, freq as real, NF_MAX)
              && !SomeMarginal(freqIn as real, freq as real) ==>
                result == GetFreq() && Programmed(clkr, clkf, clkod, bwadj, freqIn as real, freq as real)
      ensures freqIn > 0 && !SomeUsable(freqIn as real, freq as real, NF_MAX) ==> result == 0
      ensures || (result == 0 && clkr == old(clkr) && clkf == old(clkf) && clkod == old(clkod) && bwadj == old(bwadj))
              || (result == GetFreq() && Programmed(clkr, clkf, clkod, bwadj, freqIn as real, freq as real))
    {
      if freqIn == 0 {
        return 0;
      }
      var found := Search(freqIn, freq);
      if found == None {
        return 0;
      }
      var d := found.value;
      FitsProgrammed(d, freqIn as real, freq as real);
      clkr, clkf, clkod, bwadj := d.nr - 1, d.nf - 1, d.od - 1, d.nb - 1;
      result := GetFreq();
    }
  }
}
