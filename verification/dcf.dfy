/** The scenario DCF snapshot calculator (`simple_dcf_scenarios` in streamlit_app.py).

    One representative year of free cash flow is discounted one year, and a Gordon-growth
    terminal value is discounted over a horizon; the sum is the enterprise value, and the
    price per share divides it by a share count floored at 1e-6. Three scenarios
    (보수 = conservative, 기준 = base, 공격 = aggressive) share the financial profile and the horizon.

    Floats are modelled as exact reals. NaN is `None`. Over exact reals the one exception the
    Python code can raise is the ZeroDivisionError of `fcf / (1 + wacc)` when 1 + wacc is 0;
    it is a `Failure`.
 */
module Dcf {
  import opened Wrappers

  /** Floor of the divisor used for the share count (`max(shares_out, 1e-6)`). */
  const ShareFloor: real := 0.000001

  const BearLabel: string := "보수"
  const BaseLabel: string := "기준"
  const BullLabel: string := "공격"

  /** The shared financial profile of one calculation. */
  datatype Profile = Profile(revenue: real, opMargin: real, taxRate: real, reinvestRate: real, sharesOut: real)

  /** One scenario's discount rate (WACC) and perpetual growth rate (g). */
  datatype Assumption = Assumption(wacc: real, g: real)

  /** Python raises ZeroDivisionError on `fcf / (1 + wacc)` when 1 + wacc is 0. */
  datatype DcfError = ZeroDivision

  /** One output row: label, echoed WACC and g, FCF(yr1), EV(PV) and Price/Share. */
  datatype Row = Row(scenario: string, wacc: real, g: real, fcf: real, ev: Option<real>, price: Option<real>)

  // ---------------------------------------------------------------------------
  // Powers (Python `float ** int`)
  // ---------------------------------------------------------------------------

  function Pow(b: real, n: nat): real
  {
    if n == 0 then 1.0 else b * Pow(b, n - 1)
  }

  lemma {:induction false} PowNonZero(b: real, n: nat)
    requires b != 0.0
    ensures Pow(b, n) != 0.0
  {
    if n > 0 {
      PowNonZero(b, n - 1);
    }
  }

  lemma {:induction false} PowPositive(b: real, n: nat)
    requires b > 0.0
    ensures Pow(b, n) > 0.0
  {
    if n > 0 {
      PowPositive(b, n - 1);
    }
  }

  /** Raising to a fixed natural power is monotone on positive bases. */
  lemma {:induction false} PowMonotone(a: real, b: real, n: nat)
    requires 0.0 < a <= b
    ensures 0.0 < Pow(a, n) <= Pow(b, n)
  {
    if n > 0 {
      PowMonotone(a, b, n - 1);
      PowPositive(a, n - 1);
      var pa, pb := Pow(a, n - 1), Pow(b, n - 1);
      assert a * pa <= b * pa;
      assert b * pa <= b * pb;
    }
  }

  /** Python's `b ** e` for a nonzero float base and an int exponent, negative exponents included. */
  function IntPow(b: real, e: int): (r: real)
    requires b != 0.0
    ensures r != 0.0
    ensures b > 0.0 ==> r > 0.0
    ensures e < 0 ==> r * Pow(b, -e) == 1.0
  {
    if e >= 0 then
      PowNonZero(b, e);
      if b > 0.0 then PowPositive(b, e); Pow(b, e) else Pow(b, e)
    else
      PowNonZero(b, -e);
      if b > 0.0 then PowPositive(b, -e); 1.0 / Pow(b, -e) else 1.0 / Pow(b, -e)
  }

  // ---------------------------------------------------------------------------
  // One scenario
  // ---------------------------------------------------------------------------

  /** FCF(yr1): EBIT = revenue * margin, NOPAT = EBIT * (1 - tax), FCF = NOPAT * (1 - reinvestment). */
  function FreeCashFlow(p: Profile): real
  {
    var ebit := p.revenue * p.opMargin;
    var nopat := ebit * (1.0 - p.taxRate);
    nopat * (1.0 - p.reinvestRate)
  }

  /** Gordon-growth terminal value; undefined (NaN) exactly when wacc <= g. A defined value
      is the perpetuity whose yield spread wacc - g pays next year's grown flow fcf * (1 + g). */
  function TerminalValue(fcf: real, a: Assumption): (tv: Option<real>)
    ensures tv.None? <==> a.wacc <= a.g
  {
    if a.wacc <= a.g then None else Some(Gordon(fcf, a))
  }

  /** The Gordon-growth formula fcf * (1 + g) / (wacc - g). */
  function Gordon(fcf: real, a: Assumption): real
    requires a.wacc > a.g
  {
    fcf * (1.0 + a.g) / (a.wacc - a.g)
  }

  /** The divisor `max(shares_out, 1e-6)`. */
  function EffectiveShares(shares: real): (d: real)
    ensures d >= ShareFloor && d >= shares
    ensures d == shares || d == ShareFloor
  {
    if shares >= ShareFloor then shares else ShareFloor
  }

  /** Price/Share: NaN stays NaN; a defined EV is split over the floored share count. */
  function PricePerShare(ev: Option<real>, shares: real): (price: Option<real>)
    ensures price.None? <==> ev.None?
  {
    match ev
    case None => None
    case Some(v) => Some(v / EffectiveShares(shares))
  }

  /** `scenario_calc(name, wacc, g)`: one row of the table, or the ZeroDivisionError raised
      by `fcf / (1 + wacc)`. NaN flows from the terminal value into EV and Price/Share only. */
  function ScenarioCalc(p: Profile, name: string, a: Assumption, horizon: int): (r: Result<Row, DcfError>)
    ensures r.Failure? <==> 1.0 + a.wacc == 0.0
    ensures r.Success? ==>
      && r.value.scenario == name && r.value.wacc == a.wacc && r.value.g == a.g
      && r.value.fcf == FreeCashFlow(p)
    ensures r.Success? ==> (r.value.ev.None? <==> a.wacc <= a.g)
    ensures r.Success? ==> (r.value.price.None? <==> a.wacc <= a.g)
  {
    var fcf := FreeCashFlow(p);
    var tv := TerminalValue(fcf, a);
    if 1.0 + a.wacc == 0.0 then
      Failure(ZeroDivision)
    else
      var pvFcf := fcf / (1.0 + a.wacc);
      var pvTv := match tv
        case None => None
        case Some(t) => Some(t / IntPow(1.0 + a.wacc, horizon));
      var ev := match pvTv
        case None => None
        case Some(v) => Some(pvFcf + v);
      Success(Row(name, a.wacc, a.g, fcf, ev, PricePerShare(ev, p.sharesOut)))
  }

  // ---------------------------------------------------------------------------
  // The three-row table
  // ---------------------------------------------------------------------------

  /** `simple_dcf_scenarios`: rows 보수, 기준, 공격 in that order, or the first exception raised. */
  function SimpleDcfScenarios(p: Profile, bear: Assumption, base: Assumption, bull: Assumption, horizon: int)
    : (r: Result<seq<Row>, DcfError>)
    ensures r.Success? <==> 1.0 + bear.wacc != 0.0 && 1.0 + base.wacc != 0.0 && 1.0 + bull.wacc != 0.0
    ensures r.Success? ==>
      && |r.value| == 3
      && r.value[0].scenario == BearLabel
      && r.value[1].scenario == BaseLabel
      && r.value[2].scenario == BullLabel
    ensures r.Success? ==>
      && r.value[0].wacc == bear.wacc && r.value[0].g == bear.g
      && r.value[1].wacc == base.wacc && r.value[1].g == base.g
      && r.value[2].wacc == bull.wacc && r.value[2].g == bull.g
    ensures r.Success? ==> forall i :: 0 <= i < |r.value| ==> r.value[i].fcf == FreeCashFlow(p)
    ensures r.Success? ==>
      && (r.value[0].ev.None? <==> bear.wacc <= bear.g)
      && (r.value[1].ev.None? <==> base.wacc <= base.g)
      && (r.value[2].ev.None? <==> bull.wacc <= bull.g)
  {
    var bearRow := ScenarioCalc(p, BearLabel, bear, horizon);
    if bearRow.Failure? then Failure(bearRow.error) else
    var baseRow := ScenarioCalc(p, BaseLabel, base, horizon);
    if baseRow.Failure? then Failure(baseRow.error) else
    var bullRow := ScenarioCalc(p, BullLabel, bull, horizon);
    if bullRow.Failure? then Failure(bullRow.error) else
    Success([bearRow.value, baseRow.value, bullRow.value])
  }

  // ---------------------------------------------------------------------------
  // Input-form bounds (the DCF form's number inputs and slider)
  // ---------------------------------------------------------------------------

  predicate FormProfile(p: Profile)
  {
    && p.revenue >= 0.0
    && 0.0 <= p.opMargin <= 1.0
    && 0.0 <= p.taxRate <= 1.0
    && 0.0 <= p.reinvestRate <= 1.0
    && p.sharesOut >= 0.0
  }

  predicate FormAssumption(a: Assumption)
  {
    0.01 <= a.wacc <= 0.5 && -0.1 <= a.g <= 0.2
  }

  predicate FormHorizon(h: int)
  {
    3 <= h <= 10
  }

  // ---------------------------------------------------------------------------
  // Properties
  // ---------------------------------------------------------------------------

  /** A defined row has the closed form
      EV = fcf / (1 + wacc) + (fcf * (1 + g) / (wacc - g)) / (1 + wacc)^horizon
      and Price/Share = EV / max(shares, 1e-6). */
  lemma DefinedRowClosedForm(p: Profile, name: string, a: Assumption, horizon: int)
    requires 1.0 + a.wacc != 0.0 && a.wacc > a.g
    ensures
      var fcf := FreeCashFlow(p);
      var ev := EvFormula(fcf, a.wacc, a.g, horizon);
      && ScenarioCalc(p, name, a, horizon).Success?
      && ScenarioCalc(p, name, a, horizon).value.ev == Some(ev)
      && ScenarioCalc(p, name, a, horizon).value.price == Some(ev / EffectiveShares(p.sharesOut))
  {
  }

  /** A defined terminal value is the Gordon perpetuity: its yield at the spread wacc - g
      is exactly next year's grown flow fcf * (1 + g). */
  lemma GordonGrowthIdentity(fcf: real, a: Assumption)
    requires a.wacc > a.g
    ensures TerminalValue(fcf, a).Some?
    ensures TerminalValue(fcf, a).value * (a.wacc - a.g) == fcf * (1.0 + a.g)
  {
  }

  /** A defined price, multiplied back by the floored share count, gives the EV again. */
  lemma PriceTimesSharesIsEv(ev: real, shares: real)
    ensures PricePerShare(Some(ev), shares).Some?
    ensures PricePerShare(Some(ev), shares).value * EffectiveShares(shares) == ev
  {
  }

  /** With wacc <= g the terminal value, EV and Price/Share are all undefined, never zero,
      while FCF(yr1) stays the defined profile figure. */
  lemma UndefinedRowPropagation(p: Profile, name: string, a: Assumption, horizon: int)
    requires 1.0 + a.wacc != 0.0 && a.wacc <= a.g
    ensures TerminalValue(FreeCashFlow(p), a) == None
    ensures ScenarioCalc(p, name, a, horizon).Success?
    ensures ScenarioCalc(p, name, a, horizon).value.ev == None
    ensures ScenarioCalc(p, name, a, horizon).value.price == None
    ensures ScenarioCalc(p, name, a, horizon).value.fcf == FreeCashFlow(p)
  {
  }

  /** With no shares outstanding the divisor is exactly 1e-6: a defined EV gives a defined price
      equal to EV / 1e-6, with no division by zero. */
  lemma ZeroSharesUsesFloor(p: Profile, name: string, a: Assumption, horizon: int)
    requires p.sharesOut == 0.0
    requires 1.0 + a.wacc != 0.0 && a.wacc > a.g
    ensures ScenarioCalc(p, name, a, horizon).value.price.Some?
    ensures ScenarioCalc(p, name, a, horizon).value.price.value
         == ScenarioCalc(p, name, a, horizon).value.ev.value / ShareFloor
  {
  }

  /** When nothing raises, each row of the table is the scenario calculation of its own
      assumption alone. */
  lemma RowsAreOwnScenarios(p: Profile, bear: Assumption, base: Assumption, bull: Assumption, horizon: int)
    requires 1.0 + bear.wacc != 0.0 && 1.0 + base.wacc != 0.0 && 1.0 + bull.wacc != 0.0
    ensures SimpleDcfScenarios(p, bear, base, bull, horizon).value
         == [ ScenarioCalc(p, BearLabel, bear, horizon).value,
              ScenarioCalc(p, BaseLabel, base, horizon).value,
              ScenarioCalc(p, BullLabel, bull, horizon).value ]
  {
  }

  /** Changing only the conservative assumptions leaves the base and aggressive rows unchanged. */
  lemma BearChangeLeavesOtherRows(p: Profile, bear: Assumption, bear': Assumption, base: Assumption,
                                  bull: Assumption, horizon: int)
    requires 1.0 + bear.wacc != 0.0 && 1.0 + bear'.wacc != 0.0
    requires 1.0 + base.wacc != 0.0 && 1.0 + bull.wacc != 0.0
    ensures SimpleDcfScenarios(p, bear, base, bull, horizon).value[1..]
         == SimpleDcfScenarios(p, bear', base, bull, horizon).value[1..]
  {
    RowsAreOwnScenarios(p, bear, base, bull, horizon);
    RowsAreOwnScenarios(p, bear', base, bull, horizon);
  }

  /** An undefined conservative row does not make the other rows undefined. */
  lemma UndefinedRowIsIsolated(p: Profile, bear: Assumption, base: Assumption, bull: Assumption, horizon: int)
    requires 1.0 + bear.wacc != 0.0 && 1.0 + base.wacc != 0.0 && 1.0 + bull.wacc != 0.0
    requires bear.wacc <= bear.g
    requires base.wacc > base.g && bull.wacc > bull.g
    ensures SimpleDcfScenarios(p, bear, base, bull, horizon).value[0].price.None?
    ensures SimpleDcfScenarios(p, bear, base, bull, horizon).value[1].price.Some?
    ensures SimpleDcfScenarios(p, bear, base, bull, horizon).value[2].price.Some?
  {
  }

  /** Inputs accepted by the form never raise. */
  lemma FormInputsNeverFail(p: Profile, bear: Assumption, base: Assumption, bull: Assumption, horizon: int)
    requires FormProfile(p) && FormHorizon(horizon)
    requires FormAssumption(bear) && FormAssumption(base) && FormAssumption(bull)
    ensures SimpleDcfScenarios(p, bear, base, bull, horizon).Success?
  {
  }

  /** Under the form's bounds each factor of FCF(yr1) lies in [0, 1], so 0 <= FCF <= revenue. */
  lemma FormFreeCashFlowBounds(p: Profile)
    requires FormProfile(p)
    ensures 0.0 <= FreeCashFlow(p) <= p.revenue
  {
    var r, m, t, k := p.revenue, p.opMargin, 1.0 - p.taxRate, 1.0 - p.reinvestRate;
    MulUnitInterval(m, t);
    MulUnitInterval(m * t, k);
    MulScaleDown(r, m * t * k);
    assert FreeCashFlow(p) == r * (m * t * k);
  }

  /** The unit interval is closed under multiplication. */
  lemma MulUnitInterval(x: real, y: real)
    requires 0.0 <= x <= 1.0 && 0.0 <= y <= 1.0
    ensures 0.0 <= x * y <= 1.0
  {
    MulMonotone(0.0, y, x);
    assert 0.0 <= x * y;
    MulMonotone(y, 1.0, x);
    assert x * y <= x * 1.0;
    assert x * 1.0 == x;
  }

  /** Scaling a non-negative amount by a factor in [0, 1] keeps it in [0, amount]. */
  lemma MulScaleDown(x: real, f: real)
    requires x >= 0.0 && 0.0 <= f <= 1.0
    ensures 0.0 <= x * f <= x
  {
    MulMonotone(f, 1.0, x);
  }

  lemma MulMonotone(x: real, y: real, c: real)
    requires x <= y && c >= 0.0
    ensures x * c <= y * c && c * x <= c * y
  {
    assert (y - x) * c >= 0.0;
  }

  lemma DivAntitone(x: real, a: real, b: real)
    requires x >= 0.0 && 0.0 < a <= b
    ensures x / b <= x / a
  {
    assert x / b * a <= x / b * b;
  }

  lemma DivMonotone(x: real, y: real, a: real)
    requires x <= y && a > 0.0
    ensures x / a <= y / a
  {
  }

  /** The defined EV of a row, as a formula in the row's FCF(yr1), WACC, g and horizon. */
  function EvFormula(fcf: real, w: real, g: real, horizon: int): real
    requires 1.0 + w != 0.0 && w > g
  {
    fcf / (1.0 + w) + Gordon(fcf, Assumption(w, g)) / IntPow(1.0 + w, horizon)
  }

  lemma GordonNonNegative(fcf: real, a: Assumption)
    requires fcf >= 0.0 && 1.0 + a.g > 0.0 && a.wacc > a.g
    ensures Gordon(fcf, a) >= 0.0
  {
    MulMonotone(0.0, fcf, 1.0 + a.g);
  }

  lemma GordonAntitoneInWacc(fcf: real, w1: real, w2: real, g: real)
    requires fcf >= 0.0 && 1.0 + g > 0.0 && g < w1 <= w2
    ensures 0.0 <= Gordon(fcf, Assumption(w2, g)) <= Gordon(fcf, Assumption(w1, g))
  {
    var n := fcf * (1.0 + g);
    MulMonotone(0.0, fcf, 1.0 + g);
    assert n >= 0.0;
    QuotientMonotone(n, n, w2 - g, w1 - g);
    assert Gordon(fcf, Assumption(w1, g)) == n / (w1 - g);
    assert Gordon(fcf, Assumption(w2, g)) == n / (w2 - g);
  }

  lemma GordonMonotoneInGrowth(fcf: real, w: real, g1: real, g2: real)
    requires fcf >= 0.0 && 1.0 + g1 > 0.0 && g1 <= g2 < w
    ensures 0.0 <= Gordon(fcf, Assumption(w, g1)) <= Gordon(fcf, Assumption(w, g2))
  {
    var n1, n2 := fcf * (1.0 + g1), fcf * (1.0 + g2);
    MulMonotone(0.0, fcf, 1.0 + g1);
    assert 0.0 <= n1;
    MulMonotone(1.0 + g1, 1.0 + g2, fcf);
    assert n1 <= n2;
    QuotientMonotone(n1, n2, w - g1, w - g2);
    assert Gordon(fcf, Assumption(w, g1)) == n1 / (w - g1);
    assert Gordon(fcf, Assumption(w, g2)) == n2 / (w - g2);
  }

  /** A smaller non-negative numerator over a larger positive denominator gives a smaller quotient. */
  lemma QuotientMonotone(n1: real, n2: real, d1: real, d2: real)
    requires 0.0 <= n1 <= n2 && 0.0 < d2 <= d1
    ensures 0.0 <= n1 / d1 <= n2 / d2
  {
    DivMonotone(0.0, n1, d1);
    DivMonotone(n1, n2, d1);
    DivAntitone(n2, d2, d1);
  }

  /** Discounting: a smaller flow over a larger discount factor is worth less. */
  lemma DiscountedSumMonotone(x1: real, x2: real, t1: real, t2: real, d1: real, d2: real)
    requires x1 <= x2 && 0.0 <= t1 <= t2 && 0.0 < d2 <= d1
    ensures x1 + t1 / d1 <= x2 + t2 / d2
  {
    DivMonotone(t1, t2, d1);
    DivAntitone(t2, d2, d1);
  }

  lemma EvFormulaNonNegative(fcf: real, w: real, g: real, horizon: int)
    requires fcf >= 0.0 && 1.0 + w > 0.0 && 1.0 + g > 0.0 && w > g
    ensures EvFormula(fcf, w, g, horizon) >= 0.0
  {
    GordonNonNegative(fcf, Assumption(w, g));
    DivMonotone(0.0, fcf, 1.0 + w);
    DivMonotone(0.0, Gordon(fcf, Assumption(w, g)), IntPow(1.0 + w, horizon));
  }

  lemma EvFormulaAntitoneInWacc(fcf: real, w1: real, w2: real, g: real, horizon: nat)
    requires fcf >= 0.0 && 1.0 + g > 0.0 && g < w1 <= w2
    ensures EvFormula(fcf, w2, g, horizon) <= EvFormula(fcf, w1, g, horizon)
  {
    DivAntitone(fcf, 1.0 + w1, 1.0 + w2);
    GordonAntitoneInWacc(fcf, w1, w2, g);
    PowMonotone(1.0 + w1, 1.0 + w2, horizon);
    DiscountedSumMonotone(fcf / (1.0 + w2), fcf / (1.0 + w1),
                          Gordon(fcf, Assumption(w2, g)), Gordon(fcf, Assumption(w1, g)),
                          IntPow(1.0 + w2, horizon), IntPow(1.0 + w1, horizon));
  }

  lemma EvFormulaMonotoneInGrowth(fcf: real, w: real, g1: real, g2: real, horizon: nat)
    requires fcf >= 0.0 && 1.0 + w > 0.0 && 1.0 + g1 > 0.0 && g1 <= g2 < w
    ensures EvFormula(fcf, w, g1, horizon) <= EvFormula(fcf, w, g2, horizon)
  {
    GordonMonotoneInGrowth(fcf, w, g1, g2);
    var d := IntPow(1.0 + w, horizon);
    DiscountedSumMonotone(fcf / (1.0 + w), fcf / (1.0 + w),
                          Gordon(fcf, Assumption(w, g1)), Gordon(fcf, Assumption(w, g2)), d, d);
  }

  /** Under the form's bounds a defined valuation is never negative. */
  lemma FormValuationNonNegative(p: Profile, name: string, a: Assumption, horizon: int)
    requires FormProfile(p) && FormAssumption(a) && FormHorizon(horizon)
    requires a.wacc > a.g
    ensures ScenarioCalc(p, name, a, horizon).value.ev.value >= 0.0
    ensures ScenarioCalc(p, name, a, horizon).value.price.value >= 0.0
  {
    FormFreeCashFlowBounds(p);
    DefinedRowClosedForm(p, name, a, horizon);
    EvFormulaNonNegative(FreeCashFlow(p), a.wacc, a.g, horizon);
    var ev := EvFormula(FreeCashFlow(p), a.wacc, a.g, horizon);
    DivMonotone(0.0, ev, EffectiveShares(p.sharesOut));
  }

  /** Under the form's bounds a higher discount rate (same g) never raises EV or Price/Share. */
  lemma FormValuationDecreasesWithWacc(p: Profile, name: string, w1: real, w2: real, g: real, horizon: int)
    requires FormProfile(p) && FormHorizon(horizon)
    requires FormAssumption(Assumption(w1, g)) && FormAssumption(Assumption(w2, g))
    requires g < w1 <= w2
    ensures ScenarioCalc(p, name, Assumption(w2, g), horizon).value.ev.value
         <= ScenarioCalc(p, name, Assumption(w1, g), horizon).value.ev.value
    ensures ScenarioCalc(p, name, Assumption(w2, g), horizon).value.price.value
         <= ScenarioCalc(p, name, Assumption(w1, g), horizon).value.price.value
  {
    FormFreeCashFlowBounds(p);
    DefinedRowClosedForm(p, name, Assumption(w1, g), horizon);
    DefinedRowClosedForm(p, name, Assumption(w2, g), horizon);
    EvFormulaAntitoneInWacc(FreeCashFlow(p), w1, w2, g, horizon);
    DivMonotone(EvFormula(FreeCashFlow(p), w2, g, horizon), EvFormula(FreeCashFlow(p), w1, g, horizon),
                EffectiveShares(p.sharesOut));
  }

  /** Under the form's bounds a higher growth rate (same WACC, still below it) never lowers
      EV or Price/Share. */
  lemma FormValuationIncreasesWithGrowth(p: Profile, name: string, w: real, g1: real, g2: real, horizon: int)
    requires FormProfile(p) && FormHorizon(horizon)
    requires FormAssumption(Assumption(w, g1)) && FormAssumption(Assumption(w, g2))
    requires g1 <= g2 < w
    ensures ScenarioCalc(p, name, Assumption(w, g1), horizon).value.ev.value
         <= ScenarioCalc(p, name, Assumption(w, g2), horizon).value.ev.value
    ensures ScenarioCalc(p, name, Assumption(w, g1), horizon).value.price.value
         <= ScenarioCalc(p, name, Assumption(w, g2), horizon).value.price.value
  {
    FormFreeCashFlowBounds(p);
    DefinedRowClosedForm(p, name, Assumption(w, g1), horizon);
    DefinedRowClosedForm(p, name, Assumption(w, g2), horizon);
    EvFormulaMonotoneInGrowth(FreeCashFlow(p), w, g1, g2, horizon);
    DivMonotone(EvFormula(FreeCashFlow(p), w, g1, horizon), EvFormula(FreeCashFlow(p), w, g2, horizon),
                EffectiveShares(p.sharesOut));
  }

  /** The form's default inputs: every row is defined, FCF(yr1) is 1382.5 in all three,
      the base price is about 12.2017, and the prices rise from 보수 to 기준 to 공격. */
  lemma DefaultFormValuation()
    ensures
      var p := Profile(10000.0, 0.25, 0.21, 0.30, 1000.0);
      var r := SimpleDcfScenarios(p, Assumption(0.12, 0.01), Assumption(0.10, 0.02), Assumption(0.09, 0.03), 5);
      && r.Success?
      && r.value[0].fcf == 1382.5 && r.value[1].fcf == 1382.5 && r.value[2].fcf == 1382.5
      && r.value[0].price.Some? && r.value[1].price.Some? && r.value[2].price.Some?
      && 12.2017 < r.value[1].price.value < 12.2018
      && r.value[0].price.value < r.value[1].price.value < r.value[2].price.value
  {
    var p := Profile(10000.0, 0.25, 0.21, 0.30, 1000.0);
    assert Pow(1.12, 5) == 1.7623416832;
    assert Pow(1.10, 5) == 1.61051;
    assert Pow(1.09, 5) == 1.5386239549;
    RowsAreOwnScenarios(p, Assumption(0.12, 0.01), Assumption(0.10, 0.02), Assumption(0.09, 0.03), 5);
  }
}
