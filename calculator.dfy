/** The client-side consumption calculator of the site (script.js, `Calcular_Consumo`):
    input validation, monthly and daily cost, panel count and a three-tier suggestion. */
module Calculator {
  import opened Wrappers
  import opened RealMath

  /** Shown when either input is not a finite number. */
  const InvalidNumbers: string := "⚠️ Por favor ingresa números válidos en consumo y costo por kWh."
  /** Shown when either input is zero or negative. */
  const NotPositive: string := "⚠️ Los valores deben ser mayores que 0."

  const SmallInstallation: string := "Instalación pequeña (~4 paneles)."
  const MediumInstallation: string := "Instalación media (6 a 9 paneles)."
  const LargeInstallation: string := "Instalación avanzada (10+ paneles)."

  /** Monthly energy of one 400 Wp panel, in kWh. */
  const KwhPerPanelMonth: real := 48.0

  /** What the result card shows for a valid input. */
  datatype Calculation = Calculation(
    consumption: real, total: real, dailyConsumption: real, dailyCost: real,
    panels: int, suggestion: string)

  /** Panels to cover the whole monthly consumption: the least count whose production
      reaches it; at least one for any positive consumption. */
  function PanelCount(consumption: real): (n: int)
    ensures n as real * KwhPerPanelMonth >= consumption
    ensures (n - 1) as real * KwhPerPanelMonth < consumption
    ensures consumption > 0.0 ==> n >= 1
  {
    var n := Ceil(consumption / KwhPerPanelMonth);
    assert n as real * KwhPerPanelMonth >= consumption / KwhPerPanelMonth * KwhPerPanelMonth;
    assert (n - 1) as real * KwhPerPanelMonth < consumption / KwhPerPanelMonth * KwhPerPanelMonth;
    n
  }

  /** The suggestion tier for a monthly consumption: small up to 200 kWh, medium up to
      400 kWh, advanced above. */
  function Suggestion(consumption: real): (s: string)
    ensures s == SmallInstallation <==> consumption <= 200.0
    ensures s == MediumInstallation <==> 200.0 < consumption <= 400.0
    ensures s == LargeInstallation <==> consumption > 400.0
  {
    if consumption <= 200.0 then SmallInstallation
    else if consumption <= 400.0 then MediumInstallation
    else LargeInstallation
  }

  /** The calculator. An input is `None` when it does not parse to a finite number. */
  function Calculate(consumption: Option<real>, cost: Option<real>): (r: Result<Calculation, string>)
    ensures r.Failure? ==> r.error == InvalidNumbers || r.error == NotPositive
    ensures r.Success? ==> consumption.Some? && cost.Some? && r.value.consumption == consumption.value
    ensures r.Success? ==> r.value.dailyCost * 30.0 == r.value.total
  {
    if consumption.None? || cost.None? then Failure(InvalidNumbers)
    else
      var consumo, costo := consumption.value, cost.value;
      if consumo <= 0.0 || costo <= 0.0 then Failure(NotPositive)
      else
        var total := consumo * costo;
        var daily := consumo / 30.0;
        var dailyCost := daily * costo;
        assert dailyCost * 30.0 == total by {
          assert daily * 30.0 == consumo;
        }
        Success(Calculation(consumo, total, daily, dailyCost, PanelCount(consumo), Suggestion(consumo)))
  }

  /** The "valid numbers" error is reported exactly when an input is not a finite number. */
  lemma InvalidNumbersExactly(consumption: Option<real>, cost: Option<real>)
    ensures Calculate(consumption, cost) == Failure(InvalidNumbers) <==> consumption.None? || cost.None?
  {
  }

  /** The "greater than 0" error is reported exactly when both inputs are numbers and one of
      them is not positive. */
  lemma NotPositiveExactly(consumption: Option<real>, cost: Option<real>)
    ensures Calculate(consumption, cost) == Failure(NotPositive) <==>
              consumption.Some? && cost.Some? && (consumption.value <= 0.0 || cost.value <= 0.0)
  {
  }

  /** For two positive numbers the calculator succeeds: the month costs consumption times
      price, a day uses a thirtieth of the consumption at the same price, the panel count
      covers the month (and is the least such, by `PanelCountLeast`) and is at least one, and
      the suggestion follows the tiers. */
  lemma ValidInput(consumo: real, costo: real)
    requires consumo > 0.0 && costo > 0.0
    ensures var r := Calculate(Some(consumo), Some(costo));
            r.Success? && r.value.total == consumo * costo
            && r.value.dailyConsumption * 30.0 == consumo
            && r.value.dailyCost == r.value.dailyConsumption * costo
            && r.value.panels == PanelCount(consumo) && r.value.panels >= 1
            && r.value.panels as real * KwhPerPanelMonth >= consumo
            && (r.value.suggestion == SmallInstallation <==> consumo <= 200.0)
            && (r.value.suggestion == MediumInstallation <==> 200.0 < consumo <= 400.0)
            && (r.value.suggestion == LargeInstallation <==> consumo > 400.0)
  {
  }

  /** No smaller number of panels covers the month: any count whose production reaches the
      consumption is at least the calculator's. */
  lemma PanelCountLeast(consumption: real, m: int)
    requires m as real * KwhPerPanelMonth >= consumption
    ensures PanelCount(consumption) <= m
  {
    var n := PanelCount(consumption);
    assert (n - 1) as real * KwhPerPanelMonth < m as real * KwhPerPanelMonth;
  }

  /** The tiers are set by consumption, not by the panel count shown beside them: 401 kWh
      gets the "10+ panels" suggestion while the card reports 9 panels. */
  lemma TierDisagreesWithCount()
    ensures var r := Calculate(Some(401.0), Some(1.0));
            r.Success? && r.value.panels == 9 && r.value.suggestion == LargeInstallation
  {
    var n := PanelCount(401.0);
    assert 8.0 * KwhPerPanelMonth < 401.0 <= 9.0 * KwhPerPanelMonth;
    PanelCountLeast(401.0, 9);
  }
}
