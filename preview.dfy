/** The live preview shown while the form is filled in: the same three
    derived values, computed for the record about to be created. */
module Preview {
  import opened Records
  import opened Recompute
  import opened Text

  /** The form's fields. Numeric fields are kept as they come out of
      `parseFloat`: `None` for text that is not a number. */
  datatype FormInput = FormInput(
    socio: string,
    fecha: string,
    entradas: Option<real>,
    salidas: Option<real>,
    kgTotales: Option<real>,
    vrKilo: Option<real>,
    fletes: Option<real>,
    comision: Option<real>)

  /** The partner field stores every keystroke upper-cased: each lower-case
      ASCII letter becomes its capital, every other character (white space
      included) stays as typed, and no other field changes. */
  function EnterPartner(form: FormInput, typed: string): (f: FormInput)
    ensures |f.socio| == |typed|
    ensures forall k :: 0 <= k < |typed| && IsLowerAscii(typed[k]) ==>
              f.socio[k] as int == typed[k] as int - 32
    ensures forall k :: 0 <= k < |typed| && !IsLowerAscii(typed[k]) ==> f.socio[k] == typed[k]
    ensures forall k :: 0 <= k < |typed| ==> !IsLowerAscii(f.socio[k])
    ensures forall k :: 0 <= k < |typed| ==> (IsSpace(f.socio[k]) <==> IsSpace(typed[k]))
    ensures f.(socio := form.socio) == form
  {
    UpperShape(typed);
    form.(socio := Upper(typed))
  }

  datatype PreviewResult = PreviewResult(saldo: real, valorAnimal: real, total: real, divisorFlete: nat)

  /** Loaded records the preview counts: a non-empty partner equal to
      `socio` and a date equal to `fecha`. */
  function LoadedMatches(loaded: seq<Record>, socio: string, fecha: string): nat
  {
    if loaded == [] then 0
    else
      var r := loaded[|loaded| - 1];
      LoadedMatches(loaded[..|loaded| - 1], socio, fecha)
        + (if r.socio != [] && r.socio == socio && r.fecha == fecha then 1 else 0)
  }

  /** For a non-empty partner the extra non-empty test is redundant: the
      preview counts exactly the group the recompute pass would count. */
  lemma {:induction false} LoadedMatchesIsGroupSize(loaded: seq<Record>, socio: string, fecha: string)
    requires socio != []
    ensures LoadedMatches(loaded, socio, fecha) == GroupSize(loaded, socio, fecha)
  {
    if loaded != [] {
      LoadedMatchesIsGroupSize(loaded[..|loaded| - 1], socio, fecha);
    }
  }

  /** The preview's freight divisor: 1 when the partner or the date is
      still empty, otherwise the loaded records of that group plus one for
      the record being entered. */
  function Divisor(loaded: seq<Record>, socio: string, fecha: string): (n: nat)
    ensures n >= 1
    ensures socio == [] || fecha == [] ==> n == 1
    ensures socio != [] && fecha != [] ==> n == GroupSize(loaded, socio, fecha) + 1
  {
    if socio == [] || fecha == [] then 1
    else
      LoadedMatchesIsGroupSize(loaded, socio, fecha);
      LoadedMatches(loaded, socio, fecha) + 1
  }

  /** What the preview shows for `form` against the loaded records. */
  function PreviewOf(form: FormInput, loaded: seq<Record>): PreviewResult
  {
    var entradas := Num(form.entradas);
    var kg := Num(form.kgTotales);
    var vr := Num(form.vrKilo);
    var priced := kg > 0.0 && vr > 0.0;
    var divisor := if priced then Divisor(loaded, form.socio, form.fecha) else 1;
    var total := if priced then kg * vr + Num(form.fletes) / (divisor as real) else 0.0;
    PreviewResult(
      entradas - Num(form.salidas),
      if entradas > 0.0 && total > 0.0 then total / entradas else 0.0,
      total,
      divisor)
  }

  /** The preview calculation as the form runs it: the total, the divisor
      and the per-animal value start at their fallbacks and are overwritten
      only when their guards hold. */
  method CalculatePreview(form: FormInput, loaded: seq<Record>) returns (res: PreviewResult)
    ensures res == PreviewOf(form, loaded)
  {
    var entradas := Num(form.entradas);
    var salidas := Num(form.salidas);
    var kgTotales := Num(form.kgTotales);
    var vrKilo := Num(form.vrKilo);
    var fletes := Num(form.fletes);

    var saldo := entradas - salidas;

    var valorTotal := 0.0;
    var divisorFlete := 1;
    if kgTotales > 0.0 && vrKilo > 0.0 {
      divisorFlete := Divisor(loaded, form.socio, form.fecha);
      valorTotal := kgTotales * vrKilo + fletes / (divisorFlete as real);
    }

    var valorAnimal := 0.0;
    if entradas > 0.0 && valorTotal > 0.0 {
      valorAnimal := valorTotal / entradas;
    }

    res := PreviewResult(saldo, valorAnimal, valorTotal, divisorFlete);
  }

  /** The preview's guards: the divisor is never 0 and stays 1 unless both
      weight and price are positive; the total is 0 unless they are; the
      per-animal value is 0 unless there are entries and a positive total;
      the balance is always entries minus exits. */
  lemma PreviewGuards(form: FormInput, loaded: seq<Record>)
    ensures PreviewOf(form, loaded).divisorFlete >= 1
    ensures !(Num(form.kgTotales) > 0.0 && Num(form.vrKilo) > 0.0) ==>
              PreviewOf(form, loaded).total == 0.0 && PreviewOf(form, loaded).divisorFlete == 1
    ensures Num(form.kgTotales) > 0.0 && Num(form.vrKilo) > 0.0 ==>
              PreviewOf(form, loaded).divisorFlete == Divisor(loaded, form.socio, form.fecha)
    ensures PreviewOf(form, loaded).valorAnimal != 0.0 ==>
              Num(form.entradas) > 0.0 && PreviewOf(form, loaded).total > 0.0
    ensures PreviewOf(form, loaded).saldo == Num(form.entradas) - Num(form.salidas)
  {
  }

  /** With a positive weight and price the preview charges the freight
      share of the divisor, whatever the sign of the freight, and the
      per-animal value is the total spread over the entries exactly when
      there are entries and the total is positive. */
  lemma PreviewPriced(form: FormInput, loaded: seq<Record>)
    requires Num(form.kgTotales) > 0.0 && Num(form.vrKilo) > 0.0
    ensures PreviewOf(form, loaded).divisorFlete == Divisor(loaded, form.socio, form.fecha)
    ensures PreviewOf(form, loaded).total
         == Num(form.kgTotales) * Num(form.vrKilo)
            + Num(form.fletes) / (Divisor(loaded, form.socio, form.fecha) as real)
    ensures Num(form.entradas) > 0.0 && PreviewOf(form, loaded).total > 0.0 ==>
              PreviewOf(form, loaded).valorAnimal == PreviewOf(form, loaded).total / Num(form.entradas)
    ensures !(Num(form.entradas) > 0.0 && PreviewOf(form, loaded).total > 0.0) ==>
              PreviewOf(form, loaded).valorAnimal == 0.0
  {
  }

  /** With non-negative freight as well, the priced total is positive, so
      the per-animal value is the total spread over the entries whenever
      there are any. */
  lemma PreviewPricedPositive(form: FormInput, loaded: seq<Record>)
    requires Num(form.kgTotales) > 0.0 && Num(form.vrKilo) > 0.0 && Num(form.fletes) >= 0.0
    ensures PreviewOf(form, loaded).total > 0.0
    ensures PreviewOf(form, loaded).valorAnimal
         == if Num(form.entradas) > 0.0 then PreviewOf(form, loaded).total / Num(form.entradas) else 0.0
  {
    var kg, vr, fletes := Num(form.kgTotales), Num(form.vrKilo), Num(form.fletes);
    var n := Divisor(loaded, form.socio, form.fecha);
    PreviewPriced(form, loaded);
    PositiveProduct(kg, vr);
    NonNegativeShare(fletes, n as real);
  }

  lemma PositiveProduct(x: real, y: real)
    requires x > 0.0 && y > 0.0
    ensures x * y > 0.0
  {
  }

  lemma NonNegativeShare(x: real, n: real)
    requires x >= 0.0 && n >= 1.0
    ensures x / n >= 0.0
  {
  }

  /** A weight that does not parse as a number leaves the preview at its
      fallbacks instead of failing. */
  lemma PreviewNonNumericWeight(form: FormInput, loaded: seq<Record>)
    requires form.kgTotales.None?
    ensures PreviewOf(form, loaded).total == 0.0
    ensures PreviewOf(form, loaded).valorAnimal == 0.0
    ensures PreviewOf(form, loaded).divisorFlete == 1
  {
  }
}
