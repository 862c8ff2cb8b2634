/** Creating a record from the form, and correcting one in place: the two
    ways raw fields enter the record set before the next recompute pass. */
module Submit {
  import opened Records
  import opened Text
  import opened Recompute
  import opened Preview

  datatype SubmitError = BlankPartner

  /** The record the submit handler stores: rejected when the partner is
      blank; otherwise the partner trimmed and upper-cased, the raw numbers
      from the form and the derived values of the preview. */
  function NewRecord(form: FormInput, preview: PreviewResult): (r: Result<Record, SubmitError>)
    ensures r.Failure? <==> IsBlank(form.socio)
    ensures r.Success? ==>
              && r.value.socio == Normalize(form.socio)
              && r.value.socio != [] && Normalize(r.value.socio) == r.value.socio
              && r.value.fecha == form.fecha
              && r.value.entradas == Num(form.entradas) && r.value.salidas == Num(form.salidas)
              && r.value.kgTotales == Num(form.kgTotales) && r.value.vrKilo == Num(form.vrKilo)
              && r.value.fletes == Num(form.fletes) && r.value.comision == Num(form.comision)
              && r.value.saldo == preview.saldo && r.value.total == preview.total
              && r.value.valorAnimal == preview.valorAnimal
  {
    if IsBlank(form.socio) then Failure(BlankPartner)
    else
      NormalizeIdempotent(form.socio);
      Success(Record(
        socio := Normalize(form.socio),
        fecha := form.fecha,
        entradas := Num(form.entradas),
        salidas := Num(form.salidas),
        saldo := preview.saldo,
        kgTotales := Num(form.kgTotales),
        vrKilo := Num(form.vrKilo),
        fletes := Num(form.fletes),
        comision := Num(form.comision),
        valorAnimal := preview.valorAnimal,
        total := preview.total))
  }

  /** The fields the in-place edit row offers. A number left undefined reads
      as 0, as does text that is not a number. The partner and the commission
      have no input in that row: they pass through from the record. */
  datatype EditInput = EditInput(
    fecha: string,
    entradas: Option<real>,
    salidas: Option<real>,
    kgTotales: Option<real>,
    vrKilo: Option<real>,
    fletes: Option<real>)

  /** Saving an edit overwrites the editable raw fields of one record,
      upper-cases the partner it carries over, keeps the commission, and leaves the derived fields to the
      next recompute pass. */
  function ApplyEdit(r: Record, e: EditInput): (edited: Record)
    ensures edited.socio == Upper(r.socio)
    ensures edited.fecha == e.fecha
    ensures edited.entradas == Num(e.entradas) && edited.salidas == Num(e.salidas)
    ensures edited.kgTotales == Num(e.kgTotales) && edited.vrKilo == Num(e.vrKilo)
    ensures edited.fletes == Num(e.fletes) && edited.comision == r.comision
    ensures edited.saldo == r.saldo && edited.total == r.total && edited.valorAnimal == r.valorAnimal
  {
    r.(socio := Upper(r.socio),
       fecha := e.fecha,
       entradas := Num(e.entradas),
       salidas := Num(e.salidas),
       kgTotales := Num(e.kgTotales),
       vrKilo := Num(e.vrKilo),
       fletes := Num(e.fletes))
  }

  /** Editing a record whose partner is in stored form, as every record the
      form creates is, never changes its partner. */
  lemma EditKeepsStoredPartner(r: Record, e: EditInput)
    requires Normalize(r.socio) == r.socio
    ensures ApplyEdit(r, e).socio == r.socio
  {
    UpperOfStored(r.socio);
  }

  /** When the partner is already in stored form, the date is set and the
      weight and price are positive with non-negative freight, the record the
      form stores is exactly what the next recompute pass makes of it: the
      preview's "loaded records plus one" is the group the pass counts. */
  lemma PreviewAgreesWithRecompute(form: FormInput, loaded: seq<Record>)
    requires !IsBlank(form.socio) && Normalize(form.socio) == form.socio
    requires form.fecha != []
    requires Num(form.kgTotales) > 0.0 && Num(form.vrKilo) > 0.0 && Num(form.fletes) >= 0.0
    ensures NewRecord(form, PreviewOf(form, loaded)).Success?
    ensures Reconcile(loaded + [NewRecord(form, PreviewOf(form, loaded)).value])[|loaded|]
         == NewRecord(form, PreviewOf(form, loaded)).value
  {
    var p := PreviewOf(form, loaded);
    var rec := NewRecord(form, p).value;
    var n := GroupSize(loaded, rec.socio, rec.fecha) + 1;
    assert n == Divisor(loaded, form.socio, form.fecha);
    PreviewPriced(form, loaded);
    PreviewPricedPositive(form, loaded);
    AppendedRecord(loaded, rec);
    RecalculatedFixedPoint(rec, n);
  }

  /** With no weight or no price (a field left empty or not a number) the
      preview stores a total of 0, while the recompute pass still charges the
      record its positive freight share: the stored total is corrected on the
      next load. */
  lemma UnpricedPreviewIsCorrectedByRecompute(form: FormInput, loaded: seq<Record>)
    requires !IsBlank(form.socio)
    requires Num(form.kgTotales) == 0.0 || Num(form.vrKilo) == 0.0
    requires Num(form.fletes) > 0.0
    ensures NewRecord(form, PreviewOf(form, loaded)).Success?
    ensures NewRecord(form, PreviewOf(form, loaded)).value.total == 0.0
    ensures Reconcile(loaded + [NewRecord(form, PreviewOf(form, loaded)).value])[|loaded|].total > 0.0
  {
    var rec := NewRecord(form, PreviewOf(form, loaded)).value;
    PreviewGuards(form, loaded);
    FreightOnlyTotal(loaded, rec);
  }

  /** A partner typed without outer white space reaches the preview in
      stored form, because the field upper-cases every keystroke: for such a
      partner the preview and the next recompute pass agree. */
  lemma TypedPartnerPreviewAgrees(form: FormInput, typed: string, loaded: seq<Record>)
    requires typed != [] && IsTrimmed(typed)
    requires form.fecha != []
    requires Num(form.kgTotales) > 0.0 && Num(form.vrKilo) > 0.0 && Num(form.fletes) >= 0.0
    ensures NewRecord(EnterPartner(form, typed), PreviewOf(EnterPartner(form, typed), loaded)).Success?
    ensures (var f := EnterPartner(form, typed);
             Reconcile(loaded + [NewRecord(f, PreviewOf(f, loaded)).value])[|loaded|]
             == NewRecord(f, PreviewOf(f, loaded)).value)
  {
    var f := EnterPartner(form, typed);
    StoredFormOfUpper(typed);
    assert f.socio == Upper(typed);
    assert !IsBlank(f.socio) by {
      TrimOfTrimmed(f.socio);
    }
    PreviewAgreesWithRecompute(f, loaded);
  }

  /** The preview compares the partner as it stands in the field, before
      it is trimmed: typing "acme " (with a trailing space) on a day that
      already holds an "ACME" record previews a divisor of 1, although the
      stored "ACME" record joins a group of 2. */
  lemma PreviewCountsUntrimmedPartner()
    ensures var loaded := [Record("ACME", "2024-01-01", 1.0, 0.0, 1.0, 10.0, 5.0, 100.0, 0.0, 150.0, 150.0)];
            && Upper("acme ") == "ACME "
            && Divisor(loaded, "ACME ", "2024-01-01") == 1
            && Normalize("ACME ") == "ACME"
            && GroupSize(loaded, Normalize("ACME "), "2024-01-01") + 1 == 2
  {
    var loaded := [Record("ACME", "2024-01-01", 1.0, 0.0, 1.0, 10.0, 5.0, 100.0, 0.0, 150.0, 150.0)];
    assert Upper("acme ") == "ACME ";
    assert Divisor(loaded, "ACME ", "2024-01-01") == 1 by {
      assert loaded[..0] == [];
      assert loaded[0].socio != "ACME ";
    }
    assert Normalize("ACME ") == "ACME" by {
      assert "ACME " == "ACME" + " ";
      NormalizeTrailingSpace("ACME");
      assert Upper("ACME") == "ACME";
    }
    assert GroupSize(loaded, "ACME", "2024-01-01") == 1 by {
      assert loaded[..0] == [];
    }
  }

  /** Moving one record out of its group by an edit shrinks that group by one,
      and the next recompute pass divides every remaining member's freight
      by the smaller count. */
  lemma EditLeavesGroup(rs: seq<Record>, k: nat, e: EditInput, j: nat)
    requires k < |rs| && j < |rs| && j != k
    requires InGroup(rs[j], rs[k].socio, rs[k].fecha)
    requires !InGroup(ApplyEdit(rs[k], e), rs[k].socio, rs[k].fecha)
    ensures GroupSize(rs, rs[k].socio, rs[k].fecha) >= 2
    ensures GroupSize(rs[k := ApplyEdit(rs[k], e)], rs[k].socio, rs[k].fecha)
         == GroupSize(rs, rs[k].socio, rs[k].fecha) - 1
    ensures Reconcile(rs[k := ApplyEdit(rs[k], e)])[j]
         == Recalculated(rs[j], GroupSize(rs, rs[k].socio, rs[k].fecha) - 1)
  {
    var edited := rs[k := ApplyEdit(rs[k], e)];
    GroupSizeAfterReplace(rs, k, ApplyEdit(rs[k], e), rs[k].socio, rs[k].fecha);
    GroupSizeOfMember(edited, j);
    assert edited[j] == rs[j];
    ReconcileAt(edited, j);
  }
}
