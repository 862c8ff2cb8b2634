/** The recompute pass run after every load: each record's freight is split
    by the number of records sharing its partner and date, and the three
    derived fields are rebuilt from the raw ones. */
module Recompute {
  import opened Records

  /** `r` belongs to the group keyed by partner `socio` and date `fecha`
      (exact, case-sensitive equality). */
  predicate InGroup(r: Record, socio: string, fecha: string)
  {
    r.socio == socio && r.fecha == fecha
  }

  /** How many records of `rs` belong to the group `(socio, fecha)`: the
      `filter(...).length` of the recompute pass. */
  function GroupSize(rs: seq<Record>, socio: string, fecha: string): nat
  {
    if rs == [] then 0
    else GroupSize(rs[..|rs| - 1], socio, fecha) + (if InGroup(rs[|rs| - 1], socio, fecha) then 1 else 0)
  }

  /** The positions of the group's members in `rs`. */
  function GroupIndices(rs: seq<Record>, socio: string, fecha: string): set<nat>
  {
    set k: nat | k < |rs| && InGroup(rs[k], socio, fecha)
  }

  /** The group size is the number of positions holding a member. */
  lemma {:induction false} GroupSizeIsIndexCount(rs: seq<Record>, socio: string, fecha: string)
    ensures GroupSize(rs, socio, fecha) == |GroupIndices(rs, socio, fecha)|
  {
    if rs == [] {
      assert GroupIndices(rs, socio, fecha) == {};
    } else {
      var p := rs[..|rs| - 1];
      GroupSizeIsIndexCount(p, socio, fecha);
      var last := if InGroup(rs[|rs| - 1], socio, fecha) then {|rs| - 1} else {};
      assert GroupIndices(rs, socio, fecha) == GroupIndices(p, socio, fecha) + last;
      assert GroupIndices(p, socio, fecha) !! last;
    }
  }

  /** A record counts itself, so the divisor of a member is never zero. */
  lemma {:induction false} GroupSizeOfMember(rs: seq<Record>, i: nat)
    requires i < |rs|
    ensures GroupSize(rs, rs[i].socio, rs[i].fecha) >= 1
  {
    if i < |rs| - 1 {
      GroupSizeOfMember(rs[..|rs| - 1], i);
    }
  }

  /** Two sequences that agree position by position on partner and date have
      the same group sizes. */
  lemma {:induction false} GroupSizeRespectsKeys(a: seq<Record>, b: seq<Record>, socio: string, fecha: string)
    requires |a| == |b|
    requires forall k :: 0 <= k < |a| ==> a[k].socio == b[k].socio && a[k].fecha == b[k].fecha
    ensures GroupSize(a, socio, fecha) == GroupSize(b, socio, fecha)
  {
    if a != [] {
      GroupSizeRespectsKeys(a[..|a| - 1], b[..|b| - 1], socio, fecha);
    }
  }

  /** Replacing the record at `k` moves one member out of, or into, a group. */
  lemma {:induction false} GroupSizeAfterReplace(rs: seq<Record>, k: nat, x: Record, socio: string, fecha: string)
    requires k < |rs|
    ensures GroupSize(rs[k := x], socio, fecha)
         == GroupSize(rs, socio, fecha)
            - (if InGroup(rs[k], socio, fecha) then 1 else 0)
            + (if InGroup(x, socio, fecha) then 1 else 0)
  {
    var n := |rs|;
    if k == n - 1 {
      assert rs[k := x][..n - 1] == rs[..n - 1];
    } else {
      GroupSizeAfterReplace(rs[..n - 1], k, x, socio, fecha);
      assert rs[k := x][..n - 1] == rs[..n - 1][k := x];
    }
  }

  /** `r` with its derived fields rebuilt for a group of `n` records:
      the freight is shared as `fletes / n`. */
  function Recalculated(r: Record, n: nat): Record
    requires n >= 1
  {
    var total := r.kgTotales * r.vrKilo + r.fletes / (n as real);
    r.(saldo := r.entradas - r.salidas,
       total := total,
       valorAnimal := if r.entradas > 0.0 then total / r.entradas else 0.0)
  }

  /** The record at position `i` as the recompute pass rebuilds it. */
  function RecalculatedAt(rs: seq<Record>, i: nat): Record
    requires i < |rs|
  {
    GroupSizeOfMember(rs, i);
    Recalculated(rs[i], GroupSize(rs, rs[i].socio, rs[i].fecha))
  }

  /** The recompute pass as a value: every record rebuilt against the whole
      input, in the input's order. */
  function Reconcile(rs: seq<Record>): seq<Record>
  {
    seq(|rs|, i requires 0 <= i < |rs| => RecalculatedAt(rs, i))
  }

  /** The loop of the recompute pass: each rebuilt record is pushed onto a
      growing result. Storing each record back is not part of this model. */
  method RecalculateAll(originals: seq<Record>) returns (recalculated: seq<Record>)
    ensures recalculated == Reconcile(originals)
  {
    recalculated := [];
    for i := 0 to |originals|
      invariant recalculated == Reconcile(originals)[..i]
    {
      var r := originals[i];
      var sameDay := GroupSize(originals, r.socio, r.fecha);
      GroupSizeOfMember(originals, i);
      var total := r.kgTotales * r.vrKilo + r.fletes / (sameDay as real);
      var perAnimal := if r.entradas > 0.0 then total / r.entradas else 0.0;
      var balance := r.entradas - r.salidas;
      var rebuilt := r.(saldo := balance, total := total, valorAnimal := perAnimal);
      assert rebuilt == Reconcile(originals)[i] by {
        assert Reconcile(originals)[i] == Recalculated(r, sameDay);
      }
      recalculated := recalculated + [rebuilt];
    }
  }

  /** The recompute pass keeps the length and order of its input and never
      touches a raw field. */
  lemma ReconcileKeepsRaw(rs: seq<Record>)
    ensures |Reconcile(rs)| == |rs|
    ensures forall i :: 0 <= i < |rs| ==> SameRaw(Reconcile(rs)[i], rs[i])
  {
  }

  /** Position `i` of the output is the record at position `i` of the input,
      rebuilt for the size of its own group, which is at least 1. */
  lemma ReconcileAt(rs: seq<Record>, i: nat)
    requires i < |rs|
    ensures GroupSize(rs, rs[i].socio, rs[i].fecha) >= 1
    ensures Reconcile(rs)[i] == Recalculated(rs[i], GroupSize(rs, rs[i].socio, rs[i].fecha))
  {
    GroupSizeOfMember(rs, i);
  }

  /** The rule for one record in a group of `n`: its total is its goods value
      plus its own freight divided by `n`; the per-animal value is 0 unless
      the record has entries, and the total spread over the entries
      otherwise; the balance is entries minus exits, negative or not. */
  lemma RecalculatedFields(r: Record, n: nat)
    requires n >= 1
    ensures SameRaw(Recalculated(r, n), r)
    ensures Recalculated(r, n).total == r.kgTotales * r.vrKilo + r.fletes / (n as real)
    ensures r.entradas <= 0.0 ==> Recalculated(r, n).valorAnimal == 0.0
    ensures r.entradas > 0.0 ==> Recalculated(r, n).valorAnimal == Recalculated(r, n).total / r.entradas
    ensures Recalculated(r, n).saldo == r.entradas - r.salidas
  {
  }

  /** Each record's total, stated over the whole input. */
  lemma ReconcileTotal(rs: seq<Record>, i: nat)
    requires i < |rs|
    ensures GroupSize(rs, rs[i].socio, rs[i].fecha) >= 1
    ensures Reconcile(rs)[i].total
         == rs[i].kgTotales * rs[i].vrKilo + rs[i].fletes / (GroupSize(rs, rs[i].socio, rs[i].fecha) as real)
  {
    ReconcileAt(rs, i);
    RecalculatedFields(rs[i], GroupSize(rs, rs[i].socio, rs[i].fecha));
  }

  /** The per-animal value is 0 unless the record has entries, and the total
      spread over the entries otherwise; the balance is entries minus exits,
      negative or not. */
  lemma ReconcilePerAnimalAndBalance(rs: seq<Record>, i: nat)
    requires i < |rs|
    ensures rs[i].entradas <= 0.0 ==> Reconcile(rs)[i].valorAnimal == 0.0
    ensures rs[i].entradas > 0.0 ==> Reconcile(rs)[i].valorAnimal == Reconcile(rs)[i].total / rs[i].entradas
    ensures Reconcile(rs)[i].saldo == rs[i].entradas - rs[i].salidas
  {
    ReconcileAt(rs, i);
    RecalculatedFields(rs[i], GroupSize(rs, rs[i].socio, rs[i].fecha));
  }

  /** Records of one group are rebuilt with one and the same divisor, each
      from its own freight (see RecalculatedShare): nothing is pooled
      across the group. */
  lemma GroupSharesDivisor(rs: seq<Record>, i: nat, j: nat)
    requires i < |rs| && j < |rs|
    requires InGroup(rs[j], rs[i].socio, rs[i].fecha)
    ensures GroupSize(rs, rs[i].socio, rs[i].fecha) == GroupSize(rs, rs[j].socio, rs[j].fecha) >= 1
    ensures Reconcile(rs)[i] == Recalculated(rs[i], GroupSize(rs, rs[i].socio, rs[i].fecha))
    ensures Reconcile(rs)[j] == Recalculated(rs[j], GroupSize(rs, rs[i].socio, rs[i].fecha))
  {
    ReconcileAt(rs, i);
    ReconcileAt(rs, j);
  }

  /** Multiplying a rebuilt record's freight share back by `n` gives back
      exactly its own freight. */
  lemma RecalculatedShare(r: Record, n: nat)
    requires n >= 1
    ensures (Recalculated(r, n).total - r.kgTotales * r.vrKilo) * (n as real) == r.fletes
  {
    RecalculatedFields(r, n);
    FreightShare(r.kgTotales * r.vrKilo, r.fletes, n as real, Recalculated(r, n).total);
  }

  lemma FreightShare(goods: real, fletes: real, n: real, total: real)
    requires n >= 1.0
    requires total == goods + fletes / n
    ensures (total - goods) * n == fletes
  {
  }

  /** A record is left as it is by the rule exactly when its derived fields
      already agree with its raw ones for a group of `n`. */
  lemma RecalculatedFixedPoint(r: Record, n: nat)
    requires n >= 1
    ensures Recalculated(r, n) == r <==>
              && r.total == r.kgTotales * r.vrKilo + r.fletes / (n as real)
              && r.valorAnimal == (if r.entradas > 0.0 then r.total / r.entradas else 0.0)
              && r.saldo == r.entradas - r.salidas
  {
    RecalculatedFields(r, n);
  }

  /** A record appended to the loaded ones is rebuilt for its group among the
      loaded records plus itself. */
  lemma {:induction false} AppendedRecord(loaded: seq<Record>, rec: Record)
    ensures GroupSize(loaded + [rec], rec.socio, rec.fecha) == GroupSize(loaded, rec.socio, rec.fecha) + 1
    ensures Reconcile(loaded + [rec])[|loaded|]
         == Recalculated(rec, GroupSize(loaded, rec.socio, rec.fecha) + 1)
  {
    var all := loaded + [rec];
    assert all[..|all| - 1] == loaded;
    assert all[|loaded|] == rec;
    ReconcileAt(all, |loaded|);
  }

  /** A record with no goods value but with freight is charged a positive
      total by the recompute pass. */
  lemma FreightOnlyTotal(loaded: seq<Record>, rec: Record)
    requires rec.kgTotales == 0.0 || rec.vrKilo == 0.0
    requires rec.fletes > 0.0
    ensures Reconcile(loaded + [rec])[|loaded|].total > 0.0
  {
    var n := GroupSize(loaded, rec.socio, rec.fecha) + 1;
    AppendedRecord(loaded, rec);
    RecalculatedFields(rec, n);
    ZeroProduct(rec.kgTotales, rec.vrKilo);
    PositiveShare(rec.fletes, n as real);
  }

  lemma ZeroProduct(x: real, y: real)
    requires x == 0.0 || y == 0.0
    ensures x * y == 0.0
  {
  }

  lemma PositiveShare(x: real, n: real)
    requires x > 0.0 && n >= 1.0
    ensures x / n > 0.0
  {
  }

  /** Running the recompute pass on its own output changes nothing: derived
      fields depend only on raw fields and group membership, and the pass
      changes neither. */
  lemma ReconcileIdempotent(rs: seq<Record>)
    ensures Reconcile(Reconcile(rs)) == Reconcile(rs)
  {
    var once := Reconcile(rs);
    forall i | 0 <= i < |rs|
      ensures Reconcile(once)[i] == once[i]
    {
      GroupSizeRespectsKeys(once, rs, rs[i].socio, rs[i].fecha);
      GroupSizeOfMember(rs, i);
    }
  }
}
