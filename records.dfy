/** The data the form application works on: one transaction record per
    partner ("socio"), date ("fecha") and shipment, with its raw inputs and
    the three derived amounts the application keeps beside them. */
module Records {

  datatype Option<T> = None | Some(value: T)

  datatype Result<T, E> = Success(value: T) | Failure(error: E)

  /** A form field after `parseFloat(x) || 0`: `None` stands for text that
      does not parse as a number (NaN), which falls back to 0. */
  function Num(field: Option<real>): (x: real)
    ensures field.None? ==> x == 0.0
  {
    match field
    case None => 0.0
    case Some(v) => v
  }

  /** One stored transaction. `saldo`, `total` and `valorAnimal` are derived;
      every other field is raw input. */
  datatype Record = Record(
    socio: string,
    fecha: string,
    entradas: real,
    salidas: real,
    saldo: real,
    kgTotales: real,
    vrKilo: real,
    fletes: real,
    comision: real,
    valorAnimal: real,
    total: real)

  /** `a` and `b` agree on every raw field (they may differ in derived ones). */
  predicate SameRaw(a: Record, b: Record)
  {
    && a.socio == b.socio && a.fecha == b.fecha
    && a.entradas == b.entradas && a.salidas == b.salidas
    && a.kgTotales == b.kgTotales && a.vrKilo == b.vrKilo
    && a.fletes == b.fletes && a.comision == b.comision
  }
}
