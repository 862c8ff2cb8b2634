/** What the screen derives from the loaded records: the partner selector,
    the selected partner's records and that partner's totals. */
module Views {
  import opened Records
  import opened Text

  // ----- the partner selector -----

  /** Every partner named by a record, empty names excepted. */
  function PartnerSet(rs: seq<Record>): set<string>
  {
    set r | r in rs && r.socio != [] :: r.socio
  }

  /** The partner of every record with a non-empty partner, in record order. */
  function PartnerNames(rs: seq<Record>): (names: seq<string>)
    ensures forall x :: x in names <==> x in PartnerSet(rs)
  {
    if rs == [] then []
    else
      var rest := PartnerNames(rs[1..]);
      assert PartnerSet(rs) == PartnerSet(rs[1..]) + (if rs[0].socio != [] then {rs[0].socio} else {}) by {
        assert forall r :: r in rs <==> r == rs[0] || r in rs[1..];
      }
      (if rs[0].socio != [] then [rs[0].socio] else []) + rest
  }

  predicate NoDuplicates(s: seq<string>)
  {
    forall i, j :: 0 <= i < j < |s| ==> s[i] != s[j]
  }

  /** The names in the order a `Set` built from `xs` yields them: each name at
      its first occurrence. */
  function Dedup(xs: seq<string>): (r: seq<string>)
    ensures NoDuplicates(r)
    ensures forall x :: x in r <==> x in xs
  {
    if xs == [] then []
    else
      var p := Dedup(xs[..|xs| - 1]);
      var x := xs[|xs| - 1];
      assert xs == xs[..|xs| - 1] + [x];
      if x in p then p else p + [x]
  }

  /** Ascending in the order of `Less`, repeats allowed. */
  predicate Sorted(s: seq<string>)
  {
    forall i, j :: 0 <= i < j < |s| ==> !Less(s[j], s[i])
  }

  predicate StrictlyAscending(s: seq<string>)
  {
    forall i, j :: 0 <= i < j < |s| ==> Less(s[i], s[j])
  }

  lemma NotLessTransitive(a: string, b: string, c: string)
    requires !Less(b, a) && !Less(c, b)
    ensures !Less(c, a)
  {
    LessTotal(a, b);
    if Less(c, a) && Less(a, b) {
      LessTransitive(c, a, b);
    }
  }

  /** `x` put into the list `s` before the first name not below it. */
  function Insert(x: string, s: seq<string>): seq<string>
  {
    if s == [] || !Less(s[0], x) then [x] + s else [s[0]] + Insert(x, s[1..])
  }

  /** `Array.prototype.sort` with its default string order, as an insertion sort. */
  function Sort(xs: seq<string>): seq<string>
  {
    if xs == [] then [] else Insert(xs[0], Sort(xs[1..]))
  }

  lemma {:induction false} InsertPermutes(x: string, s: seq<string>)
    ensures multiset(Insert(x, s)) == multiset(s) + multiset{x}
  {
    if s != [] && Less(s[0], x) {
      InsertPermutes(x, s[1..]);
      assert s == [s[0]] + s[1..];
    }
  }

  lemma {:induction false} InsertSorted(x: string, s: seq<string>)
    requires Sorted(s)
    ensures Sorted(Insert(x, s))
  {
    if s == [] || !Less(s[0], x) {
      forall j | 0 < j < |s| ensures !Less(s[j], x) {
        NotLessTransitive(x, s[0], s[j]);
      }
    } else {
      var rest := Insert(x, s[1..]);
      InsertSorted(x, s[1..]);
      InsertPermutes(x, s[1..]);
      forall k | 0 <= k < |rest| ensures !Less(rest[k], s[0]) {
        assert rest[k] in multiset(rest);
        LessAsymmetric(s[0], x);
        if rest[k] != x {
          assert rest[k] in s[1..];
        }
      }
    }
  }

  lemma {:induction false} InsertDistinct(x: string, s: seq<string>)
    requires NoDuplicates(s) && x !in s
    ensures NoDuplicates(Insert(x, s))
  {
    if s != [] && Less(s[0], x) {
      InsertDistinct(x, s[1..]);
      InsertPermutes(x, s[1..]);
      LessIrreflexive(x);
      assert s[0] in Insert(x, s[1..]) <==> s[0] in multiset(Insert(x, s[1..]));
    }
  }

  /** Sorting yields an ascending permutation of its input. */
  lemma {:induction false} SortSpec(xs: seq<string>)
    ensures Sorted(Sort(xs))
    ensures multiset(Sort(xs)) == multiset(xs)
  {
    if xs != [] {
      SortSpec(xs[1..]);
      InsertSorted(xs[0], Sort(xs[1..]));
      InsertPermutes(xs[0], Sort(xs[1..]));
      assert xs == [xs[0]] + xs[1..];
    }
  }

  /** Sorting a list free of repeats leaves it free of them. */
  lemma {:induction false} SortDistinct(xs: seq<string>)
    requires NoDuplicates(xs)
    ensures NoDuplicates(Sort(xs))
  {
    if xs != [] {
      var rest := Sort(xs[1..]);
      SortDistinct(xs[1..]);
      SortSpec(xs[1..]);
      assert xs[0] in rest <==> xs[0] in multiset(xs[1..]);
      InsertDistinct(xs[0], rest);
    }
  }

  /** The partner selector: the distinct non-empty partner names, sorted. */
  function PartnerList(rs: seq<Record>): seq<string>
  {
    Sort(Dedup(PartnerNames(rs)))
  }

  /** The selector lists every non-empty partner of the records and nothing
      else, each once, in strictly ascending order. */
  lemma PartnerListSpec(rs: seq<Record>)
    ensures StrictlyAscending(PartnerList(rs))
    ensures forall x :: x in PartnerList(rs) <==> x in PartnerSet(rs)
  {
    var d := Dedup(PartnerNames(rs));
    var s := Sort(d);
    SortSpec(d);
    SortDistinct(d);
    forall i, j | 0 <= i < j < |s| ensures Less(s[i], s[j]) {
      LessTotal(s[i], s[j]);
    }
    forall x ensures x in s <==> x in d {
      assert x in s <==> x in multiset(s);
    }
  }

  lemma NonEmptyStaysNonEmpty(a: seq<string>, b: seq<string>)
    requires forall x :: x in a ==> x in b
    ensures a != [] ==> b != []
  {
    if a != [] {
      assert a[0] in a;
    }
  }

  lemma HeadIsLeast(s: seq<string>, x: string)
    requires StrictlyAscending(s) && x in s
    ensures x == s[0] || Less(s[0], x)
    ensures x in s[1..] ==> Less(s[0], x)
  {
    assert s == [s[0]] + s[1..];
  }

  /** A strictly ascending list is fixed by its elements, so the selector does
      not depend on the order in which the records arrive. */
  lemma {:induction false} StrictlyAscendingUnique(a: seq<string>, b: seq<string>)
    requires StrictlyAscending(a) && StrictlyAscending(b)
    requires forall x :: x in a <==> x in b
    ensures a == b
  {
    NonEmptyStaysNonEmpty(a, b);
    NonEmptyStaysNonEmpty(b, a);
    if a != [] {
      assert a[0] in a && b[0] in b;
      HeadIsLeast(b, a[0]);
      HeadIsLeast(a, b[0]);
      LessAsymmetric(a[0], b[0]);
      assert a[0] == b[0];
      forall x ensures x in a[1..] <==> x in b[1..] {
        LessIrreflexive(a[0]);
        if x in a[1..] {
          HeadIsLeast(a, x);
          HeadIsLeast(b, x);
        }
        if x in b[1..] {
          HeadIsLeast(b, x);
          HeadIsLeast(a, x);
        }
      }
      StrictlyAscendingUnique(a[1..], b[1..]);
      assert a == [a[0]] + a[1..] && b == [b[0]] + b[1..];
    }
  }

  lemma PartnerListIgnoresOrder(a: seq<Record>, b: seq<Record>)
    requires multiset(a) == multiset(b)
    ensures PartnerList(a) == PartnerList(b)
  {
    PartnerListSpec(a);
    PartnerListSpec(b);
    assert PartnerSet(a) == PartnerSet(b) by {
      forall r ensures r in a <==> r in b {
        assert r in a <==> r in multiset(a);
        assert r in b <==> r in multiset(b);
      }
    }
    StrictlyAscendingUnique(PartnerList(a), PartnerList(b));
  }

  // ----- the selected partner's records and totals -----

  /** The records of partner `socio`, in their loaded order. */
  function RecordsOf(rs: seq<Record>, socio: string): (out: seq<Record>)
    ensures forall r :: multiset(out)[r] == (if r.socio == socio then multiset(rs)[r] else 0)
  {
    if rs == [] then []
    else
      assert rs == [rs[0]] + rs[1..];
      (if rs[0].socio == socio then [rs[0]] else []) + RecordsOf(rs[1..], socio)
  }

  /** The three columns the statistics panel adds up. */
  datatype Column = Entradas | Salidas | Total

  function Value(r: Record, c: Column): real
  {
    match c
    case Entradas => r.entradas
    case Salidas => r.salidas
    case Total => r.total
  }

  /** The sum of column `c` over `rs`, as `reduce((sum, reg) => sum + value, 0)`. */
  function Sum(rs: seq<Record>, c: Column): real
  {
    if rs == [] then 0.0 else Value(rs[0], c) + Sum(rs[1..], c)
  }

  datatype Stats = Stats(totalRegistros: nat, totalEntradas: real, totalSalidas: real, totalAcumulado: real)

  /** The statistics panel of partner `socio`. */
  function PartnerStats(rs: seq<Record>, socio: string): Stats
  {
    var mine := RecordsOf(rs, socio);
    Stats(|mine|, Sum(mine, Entradas), Sum(mine, Salidas), Sum(mine, Total))
  }

  /** The sum of column `c` over the records of `socio` only, written without a filter. */
  function SumOf(rs: seq<Record>, socio: string, c: Column): real
  {
    if rs == [] then 0.0 else (if rs[0].socio == socio then Value(rs[0], c) else 0.0) + SumOf(rs[1..], socio, c)
  }

  /** How many records belong to `socio`, written without a filter. */
  function CountOf(rs: seq<Record>, socio: string): nat
  {
    if rs == [] then 0 else (if rs[0].socio == socio then 1 else 0) + CountOf(rs[1..], socio)
  }

  lemma {:induction false} SumOfRecordsOf(rs: seq<Record>, socio: string, c: Column)
    ensures Sum(RecordsOf(rs, socio), c) == SumOf(rs, socio, c)
  {
    if rs != [] {
      SumOfRecordsOf(rs[1..], socio, c);
      var rest := RecordsOf(rs[1..], socio);
      if rs[0].socio == socio {
        assert RecordsOf(rs, socio) == [rs[0]] + rest;
        assert ([rs[0]] + rest)[1..] == rest;
      } else {
        assert RecordsOf(rs, socio) == rest;
      }
    }
  }

  lemma {:induction false} CountOfRecordsOf(rs: seq<Record>, socio: string)
    ensures |RecordsOf(rs, socio)| == CountOf(rs, socio)
  {
    if rs != [] {
      CountOfRecordsOf(rs[1..], socio);
    }
  }

  /** The panel counts the records of the partner and sums their entries,
      exits and totals. */
  lemma PartnerStatsSpec(rs: seq<Record>, socio: string)
    ensures PartnerStats(rs, socio).totalRegistros == CountOf(rs, socio)
    ensures PartnerStats(rs, socio).totalEntradas == SumOf(rs, socio, Entradas)
    ensures PartnerStats(rs, socio).totalSalidas == SumOf(rs, socio, Salidas)
    ensures PartnerStats(rs, socio).totalAcumulado == SumOf(rs, socio, Total)
  {
    CountOfRecordsOf(rs, socio);
    SumOfRecordsOf(rs, socio, Entradas);
    SumOfRecordsOf(rs, socio, Salidas);
    SumOfRecordsOf(rs, socio, Total);
  }

  lemma {:induction false} SumAppend(a: seq<Record>, b: seq<Record>, c: Column)
    ensures Sum(a + b, c) == Sum(a, c) + Sum(b, c)
  {
    if a == [] {
      assert a + b == b;
    } else {
      assert (a + b)[0] == a[0];
      assert (a + b)[1..] == a[1..] + b;
      SumAppend(a[1..], b, c);
    }
  }

  /** Taking one record out of a sum. */
  lemma SumRemove(b: seq<Record>, k: nat, c: Column)
    requires k < |b|
    ensures Sum(b, c) == Value(b[k], c) + Sum(b[..k] + b[k + 1..], c)
  {
    var tail := [b[k]] + b[k + 1..];
    assert b == b[..k] + tail;
    assert tail[0] == b[k] && tail[1..] == b[k + 1..];
    SumAppend(b[..k], tail, c);
    SumAppend(b[..k], b[k + 1..], c);
  }

  lemma MultisetRemove(a: seq<Record>, b: seq<Record>, k: nat)
    requires multiset(a) == multiset(b)
    requires a != [] && k < |b| && b[k] == a[0]
    ensures multiset(a[1..]) == multiset(b[..k] + b[k + 1..])
  {
    assert b == b[..k] + [b[k]] + b[k + 1..];
    assert a == [a[0]] + a[1..];
    calc {
      multiset(a[1..]);
      multiset(a) - multiset{a[0]};
      multiset(b) - multiset{b[k]};
      multiset(b[..k] + b[k + 1..]);
    }
  }

  /** A sum does not depend on the order of the records it adds up. */
  lemma {:induction false} SumPermutation(a: seq<Record>, b: seq<Record>, c: Column)
    requires multiset(a) == multiset(b)
    ensures Sum(a, c) == Sum(b, c)
  {
    if a != [] {
      assert a[0] in multiset(b);
      var k :| 0 <= k < |b| && b[k] == a[0];
      MultisetRemove(a, b, k);
      SumPermutation(a[1..], b[..k] + b[k + 1..], c);
      SumRemove(b, k, c);
    } else {
      assert b == [] by {
        assert |b| == |multiset(b)| == |multiset(a)| == 0;
      }
    }
  }

  /** The panel depends only on which records are loaded, not on their order,
      so sorting the partner's records by date changes no total. */
  lemma PartnerStatsIgnoreOrder(a: seq<Record>, b: seq<Record>, socio: string)
    requires multiset(a) == multiset(b)
    ensures PartnerStats(a, socio) == PartnerStats(b, socio)
  {
    var ma := RecordsOf(a, socio);
    var mb := RecordsOf(b, socio);
    assert multiset(ma) == multiset(mb);
    assert |ma| == |multiset(ma)| == |multiset(mb)| == |mb|;
    SumPermutation(ma, mb, Entradas);
    SumPermutation(ma, mb, Salidas);
    SumPermutation(ma, mb, Total);
  }
}
