/**
 * `merge_con_tolerancia`: a left-outer join of two time-stamped row
 * sequences on equal `fecha`, attaching to every left row the payload of
 * the right row of that date whose instant is nearest, provided it lies
 * within the tolerance; ties go to the first such row.
 */
module ToleranceJoin {
  import opened Wrappers
  import opened Calendar

  /** A row with its `fecha` key, its `dt` instant (None for NaT) and the remaining columns. */
  datatype Keyed<P> = Keyed(fecha: string, dt: Option<Instant>, payload: P)

  /** `abs(sub[dt] - dt_izq)` in minutes for right row j. */
  function Gap<R>(der: seq<Keyed<R>>, j: int, t: Instant): nat
    requires 0 <= j < |der| && der[j].dt.Some?
  {
    Dist(der[j].dt.value, t)
  }

  /** `dif <= tolerancia_min` for right row j; a NaT difference is NaN and never passes. */
  predicate Within<R>(der: seq<Keyed<R>>, j: int, t: Instant, tol: nat)
    requires 0 <= j < |der|
  {
    der[j].dt.Some? && Gap(der, j, t) <= tol
  }

  /** Right row j is on date f and within the tolerance of t. */
  predicate Candidate<R>(der: seq<Keyed<R>>, f: string, t: Instant, tol: nat, j: int) {
    0 <= j < |der| && der[j].fecha == f && Within(der, j, t, tol)
  }

  /**
   * Reference definition of the match: j is a candidate, no candidate is
   * nearer, and every candidate before it is strictly farther.
   */
  predicate IsNearest<R>(der: seq<Keyed<R>>, f: string, t: Instant, tol: nat, j: int) {
    Candidate(der, f, t, tol, j)
    && (forall k :: 0 <= k < |der| && Candidate(der, f, t, tol, k) ==> Gap(der, j, t) <= Gap(der, k, t))
    && (forall k :: 0 <= k < j && Candidate(der, f, t, tol, k) ==> Gap(der, k, t) > Gap(der, j, t))
  }

  /** At most one right row is the nearest one. */
  lemma NearestUnique<R>(der: seq<Keyed<R>>, f: string, t: Instant, tol: nat, j1: int, j2: int)
    requires IsNearest(der, f, t, tol, j1) && IsNearest(der, f, t, tol, j2)
    ensures j1 == j2
  {
  }

  // ---------------------------------------------------------------------
  // der_g = {f: g for f, g in der_df.groupby("fecha")}
  // ---------------------------------------------------------------------

  /** The indices, in order, of the first n right rows dated f. */
  function IndicesWith<R>(der: seq<Keyed<R>>, f: string, n: nat): (r: seq<nat>)
    requires n <= |der|
    ensures forall m :: 0 <= m < |r| ==> r[m] < n && der[r[m]].fecha == f
    ensures forall k :: 0 <= k < n && der[k].fecha == f ==> k in r
    ensures forall m1, m2 :: 0 <= m1 < m2 < |r| ==> r[m1] < r[m2]
  {
    if n == 0 then []
    else if der[n - 1].fecha == f then IndicesWith(der, f, n - 1) + [n - 1]
    else IndicesWith(der, f, n - 1)
  }

  /** The dates that occur on the right. */
  function Fechas<R>(der: seq<Keyed<R>>): set<string> {
    set j | 0 <= j < |der| :: der[j].fecha
  }

  /** `groupby` keeps every date that occurs, with its rows in their original order. */
  function GroupByFecha<R>(der: seq<Keyed<R>>): (g: map<string, seq<nat>>)
    ensures forall f :: f in g <==> f in Fechas(der)
    ensures forall f :: f in g ==> g[f] == IndicesWith(der, f, |der|) && g[f] != []
  {
    map f | f in Fechas(der) :: IndicesWith(der, f, |der|)
  }

  // ---------------------------------------------------------------------
  // sub2 = sub.loc[dif <= tolerancia_min]; j = dif.loc[sub2.index].idxmin()
  // ---------------------------------------------------------------------

  /**
   * The first row of `idxs` with the least gap among those within the
   * tolerance (`idxmin` returns the first occurrence of the minimum).
   */
  function Closest<R>(der: seq<Keyed<R>>, idxs: seq<nat>, t: Instant, tol: nat): (r: Option<nat>)
    requires forall m :: 0 <= m < |idxs| ==> idxs[m] < |der|
    ensures r.None? <==> forall m :: 0 <= m < |idxs| ==> !Within(der, idxs[m], t, tol)
    ensures r.Some? ==> r.value < |der| && Within(der, r.value, t, tol) && r.value in idxs
    decreases |idxs|
  {
    if idxs == [] then None
    else
      var init := idxs[..|idxs| - 1];
      var j := idxs[|idxs| - 1];
      var b := Closest(der, init, t, tol);
      assert forall m :: 0 <= m < |init| ==> init[m] == idxs[m];
      if Within(der, j, t, tol) && (b.None? || Gap(der, j, t) < Gap(der, b.value, t)) then Some(j)
      else b
  }

  /** The scan keeps the least gap: no row of the group within tolerance is nearer than the row found. */
  lemma {:induction false} ClosestLeast<R>(der: seq<Keyed<R>>, idxs: seq<nat>, t: Instant, tol: nat, j: nat)
    requires forall m :: 0 <= m < |idxs| ==> idxs[m] < |der|
    requires Closest(der, idxs, t, tol) == Some(j)
    ensures forall m :: 0 <= m < |idxs| && Within(der, idxs[m], t, tol) ==> Gap(der, j, t) <= Gap(der, idxs[m], t)
    decreases |idxs|
  {
    var init := idxs[..|idxs| - 1];
    var last := |idxs| - 1;
    assert forall m :: 0 <= m < |init| ==> init[m] == idxs[m];
    var b := Closest(der, init, t, tol);
    if b.Some? {
      ClosestLeast(der, init, t, tol, b.value);
    }
    forall m | 0 <= m < |idxs| && Within(der, idxs[m], t, tol)
      ensures Gap(der, j, t) <= Gap(der, idxs[m], t)
    {
      if m < last {
        assert init[m] == idxs[m] && Within(der, init[m], t, tol);
      }
    }
  }

  /** On a tie the scan keeps the row that came first: every row within tolerance before it is strictly farther. */
  lemma {:induction false} ClosestFirst<R>(der: seq<Keyed<R>>, idxs: seq<nat>, t: Instant, tol: nat, j: nat)
    requires forall m :: 0 <= m < |idxs| ==> idxs[m] < |der|
    requires Closest(der, idxs, t, tol) == Some(j)
    ensures exists p :: (0 <= p < |idxs| && idxs[p] == j &&
      forall m :: 0 <= m < p && Within(der, idxs[m], t, tol) ==> Gap(der, idxs[m], t) > Gap(der, j, t))
    decreases |idxs|
  {
    var init := idxs[..|idxs| - 1];
    var last := |idxs| - 1;
    assert forall m :: 0 <= m < |init| ==> init[m] == idxs[m];
    var b := Closest(der, init, t, tol);
    if b == Some(j) {
      ClosestFirst(der, init, t, tol, j);
      var p :| 0 <= p < |init| && init[p] == j &&
        forall m :: 0 <= m < p && Within(der, init[m], t, tol) ==> Gap(der, init[m], t) > Gap(der, j, t);
      assert idxs[p] == j;
    } else {
      assert j == idxs[last];
      if b.Some? {
        ClosestLeast(der, init, t, tol, b.value);
      }
      forall m | 0 <= m < last && Within(der, idxs[m], t, tol)
        ensures Gap(der, idxs[m], t) > Gap(der, j, t)
      {
        assert init[m] == idxs[m] && Within(der, init[m], t, tol);
      }
    }
  }

  /** Scanning the rows of date f finds the reference nearest row, and finds none only when there is none. */
  lemma ClosestOnDate<R>(der: seq<Keyed<R>>, f: string, t: Instant, tol: nat)
    ensures var r := Closest(der, IndicesWith(der, f, |der|), t, tol);
      (r.Some? ==> IsNearest(der, f, t, tol, r.value)) &&
      (r.None? <==> forall k :: !Candidate(der, f, t, tol, k))
  {
    var idxs := IndicesWith(der, f, |der|);
    var r := Closest(der, idxs, t, tol);
    if r.Some? {
      ClosestIsNearest(der, f, t, tol, idxs, r.value);
    }
    forall k | Candidate(der, f, t, tol, k) ensures exists m :: 0 <= m < |idxs| && idxs[m] == k && Within(der, idxs[m], t, tol) {
      assert k in idxs;
    }
  }

  lemma ClosestIsNearest<R>(der: seq<Keyed<R>>, f: string, t: Instant, tol: nat, idxs: seq<nat>, j: nat)
    requires idxs == IndicesWith(der, f, |der|)
    requires Closest(der, idxs, t, tol) == Some(j)
    ensures IsNearest(der, f, t, tol, j)
  {
    ClosestLeast(der, idxs, t, tol, j);
    ClosestFirst(der, idxs, t, tol, j);
    var p :| 0 <= p < |idxs| && idxs[p] == j &&
      forall m :: 0 <= m < p && Within(der, idxs[m], t, tol) ==> Gap(der, idxs[m], t) > Gap(der, j, t);
    forall k | 0 <= k < |der| && Candidate(der, f, t, tol, k)
      ensures Gap(der, j, t) <= Gap(der, k, t)
      ensures k < j ==> Gap(der, k, t) > Gap(der, j, t)
    {
      assert k in idxs;
      var m :| 0 <= m < |idxs| && idxs[m] == k;
      IncreasingOrder(idxs, m, p);
    }
  }

  lemma IncreasingOrder(idxs: seq<nat>, m: nat, p: nat)
    requires forall m1, m2 :: 0 <= m1 < m2 < |idxs| ==> idxs[m1] < idxs[m2]
    requires m < |idxs| && p < |idxs|
    ensures m < p <==> idxs[m] < idxs[p]
  {
    if p < m {
      assert idxs[p] < idxs[m];
    }
  }

  /** The reference match, found by scanning the rows of date f. */
  function NearestIndex<R>(der: seq<Keyed<R>>, f: string, t: Instant, tol: nat): (r: Option<nat>)
    ensures r.Some? ==> IsNearest(der, f, t, tol, r.value)
    ensures r.None? <==> forall k :: !Candidate(der, f, t, tol, k)
  {
    ClosestOnDate(der, f, t, tol);
    Closest(der, IndicesWith(der, f, |der|), t, tol)
  }

  /** The computed match is exactly the reference nearest row. */
  lemma NearestIndexIff<R>(der: seq<Keyed<R>>, f: string, t: Instant, tol: nat, j: int)
    ensures NearestIndex(der, f, t, tol) == Some(j) <==> IsNearest(der, f, t, tol, j)
  {
    var r := NearestIndex(der, f, t, tol);
    if IsNearest(der, f, t, tol, j) {
      assert Candidate(der, f, t, tol, j);
      NearestUnique(der, f, t, tol, r.value, j);
    }
  }

  /** The columns `merge_con_tolerancia` attaches to a left row; None stands for the three NA values. */
  function AnexoOf<L, R>(der: seq<Keyed<R>>, row: Keyed<L>, tol: nat): (r: Option<R>)
    ensures row.dt.None? ==> r.None?
    ensures row.dt.Some? && r.None? ==> forall k :: !Candidate(der, row.fecha, row.dt.value, tol, k)
    ensures r.Some? ==> (row.dt.Some? &&
      exists j :: IsNearest(der, row.fecha, row.dt.value, tol, j) && der[j].payload == r.value)
  {
    if row.dt.None? then None
    else
      match NearestIndex(der, row.fecha, row.dt.value, tol)
      case None => None
      case Some(j) => Some(der[j].payload)
  }

  /** A right row dated elsewhere or outside the tolerance never contributes. */
  lemma AnexoWithinTolerance<L, R>(der: seq<Keyed<R>>, row: Keyed<L>, tol: nat)
    requires AnexoOf(der, row, tol).Some?
    ensures exists j :: (0 <= j < |der| && der[j].fecha == row.fecha && der[j].dt.Some?
      && Dist(der[j].dt.value, row.dt.value) <= tol && der[j].payload == AnexoOf(der, row, tol).value)
  {
    var j :| IsNearest(der, row.fecha, row.dt.value, tol, j) && der[j].payload == AnexoOf(der, row, tol).value;
    assert Candidate(der, row.fecha, row.dt.value, tol, j);
  }

  /** The attached columns are those of the row the scan over the left row's date finds. */
  lemma AnexoFromGroup<L, R>(der: seq<Keyed<R>>, row: Keyed<L>, tol: nat)
    requires row.dt.Some?
    ensures var j := Closest(der, IndicesWith(der, row.fecha, |der|), row.dt.value, tol);
      AnexoOf(der, row, tol) == if j.Some? then Some(der[j.value].payload) else None
  {
  }

  /** A dates with no right rows leaves every left row of that date unmatched. */
  lemma AnexoWithoutGroup<L, R>(der: seq<Keyed<R>>, row: Keyed<L>, tol: nat)
    requires row.fecha !in GroupByFecha(der)
    ensures AnexoOf(der, row, tol).None?
  {
    if row.dt.Some? {
      forall k | 0 <= k < |der| ensures der[k].fecha != row.fecha {
        assert der[k].fecha in Fechas(der);
      }
    }
  }

  /** The table `merge_con_tolerancia` returns: every left row, in order, with its attached columns. */
  function MergeSpec<L, R>(izq: seq<Keyed<L>>, der: seq<Keyed<R>>, tol: nat): (out: seq<(Keyed<L>, Option<R>)>)
    ensures |out| == |izq|
    ensures forall i :: 0 <= i < |izq| ==> out[i].0 == izq[i] && out[i].1 == AnexoOf(der, izq[i], tol)
  {
    seq(|izq|, i requires 0 <= i < |izq| => (izq[i], AnexoOf(der, izq[i], tol)))
  }

  /**
   * The loop of `merge_con_tolerancia`, with the per-date groups looked up
   * as `der_g` does.
   */
  method MergeConTolerancia<L, R>(izq: seq<Keyed<L>>, der: seq<Keyed<R>>, tol: nat)
    returns (out: seq<(Keyed<L>, Option<R>)>)
    ensures out == MergeSpec(izq, der, tol)
  {
    var derG := GroupByFecha(der);
    ghost var spec := MergeSpec(izq, der, tol);
    out := [];
    for i := 0 to |izq|
      invariant out == spec[..i]
    {
      var anexo := Anexo(der, derG, izq[i], tol);
      assert spec[i] == (izq[i], anexo);
      out := out + [(izq[i], anexo)];
    }
    assert spec[..|izq|] == spec;
  }

  /** The body of the loop for one left row: look up its date's group and scan it. */
  method Anexo<L, R>(der: seq<Keyed<R>>, derG: map<string, seq<nat>>, row: Keyed<L>, tol: nat)
    returns (anexo: Option<R>)
    requires derG == GroupByFecha(der)
    ensures anexo == AnexoOf(der, row, tol)
  {
    anexo := None;
    if row.fecha in derG && row.dt.Some? {
      var sub := derG[row.fecha];
      assert sub == IndicesWith(der, row.fecha, |der|);
      AnexoFromGroup(der, row, tol);
      var j := Closest(der, sub, row.dt.value, tol);
      if j.Some? {
        anexo := Some(der[j.value].payload);
      }
    } else if row.dt.Some? {
      AnexoWithoutGroup(der, row, tol);
    }
  }

  /** Ten o'clock against 09:58, 10:01 and 10:05 with a tolerance of 2 minutes picks 10:01. */
  lemma ExampleNearest()
    ensures var d := Date(2025, 10, 5);
      var der := [Keyed("2025-10-05", Some(Instant(d, 598)), "09:58"),
                  Keyed("2025-10-05", Some(Instant(d, 601)), "10:01"),
                  Keyed("2025-10-05", Some(Instant(d, 605)), "10:05")];
      AnexoOf(der, Keyed("2025-10-05", Some(Instant(d, 600)), ()), 2) == Some("10:01")
  {
    var d := Date(2025, 10, 5);
    var t := Instant(d, 600);
    var der := [Keyed("2025-10-05", Some(Instant(d, 598)), "09:58"),
                Keyed("2025-10-05", Some(Instant(d, 601)), "10:01"),
                Keyed("2025-10-05", Some(Instant(d, 605)), "10:05")];
    assert Gap(der, 0, t) == 2 && Gap(der, 1, t) == 1 && Gap(der, 2, t) == 5;
    assert IsNearest(der, "2025-10-05", t, 2, 1);
    NearestIndexIff(der, "2025-10-05", t, 2, 1);
  }

  /** Two rows at the same distance: the first one wins. */
  lemma ExampleTie()
    ensures var d := Date(2025, 10, 5);
      var der := [Keyed("2025-10-05", Some(Instant(d, 601)), "10:01"),
                  Keyed("2025-10-05", Some(Instant(d, 599)), "09:59")];
      AnexoOf(der, Keyed("2025-10-05", Some(Instant(d, 600)), ()), 2) == Some("10:01")
  {
    var d := Date(2025, 10, 5);
    var t := Instant(d, 600);
    var der := [Keyed("2025-10-05", Some(Instant(d, 601)), "10:01"),
                Keyed("2025-10-05", Some(Instant(d, 599)), "09:59")];
    assert Gap(der, 0, t) == 1 && Gap(der, 1, t) == 1;
    assert IsNearest(der, "2025-10-05", t, 2, 0);
    NearestIndexIff(der, "2025-10-05", t, 2, 0);
  }
}
