/**
 * The body of the merge script: camera rows joined with detector rows on
 * the image basename, hours normalised and combined into instants, the
 * tolerance join with the weather rows, the two calendar labels and the
 * final column selection.
 */
module DatasetAssembly {
  import opened Wrappers
  import opened Chars
  import opened HourPattern
  import opened Calendar
  import opened MergeDatasets
  import opened ToleranceJoin
  import InnerJoin

  /** A CSV cell as pandas reads or writes it; Null stands for NaN/NA. */
  datatype Cell = Null | Text(s: string) | Int(i: int) | Num(x: real)

  /** A row of camaras_solo.csv; `ciudad` and `calle` are Null where the file lacks them. */
  datatype CamRow = CamRow(ciudad: Cell, calle: Cell, fecha: string, hora: Option<string>, rutaImagen: string)

  /** The camera table, with the presence of its optional columns. */
  datatype CamTable = CamTable(hasCiudad: bool, hasCalle: bool, rows: seq<CamRow>)

  /** A row of yolo_final.csv; `nombre` is its `foto` column, or `archivo` when there is no `foto`. */
  datatype YoloRow = YoloRow(nombre: string, numVehiculos: Cell, nivelTrafico: Cell)

  /** A row of tiempo_madrid.csv. */
  datatype MetRow = MetRow(fecha: string, hora: Option<string>, temperatura: Cell, lluvia: Cell, litros: Cell)

  /** A row of `cam_yolo`: the camera row, its `archivo` key and the two detector columns. */
  datatype CamYoloRow = CamYoloRow(cam: CamRow, archivo: string, numVehiculos: Cell, nivelTrafico: Cell)

  datatype FinalTable = FinalTable(columns: seq<string>, rows: seq<seq<Cell>>)

  datatype ScriptError =
    | MissingColumn(name: string)   // KeyError on a column of an empty frame
    | NaTStrftime                   // ValueError: NaT has no strftime

  // ---------------------------------------------------------------------
  // cam.merge(yolo[["archivo", "num_vehiculos", "nivel_trafico"]], on="archivo", how="inner")
  // ---------------------------------------------------------------------

  /** `cam["archivo"] = cam["ruta_imagen"].apply(basename)`. */
  function CamArchivos(cam: seq<CamRow>): (r: seq<(string, CamRow)>)
    ensures |r| == |cam| && forall i :: 0 <= i < |cam| ==> r[i] == (Basename(cam[i].rutaImagen), cam[i])
  {
    seq(|cam|, i requires 0 <= i < |cam| => (Basename(cam[i].rutaImagen), cam[i]))
  }

  /** `yolo["archivo"] = yolo["foto"].apply(basename)`. */
  function YoloArchivos(yolo: seq<YoloRow>): (r: seq<(string, YoloRow)>)
    ensures |r| == |yolo| && forall i :: 0 <= i < |yolo| ==> r[i] == (Basename(yolo[i].nombre), yolo[i])
  {
    seq(|yolo|, i requires 0 <= i < |yolo| => (Basename(yolo[i].nombre), yolo[i]))
  }

  /** A row of `cam_yolo`, from a joined triple. */
  function CamYolo(x: (string, CamRow, YoloRow)): CamYoloRow {
    CamYoloRow(x.1, x.0, x.2.numVehiculos, x.2.nivelTrafico)
  }

  /** The joined triples as `cam_yolo` rows. */
  function CamYoloRows(j: seq<(string, CamRow, YoloRow)>): (r: seq<CamYoloRow>)
    ensures |r| == |j| && forall i :: 0 <= i < |j| ==> r[i] == CamYolo(j[i])
  {
    seq(|j|, i requires 0 <= i < |j| => CamYolo(j[i]))
  }

  /** `cam_yolo`: the camera rows whose image basename is a detector basename, with the detector columns. */
  function CamYoloTable(cam: seq<CamRow>, yolo: seq<YoloRow>): (r: seq<CamYoloRow>)
    ensures |r| <= |cam| * |yolo|
  {
    CamYoloRows(InnerJoin.Join(CamArchivos(cam), YoloArchivos(yolo)))
  }

  // ---------------------------------------------------------------------
  // hour normalisation, instants and the tolerance join
  // ---------------------------------------------------------------------

  /** `cam_yolo["hora"] = ...apply(limpiar_hhmm)` and `cam_yolo["dt"] = combinar_fecha_hora(...)` on one row. */
  function CamKey(row: CamYoloRow, parse: string -> Option<TimeOfDay>): (k: Keyed<CamYoloRow>)
    ensures k.fecha == row.cam.fecha
    ensures k.dt == CombinarFechaHora(row.cam.fecha, row.cam.hora, parse)
    ensures k.payload == row.(cam := row.cam.(hora := LimpiarHhmm(row.cam.hora, parse)))
  {
    var h := LimpiarHhmm(row.cam.hora, parse);
    CombinarAfterLimpiar(row.cam.fecha, row.cam.hora, parse);
    Keyed(row.cam.fecha, CombinarFechaHora(row.cam.fecha, h, parse), row.(cam := row.cam.(hora := h)))
  }

  function CamKeyed(j: seq<CamYoloRow>, parse: string -> Option<TimeOfDay>): (r: seq<Keyed<CamYoloRow>>)
    ensures |r| == |j| && forall i :: 0 <= i < |j| ==> r[i] == CamKey(j[i], parse)
  {
    seq(|j|, i requires 0 <= i < |j| => CamKey(j[i], parse))
  }

  /** The same two steps on a weather row. */
  function MetKey(row: MetRow, parse: string -> Option<TimeOfDay>): (k: Keyed<MetRow>)
    ensures k.fecha == row.fecha
    ensures k.dt == CombinarFechaHora(row.fecha, row.hora, parse)
    ensures k.payload == row.(hora := LimpiarHhmm(row.hora, parse))
  {
    var h := LimpiarHhmm(row.hora, parse);
    CombinarAfterLimpiar(row.fecha, row.hora, parse);
    Keyed(row.fecha, CombinarFechaHora(row.fecha, h, parse), row.(hora := h))
  }

  function MetKeyed(met: seq<MetRow>, parse: string -> Option<TimeOfDay>): (r: seq<Keyed<MetRow>>)
    ensures |r| == |met| && forall i :: 0 <= i < |met| ==> r[i] == MetKey(met[i], parse)
  {
    seq(|met|, i requires 0 <= i < |met| => MetKey(met[i], parse))
  }

  // ---------------------------------------------------------------------
  // derived columns and the final projection
  // ---------------------------------------------------------------------

  /** `cols`, with `ciudad` and `calle` only when the camera table has them. */
  function FinalColumns(hasCiudad: bool, hasCalle: bool): (cols: seq<string>)
    ensures "ciudad" in cols <==> hasCiudad
    ensures "calle" in cols <==> hasCalle
    ensures |cols| == 10 + (if hasCiudad then 1 else 0) + (if hasCalle then 1 else 0)
  {
    (if hasCiudad then ["ciudad"] else []) + (if hasCalle then ["calle"] else [])
    + ["fecha", "hora", "ruta_imagen", "num_vehiculos", "nivel_trafico",
       "temperatura", "lluvia", "litros_m2", "laborable", "franja_horaria"]
  }

  /**
   * `final["hora"] = final["dt"].dt.strftime("%H:%M")`; NaT gives NaN. The
   * instants of the script always have a minute of the day
   * (`CombinarFechaHora`); midnight stands in for any other value.
   */
  function HoraCell(dt: Option<Instant>): (c: Cell)
    ensures dt.None? <==> c == Null
    ensures c != Null ==> c.Text? && IsCanonical(c.s)
    ensures dt.Some? && 0 <= dt.value.minute < 1440 ==>
      ClockOf(c.s) == Clock(dt.value.minute / 60, dt.value.minute % 60)
  {
    match dt
    case None => Null
    case Some(t) =>
      if 0 <= t.minute < 1440 then
        ClockOfFormat(Clock(t.minute / 60, t.minute % 60));
        Text(FormatClock(Clock(t.minute / 60, t.minute % 60)))
      else Text(FormatClock(Clock(0, 0)))
  }

  /** The output hour of a capture is its own hour, normalised, whenever it has an instant. */
  lemma HoraCellOfCam(row: CamYoloRow, parse: string -> Option<TimeOfDay>)
    requires CamKey(row, parse).dt.Some?
    ensures HoraCell(CamKey(row, parse).dt) == Text(LimpiarHhmm(row.cam.hora, parse).value)
  {
  }

  /** The optional leading columns `ciudad` and `calle`. */
  function LeadCells(hasCiudad: bool, hasCalle: bool, c: CamRow): (r: seq<Cell>)
    ensures |r| == (if hasCiudad then 1 else 0) + (if hasCalle then 1 else 0)
    ensures hasCiudad ==> r[0] == c.ciudad
    ensures hasCalle ==> r[|r| - 1] == c.calle
  {
    (if hasCiudad then [c.ciudad] else []) + (if hasCalle then [c.calle] else [])
  }

  /** One output row, or the error the label columns raise on an unparsable date. */
  function FinalRow(hasCiudad: bool, hasCalle: bool, m: (Keyed<CamYoloRow>, Option<MetRow>)): (r: Result<seq<Cell>, ScriptError>)
    ensures r.Failure? <==> ParseDate(m.0.fecha).None?
    ensures r.Success? ==> |r.value| == |FinalColumns(hasCiudad, hasCalle)|
  {
    var row := m.0.payload;
    match ParseDate(m.0.fecha)
    case None => Failure(NaTStrftime)
    case Some(d) =>
      Success(
        LeadCells(hasCiudad, hasCalle, row.cam)
        + [Text(m.0.fecha), HoraCell(m.0.dt), Text(row.cam.rutaImagen), row.numVehiculos, row.nivelTrafico,
           if m.1.Some? then m.1.value.temperatura else Null,
           if m.1.Some? then m.1.value.lluvia else Null,
           if m.1.Some? then m.1.value.litros else Null,
           Text(EtiquetaLaborable(d).Label()), Text(FranjaHoraria(m.0.dt).Label())])
  }

  /** The names of the output columns: the optional `ciudad` and `calle`, then the ten fixed ones. */
  lemma FinalColumnsAt(hasCiudad: bool, hasCalle: bool)
    ensures var cols := FinalColumns(hasCiudad, hasCalle);
      var k := (if hasCiudad then 1 else 0) + (if hasCalle then 1 else 0);
      (hasCiudad ==> cols[0] == "ciudad") && (hasCalle ==> cols[k - 1] == "calle") && cols[k + 1] == "hora"
      && cols[k..] == ["fecha", "hora", "ruta_imagen", "num_vehiculos", "nivel_trafico",
                       "temperatura", "lluvia", "litros_m2", "laborable", "franja_horaria"]
  {
    var optional := (if hasCiudad then ["ciudad"] else []) + (if hasCalle then ["calle"] else []);
    var names := ["fecha", "hora", "ruta_imagen", "num_vehiculos", "nivel_trafico",
      "temperatura", "lluvia", "litros_m2", "laborable", "franja_horaria"];
    assert FinalColumns(hasCiudad, hasCalle) == optional + names;
  }

  /**
   * Column by column, what an output row holds, in the order of
   * `FinalColumns`: the optional columns, the camera date, the hour of the
   * instant, the image, the detector columns, the attached weather (nulls
   * when there is none) and the two labels.
   */
  lemma FinalRowCells(hasCiudad: bool, hasCalle: bool, m: (Keyed<CamYoloRow>, Option<MetRow>))
    requires ParseDate(m.0.fecha).Some?
    ensures var r := FinalRow(hasCiudad, hasCalle, m).value;
      var k := (if hasCiudad then 1 else 0) + (if hasCalle then 1 else 0);
      var w := m.1;
      |r| == k + 10 && r[..k] == LeadCells(hasCiudad, hasCalle, m.0.payload.cam)
      && r[k..] == [Text(m.0.fecha), HoraCell(m.0.dt), Text(m.0.payload.cam.rutaImagen),
                    m.0.payload.numVehiculos, m.0.payload.nivelTrafico,
                    if w.Some? then w.value.temperatura else Null,
                    if w.Some? then w.value.lluvia else Null,
                    if w.Some? then w.value.litros else Null,
                    Text(EtiquetaLaborable(ParseDate(m.0.fecha).value).Label()),
                    Text(FranjaHoraria(m.0.dt).Label())]
  {
    var lead := LeadCells(hasCiudad, hasCalle, m.0.payload.cam);
    var r := FinalRow(hasCiudad, hasCalle, m).value;
    assert r == lead + r[|lead|..];
  }

  /** The label columns over all rows: the first unparsable date aborts the script. */
  function FinalRows(hasCiudad: bool, hasCalle: bool, ms: seq<(Keyed<CamYoloRow>, Option<MetRow>)>): (r: Result<seq<seq<Cell>>, ScriptError>)
    ensures r.Success? ==> |r.value| == |ms|
  {
    if ms == [] then Success([])
    else
      match FinalRow(hasCiudad, hasCalle, ms[0])
      case Failure(e) => Failure(e)
      case Success(row) =>
        match FinalRows(hasCiudad, hasCalle, ms[1..])
        case Failure(e) => Failure(e)
        case Success(rows) => Success([row] + rows)
  }

  /** The rows all succeed exactly when every date parses. */
  lemma {:induction false} FinalRowsFail(hasCiudad: bool, hasCalle: bool, ms: seq<(Keyed<CamYoloRow>, Option<MetRow>)>)
    ensures FinalRows(hasCiudad, hasCalle, ms).Failure? <==> exists i :: 0 <= i < |ms| && ParseDate(ms[i].0.fecha).None?
  {
    if ms != [] {
      FinalRowsCons(hasCiudad, hasCalle, ms);
      FinalRowsFail(hasCiudad, hasCalle, ms[1..]);
      assert forall i :: 1 <= i < |ms| ==> ms[i] == ms[1..][i - 1];
    }
  }

  /** A table of rows fails where its first row fails or where the rest fails. */
  lemma FinalRowsCons(hasCiudad: bool, hasCalle: bool, ms: seq<(Keyed<CamYoloRow>, Option<MetRow>)>)
    requires ms != []
    ensures FinalRows(hasCiudad, hasCalle, ms).Failure? <==>
      ParseDate(ms[0].0.fecha).None? || FinalRows(hasCiudad, hasCalle, ms[1..]).Failure?
  {
  }

  /** Row by row: on success, output row i is the row built from merged row i. */
  lemma {:induction false} FinalRowsEach(hasCiudad: bool, hasCalle: bool, ms: seq<(Keyed<CamYoloRow>, Option<MetRow>)>)
    requires FinalRows(hasCiudad, hasCalle, ms).Success?
    ensures forall i :: 0 <= i < |ms| ==> FinalRow(hasCiudad, hasCalle, ms[i]) == Success(FinalRows(hasCiudad, hasCalle, ms).value[i])
  {
    if ms != [] {
      FinalRowsConsSuccess(hasCiudad, hasCalle, ms);
      FinalRowsEach(hasCiudad, hasCalle, ms[1..]);
      var rows := FinalRows(hasCiudad, hasCalle, ms).value;
      assert forall i :: 1 <= i < |ms| ==> ms[i] == ms[1..][i - 1] && rows[i] == rows[1..][i - 1];
    }
  }

  /** A successful table of rows is its first row followed by the rest. */
  lemma FinalRowsConsSuccess(hasCiudad: bool, hasCalle: bool, ms: seq<(Keyed<CamYoloRow>, Option<MetRow>)>)
    requires ms != [] && FinalRows(hasCiudad, hasCalle, ms).Success?
    ensures FinalRows(hasCiudad, hasCalle, ms[1..]).Success?
    ensures FinalRow(hasCiudad, hasCalle, ms[0]) == Success(FinalRows(hasCiudad, hasCalle, ms).value[0])
    ensures FinalRows(hasCiudad, hasCalle, ms).value[1..] == FinalRows(hasCiudad, hasCalle, ms[1..]).value
  {
  }

  /** The tolerance of the script, in minutes. */
  const Tolerancia: nat := 2

  /** The table `merge_con_tolerancia` returns for the script's inputs. */
  function Merged(cam: CamTable, yolo: seq<YoloRow>, met: seq<MetRow>, parse: string -> Option<TimeOfDay>): seq<(Keyed<CamYoloRow>, Option<MetRow>)>
  {
    MergeSpec(CamKeyed(CamYoloTable(cam.rows, yolo), parse), MetKeyed(met, parse), Tolerancia)
  }

  /** What the merge script computes from its three input tables. */
  function Assemble(cam: CamTable, yolo: seq<YoloRow>, met: seq<MetRow>, parse: string -> Option<TimeOfDay>): (r: Result<FinalTable, ScriptError>)
    ensures CamYoloTable(cam.rows, yolo) == [] ==> r == Failure(MissingColumn("fecha"))
    ensures r.Success? ==>
      r.value.columns == FinalColumns(cam.hasCiudad, cam.hasCalle) && |r.value.rows| == |CamYoloTable(cam.rows, yolo)|
  {
    var final := Merged(cam, yolo, met, parse);
    if final == [] then Failure(MissingColumn("fecha"))
    else
      match FinalRows(cam.hasCiudad, cam.hasCalle, final)
      case Failure(e) => Failure(e)
      case Success(rows) => Success(FinalTable(FinalColumns(cam.hasCiudad, cam.hasCalle), rows))
  }

  /** The script body, step by step. */
  method MergeDatasetsScript(cam: CamTable, yolo: seq<YoloRow>, met: seq<MetRow>, parse: string -> Option<TimeOfDay>)
    returns (res: Result<FinalTable, ScriptError>)
    ensures res == Assemble(cam, yolo, met, parse)
  {
    var camYolo := CamYoloTable(cam.rows, yolo);
    var izq := CamKeyed(camYolo, parse);
    var der := MetKeyed(met, parse);
    var final := MergeConTolerancia(izq, der, Tolerancia);
    if |final| == 0 {
      return Failure(MissingColumn("fecha"));
    }
    var rows := FinalRows(cam.hasCiudad, cam.hasCalle, final);
    if rows.Failure? {
      return Failure(rows.error);
    }
    res := Success(FinalTable(FinalColumns(cam.hasCiudad, cam.hasCalle), rows.value));
  }

  // ---------------------------------------------------------------------
  // properties of the assembled table
  // ---------------------------------------------------------------------

  /** The script fails exactly when no image was detected or some detected row's date does not parse. */
  lemma AssembleFails(cam: CamTable, yolo: seq<YoloRow>, met: seq<MetRow>, parse: string -> Option<TimeOfDay>)
    ensures var j := CamYoloTable(cam.rows, yolo);
      Assemble(cam, yolo, met, parse).Failure? <==>
        j == [] || exists i :: 0 <= i < |j| && ParseDate(j[i].cam.fecha).None?
    ensures CamYoloTable(cam.rows, yolo) == [] ==> Assemble(cam, yolo, met, parse) == Failure(MissingColumn("fecha"))
  {
    var j := CamYoloTable(cam.rows, yolo);
    var final := Merged(cam, yolo, met, parse);
    FinalRowsFail(cam.hasCiudad, cam.hasCalle, final);
    assert forall i :: 0 <= i < |j| ==> final[i].0.fecha == j[i].cam.fecha;
  }

  /**
   * Row i of a successful table is `cam_yolo` row i: its date, its own
   * hour normalised (null when it has no instant), its image, its detector columns, the
   * weather of the nearest weather row within two minutes (or nulls) and
   * the two labels of its date and instant.
   */
  lemma AssembleRows(cam: CamTable, yolo: seq<YoloRow>, met: seq<MetRow>, parse: string -> Option<TimeOfDay>, i: int)
    requires Assemble(cam, yolo, met, parse).Success?
    requires 0 <= i < |CamYoloTable(cam.rows, yolo)|
    ensures var t := Assemble(cam, yolo, met, parse).value;
      var j := CamYoloTable(cam.rows, yolo)[i];
      var dt := CombinarFechaHora(j.cam.fecha, j.cam.hora, parse);
      var k := (if cam.hasCiudad then 1 else 0) + (if cam.hasCalle then 1 else 0);
      var w := AnexoOf(MetKeyed(met, parse), CamKey(j, parse), Tolerancia);
      |t.rows| == |CamYoloTable(cam.rows, yolo)| && t.columns == FinalColumns(cam.hasCiudad, cam.hasCalle)
      && ParseDate(j.cam.fecha).Some? && |t.rows[i]| == k + 10
      && t.rows[i][..k] == LeadCells(cam.hasCiudad, cam.hasCalle, j.cam)
      && t.rows[i][k..] == [Text(j.cam.fecha), if dt.None? then Null else Text(LimpiarHhmm(j.cam.hora, parse).value),
                            Text(j.cam.rutaImagen),
                            j.numVehiculos, j.nivelTrafico,
                            if w.Some? then w.value.temperatura else Null,
                            if w.Some? then w.value.lluvia else Null,
                            if w.Some? then w.value.litros else Null,
                            Text(EtiquetaLaborable(ParseDate(j.cam.fecha).value).Label()),
                            Text(FranjaHoraria(dt).Label())]
  {
    var j := CamYoloTable(cam.rows, yolo)[i];
    AssembleRow(cam, yolo, met, parse, i);
    FinalRowCells(cam.hasCiudad, cam.hasCalle, (CamKey(j, parse), AnexoOf(MetKeyed(met, parse), CamKey(j, parse), Tolerancia)));
    if CamKey(j, parse).dt.Some? {
      HoraCellOfCam(j, parse);
    }
  }

  /** Row i of a successful table is the output row built from `cam_yolo` row i and its attached weather. */
  lemma AssembleRow(cam: CamTable, yolo: seq<YoloRow>, met: seq<MetRow>, parse: string -> Option<TimeOfDay>, i: int)
    requires Assemble(cam, yolo, met, parse).Success?
    requires 0 <= i < |CamYoloTable(cam.rows, yolo)|
    ensures var t := Assemble(cam, yolo, met, parse).value;
      var j := CamYoloTable(cam.rows, yolo)[i];
      var m := (CamKey(j, parse), AnexoOf(MetKeyed(met, parse), CamKey(j, parse), Tolerancia));
      |t.rows| == |CamYoloTable(cam.rows, yolo)| && t.columns == FinalColumns(cam.hasCiudad, cam.hasCalle)
      && FinalRow(cam.hasCiudad, cam.hasCalle, m) == Success(t.rows[i])
  {
    var js := CamYoloTable(cam.rows, yolo);
    var final := Merged(cam, yolo, met, parse);
    assert final[i] == (CamKey(js[i], parse), AnexoOf(MetKeyed(met, parse), CamKeyed(js, parse)[i], Tolerancia));
    FinalRowsEach(cam.hasCiudad, cam.hasCalle, final);
  }

  /** Every `cam_yolo` row is a camera row joined with a detector row showing the same image. */
  lemma CamYoloSound(cam: seq<CamRow>, yolo: seq<YoloRow>, i: int)
    requires 0 <= i < |CamYoloTable(cam, yolo)|
    ensures exists p, q :: (0 <= p < |cam| && 0 <= q < |yolo| && Basename(cam[p].rutaImagen) == Basename(yolo[q].nombre)
      && CamYoloTable(cam, yolo)[i] == CamYoloRow(cam[p], Basename(cam[p].rutaImagen), yolo[q].numVehiculos, yolo[q].nivelTrafico))
  {
    var l, r := CamArchivos(cam), YoloArchivos(yolo);
    InnerJoin.JoinSound(l, r, i);
    var p, q :| 0 <= p < |l| && 0 <= q < |r| && l[p].0 == r[q].0 && InnerJoin.Join(l, r)[i] == (l[p].0, l[p].1, r[q].1);
    assert l[p] == (Basename(cam[p].rutaImagen), cam[p]) && r[q] == (Basename(yolo[q].nombre), yolo[q]);
  }

  /** Every camera row whose image a detector row shows is joined with it. */
  lemma CamYoloComplete(cam: seq<CamRow>, yolo: seq<YoloRow>, p: int, q: int)
    requires 0 <= p < |cam| && 0 <= q < |yolo| && Basename(cam[p].rutaImagen) == Basename(yolo[q].nombre)
    ensures CamYoloRow(cam[p], Basename(cam[p].rutaImagen), yolo[q].numVehiculos, yolo[q].nivelTrafico) in CamYoloTable(cam, yolo)
  {
    var l, r := CamArchivos(cam), YoloArchivos(yolo);
    assert l[p] == (Basename(cam[p].rutaImagen), cam[p]) && r[q] == (Basename(yolo[q].nombre), yolo[q]);
    InnerJoin.JoinComplete(l, r, p, q);
    var j := InnerJoin.Join(l, r);
    var m :| 0 <= m < |j| && j[m] == (l[p].0, l[p].1, r[q].1);
    assert CamYoloTable(cam, yolo)[m] == CamYolo(j[m]);
  }

  /** Attached weather comes from a weather row of the same date whose instant is within two minutes. */
  lemma AssembleWeatherWithinTolerance(met: seq<MetRow>, row: CamYoloRow, parse: string -> Option<TimeOfDay>)
    requires AnexoOf(MetKeyed(met, parse), CamKey(row, parse), Tolerancia).Some?
    ensures var ct := CombinarFechaHora(row.cam.fecha, row.cam.hora, parse);
      ct.Some? && exists j :: (0 <= j < |met| && met[j].fecha == row.cam.fecha
        && CombinarFechaHora(met[j].fecha, met[j].hora, parse).Some?
        && Dist(CombinarFechaHora(met[j].fecha, met[j].hora, parse).value, ct.value) <= 2
        && AnexoOf(MetKeyed(met, parse), CamKey(row, parse), Tolerancia).value
           == met[j].(hora := LimpiarHhmm(met[j].hora, parse)))
  {
    AnexoWithinTolerance(MetKeyed(met, parse), CamKey(row, parse), Tolerancia);
  }

  /** A capture whose image basename no detector row has leaves no row in `cam_yolo`. */
  lemma CamYoloDropsUndetected(cam: seq<CamRow>, yolo: seq<YoloRow>, p: int)
    requires 0 <= p < |cam|
    requires forall q :: 0 <= q < |yolo| ==> Basename(yolo[q].nombre) != Basename(cam[p].rutaImagen)
    ensures forall i :: 0 <= i < |CamYoloTable(cam, yolo)| ==>
      CamYoloTable(cam, yolo)[i].archivo != Basename(cam[p].rutaImagen) && CamYoloTable(cam, yolo)[i].cam != cam[p]
  {
    forall i | 0 <= i < |CamYoloTable(cam, yolo)|
      ensures CamYoloTable(cam, yolo)[i].archivo != Basename(cam[p].rutaImagen) && CamYoloTable(cam, yolo)[i].cam != cam[p]
    {
      CamYoloSound(cam, yolo, i);
    }
  }

  /** Example: two camera rows of different basenames and one detector row for the first give one row. */
  lemma CamYoloOneMatch(ca: CamRow, cb: CamRow, ya: YoloRow)
    requires Basename(ca.rutaImagen) == Basename(ya.nombre) != Basename(cb.rutaImagen)
    ensures var t := CamYoloTable([ca, cb], [ya]);
      |t| == 1 && t[0] == CamYoloRow(ca, Basename(ya.nombre), ya.numVehiculos, ya.nivelTrafico)
  {
    var a, b := Basename(ca.rutaImagen), Basename(cb.rutaImagen);
    var l := CamArchivos([ca, cb]);
    var r := YoloArchivos([ya]);
    assert |l| == 2 && l[0] == (a, ca) && l[1] == (b, cb);
    assert |r| == 1 && r[0] == (a, ya);
    InnerJoin.JoinOneOfTwo(l, r);
    var t := CamYoloTable([ca, cb], [ya]);
    assert |t| == 1 && t[0] == CamYolo((a, ca, ya));
  }

  /**
   * Captures `dir\\a` and `dir\\b` of two different images, with a
   * detection only for `a`, give one `cam_yolo` row: the capture of `a`.
   */
  lemma CamYoloOneDetection(dir: string, a: string, b: string, ca: CamRow, cb: CamRow, ya: YoloRow)
    requires !(|a| >= 2 && a[1] == ':')
    requires dir != [] && NoSeps(a) && NoSeps(b) && Strip(a) == a && Strip(b) == b && a != b
    requires ca.rutaImagen == dir + "\\" + a && cb.rutaImagen == dir + "\\" + b && ya.nombre == a
    ensures var t := CamYoloTable([ca, cb], [ya]);
      |t| == 1 && t[0] == CamYoloRow(ca, a, ya.numVehiculos, ya.nivelTrafico)
  {
    BasenameOfJoin(dir, a);
    BasenameOfJoin(dir, b);
    BasenameOfName(a);
    CamYoloOneMatch(ca, cb, ya);
  }
}
