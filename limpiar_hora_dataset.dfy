/**
 * The clean-up of the `hora` column of the final dataset
 * (`limpiar_hora_dataset.py`): its own `limpiar_hhmm`, which strips the
 * text and turns line breaks into spaces but does not collapse runs of
 * whitespace, and the rewrite of that one column of a table read with
 * `dtype=str` (every cell a string or missing).
 */
module LimpiarHoraDataset {
  import opened Wrappers
  import opened Chars
  import opened HourPattern
  import MergeDatasets

  /**
   * `str(valor).strip().replace("\n", " ").replace("\r", " ")`, which does
   * not change what the hour pattern finds.
   */
  function Preparar(t: string): (r: string)
    ensures Search(r) == Search(t)
  {
    var a := Strip(t);
    var b := ReplaceChar(a, '\n', ' ');
    SearchStrip(t);
    SearchReplaceSpace(a, '\n', ' ');
    SearchReplaceSpace(b, '\r', ' ');
    ReplaceChar(b, '\r', ' ')
  }

  /**
   * `limpiar_hhmm`: None for a missing cell; the zero-padded leftmost match
   * of the pattern; otherwise the `%H:%M` of what `parse` (standing for
   * `pd.to_datetime(s, errors="coerce")`) makes of the prepared text.
   */
  function LimpiarHhmm(valor: Option<string>, parse: string -> Option<TimeOfDay>): (r: Option<string>)
    ensures valor.None? ==> r.None?
    ensures r.Some? ==> IsCanonical(r.value)
    ensures valor.Some? && Search(valor.value).Some? ==> r == Search(valor.value)
    ensures valor.Some? && Search(valor.value).None? ==>
      r == match parse(Preparar(valor.value)) case Some(c) => Some(FormatClock(c)) case None => None
  {
    match valor
    case None => None
    case Some(t) =>
      var s := Preparar(t);
      match Search(s)
      case Some(hhmm) => Some(hhmm)
      case None =>
        match parse(s)
        case Some(c) => Some(FormatClock(c))
        case None => None
  }

  /** A canonical `HH:MM` is returned unchanged. */
  lemma LimpiarHhmmFixesCanonical(r: string, parse: string -> Option<TimeOfDay>)
    requires IsCanonical(r)
    ensures LimpiarHhmm(Some(r), parse) == Some(r)
  {
    SearchOfCanonical(r);
  }

  /** Cleaning twice is cleaning once, whatever the fallback parser does. */
  lemma LimpiarHhmmIdempotent(valor: Option<string>, parse: string -> Option<TimeOfDay>)
    ensures LimpiarHhmm(LimpiarHhmm(valor, parse), parse) == LimpiarHhmm(valor, parse)
  {
    var r := LimpiarHhmm(valor, parse);
    if r.Some? {
      LimpiarHhmmFixesCanonical(r.value, parse);
    }
  }

  /**
   * The two copies of `limpiar_hhmm` differ only in how they prepare the
   * text for the fallback parser: whenever the pattern matches they agree,
   * and they agree everywhere when the parser reads both preparations alike.
   */
  lemma AgreesWithMerge(valor: Option<string>, parse: string -> Option<TimeOfDay>)
    ensures valor.Some? && Search(valor.value).Some? ==>
      LimpiarHhmm(valor, parse) == MergeDatasets.LimpiarHhmm(valor, parse)
    ensures valor.Some? && parse(Preparar(valor.value)) == parse(MergeDatasets.Prepare(valor.value)) ==>
      LimpiarHhmm(valor, parse) == MergeDatasets.LimpiarHhmm(valor, parse)
    ensures valor.None? ==> LimpiarHhmm(valor, parse) == MergeDatasets.LimpiarHhmm(valor, parse)
  {
  }

  // ---------------------------------------------------------------------
  // The script: read with dtype=str, check the column, rewrite it
  // ---------------------------------------------------------------------

  /** A table read with `dtype=str`: column names and rows of optional strings. */
  datatype Tabla = Tabla(columnas: seq<string>, filas: seq<seq<Option<string>>>)

  /** `pd.read_csv` gives distinct column names and rows as wide as the header. */
  predicate BienFormada(t: Tabla) {
    (forall i, j :: 0 <= i < j < |t.columnas| ==> t.columnas[i] != t.columnas[j]) &&
    (forall i :: 0 <= i < |t.filas| ==> |t.filas[i]| == |t.columnas|)
  }

  /** The position of a column name. */
  function IndiceDe(columnas: seq<string>, nombre: string): (k: nat)
    requires nombre in columnas
    ensures k < |columnas| && columnas[k] == nombre
    ensures forall j :: 0 <= j < k ==> columnas[j] != nombre
  {
    if columnas[0] == nombre then 0 else 1 + IndiceDe(columnas[1..], nombre)
  }

  const MensajeSinHora := "No existe la columna 'hora' en el CSV."

  /**
   * The script between reading and writing: ValueError when there is no
   * `hora` column, otherwise the table with that column cleaned.
   */
  function LimpiarTabla(t: Tabla, parse: string -> Option<TimeOfDay>): (r: Result<Tabla, string>)
    requires BienFormada(t)
    ensures r.Failure? <==> "hora" !in t.columnas
    ensures r.Failure? ==> r.error == MensajeSinHora
    ensures r.Success? ==>
      BienFormada(r.value) &&
      r.value.columnas == t.columnas && |r.value.filas| == |t.filas| &&
      forall i, j :: 0 <= i < |t.filas| && 0 <= j < |t.columnas| ==>
        r.value.filas[i][j] == if t.columnas[j] == "hora" then LimpiarHhmm(t.filas[i][j], parse) else t.filas[i][j]
  {
    if "hora" !in t.columnas then Failure(MensajeSinHora)
    else
      var k := IndiceDe(t.columnas, "hora");
      Success(Tabla(t.columnas, seq(|t.filas|, i requires 0 <= i < |t.filas| =>
        t.filas[i][k := LimpiarHhmm(t.filas[i][k], parse)])))
  }

  /** Running the clean-up on its own output changes nothing. */
  lemma LimpiarTablaIdempotente(t: Tabla, parse: string -> Option<TimeOfDay>)
    requires BienFormada(t) && "hora" in t.columnas
    ensures LimpiarTabla(LimpiarTabla(t, parse).value, parse) == LimpiarTabla(t, parse)
  {
    var u := LimpiarTabla(t, parse).value;
    var v := LimpiarTabla(u, parse).value;
    forall i, j | 0 <= i < |t.filas| && 0 <= j < |t.columnas|
      ensures v.filas[i][j] == u.filas[i][j]
    {
      LimpiarHhmmIdempotent(t.filas[i][j], parse);
    }
    forall i | 0 <= i < |u.filas|
      ensures v.filas[i] == u.filas[i]
    {
      assert |v.filas[i]| == |u.filas[i]| == |t.columnas|;
    }
    assert v.filas == u.filas;
    assert v == u;
  }
}
