/**
 * The weather ETL (`etl_tiempo.py`): the rain classification, the wait
 * until the next capture block, the reading of the Open-Meteo answer with
 * its `current_weather` fallback, and the append to the CSV that drops
 * rows repeating a (fecha, hora) key, keeping the first.
 *
 * The clock, the HTTP request and the CSV file are parameters: `ahora`,
 * the decoded answer (None when the request or the decoding failed) and
 * the rows of the previous file (None when there is no file).
 */
module EtlTiempo {
  import opened Wrappers
  import opened HourPattern
  import opened Calendar

  // ---------------------------------------------------------------------
  // clasifica_lluvia(litros)
  // ---------------------------------------------------------------------

  datatype Lluvia = No | Debil | Si {
    function Label(): string {
      match this
      case No => "No"
      case Debil => "D\U{00E9}bil"
      case Si => "S\U{00ED}"
    }

    /** The categories in increasing order of rain. */
    function Rango(): nat {
      match this
      case No => 0
      case Debil => 1
      case Si => 2
    }
  }

  /** `clasifica_lluvia`: up to 0.1 L/m² is no rain, up to 0.3 light rain, above that rain. */
  function ClasificaLluvia(litros: real): (r: Lluvia)
    ensures r == No <==> litros <= 0.1
    ensures r == Debil <==> 0.1 < litros <= 0.3
    ensures r == Si <==> 0.3 < litros
  {
    if litros <= 0.1 then No
    else if litros <= 0.3 then Debil
    else Si
  }

  /** More precipitation never gives a lower category. */
  lemma ClasificaLluviaMonotone(a: real, b: real)
    requires a <= b
    ensures ClasificaLluvia(a).Rango() <= ClasificaLluvia(b).Rango()
  {
  }

  // ---------------------------------------------------------------------
  // segundos_hasta_siguiente_bloque(intervalo)
  // ---------------------------------------------------------------------

  /** The fields of `dt.datetime.now()` the scripts read. */
  datatype Ahora = Ahora(fecha: Date, reloj: TimeOfDay, segundo: int, microsegundo: int)

  type Momento = a: Ahora | IsCalendarDate(a.fecha) && 0 <= a.segundo < 60 && 0 <= a.microsegundo < 1000000
    witness Ahora(Date(2025, 1, 1), Clock(0, 0), 0, 0)

  /** Python's `a // b`, the floor of the quotient (Dafny's `/` is Euclidean). */
  function FloorDiv(a: int, b: int): (q: int)
    requires b != 0
    ensures q * b <= a < q * b + b || q * b + b < a <= q * b
  {
    if b > 0 then a / b else (-a) / (-b)
  }

  /** `(ahora.minute // intervalo + 1) * intervalo`: minutes from the start of the hour to the next block. */
  function MinutoSiguienteBloque(minuto: int, intervalo: int): int
    requires intervalo != 0
  {
    (FloorDiv(minuto, intervalo) + 1) * intervalo
  }

  /**
   * `segundos_hasta_siguiente_bloque`: the start of the hour plus the block
   * minutes, minus `ahora`, in seconds. None when `intervalo` is 0, where
   * `//` raises ZeroDivisionError.
   */
  function SegundosHastaSiguienteBloque(ahora: Momento, intervalo: int): (r: Option<real>)
    ensures r.Some? <==> intervalo != 0
  {
    if intervalo == 0 then None
    else
      var siguiente := MinutoSiguienteBloque(ahora.reloj.minute, intervalo) * 60000000;
      var actual := ahora.reloj.minute * 60000000 + ahora.segundo * 1000000 + ahora.microsegundo;
      Some((siguiente - actual) as real / 1000000.0)
  }

  predicate EsMultiplo(x: int, intervalo: int)
    requires intervalo > 0
  {
    x % intervalo == 0
  }

  /**
   * The next block starts at a multiple of the interval: the first one
   * after the current minute.
   */
  lemma SiguienteBloqueEsPrimerMultiplo(minuto: int, intervalo: int)
    requires intervalo > 0
    ensures EsMultiplo(MinutoSiguienteBloque(minuto, intervalo), intervalo)
    ensures minuto < MinutoSiguienteBloque(minuto, intervalo) <= minuto + intervalo
    ensures forall x :: minuto < x < MinutoSiguienteBloque(minuto, intervalo) ==> !EsMultiplo(x, intervalo)
  {
    var q := minuto / intervalo;
    var m := MinutoSiguienteBloque(minuto, intervalo);
    assert m == q * intervalo + intervalo;
    MultiploMod(q + 1, intervalo);
    forall x | minuto < x < m
      ensures !EsMultiplo(x, intervalo)
    {
      var s := x - q * intervalo;
      assert 0 < s < intervalo;
      ResidueMod(q, s, intervalo);
    }
  }

  lemma MultiploMod(k: int, intervalo: int)
    requires intervalo > 0
    ensures (k * intervalo) % intervalo == 0
  {
    ResidueMod(k, 0, intervalo);
  }

  lemma ResidueMod(q: int, s: int, intervalo: int)
    requires intervalo > 0 && 0 <= s < intervalo
    ensures (q * intervalo + s) % intervalo == s
  {
    var x := q * intervalo + s;
    var q', s' := x / intervalo, x % intervalo;
    assert (q' - q) * intervalo == s - s' by {
      assert (q' - q) * intervalo == q' * intervalo - q * intervalo;
    }
    if q' > q {
      MulAtLeast(q' - q, intervalo);
    } else if q' < q {
      MulAtLeast(q - q', intervalo);
    }
  }

  lemma MulAtLeast(a: int, b: int)
    requires a >= 1 && b > 0
    ensures a * b >= b
  {
  }

  /**
   * With a positive interval the wait is positive and at most one
   * interval, and it ends on a whole minute.
   */
  lemma EsperaAcotada(ahora: Momento, intervalo: int)
    requires intervalo > 0
    ensures var r := SegundosHastaSiguienteBloque(ahora, intervalo);
      r.Some? && 0.0 < r.value <= (intervalo * 60) as real
  {
    var minuto := ahora.reloj.minute;
    var m := MinutoSiguienteBloque(minuto, intervalo);
    SiguienteBloqueEsPrimerMultiplo(minuto, intervalo);
    var espera := m * 60000000 - (minuto * 60000000 + ahora.segundo * 1000000 + ahora.microsegundo);
    assert (m - minuto) * 60000000 == m * 60000000 - minuto * 60000000;
    assert 1 <= m - minuto <= intervalo;
    assert 0 < espera <= intervalo * 60000000;
  }

  /** With the script's interval of 15 the captures align to :00, :15, :30 and :45. */
  lemma BloquesDeQuince(minuto: int)
    requires 0 <= minuto < 60
    ensures MinutoSiguienteBloque(minuto, 15) in {15, 30, 45, 60}
  {
  }

  // ---------------------------------------------------------------------
  // get_weather(): reading the answer
  // ---------------------------------------------------------------------

  /** One member of a JSON object as `dict.get` sees it: absent, `null`, or a number. */
  datatype Valor = Ausente | Nulo | Numero(x: real)

  /** `obj.get(clave, defecto)`. */
  function Get(v: Valor, defecto: Option<real>): Option<real> {
    match v
    case Ausente => defecto
    case Nulo => None
    case Numero(x) => Some(x)
  }

  /**
   * The member `current` (read as `temperature_2m` and `precipitation`) or
   * `current_weather` (read as `temperature` and `precipitation`) of the
   * answer: absent, `null`, or an object.
   */
  datatype Bloque = SinBloque | BloqueNulo | Objeto(temperatura: Valor, precipitacion: Valor)

  datatype Respuesta = Respuesta(current: Bloque, currentWeather: Bloque)

  /** `data.get(clave, {})`; None for `null`, on which the next `.get` raises AttributeError. */
  function Campos(b: Bloque): (r: Option<Bloque>)
    ensures r.Some? ==> r.value.Objeto?
    ensures r.None? <==> b.BloqueNulo?
    ensures b.SinBloque? ==> r == Some(Objeto(Ausente, Ausente))
    ensures b.Objeto? ==> r == Some(b)
  {
    match b
    case SinBloque => Some(Objeto(Ausente, Ausente))
    case BloqueNulo => None
    case Objeto(_, _) => Some(b)
  }

  /** The temperature and the precipitation the script settles on. */
  datatype Medicion = Medicion(temperatura: Option<real>, litros: Option<real>)

  /**
   * The measurement read from `current`, falling back on `current_weather`
   * when `current` has no temperature; None when the script raises.
   */
  function LeerMedicion(data: Respuesta): (r: Option<Medicion>)
    ensures r.None? <==>
      data.current.BloqueNulo? ||
      (Get(Campos(data.current).value.temperatura, None).None? && data.currentWeather.BloqueNulo?)
  {
    match Campos(data.current)
    case None => None
    case Some(cur) =>
      var temperatura := Get(cur.temperatura, None);
      var litros := Get(cur.precipitacion, Some(0.0));
      if temperatura.Some? then Some(Medicion(temperatura, litros))
      else
        match Campos(data.currentWeather)
        case None => None
        case Some(cw) => Some(Medicion(Get(cw.temperatura, None), Get(cw.precipitacion, litros)))
  }

  /** When `current` has a temperature, `current_weather` is never consulted. */
  lemma SinFallback(c: Bloque, w1: Bloque, w2: Bloque)
    requires c.Objeto? && c.temperatura.Numero?
    ensures LeerMedicion(Respuesta(c, w1)) == LeerMedicion(Respuesta(c, w2))
    ensures LeerMedicion(Respuesta(c, w1)) == Some(Medicion(Some(c.temperatura.x), Get(c.precipitacion, Some(0.0))))
  {
  }

  /**
   * When `current` has no temperature, the temperature comes from
   * `current_weather`, and so does the precipitation unless that block
   * lacks it, in which case the value read from `current` stays.
   */
  lemma ConFallback(data: Respuesta)
    requires Campos(data.current).Some? && Campos(data.currentWeather).Some?
    requires !data.current.Objeto? || !data.current.temperatura.Numero?
    ensures var m := LeerMedicion(data);
      var cur := Campos(data.current).value;
      var cw := Campos(data.currentWeather).value;
      m.Some? &&
      m.value.temperatura == Get(cw.temperatura, None) &&
      (cw.precipitacion.Ausente? ==> m.value.litros == Get(cur.precipitacion, Some(0.0))) &&
      (cw.precipitacion.Nulo? ==> m.value.litros.None?) &&
      (cw.precipitacion.Numero? ==> m.value.litros == Some(cw.precipitacion.x))
  {
  }

  /** `float(litros_m2 or 0)`. */
  function LitrosOCero(litros: Option<real>): (l: real)
    ensures litros.None? ==> l == 0.0
    ensures litros.Some? ==> l == litros.value
  {
    match litros
    case None => 0.0
    case Some(x) => x
  }

  // ---------------------------------------------------------------------
  // get_weather(): the record and the CSV
  // ---------------------------------------------------------------------

  /** One row of `tiempo_madrid.csv`. */
  datatype Registro = Registro(fecha: string, hora: string, temperatura: Option<real>, lluvia: string, litros: real)

  /** The new row: the measurement stamped with `ahora` as `%Y-%m-%d` and `%H:%M`. */
  function NuevoRegistro(m: Medicion, ahora: Momento): (r: Registro)
    ensures IsTimestampDate(ahora.fecha) ==> ParseDate(r.fecha) == Some(ahora.fecha)
    ensures IsCanonical(r.hora) && ClockOf(r.hora) == ahora.reloj
    ensures r.temperatura == m.temperatura && r.litros == LitrosOCero(m.litros)
    ensures r.lluvia == ClasificaLluvia(r.litros).Label()
  {
    ClockOfFormat(ahora.reloj);
    var litros := LitrosOCero(m.litros);
    var r := Registro(FormatDate(ahora.fecha), FormatClock(ahora.reloj), m.temperatura, ClasificaLluvia(litros).Label(), litros);
    if IsTimestampDate(ahora.fecha) then ParseFormatDate(ahora.fecha); r else r
  }

  /** A measurement without precipitation is recorded as 0 L/m² and no rain. */
  lemma SinPrecipitacion(m: Medicion, ahora: Momento)
    requires m.litros.None?
    ensures NuevoRegistro(m, ahora).litros == 0.0 && NuevoRegistro(m, ahora).lluvia == "No"
  {
  }

  function Clave(r: Registro): (string, string) { (r.fecha, r.hora) }

  function Claves(rows: seq<Registro>): set<(string, string)> {
    set i | 0 <= i < |rows| :: Clave(rows[i])
  }

  predicate ClavesUnicas(rows: seq<Registro>) {
    forall i, j :: 0 <= i < j < |rows| ==> Clave(rows[i]) != Clave(rows[j])
  }

  /** Row `i` is the first with its key. */
  predicate EsPrimera(rows: seq<Registro>, i: int)
    requires 0 <= i < |rows|
  {
    forall j :: 0 <= j < i ==> Clave(rows[j]) != Clave(rows[i])
  }

  /** `drop_duplicates(subset=["fecha", "hora"])` with the default `keep="first"`. */
  function Dedup(rows: seq<Registro>): (r: seq<Registro>)
    ensures |r| <= |rows| && (rows != [] ==> r != [])
    ensures forall k :: 0 <= k < |r| ==> r[k] in rows
    decreases |rows|
  {
    if rows == [] then []
    else
      var init := rows[..|rows| - 1];
      if Clave(rows[|rows| - 1]) in Claves(init) then Dedup(init) else Dedup(init) + [rows[|rows| - 1]]
  }

  lemma ClavesSnoc(rows: seq<Registro>, x: Registro)
    ensures Claves(rows + [x]) == Claves(rows) + {Clave(x)}
  {
    var s := rows + [x];
    assert forall i :: 0 <= i < |rows| ==> s[i] == rows[i];
    assert s[|rows|] == x;
  }

  lemma DedupStep(rows: seq<Registro>, x: Registro)
    ensures Dedup(rows + [x]) == if Clave(x) in Claves(rows) then Dedup(rows) else Dedup(rows) + [x]
  {
    assert (rows + [x])[..|rows|] == rows;
  }

  /** Dropping duplicates keeps every key. */
  lemma {:induction false} DedupClaves(rows: seq<Registro>)
    ensures Claves(Dedup(rows)) == Claves(rows)
    decreases |rows|
  {
    if rows != [] {
      var init, x := rows[..|rows| - 1], rows[|rows| - 1];
      assert rows == init + [x];
      DedupStep(init, x);
      DedupClaves(init);
      ClavesSnoc(init, x);
      if Clave(x) !in Claves(init) {
        ClavesSnoc(Dedup(init), x);
      }
    }
  }

  /** After dropping duplicates no two rows share a key. */
  lemma {:induction false} DedupUnicas(rows: seq<Registro>)
    ensures ClavesUnicas(Dedup(rows))
    decreases |rows|
  {
    if rows != [] {
      var init, x := rows[..|rows| - 1], rows[|rows| - 1];
      assert rows == init + [x];
      DedupStep(init, x);
      DedupUnicas(init);
      if Clave(x) !in Claves(init) {
        var d := Dedup(init);
        DedupClaves(init);
        forall i | 0 <= i < |d|
          ensures Clave(d[i]) != Clave(x)
        {
          assert Clave(d[i]) in Claves(d);
        }
      }
    }
  }

  /** The indices of the rows that are the first with their key, in increasing order. */
  function Primeras(rows: seq<Registro>): (idx: seq<nat>)
    ensures forall k :: 0 <= k < |idx| ==> idx[k] < |rows| && EsPrimera(rows, idx[k])
    ensures forall k, l :: 0 <= k < l < |idx| ==> idx[k] < idx[l]
    ensures forall i :: 0 <= i < |rows| && EsPrimera(rows, i) ==> i in idx
    decreases |rows|
  {
    if rows == [] then []
    else
      var n := |rows| - 1;
      var init := rows[..n];
      var before := Primeras(init);
      assert forall i :: 0 <= i < n ==> (EsPrimera(rows, i) <==> EsPrimera(init, i));
      if EsPrimera(rows, n) then before + [n] else before
  }

  /** The last row is the first with its key exactly when its key is new. */
  lemma EsPrimeraUltima(rows: seq<Registro>)
    requires rows != []
    ensures EsPrimera(rows, |rows| - 1) <==> Clave(rows[|rows| - 1]) !in Claves(rows[..|rows| - 1])
  {
    var init := rows[..|rows| - 1];
    if Clave(rows[|rows| - 1]) in Claves(init) {
      var j :| 0 <= j < |init| && Clave(init[j]) == Clave(rows[|rows| - 1]);
      assert rows[j] == init[j];
    }
  }

  /**
   * The reference reading of `keep="first"`: the result is the subsequence
   * of the rows that are the first with their key, in their order.
   */
  lemma {:induction false} DedupEsPrimeras(rows: seq<Registro>)
    ensures |Dedup(rows)| == |Primeras(rows)|
    ensures forall k :: 0 <= k < |Dedup(rows)| ==> Dedup(rows)[k] == rows[Primeras(rows)[k]]
    decreases |rows|
  {
    if rows != [] {
      var n := |rows| - 1;
      var init := rows[..n];
      DedupEsPrimeras(init);
      EsPrimeraUltima(rows);
      assert forall i :: 0 <= i < n ==> rows[i] == init[i];
    }
  }

  /** Rows whose keys are already unique are left as they are. */
  lemma {:induction false} DedupUnicasFijas(rows: seq<Registro>)
    requires ClavesUnicas(rows)
    ensures Dedup(rows) == rows
    decreases |rows|
  {
    if rows != [] {
      var init, x := rows[..|rows| - 1], rows[|rows| - 1];
      assert rows == init + [x];
      assert ClavesUnicas(init);
      DedupUnicasFijas(init);
    }
  }

  /** `combinado.drop_duplicates(subset=["fecha", "hora"], inplace=True)`. */
  method DropDuplicates(rows: seq<Registro>) returns (r: seq<Registro>)
    ensures r == Dedup(rows)
  {
    r := [];
    var vistas: set<(string, string)> := {};
    for i := 0 to |rows|
      invariant r == Dedup(rows[..i])
      invariant vistas == Claves(rows[..i])
    {
      assert rows[..i + 1] == rows[..i] + [rows[i]];
      DedupStep(rows[..i], rows[i]);
      ClavesSnoc(rows[..i], rows[i]);
      var clave := Clave(rows[i]);
      if clave !in vistas {
        r := r + [rows[i]];
        vistas := vistas + {clave};
      }
    }
    assert rows[..|rows|] == rows;
  }

  /** The file written: the new row alone, or the old rows and the new one without repeated keys. */
  function Escribir(viejo: Option<seq<Registro>>, registro: Registro): (r: seq<Registro>)
    ensures 1 <= |r| <= 1 + (if viejo.Some? then |viejo.value| else 0)
    ensures forall k :: 0 <= k < |r| ==> r[k] == registro || (viejo.Some? && r[k] in viejo.value)
  {
    match viejo
    case None => [registro]
    case Some(rows) =>
      assert (rows + [registro])[|rows|] == registro;
      Dedup(rows + [registro])
  }

  /**
   * The file written never repeats a key and always holds the new key;
   * the new row is appended when its key is new and discarded otherwise.
   */
  lemma EscribirClaves(viejo: Option<seq<Registro>>, registro: Registro)
    ensures ClavesUnicas(Escribir(viejo, registro))
    ensures Clave(registro) in Claves(Escribir(viejo, registro))
    ensures viejo.Some? ==> Claves(Escribir(viejo, registro)) == Claves(viejo.value) + {Clave(registro)}
    ensures viejo.Some? && Clave(registro) in Claves(viejo.value) ==> Escribir(viejo, registro) == Dedup(viejo.value)
    ensures viejo.Some? && Clave(registro) !in Claves(viejo.value) ==>
      Escribir(viejo, registro) == Dedup(viejo.value) + [registro]
  {
    match viejo
    case None =>
      assert Clave([registro][0]) in Claves([registro]);
    case Some(rows) =>
      DedupUnicas(rows + [registro]);
      DedupClaves(rows + [registro]);
      ClavesSnoc(rows, registro);
      DedupStep(rows, registro);
  }

  /** A file that already had unique keys keeps all its rows, first, in their order. */
  lemma EscribirConserva(rows: seq<Registro>, registro: Registro)
    requires ClavesUnicas(rows)
    ensures Escribir(Some(rows), registro) == if Clave(registro) in Claves(rows) then rows else rows + [registro]
  {
    DedupStep(rows, registro);
    DedupUnicasFijas(rows);
  }

  /**
   * `get_weather`: None when nothing is written (the request failed or the
   * script raised), otherwise the rows of the file after the write.
   */
  method GetWeather(data: Option<Respuesta>, ahora: Momento, viejo: Option<seq<Registro>>)
    returns (escrito: Option<seq<Registro>>)
    ensures escrito.None? <==> data.None? || LeerMedicion(data.value).None?
    ensures escrito.Some? ==>
      escrito.value == Escribir(viejo, NuevoRegistro(LeerMedicion(data.value).value, ahora))
  {
    if data.None? {
      return None;
    }
    var d := data.value;
    var current := Campos(d.current);
    if current.None? {
      return None;
    }
    var temperatura := Get(current.value.temperatura, None);
    var litros := Get(current.value.precipitacion, Some(0.0));
    if temperatura.None? {
      var cw := Campos(d.currentWeather);
      if cw.None? {
        return None;
      }
      temperatura := Get(cw.value.temperatura, None);
      litros := Get(cw.value.precipitacion, litros);
    }
    var registro := NuevoRegistro(Medicion(temperatura, litros), ahora);
    var combinado;
    if viejo.Some? {
      combinado := viejo.value + [registro];
      combinado := DropDuplicates(combinado);
    } else {
      combinado := [registro];
    }
    escrito := Some(combinado);
  }
}
