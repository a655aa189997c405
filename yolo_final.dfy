/**
 * The traffic detector (`yolo_final.py`): counting the vehicle classes in
 * what the detector reports for one image, the three traffic levels, and
 * the pass over the image folder that yields one result row per image in
 * name order.
 *
 * The detector and the directory listing are parameters: `predecir` gives
 * what `model.predict` reports for the image of a given file name (the
 * folder is fixed, so the path `os.path.join(IMG_DIR, archivo)` is a
 * function of the name), and `listado` is what `os.listdir` returns.
 */
module YoloFinal {
  import opened Chars

  // ---------------------------------------------------------------------
  // clasificar_trafico(num)
  // ---------------------------------------------------------------------

  datatype Nivel = Bajo | Medio | Alto {
    function Label(): string {
      match this
      case Bajo => "Bajo"
      case Medio => "Medio"
      case Alto => "Alto"
    }

    /** The levels in increasing order of traffic. */
    function Rango(): nat {
      match this
      case Bajo => 0
      case Medio => 1
      case Alto => 2
    }
  }

  /** `clasificar_trafico`: up to 5 vehicles is low, up to 15 medium, above that high. */
  function ClasificarTrafico(num: int): (r: Nivel)
    ensures r == Bajo <==> num <= 5
    ensures r == Medio <==> 5 < num <= 15
    ensures r == Alto <==> 15 < num
  {
    if num <= 5 then Bajo
    else if num <= 15 then Medio
    else Alto
  }

  /** More vehicles never give a lower level. */
  lemma ClasificarTraficoMonotone(a: int, b: int)
    requires a <= b
    ensures ClasificarTrafico(a).Rango() <= ClasificarTrafico(b).Rango()
  {
  }

  // ---------------------------------------------------------------------
  // analizar_imagen(imagen)
  // ---------------------------------------------------------------------

  /** Python's `int(c)` on a float: truncation toward zero. */
  function Truncar(c: real): (n: int)
    ensures 0.0 <= c ==> n as real <= c < n as real + 1.0
    ensures c < 0.0 ==> n as real - 1.0 < c <= n as real
  {
    if c >= 0.0 then c.Floor else -((-c).Floor)
  }

  /** COCO classes 1 bicycle, 2 car, 3 motorcycle, 5 bus, 7 truck. */
  predicate EsVehiculo(c: real) {
    var id := Truncar(c);
    id == 1 || id == 2 || id == 3 || id == 5 || id == 7
  }

  /** `sum(1 for c in clases if int(c) in vehiculos_ids)`. */
  function Conteo(clases: seq<real>): (n: nat)
    ensures n <= |clases|
    decreases |clases|
  {
    if clases == [] then 0
    else Conteo(clases[..|clases| - 1]) + (if EsVehiculo(clases[|clases| - 1]) then 1 else 0)
  }

  /** The positions of the boxes whose class is a vehicle. */
  function Vehiculos(clases: seq<real>): set<int> {
    set i | 0 <= i < |clases| && EsVehiculo(clases[i])
  }

  /** The count is the number of boxes whose class is a vehicle. */
  lemma {:induction false} ConteoEsVehiculos(clases: seq<real>)
    ensures Conteo(clases) == |Vehiculos(clases)|
    decreases |clases|
  {
    if clases != [] {
      var n := |clases| - 1;
      var init := clases[..n];
      ConteoEsVehiculos(init);
      assert forall i :: 0 <= i < n ==> init[i] == clases[i];
      if EsVehiculo(clases[n]) {
        assert Vehiculos(clases) == Vehiculos(init) + {n};
      } else {
        assert Vehiculos(clases) == Vehiculos(init);
      }
    }
  }

  /** What `model.predict` gives for one image: an exception, no boxes, or the class of each box. */
  datatype Prediccion = Fallo | SinCajas | Cajas(cls: seq<real>)

  /** `analizar_imagen`: the vehicle count, 0 when the detector fails or finds no boxes. */
  function AnalizarImagen(p: Prediccion): (n: nat)
    ensures p.Cajas? ==> n == |Vehiculos(p.cls)| && n <= |p.cls|
    ensures !p.Cajas? ==> n == 0
  {
    match p
    case Fallo => 0
    case SinCajas => 0
    case Cajas(cls) =>
      ConteoEsVehiculos(cls);
      Conteo(cls)
  }

  /** An image the detector cannot analyse is reported as low traffic. */
  lemma FalloEsBajo(p: Prediccion)
    requires !p.Cajas?
    ensures ClasificarTrafico(AnalizarImagen(p)) == Bajo
  {
  }

  // ---------------------------------------------------------------------
  // procesar_carpeta()
  // ---------------------------------------------------------------------

  /** `f.lower().endswith((".jpg", ".jpeg", ".png"))`. */
  predicate EsImagen(f: string) {
    var l := LowerAscii(f);
    EndsWith(l, ".jpg") || EndsWith(l, ".jpeg") || EndsWith(l, ".png")
  }

  /** The list comprehension keeping the image files of the listing, in listing order. */
  function FiltrarImagenes(listado: seq<string>): (r: seq<string>)
    ensures forall i :: 0 <= i < |r| ==> EsImagen(r[i])
    ensures forall f :: multiset(r)[f] == if EsImagen(f) then multiset(listado)[f] else 0
  {
    if listado == [] then []
    else
      assert listado == [listado[0]] + listado[1..];
      (if EsImagen(listado[0]) then [listado[0]] else []) + FiltrarImagenes(listado[1..])
  }

  /** Python's `<` on `str`: code point by code point, a proper prefix first. */
  predicate Menor(a: string, b: string)
    decreases |a|
  {
    b != [] && (a == [] || a[0] < b[0] || (a[0] == b[0] && Menor(a[1..], b[1..])))
  }

  predicate MenorIgual(a: string, b: string) {
    a == b || Menor(a, b)
  }

  /** Any two strings are comparable. */
  lemma {:induction false} MenorTotal(a: string, b: string)
    ensures a == b || Menor(a, b) || Menor(b, a)
    decreases |a|
  {
    if a != [] && b != [] && a[0] == b[0] {
      MenorTotal(a[1..], b[1..]);
      if a[1..] == b[1..] {
        assert a == [a[0]] + a[1..] && b == [b[0]] + b[1..];
      }
    }
  }

  lemma {:induction false} MenorTransitivo(a: string, b: string, c: string)
    requires Menor(a, b) && Menor(b, c)
    ensures Menor(a, c)
    decreases |a|
  {
    if a != [] && a[0] == b[0] && b[0] == c[0] {
      MenorTransitivo(a[1..], b[1..], c[1..]);
    }
  }

  /** Each name is at most the next one. */
  predicate Ordenada(s: seq<string>) {
    forall i :: 0 < i < |s| ==> MenorIgual(s[i - 1], s[i])
  }

  /** In a sorted list every name is at most every later one. */
  lemma {:induction false} OrdenadaTodos(s: seq<string>, i: int, j: int)
    requires Ordenada(s) && 0 <= i <= j < |s|
    ensures MenorIgual(s[i], s[j])
    decreases j - i
  {
    if i < j {
      OrdenadaTodos(s, i, j - 1);
      if s[i] != s[j - 1] && s[j - 1] != s[j] {
        MenorTransitivo(s[i], s[j - 1], s[j]);
      }
    }
  }

  /** One step of the sort: `x` put in its place in a sorted list. */
  function Insertar(x: string, s: seq<string>): (r: seq<string>)
    requires Ordenada(s)
    ensures Ordenada(r) && multiset(r) == multiset(s) + multiset{x}
    ensures r[0] == x || (s != [] && r[0] == s[0])
    decreases |s|
  {
    if s == [] then [x]
    else if MenorIgual(x, s[0]) then [x] + s
    else
      MenorTotal(x, s[0]);
      assert s == [s[0]] + s[1..];
      [s[0]] + Insertar(x, s[1..])
  }

  /** `archivos.sort()`: the names in ascending order. */
  function Ordenar(s: seq<string>): (r: seq<string>)
    ensures Ordenada(r) && multiset(r) == multiset(s)
    decreases |s|
  {
    if s == [] then []
    else
      assert s == [s[0]] + s[1..];
      Insertar(s[0], Ordenar(s[1..]))
  }

  /** The files the folder pass visits: the image files of the listing, sorted. */
  function Archivos(listado: seq<string>): (r: seq<string>)
    ensures Ordenada(r)
    ensures forall i :: 0 <= i < |r| ==> EsImagen(r[i])
    ensures forall f :: multiset(r)[f] == if EsImagen(f) then multiset(listado)[f] else 0
  {
    var filtrados := FiltrarImagenes(listado);
    var r := Ordenar(filtrados);
    assert forall i :: 0 <= i < |r| ==> r[i] in multiset(filtrados);
    r
  }

  /** One row of `yolo_final.csv`. */
  datatype FilaYolo = FilaYolo(foto: string, numVehiculos: int, nivelTrafico: string)

  /**
   * `procesar_carpeta`: one row per image file, in name order, with the
   * vehicle count of its image and the traffic level of that count.
   */
  method ProcesarCarpeta(listado: seq<string>, predecir: string -> Prediccion)
    returns (resultados: seq<FilaYolo>)
    ensures |resultados| == |Archivos(listado)|
    ensures forall i :: 0 <= i < |resultados| ==>
      resultados[i].foto == Archivos(listado)[i] &&
      resultados[i].numVehiculos == AnalizarImagen(predecir(resultados[i].foto)) &&
      resultados[i].nivelTrafico == ClasificarTrafico(resultados[i].numVehiculos).Label()
  {
    var archivos := FiltrarImagenes(listado);
    archivos := Ordenar(archivos);
    resultados := [];
    for i := 0 to |archivos|
      invariant |resultados| == i
      invariant forall k :: 0 <= k < i ==>
        resultados[k].foto == archivos[k] &&
        resultados[k].numVehiculos == AnalizarImagen(predecir(archivos[k])) &&
        resultados[k].nivelTrafico == ClasificarTrafico(resultados[k].numVehiculos).Label()
    {
      var archivo := archivos[i];
      var numVehiculos := AnalizarImagen(predecir(archivo));
      var nivel := ClasificarTrafico(numVehiculos);
      resultados := resultados + [FilaYolo(archivo, numVehiculos, nivel.Label())];
    }
  }
}
