/**
 * Result cross-referencing (cruzar_resultados.py): the race results are
 * joined with the EPC roster by normalised EPC, optionally taking names from
 * a names file. Files come in already read: a file read through
 * csv.DictReader is its header and one map per row, the results file is its
 * rows as csv.reader splits them, and None stands for a missing file. The
 * output is the list of rows the source hands to csv.writer, or None where
 * the source returns False.
 */
module Cruce {
  import opened Wrappers
  import opened Text
  import Hex
  import EpcGenerator

  // ---------------------------------------------------------------- EPC keys

  /** _normalizar_epc: spaces removed, outer whitespace stripped, upper case; None reads as "". */
  function NormalizarEpc(epc: Option<string>): (r: string)
    ensures epc.None? ==> r == ""
    ensures forall i :: 0 <= i < |r| ==> r[i] != ' ' && !IsAsciiLower(r[i])
  {
    var s := if epc.Some? then epc.value else "";
    StripKeepsChars(RemoveSpaces(s), ' ');
    Upper(Strip(RemoveSpaces(s)))
  }

  /** Normalising a normalised EPC changes nothing. */
  lemma NormalizarIdempotente(epc: Option<string>)
    ensures NormalizarEpc(Some(NormalizarEpc(epc))) == NormalizarEpc(epc)
  {
    var n := NormalizarEpc(epc);
    var s := if epc.Some? then epc.value else "";
    var t := Strip(RemoveSpaces(s));
    assert n == Upper(t);
    RemoveSpacesNoSpaces(n);
    if n != [] {
      assert !IsSpace(n[0]) && !IsSpace(n[|n| - 1]);
    }
    StripNoEdgeSpace(n);
    assert Upper(n) == n;
  }

  /** The key is empty exactly when the text is all whitespace (or absent). */
  lemma NormalizarVacio(s: string)
    ensures NormalizarEpc(Some(s)) == "" <==> forall i :: 0 <= i < |s| ==> IsSpace(s[i])
  {
    var r := RemoveSpaces(s);
    var t := Strip(r);
    RemoveSpacesAllSpace(s);
    StripEmptyIffAllSpace(r);
    assert NormalizarEpc(Some(s)) == Upper(t);
    assert |Upper(t)| == |t|;
  }

  lemma {:induction false} RemoveSpacesAllSpace(s: string)
    ensures (forall i :: 0 <= i < |RemoveSpaces(s)| ==> IsSpace(RemoveSpaces(s)[i]))
            <==> (forall i :: 0 <= i < |s| ==> IsSpace(s[i]))
  {
    if s != [] {
      var tail := RemoveSpaces(s[1..]);
      RemoveSpacesAllSpace(s[1..]);
      var head := if s[0] == ' ' then [] else [s[0]];
      assert RemoveSpaces(s) == head + tail;
      assert forall i :: 0 <= i < |tail| ==> RemoveSpaces(s)[|head| + i] == tail[i];
      if forall i :: 0 <= i < |RemoveSpaces(s)| ==> IsSpace(RemoveSpaces(s)[i]) {
        assert forall i :: 0 <= i < |tail| ==> IsSpace(tail[i]);
        assert IsSpace(s[0]) by {
          if s[0] != ' ' {
            assert RemoveSpaces(s)[0] == s[0];
          }
        }
        forall i | 0 <= i < |s| ensures IsSpace(s[i]) {
          if i > 0 {
            assert s[i] == s[1..][i - 1];
          }
        }
      }
      if forall i :: 0 <= i < |s| ==> IsSpace(s[i]) {
        assert forall i :: 0 <= i < |s[1..]| ==> IsSpace(s[1..][i]);
        forall i | 0 <= i < |RemoveSpaces(s)| ensures IsSpace(RemoveSpaces(s)[i]) {
          if i >= |head| {
            assert RemoveSpaces(s)[i] == tail[i - |head|];
          } else {
            assert RemoveSpaces(s)[i] == s[0];
          }
        }
      }
    }
  }

  lemma HexDigitPlain(c: char)
    requires Hex.IsUpperHexDigit(c)
    ensures c != ' ' && !IsSpace(c) && !IsAsciiLower(c)
  {
  }

  /**
   * A roster EPC written in the generator's spaced form and the same EPC as
   * the reader reports it (upper-case hexadecimal) give the same key.
   */
  lemma NormalizarFormato(epc: string)
    requires Hex.IsUpperHex(epc)
    ensures NormalizarEpc(Some(EpcGenerator.FormatoEpcLegible(epc))) == epc
    ensures NormalizarEpc(Some(epc)) == epc
  {
    forall i | 0 <= i < |epc| ensures epc[i] != ' ' && !IsSpace(epc[i]) && !IsAsciiLower(epc[i]) {
      HexDigitPlain(epc[i]);
    }
    EpcGenerator.FormatoSinEspacios(epc);
    RemoveSpacesNoSpaces(epc);
    StripNoEdgeSpace(epc);
    assert Upper(epc) == epc;
  }

  // ---------------------------------------------------------------- CSV rows

  /** One csv.DictReader row: column name to text. */
  type Fila = map<string, string>

  datatype CsvFile = CsvFile(fieldnames: seq<string>, rows: seq<Fila>)

  /** `row.get(k, "")`. */
  function Campo(fila: Fila, k: string): string
  {
    if k in fila then fila[k] else ""
  }

  /** `a or b` on strings. */
  function PrimeroNoVacio(a: string, b: string): (r: string)
    ensures r == "" <==> a == "" && b == ""
  {
    if a != "" then a else b
  }

  /**
   * A dict filled one row at a time: a row gives at most one key and value,
   * and a later row overwrites an earlier one with the same key.
   */
  function Indice<V>(filas: seq<Fila>, entrada: Fila -> Option<(string, V)>): map<string, V>
  {
    if filas == [] then map[]
    else
      var m := Indice(filas[..|filas| - 1], entrada);
      var e := entrada(filas[|filas| - 1]);
      if e.Some? then m[e.value.0 := e.value.1] else m
  }

  /** Filling the dict with one more row. */
  lemma IndicePaso<V>(filas: seq<Fila>, entrada: Fila -> Option<(string, V)>, i: nat)
    requires i < |filas|
    ensures var m := Indice(filas[..i], entrada);
            var e := entrada(filas[i]);
            Indice(filas[..i + 1], entrada) == if e.Some? then m[e.value.0 := e.value.1] else m
  {
    assert filas[..i + 1][..i] == filas[..i];
  }

  /** A key is present exactly when some row gives it. */
  lemma {:induction false} IndiceClaves<V>(filas: seq<Fila>, entrada: Fila -> Option<(string, V)>, k: string)
    ensures k in Indice(filas, entrada) <==>
              exists i :: 0 <= i < |filas| && entrada(filas[i]).Some? && entrada(filas[i]).value.0 == k
  {
    if filas != [] {
      var init := filas[..|filas| - 1];
      IndiceClaves(init, entrada, k);
      assert forall i :: 0 <= i < |init| ==> init[i] == filas[i];
      if k in Indice(init, entrada) {
        var i :| 0 <= i < |init| && entrada(init[i]).Some? && entrada(init[i]).value.0 == k;
        assert filas[i] == init[i];
      }
    }
  }

  /** The value kept for a key is the one from the last row giving that key. */
  lemma {:induction false} IndiceUltimo<V>(filas: seq<Fila>, entrada: Fila -> Option<(string, V)>, i: nat)
    requires i < |filas| && entrada(filas[i]).Some?
    requires forall j :: i < j < |filas| && entrada(filas[j]).Some? ==>
               entrada(filas[j]).value.0 != entrada(filas[i]).value.0
    ensures entrada(filas[i]).value.0 in Indice(filas, entrada)
    ensures Indice(filas, entrada)[entrada(filas[i]).value.0] == entrada(filas[i]).value.1
  {
    var init := filas[..|filas| - 1];
    if i < |filas| - 1 {
      assert init[i] == filas[i];
      forall j | i < j < |init| && entrada(init[j]).Some?
        ensures entrada(init[j]).value.0 != entrada(init[i]).value.0
      {
        assert init[j] == filas[j];
      }
      IndiceUltimo(init, entrada, i);
    }
  }

  /** Every row that gives no key leaves the dict empty, and only then. */
  lemma {:induction false} IndiceVacio<V>(filas: seq<Fila>, entrada: Fila -> Option<(string, V)>)
    ensures Indice(filas, entrada) == map[] <==> forall i :: 0 <= i < |filas| ==> entrada(filas[i]).None?
  {
    if filas != [] {
      var init := filas[..|filas| - 1];
      IndiceVacio(init, entrada);
      assert forall i :: 0 <= i < |init| ==> init[i] == filas[i];
      var e := entrada(filas[|filas| - 1]);
      if e.Some? {
        assert e.value.0 in Indice(filas, entrada);
      }
    }
  }

  // ---------------------------------------------------------------- names file

  /** The names file's contribution of one row: only rows with both a key and a name count. */
  function EntradaNombre(fila: Fila): Option<(string, string)>
  {
    var key := NormalizarEpc(Some(PrimeroNoVacio(Campo(fila, "epc"), Campo(fila, "epc_formateado"))));
    var nombre := PrimeroNoVacio(Campo(fila, "nombre"), Campo(fila, "nombre_nadador"));
    if key != "" && nombre != "" then Some((key, Strip(nombre))) else None
  }

  /** _cargar_nombres_por_epc as a value: empty for a missing file or a file without header. */
  function NombresPorEpc(archivo: Option<CsvFile>): map<string, string>
  {
    if archivo.None? || archivo.value.fieldnames == [] then map[]
    else Indice(archivo.value.rows, EntradaNombre)
  }

  /** _cargar_nombres_por_epc: the row loop filling the EPC-to-name dict. */
  method CargarNombresPorEpc(archivo: Option<CsvFile>) returns (out: map<string, string>)
    ensures out == NombresPorEpc(archivo)
  {
    out := map[];
    if archivo.None? || archivo.value.fieldnames == [] {
      return;
    }
    var filas := archivo.value.rows;
    for i := 0 to |filas|
      invariant out == Indice(filas[..i], EntradaNombre)
    {
      IndicePaso(filas, EntradaNombre, i);
      var e := EntradaNombre(filas[i]);
      if e.Some? {
        out := out[e.value.0 := e.value.1];
      }
    }
    assert filas[..|filas|] == filas;
  }

  /**
   * The names dict holds a key exactly when some row has that normalised
   * EPC (from `epc`, else `epc_formateado`) and a non-empty name; every key
   * is non-empty and already normalised.
   */
  lemma NombresClaves(archivo: CsvFile, k: string)
    requires archivo.fieldnames != []
    ensures k in NombresPorEpc(Some(archivo)) <==>
              exists i :: 0 <= i < |archivo.rows| && EntradaNombre(archivo.rows[i]).Some?
                          && EntradaNombre(archivo.rows[i]).value.0 == k
    ensures k in NombresPorEpc(Some(archivo)) ==> k != "" && NormalizarEpc(Some(k)) == k
  {
    IndiceClaves(archivo.rows, EntradaNombre, k);
    if k in NombresPorEpc(Some(archivo)) {
      var i :| 0 <= i < |archivo.rows| && EntradaNombre(archivo.rows[i]).Some?
               && EntradaNombre(archivo.rows[i]).value.0 == k;
      var fila := archivo.rows[i];
      NormalizarIdempotente(Some(PrimeroNoVacio(Campo(fila, "epc"), Campo(fila, "epc_formateado"))));
    }
  }

  /** The name kept for an EPC is the stripped name of the last row carrying it. */
  lemma NombresUltimo(archivo: CsvFile, i: nat)
    requires archivo.fieldnames != [] && i < |archivo.rows|
    requires EntradaNombre(archivo.rows[i]).Some?
    requires forall j :: i < j < |archivo.rows| && EntradaNombre(archivo.rows[j]).Some? ==>
               EntradaNombre(archivo.rows[j]).value.0 != EntradaNombre(archivo.rows[i]).value.0
    ensures var fila := archivo.rows[i];
            var key := NormalizarEpc(Some(PrimeroNoVacio(Campo(fila, "epc"), Campo(fila, "epc_formateado"))));
            key in NombresPorEpc(Some(archivo))
            && NombresPorEpc(Some(archivo))[key]
               == Strip(PrimeroNoVacio(Campo(fila, "nombre"), Campo(fila, "nombre_nadador")))
  {
    IndiceUltimo(archivo.rows, EntradaNombre, i);
  }

  // ---------------------------------------------------------------- roster

  /** The swimmer data the roster gives for one EPC. */
  datatype Nadador = Nadador(nombre: string, numeroCorredor: string, categoriaNombre: string,
                             genero: string, distancia: string, edadMin: string, edadMax: string)

  const SIN_DATOS: Nadador := Nadador("", "", "", "", "", "", "")

  /** The roster's contribution of one row: keyed by its normalised `epc_formateado`, if any. */
  function EntradaPlanilla(fila: Fila): Option<(string, Nadador)>
  {
    var key := NormalizarEpc(Some(Campo(fila, "epc_formateado")));
    if key == "" then None
    else
      Some((key, Nadador(PrimeroNoVacio(Strip(Campo(fila, "nombre")), Strip(Campo(fila, "nombre_nadador"))),
                         Campo(fila, "numero_corredor"), Campo(fila, "categoria_nombre"),
                         Campo(fila, "genero"), Campo(fila, "distancia"),
                         Campo(fila, "edad_min"), Campo(fila, "edad_max"))))
  }

  /** The roster loop of cruzar_resultados, filling the EPC-to-swimmer dict. */
  method ConstruirLookup(planilla: seq<Fila>) returns (lookup: map<string, Nadador>)
    ensures lookup == Indice(planilla, EntradaPlanilla)
  {
    lookup := map[];
    for i := 0 to |planilla|
      invariant lookup == Indice(planilla[..i], EntradaPlanilla)
    {
      IndicePaso(planilla, EntradaPlanilla, i);
      var e := EntradaPlanilla(planilla[i]);
      if e.Some? {
        lookup := lookup[e.value.0 := e.value.1];
      }
    }
    assert planilla[..|planilla|] == planilla;
  }

  // ---------------------------------------------------------------- results file

  const INICIO: string := "inicio_punto_cero"
  const POSICION: string := "posicion"

  /** The parsed results file: the data rows in order and the captured zero instant. */
  datatype Parseo = Parseo(filas: seq<seq<string>>, inicio: Option<string>)

  predicate EsInicio(row: seq<string>)
  {
    row != [] && row[0] == INICIO
  }

  predicate EsDato(row: seq<string>)
  {
    row != [] && row[0] != INICIO && row[0] != POSICION
  }

  /** Reference definition of the parse: data rows kept in order, the last zero-instant row wins. */
  function Parsear(lineas: seq<seq<string>>): Parseo
  {
    if lineas == [] then Parseo([], None)
    else
      var p := Parsear(lineas[..|lineas| - 1]);
      var row := lineas[|lineas| - 1];
      if row == [] then p
      else if row[0] == INICIO then Parseo(p.filas, if |row| > 1 then Some(row[1]) else None)
      else if row[0] == POSICION then p
      else Parseo(p.filas + [row], p.inicio)
  }

  /** The parsing loop of cruzar_resultados. */
  method ParsearResultados(lineas: seq<seq<string>>) returns (filas: seq<seq<string>>, inicio: Option<string>)
    ensures Parseo(filas, inicio) == Parsear(lineas)
  {
    filas := [];
    inicio := None;
    for i := 0 to |lineas|
      invariant Parseo(filas, inicio) == Parsear(lineas[..i])
    {
      var row := lineas[i];
      if row == [] {
      } else if row[0] == INICIO {
        inicio := if |row| > 1 then Some(row[1]) else None;
      } else if row[0] == POSICION {
      } else {
        filas := filas + [row];
      }
      assert lineas[..i + 1][..i] == lineas[..i];
    }
    assert lineas[..|lineas|] == lineas;
  }

  /**
   * The parse keeps exactly the data rows, in order: parsing two files one
   * after the other gives the first's rows followed by the second's.
   */
  lemma {:induction false} ParsearConcat(a: seq<seq<string>>, b: seq<seq<string>>)
    ensures Parsear(a + b).filas == Parsear(a).filas + Parsear(b).filas
  {
    if b == [] {
      assert a + b == a;
    } else {
      var bi := b[..|b| - 1];
      ParsearConcat(a, bi);
      assert (a + b)[..|a + b| - 1] == a + bi;
      assert (a + b)[|a + b| - 1] == b[|b| - 1];
      var pa := Parsear(a).filas;
      var pb := Parsear(bi).filas;
      var row := b[|b| - 1];
      if EsDato(row) {
        assert pa + pb + [row] == pa + (pb + [row]);
      }
    }
  }

  /** A single row is kept exactly when it is a data row. */
  lemma ParsearFila(row: seq<string>)
    ensures Parsear([row]).filas == if EsDato(row) then [row] else []
    ensures Parsear([row]).inicio == if EsInicio(row) && |row| > 1 then Some(row[1]) else None
  {
    assert [row][..0] == [];
  }

  /** Every kept row is a data row, so no kept row is empty, the header or the zero instant. */
  lemma {:induction false} ParsearDatos(lineas: seq<seq<string>>)
    ensures |Parsear(lineas).filas| <= |lineas|
    ensures forall k :: 0 <= k < |Parsear(lineas).filas| ==> EsDato(Parsear(lineas).filas[k])
  {
    if lineas != [] {
      ParsearDatos(lineas[..|lineas| - 1]);
    }
  }

  /** The zero instant comes from the last zero-instant row: its second field, or None if it has none. */
  lemma {:induction false} InicioUltimo(lineas: seq<seq<string>>, i: nat)
    requires i < |lineas| && EsInicio(lineas[i])
    requires forall j :: i < j < |lineas| ==> !EsInicio(lineas[j])
    ensures Parsear(lineas).inicio == if |lineas[i]| > 1 then Some(lineas[i][1]) else None
  {
    var init := lineas[..|lineas| - 1];
    if i < |lineas| - 1 {
      assert init[i] == lineas[i];
      forall j | i < j < |init| ensures !EsInicio(init[j]) {
        assert init[j] == lineas[j];
      }
      InicioUltimo(init, i);
    }
  }

  /** Without a zero-instant row there is no zero instant. */
  lemma {:induction false} InicioAusente(lineas: seq<seq<string>>)
    requires forall j :: 0 <= j < |lineas| ==> !EsInicio(lineas[j])
    ensures Parsear(lineas).inicio == None
  {
    if lineas != [] {
      var init := lineas[..|lineas| - 1];
      forall j | 0 <= j < |init| ensures !EsInicio(init[j]) {
        assert init[j] == lineas[j];
      }
      InicioAusente(init);
    }
  }

  // ---------------------------------------------------------------- join

  const CABECERA: seq<string> := [
    "posicion", "epc", "nombre", "numero_corredor", "categoria_nombre", "genero", "distancia",
    "hora_llegada", "tiempo_carrera_s", "antena", "rssi", "edad_min", "edad_max"
  ]

  /** `row[j] if len(row) > j else ""`. */
  function Columna(row: seq<string>, j: nat): string
  {
    if j < |row| then row[j] else ""
  }

  /**
   * One output row: position and EPC text as read, the name from the names
   * file if it knows the EPC, else from the roster; the roster columns, empty
   * for an EPC the roster does not hold; the four timing columns, empty when
   * the result row is short.
   */
  function FilaSalida(row: seq<string>, lookup: map<string, Nadador>, nombres: map<string, string>): (r: seq<string>)
    requires |row| >= 2
    ensures |r| == |CABECERA|
    ensures r[0] == row[0] && r[1] == row[1]
    ensures forall j :: 2 <= j < 6 ==> r[j + 5] == Columna(row, j)
    ensures var key := NormalizarEpc(Some(row[1]));
            var n := if key in lookup then lookup[key] else SIN_DATOS;
            && r[2] == (if key in nombres then nombres[key] else n.nombre)
            && r[3..7] == [n.numeroCorredor, n.categoriaNombre, n.genero, n.distancia]
            && r[11..] == [n.edadMin, n.edadMax]
  {
    var key := NormalizarEpc(Some(row[1]));
    var nadador := if key in lookup then lookup[key] else SIN_DATOS;
    var nombre := if key in nombres then nombres[key] else nadador.nombre;
    var r := [row[0], row[1], nombre, nadador.numeroCorredor, nadador.categoriaNombre, nadador.genero,
              nadador.distancia, Columna(row, 2), Columna(row, 3), Columna(row, 4), Columna(row, 5),
              nadador.edadMin, nadador.edadMax];
    assert |r| == 13 == |CABECERA|;
    assert r[3..7] == [nadador.numeroCorredor, nadador.categoriaNombre, nadador.genero, nadador.distancia];
    assert r[11..] == [nadador.edadMin, nadador.edadMax];
    r
  }

  /** Reference definition of the data rows: one output row per result row with at least two fields. */
  function Salida(filas: seq<seq<string>>, lookup: map<string, Nadador>, nombres: map<string, string>): seq<seq<string>>
  {
    if filas == [] then []
    else
      var prev := Salida(filas[..|filas| - 1], lookup, nombres);
      var row := filas[|filas| - 1];
      if |row| >= 2 then prev + [FilaSalida(row, lookup, nombres)] else prev
  }

  /** The join loop of cruzar_resultados. */
  method CruzarFilas(filas: seq<seq<string>>, lookup: map<string, Nadador>, nombres: map<string, string>)
    returns (salida: seq<seq<string>>)
    ensures salida == Salida(filas, lookup, nombres)
  {
    salida := [];
    for i := 0 to |filas|
      invariant salida == Salida(filas[..i], lookup, nombres)
    {
      var row := filas[i];
      if |row| >= 2 {
        salida := salida + [FilaSalida(row, lookup, nombres)];
      }
      assert filas[..i + 1][..i] == filas[..i];
    }
    assert filas[..|filas|] == filas;
  }

  /** The join keeps input order: joining two runs of rows gives the first's output, then the second's. */
  lemma {:induction false} SalidaConcat(a: seq<seq<string>>, b: seq<seq<string>>,
                                        lookup: map<string, Nadador>, nombres: map<string, string>)
    ensures Salida(a + b, lookup, nombres) == Salida(a, lookup, nombres) + Salida(b, lookup, nombres)
  {
    if b == [] {
      assert a + b == a;
    } else {
      var bi := b[..|b| - 1];
      SalidaConcat(a, bi, lookup, nombres);
      assert (a + b)[..|a + b| - 1] == a + bi;
      assert (a + b)[|a + b| - 1] == b[|b| - 1];
      var row := b[|b| - 1];
      if |row| >= 2 {
        var sa := Salida(a, lookup, nombres);
        var sb := Salida(bi, lookup, nombres);
        assert sa + sb + [FilaSalida(row, lookup, nombres)] == sa + (sb + [FilaSalida(row, lookup, nombres)]);
      }
    }
  }

  /** A single result row yields one output row when it has two fields or more, none otherwise. */
  lemma SalidaFila(row: seq<string>, lookup: map<string, Nadador>, nombres: map<string, string>)
    ensures |Salida([row], lookup, nombres)| == if |row| >= 2 then 1 else 0
    ensures |row| >= 2 ==> Salida([row], lookup, nombres)[0][..2] == row[..2]
  {
    assert [row][..0] == [];
  }

  /** Every output data row has the header's thirteen columns. */
  lemma {:induction false} SalidaAnchos(filas: seq<seq<string>>, lookup: map<string, Nadador>, nombres: map<string, string>)
    ensures |Salida(filas, lookup, nombres)| <= |filas|
    ensures forall k :: 0 <= k < |Salida(filas, lookup, nombres)| ==> |Salida(filas, lookup, nombres)[k]| == |CABECERA|
  {
    if filas != [] {
      SalidaAnchos(filas[..|filas| - 1], lookup, nombres);
    }
  }

  /**
   * A result whose EPC the reader reports as upper-case hexadecimal is
   * joined with the last roster row that lists it in the generator's spaced
   * form: the output carries that row's runner number, category, gender and
   * distance.
   */
  lemma UnionConEpcGenerado(planilla: seq<Fila>, i: nat, nombres: map<string, string>,
                            row: seq<string>, epc: string)
    requires Hex.IsUpperHex(epc) && epc != []
    requires i < |planilla| && Campo(planilla[i], "epc_formateado") == EpcGenerator.FormatoEpcLegible(epc)
    requires forall j :: i < j < |planilla| ==> NormalizarEpc(Some(Campo(planilla[j], "epc_formateado"))) != epc
    requires |row| >= 2 && row[1] == epc
    ensures var r := FilaSalida(row, Indice(planilla, EntradaPlanilla), nombres);
            && r[1] == epc
            && r[3..7] == [Campo(planilla[i], "numero_corredor"), Campo(planilla[i], "categoria_nombre"),
                           Campo(planilla[i], "genero"), Campo(planilla[i], "distancia")]
  {
    NormalizarFormato(epc);
    assert EntradaPlanilla(planilla[i]).Some? && EntradaPlanilla(planilla[i]).value.0 == epc;
    IndiceUltimo(planilla, EntradaPlanilla, i);
  }

  /**
   * A result whose EPC no roster row lists keeps its EPC text and gets empty
   * roster columns; its name, if any, comes from the names file alone.
   */
  lemma EpcDesconocido(planilla: seq<Fila>, nombres: map<string, string>, row: seq<string>)
    requires |row| >= 2
    requires forall j :: 0 <= j < |planilla| ==>
               NormalizarEpc(Some(Campo(planilla[j], "epc_formateado"))) != NormalizarEpc(Some(row[1]))
    ensures var r := FilaSalida(row, Indice(planilla, EntradaPlanilla), nombres);
            var key := NormalizarEpc(Some(row[1]));
            && r[1] == row[1]
            && r[2] == (if key in nombres then nombres[key] else "")
            && r[3..7] == ["", "", "", ""] && r[11..] == ["", ""]
  {
    var key := NormalizarEpc(Some(row[1]));
    var lookup := Indice(planilla, EntradaPlanilla);
    SinEntrada(planilla, key);
    var r := FilaSalida(row, lookup, nombres);
    assert r[3..7] == [SIN_DATOS.numeroCorredor, SIN_DATOS.categoriaNombre, SIN_DATOS.genero, SIN_DATOS.distancia];
  }

  lemma SinEntrada(planilla: seq<Fila>, key: string)
    requires forall j :: 0 <= j < |planilla| ==> NormalizarEpc(Some(Campo(planilla[j], "epc_formateado"))) != key
    ensures key !in Indice(planilla, EntradaPlanilla)
  {
    IndiceClaves(planilla, EntradaPlanilla, key);
    forall i | 0 <= i < |planilla| && EntradaPlanilla(planilla[i]).Some?
      ensures EntradaPlanilla(planilla[i]).value.0 != key
    {
      assert EntradaPlanilla(planilla[i]).value.0 == NormalizarEpc(Some(Campo(planilla[i], "epc_formateado")));
    }
  }

  // ---------------------------------------------------------------- whole run

  function InicioFila(inicio: Option<string>): seq<seq<string>>
  {
    if inicio.Some? then [[INICIO, inicio.value]] else []
  }

  /** Reference definition of cruzar_resultados: None where the source returns False. */
  function Cruce(planilla: Option<CsvFile>, nombres: Option<CsvFile>, resultados: Option<seq<seq<string>>>)
    : Option<seq<seq<string>>>
  {
    if planilla.None? || planilla.value.fieldnames == [] then None
    else
      var lookup := Indice(planilla.value.rows, EntradaPlanilla);
      if lookup == map[] || resultados.None? then None
      else
        var p := Parsear(resultados.value);
        Some(InicioFila(p.inicio) + [CABECERA] + Salida(p.filas, lookup, NombresPorEpc(nombres)))
  }

  /** cruzar_resultados: reads the roster and the names, builds the lookup, parses and joins. */
  method CruzarResultados(planilla: Option<CsvFile>, nombresCsv: Option<CsvFile>,
                          resultados: Option<seq<seq<string>>>)
    returns (salida: Option<seq<seq<string>>>)
    ensures salida == Cruce(planilla, nombresCsv, resultados)
  {
    if planilla.None? || planilla.value.fieldnames == [] {
      return None;
    }
    var lookupNombres := CargarNombresPorEpc(nombresCsv);
    var lookup := ConstruirLookup(planilla.value.rows);
    if lookup == map[] {
      return None;
    }
    if resultados.None? {
      return None;
    }
    var filas, inicio := ParsearResultados(resultados.value);
    var datos := CruzarFilas(filas, lookup, lookupNombres);
    salida := Some(InicioFila(inicio) + [CABECERA] + datos);
  }

  /**
   * The run fails exactly when the roster is missing or has no header, when
   * no roster row has a non-empty normalised `epc_formateado`, or when the
   * results file is missing.
   */
  lemma CruceFalla(planilla: Option<CsvFile>, nombres: Option<CsvFile>, resultados: Option<seq<seq<string>>>)
    ensures Cruce(planilla, nombres, resultados).None? <==>
              || planilla.None? || planilla.value.fieldnames == []
              || (forall j :: 0 <= j < |planilla.value.rows| ==>
                    NormalizarEpc(Some(Campo(planilla.value.rows[j], "epc_formateado"))) == "")
              || resultados.None?
  {
    if planilla.Some? {
      IndiceVacio(planilla.value.rows, EntradaPlanilla);
    }
  }

  /**
   * A successful run writes the zero-instant row first exactly when the
   * results file had one, then the header once, then thirteen-column data
   * rows, one per parsed row with at least two fields, in input order.
   */
  lemma CruceSalida(planilla: Option<CsvFile>, nombres: Option<CsvFile>, resultados: Option<seq<seq<string>>>)
    requires Cruce(planilla, nombres, resultados).Some?
    ensures var out := Cruce(planilla, nombres, resultados).value;
            var p := Parsear(resultados.value);
            var h := if p.inicio.Some? then 1 else 0;
            && |out| >= h + 1
            && (p.inicio.Some? ==> out[0] == [INICIO, p.inicio.value])
            && out[h] == CABECERA
            && out[h + 1..] == Salida(p.filas, Indice(planilla.value.rows, EntradaPlanilla), NombresPorEpc(nombres))
            && (forall k :: h < k < |out| ==> |out[k]| == |CABECERA| && out[k][0] != INICIO)
  {
    var p := Parsear(resultados.value);
    var lookup := Indice(planilla.value.rows, EntradaPlanilla);
    var datos := Salida(p.filas, lookup, NombresPorEpc(nombres));
    SalidaAnchos(p.filas, lookup, NombresPorEpc(nombres));
    ParsearDatos(resultados.value);
    var out := Cruce(planilla, nombres, resultados).value;
    var h := if p.inicio.Some? then 1 else 0;
    assert out[h + 1..] == datos;
    forall k | h < k < |out| ensures |out[k]| == |CABECERA| && out[k][0] != INICIO {
      assert out[k] == datos[k - h - 1];
      DatoNoInicio(p.filas, lookup, NombresPorEpc(nombres), k - h - 1);
    }
  }

  /** A data row's output starts with the row's own position field, which is not the zero-instant marker. */
  lemma {:induction false} DatoNoInicio(filas: seq<seq<string>>, lookup: map<string, Nadador>,
                                        nombres: map<string, string>, k: nat)
    requires forall m :: 0 <= m < |filas| ==> EsDato(filas[m])
    requires k < |Salida(filas, lookup, nombres)|
    ensures |Salida(filas, lookup, nombres)[k]| == |CABECERA| && Salida(filas, lookup, nombres)[k][0] != INICIO
  {
    var init := filas[..|filas| - 1];
    forall m | 0 <= m < |init| ensures EsDato(init[m]) {
      assert init[m] == filas[m];
    }
    if k < |Salida(init, lookup, nombres)| {
      DatoNoInicio(init, lookup, nombres, k);
    }
  }
}
