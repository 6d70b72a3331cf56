/**
 * EPC codes for the swimmers' tags (generar_epcs.py, EPCGenerator). A code
 * is 24 upper-case hex characters (12 bytes):
 *
 *   E2 | 80 | year (4) | distance | category | gender | runner (6) | 00 | checksum
 *
 * where the checksum byte is the XOR of the eleven bytes before it.
 */
module EpcGenerator {
  import opened Wrappers
  import opened Hex
  import Text

  datatype Categoria = Categoria(codigo: string, nombre: string, edadMin: nat, edadMax: nat)

  /** EPCGenerator.CATEGORIAS_FECNA in declaration order; the 1-based index is the category byte. */
  const CATEGORIAS_FECNA: seq<Categoria> := [
    Categoria("INF_A", "Infantil A", 8, 9),
    Categoria("INF_B", "Infantil B", 10, 11),
    Categoria("JUV_A", "Juvenil A", 12, 13),
    Categoria("JUV_B", "Juvenil B", 14, 15),
    Categoria("JUN_A", "Junior A", 16, 17),
    Categoria("JUN_B", "Junior B", 18, 19),
    Categoria("MAY_A", "Mayores A", 20, 24),
    Categoria("MAY_B", "Mayores B", 25, 29),
    Categoria("MAS_A", "Masters A", 30, 39),
    Categoria("MAS_B", "Masters B", 40, 49),
    Categoria("MAS_C", "Masters C", 50, 59),
    Categoria("MAS_D", "Masters D", 60, 99)
  ]

  /** The event prefix used when none is given (EPCGenerator.__init__). */
  const PREFIJO_POR_DEFECTO := "2026"
  /** The year field used when the prefix does not start with four digits. */
  const ANIO_POR_DEFECTO := "07EA"

  /** The ValueErrors raised by calcular_checksum and generar_epc. */
  datatype EpcError =
    | CategoriaInvalida(categoria: string)
    | GeneroInvalido(genero: string)
    | DistanciaInvalida(distancia: string)
    | NumeroFueraDeRango(numero: int)
    | LongitudInvalida(longitud: nat)
    | HexInvalido
    | ErrorInterno(longitud: nat)

  /** The record generar_epc returns and appends to tags_generados. */
  datatype TagInfo = TagInfo(
    epc: string, epcFormateado: string, numeroCorredor: int,
    categoriaCodigo: string, categoriaNombre: string, edadMin: nat, edadMax: nat,
    genero: string, generoCodigo: string, distancia: nat, distanciaCodigo: string,
    prefijoEvento: string, checksum: string)

  /** The 0-based position of a category code in CATEGORIAS_FECNA. */
  function CategoriaIndex(codigo: string): (r: Option<nat>)
    ensures r.Some? ==> r.value < |CATEGORIAS_FECNA| && CATEGORIAS_FECNA[r.value].codigo == codigo
    ensures r.None? ==> forall i :: 0 <= i < |CATEGORIAS_FECNA| ==> CATEGORIAS_FECNA[i].codigo != codigo
  {
    IndexFrom(codigo, 0)
  }

  function IndexFrom(codigo: string, i: nat): (r: Option<nat>)
    requires i <= |CATEGORIAS_FECNA|
    ensures r.Some? ==> i <= r.value < |CATEGORIAS_FECNA| && CATEGORIAS_FECNA[r.value].codigo == codigo
    ensures r.None? ==> forall j :: i <= j < |CATEGORIAS_FECNA| ==> CATEGORIAS_FECNA[j].codigo != codigo
    decreases |CATEGORIAS_FECNA| - i
  {
    if i == |CATEGORIAS_FECNA| then None
    else if CATEGORIAS_FECNA[i].codigo == codigo then Some(i)
    else IndexFrom(codigo, i + 1)
  }

  /** EPCGenerator.GENERO. */
  function GeneroNombre(genero: string): Option<string>
  {
    if genero == "F" then Some("Femenino")
    else if genero == "M" then Some("Masculino")
    else None
  }

  /** EPCGenerator.DISTANCIAS, in metres. */
  function DistanciaMetros(distancia: string): Option<nat>
  {
    if distancia == "2K" then Some(2000)
    else if distancia == "3K" then Some(3000)
    else if distancia == "5K" then Some(5000)
    else if distancia == "1K" then Some(1000)
    else None
  }

  /** `dist_map.get(distancia, '00')`. */
  function DistanciaHex(distancia: string): string
  {
    if distancia == "1K" then "01"
    else if distancia == "2K" then "02"
    else if distancia == "3K" then "03"
    else if distancia == "5K" then "05"
    else "00"
  }

  /** `str.isdigit()` on ASCII text: non-empty, decimal digits only. */
  predicate IsDigits(s: string)
  {
    |s| > 0 && forall i :: 0 <= i < |s| ==> '0' <= s[i] <= '9'
  }

  /** `int(s)` for a string of decimal digits. */
  function DecimalValue(s: string): nat
    requires forall i :: 0 <= i < |s| ==> '0' <= s[i] <= '9'
  {
    if s == [] then 0 else DecimalValue(s[..|s| - 1]) * 10 + (s[|s| - 1] as int - '0' as int)
  }

  function Pow10(n: nat): nat
  {
    if n == 0 then 1 else 10 * Pow10(n - 1)
  }

  lemma {:induction false} DecimalValueBound(s: string)
    requires forall i :: 0 <= i < |s| ==> '0' <= s[i] <= '9'
    ensures DecimalValue(s) < Pow10(|s|)
  {
    if s != [] {
      DecimalValueBound(s[..|s| - 1]);
    }
  }

  /** The year field: the first four digits of the prefix as four hex digits, else 07EA. */
  function AnioHex(prefijo: string): (r: string)
    ensures |r| == 4 && IsUpperHex(r)
  {
    if IsDigits(prefijo) && |prefijo| >= 4 then HexFixed(DecimalValue(prefijo[..4]), 4)
    else ANIO_POR_DEFECTO
  }

  /** The eleven bytes before the checksum, as generar_epc assembles them. */
  function EpcSinCheck(prefijo: string, categoriaIdx: nat, genero: string, distancia: string,
                       numero: nat): string
  {
    "E2" + "80" + AnioHex(prefijo) + DistanciaHex(distancia) + HexFixed(categoriaIdx + 1, 2)
    + (if genero == "F" then "01" else "02") + HexFixed(numero, 6) + "00"
  }

  /** XOR of a run of bytes, folded from the left as the source's loop does. */
  function XorAll(bs: seq<byte>): bv8
  {
    if bs == [] then 0 else XorAll(bs[..|bs| - 1]) ^ (bs[|bs| - 1] as bv8)
  }

  /** What calcular_checksum computes or raises. */
  function ChecksumSpec(epcSinCheck: string): Result<string, EpcError>
  {
    if |epcSinCheck| != 22 then Err(LongitudInvalida(|epcSinCheck|))
    else match HexToBytes(epcSinCheck)
      case None => Err(HexInvalido)
      case Some(bs) => Ok(ByteToHex(XorAll(bs) as int as byte))
  }

  /**
   * EPCGenerator.calcular_checksum: exactly 22 hex characters, read two at a
   * time and folded with XOR into one byte, returned as two hex digits.
   */
  method CalcularChecksum(epcSinCheck: string) returns (r: Result<string, EpcError>)
    ensures r == ChecksumSpec(epcSinCheck)
    ensures r.Ok? ==> |r.value| == 2 && IsUpperHex(r.value)
  {
    if |epcSinCheck| != 22 {
      return Err(LongitudInvalida(|epcSinCheck|));
    }
    var checksum: bv8 := 0;
    var i := 0;
    ghost var bytes: seq<byte> := [];
    while i < |epcSinCheck|
      invariant ChecksumSoFar(epcSinCheck, i, bytes, checksum)
    {
      var byteVal := ParseHexByte(epcSinCheck[i..i + 2]);
      if byteVal.None? {
        SpoiledPair(epcSinCheck, i);
        return Err(HexInvalido);
      }
      ChecksumStep(epcSinCheck, i, bytes, checksum);
      checksum := checksum ^ (byteVal.value as bv8);
      bytes := bytes + [byteVal.value];
      i := i + 2;
    }
    assert epcSinCheck[..i] == epcSinCheck;
    r := Ok(ByteToHex(checksum as int as byte));
  }

  /** A pair that does not read spoils the reading of the whole string. */
  lemma SpoiledPair(s: string, i: nat)
    requires i % 2 == 0 && i + 2 <= |s| && ParseHexByte(s[i..i + 2]).None?
    ensures HexToBytes(s).None?
  {
    var a := s[..i];
    var pair := s[i..i + 2];
    PairExtends(a, pair);
    assert s == (a + pair) + s[i + 2..];
    HexToBytesJoin(a + pair, s[i + 2..]);
  }

  /** The state of the checksum loop after the first `i` characters: the bytes read so far and their XOR. */
  ghost predicate ChecksumSoFar(s: string, i: int, bytes: seq<byte>, checksum: bv8)
  {
    0 <= i <= |s| && i % 2 == 0 && HexToBytes(s[..i]) == Some(bytes) && checksum == XorAll(bytes)
  }

  /** A pair that reads extends the reading of the prefix before it by one byte, and the XOR by that byte. */
  lemma ChecksumStep(s: string, i: int, bytes: seq<byte>, checksum: bv8)
    requires ChecksumSoFar(s, i, bytes, checksum) && i < |s| && |s| % 2 == 0
    requires ParseHexByte(s[i..i + 2]).Some?
    ensures var b := ParseHexByte(s[i..i + 2]).value;
            ChecksumSoFar(s, i + 2, bytes + [b], checksum ^ (b as bv8))
  {
    var a := s[..i];
    var pair := s[i..i + 2];
    PairExtends(a, pair);
    assert s[..i + 2] == a + pair;
    XorSnoc(bytes, ParseHexByte(pair).value);
  }

  lemma PairExtends(a: string, pair: string)
    requires |a| % 2 == 0 && |pair| == 2
    ensures var b := ParseHexByte(pair);
            HexToBytes(a + pair) == if HexToBytes(a).Some? && b.Some? then Some(HexToBytes(a).value + [b.value]) else None
  {
    HexToBytesPair(pair);
    HexToBytesJoin(a, pair);
  }

  /**
   * EPCGenerator.formato_epc_legible: the code cut into two-character groups
   * joined by single spaces.
   */
  function FormatoEpcLegible(epc: string): string
  {
    if |epc| <= 2 then epc else epc[..2] + " " + FormatoEpcLegible(epc[2..])
  }

  /** Deleting the spaces undoes the formatting. */
  lemma {:induction false} FormatoSinEspacios(epc: string)
    ensures Text.RemoveSpaces(FormatoEpcLegible(epc)) == Text.RemoveSpaces(epc)
  {
    if |epc| > 2 {
      FormatoSinEspacios(epc[2..]);
      Text.RemoveSpacesConcat(epc[..2] + " ", FormatoEpcLegible(epc[2..]));
      Text.RemoveSpacesConcat(epc[..2], " ");
      Text.RemoveSpacesConcat(epc[..2], epc[2..]);
      assert epc[..2] + epc[2..] == epc;
    }
  }

  /** The formatted code is one character longer per group boundary: 24 characters become 35. */
  lemma {:induction false} FormatoLongitud(epc: string)
    requires epc != []
    ensures |FormatoEpcLegible(epc)| == |epc| + (|epc| - 1) / 2
  {
    if |epc| > 2 {
      FormatoLongitud(epc[2..]);
    }
  }

  /** What generar_epc returns or raises, the validations in the source's order. */
  function EpcRecord(prefijo: string, categoria: string, genero: string, distancia: string,
                     numero: int): Result<TagInfo, EpcError>
  {
    var ci := CategoriaIndex(categoria);
    var gn := GeneroNombre(genero);
    var dm := DistanciaMetros(distancia);
    if ci.None? then Err(CategoriaInvalida(categoria))
    else if gn.None? then Err(GeneroInvalido(genero))
    else if dm.None? then Err(DistanciaInvalida(distancia))
    else if !(1 <= numero <= 999) then Err(NumeroFueraDeRango(numero))
    else
      var sinCheck := EpcSinCheck(prefijo, ci.value, genero, distancia, numero);
      if |sinCheck| != 22 then Err(ErrorInterno(|sinCheck|))
      else match ChecksumSpec(sinCheck)
        case Err(e) => Err(e)
        case Ok(checksum) =>
          var epc := sinCheck + checksum;
          var cat := CATEGORIAS_FECNA[ci.value];
          Ok(TagInfo(epc, FormatoEpcLegible(epc), numero, categoria, cat.nombre, cat.edadMin,
                     cat.edadMax, gn.value, genero, dm.value, distancia, prefijo, checksum))
  }

  predicate ValidFields(categoria: string, genero: string, distancia: string, numero: int)
  {
    CategoriaIndex(categoria).Some? && GeneroNombre(genero).Some?
    && DistanciaMetros(distancia).Some? && 1 <= numero <= 999
  }

  lemma IsUpperHexConcat(a: string, b: string)
    requires IsUpperHex(a) && IsUpperHex(b)
    ensures IsUpperHex(a + b)
  {
    assert forall i :: |a| <= i < |a + b| ==> (a + b)[i] == b[i - |a|];
  }

  lemma EpcSinCheckIsHex(prefijo: string, categoriaIdx: nat, genero: string, distancia: string,
                         numero: nat)
    requires categoriaIdx < 12
    ensures var s := EpcSinCheck(prefijo, categoriaIdx, genero, distancia, numero);
            |s| == 22 && IsUpperHex(s)
  {
    var a := "E2" + "80";
    assert IsUpperHex("E2") && IsUpperHex("80") && IsUpperHex("00") && IsUpperHex("01") && IsUpperHex("02");
    assert IsUpperHex(DistanciaHex(distancia)) && |DistanciaHex(distancia)| == 2;
    IsUpperHexConcat("E2", "80");
    IsUpperHexConcat(a, AnioHex(prefijo));
    var b := a + AnioHex(prefijo);
    IsUpperHexConcat(b, DistanciaHex(distancia));
    var c := b + DistanciaHex(distancia);
    IsUpperHexConcat(c, HexFixed(categoriaIdx + 1, 2));
    var d := c + HexFixed(categoriaIdx + 1, 2);
    var g := if genero == "F" then "01" else "02";
    IsUpperHexConcat(d, g);
    IsUpperHexConcat(d + g, HexFixed(numero, 6));
    IsUpperHexConcat(d + g + HexFixed(numero, 6), "00");
  }

  /**
   * generar_epc raises exactly when a field is invalid (its internal length
   * check and the checksum's errors cannot fire), and then in the order the
   * source checks; otherwise the code is 24 hex characters.
   */
  lemma EpcRecordOutcome(prefijo: string, categoria: string, genero: string, distancia: string,
                         numero: int)
    ensures var r := EpcRecord(prefijo, categoria, genero, distancia, numero);
            && (r.Ok? <==> ValidFields(categoria, genero, distancia, numero))
            && (CategoriaIndex(categoria).None? ==> r == Err(CategoriaInvalida(categoria)))
            && (CategoriaIndex(categoria).Some? && GeneroNombre(genero).None? ==>
                  r == Err(GeneroInvalido(genero)))
            && ((CategoriaIndex(categoria).Some? && GeneroNombre(genero).Some?
                 && DistanciaMetros(distancia).None?) ==> r == Err(DistanciaInvalida(distancia)))
            && ((CategoriaIndex(categoria).Some? && GeneroNombre(genero).Some?
                 && DistanciaMetros(distancia).Some? && !(1 <= numero <= 999)) ==>
                  r == Err(NumeroFueraDeRango(numero)))
            && (r.Ok? ==> |r.value.epc| == 24 && IsUpperHex(r.value.epc)
                          && r.value.numeroCorredor == numero && r.value.prefijoEvento == prefijo)
  {
    if ValidFields(categoria, genero, distancia, numero) {
      var ci := CategoriaIndex(categoria).value;
      var s := EpcSinCheck(prefijo, ci, genero, distancia, numero);
      EpcSinCheckIsHex(prefijo, ci, genero, distancia, numero);
      HexBytesRoundTrip(s);
      var c := ByteToHex(XorAll(HexToBytes(s).value) as int as byte);
      IsUpperHexConcat(s, c);
    }
  }

  /** The fields an EPC carries, read back from its hex text. */
  datatype EpcCampos = EpcCampos(anio: nat, distancia: nat, categoria: nat, genero: nat, corredor: nat)

  /**
   * Reads a code back: the fixed bytes, the fields, and the checksum
   * (the XOR of all twelve bytes is zero for a well-formed code).
   */
  function DecodeEpc(epc: string): Option<EpcCampos>
  {
    if |epc| != 24 || epc[..4] != "E280" || epc[20..22] != "00" then None
    else match HexToBytes(epc)
      case None => None
      case Some(bs) =>
        if XorAll(bs) != 0 then None
        else
          var anio := HexNumber(epc[4..8]);
          var dist := HexNumber(epc[8..10]);
          var cat := HexNumber(epc[10..12]);
          var gen := HexNumber(epc[12..14]);
          var num := HexNumber(epc[14..20]);
          if anio.None? || dist.None? || cat.None? || gen.None? || num.None? then None
          else Some(EpcCampos(anio.value, dist.value, cat.value, gen.value, num.value))
  }

  /** The year a prefix stands for in the code. */
  function AnioDe(prefijo: string): nat
  {
    if IsDigits(prefijo) && |prefijo| >= 4 then DecimalValue(prefijo[..4]) else 2026
  }

  function DistanciaCodigo(distancia: string): nat
  {
    if distancia == "1K" then 1
    else if distancia == "2K" then 2
    else if distancia == "3K" then 3
    else if distancia == "5K" then 5
    else 0
  }

  lemma HexNumberTwoDigits()
    ensures HexNumber("01") == Some(1) && HexNumber("02") == Some(2)
    ensures HexNumber("03") == Some(3) && HexNumber("05") == Some(5)
    ensures HexNumber("00") == Some(0)
  {
    assert "01"[..1] == "0" && "02"[..1] == "0" && "03"[..1] == "0";
    assert "05"[..1] == "0" && "00"[..1] == "0";
  }

  lemma HexNumberDefaultYear()
    ensures HexNumber(ANIO_POR_DEFECTO) == Some(2026)
  {
    var s := ANIO_POR_DEFECTO;
    assert s[..3] == "07E" && s[..3][..2] == "07" && s[..3][..2][..1] == "0";
    assert HexNumber("0") == Some(0);
    assert HexNumber("07") == Some(7);
    assert HexNumber("07E") == Some(126);
  }

  lemma HexNumberAnio(prefijo: string)
    ensures HexNumber(AnioHex(prefijo)) == Some(AnioDe(prefijo))
  {
    if IsDigits(prefijo) && |prefijo| >= 4 {
      DecimalValueBound(prefijo[..4]);
      assert Pow10(4) == 10000;
      assert Pow16(4) == 65536;
      HexFixedRoundTrip(DecimalValue(prefijo[..4]), 4);
    } else {
      HexNumberDefaultYear();
    }
  }

  lemma BvByteRoundTrip(v: bv8)
    ensures (v as int as byte) as bv8 == v
  {
  }

  lemma XorSnoc(bs: seq<byte>, b: byte)
    ensures XorAll(bs + [b]) == XorAll(bs) ^ (b as bv8)
  {
    var t := bs + [b];
    assert t[..|t| - 1] == bs;
  }

  lemma XorZero(x: bv8, y: bv8, z: bv8)
    requires z == x ^ y && y == x
    ensures z == 0
  {
  }

  lemma XorSelfCheck(bs: seq<byte>)
    ensures XorAll(bs + [XorAll(bs) as int as byte]) == 0
  {
    var x := XorAll(bs);
    var b := x as int as byte;
    XorSnoc(bs, b);
    BvByteRoundTrip(x);
    XorZero(x, b as bv8, XorAll(bs + [b]));
  }

  /** A generated code reads as twelve bytes whose XOR is zero. */
  lemma EpcChecksumCancels(s: string)
    requires |s| == 22 && IsUpperHex(s)
    ensures HexToBytes(s).Some?
    ensures var epc := s + ByteToHex(XorAll(HexToBytes(s).value) as int as byte);
            HexToBytes(epc).Some? && XorAll(HexToBytes(epc).value) == 0
  {
    HexBytesRoundTrip(s);
    var bs := HexToBytes(s).value;
    var cb := XorAll(bs) as int as byte;
    var c := ByteToHex(cb);
    HexToBytesConcat(s, c);
    ByteHexRoundTrip(cb);
    HexToBytesPair(c);
    XorSelfCheck(bs);
  }

  /** Where each field sits in a generated code. */
  lemma EpcSlices(prefijo: string, categoriaIdx: nat, genero: string, distancia: string,
                  numero: nat, c: string)
    requires categoriaIdx < 12 && |c| == 2
    ensures var epc := EpcSinCheck(prefijo, categoriaIdx, genero, distancia, numero) + c;
            && |epc| == 24 && epc[..4] == "E280" && epc[4..8] == AnioHex(prefijo)
            && epc[8..10] == DistanciaHex(distancia) && epc[10..12] == HexFixed(categoriaIdx + 1, 2)
            && epc[12..14] == (if genero == "F" then "01" else "02")
            && epc[14..20] == HexFixed(numero, 6) && epc[20..22] == "00"
  {
    EpcSinCheckIsHex(prefijo, categoriaIdx, genero, distancia, numero);
    var a := AnioHex(prefijo);
    var d := DistanciaHex(distancia);
    var k := HexFixed(categoriaIdx + 1, 2);
    var g := if genero == "F" then "01" else "02";
    var n := HexFixed(numero, 6);
    var epc := EpcSinCheck(prefijo, categoriaIdx, genero, distancia, numero) + c;
    assert |d| == 2;
    assert epc == "E280" + a + d + k + g + n + "00" + c;
    SliceOfConcat([], "E280", a + d + k + g + n + "00" + c);
    SliceOfConcat("E280", a, d + k + g + n + "00" + c);
    SliceOfConcat("E280" + a, d, k + g + n + "00" + c);
    SliceOfConcat("E280" + a + d, k, g + n + "00" + c);
    SliceOfConcat("E280" + a + d + k, g, n + "00" + c);
    SliceOfConcat("E280" + a + d + k + g, n, "00" + c);
    SliceOfConcat("E280" + a + d + k + g + n, "00", c);
  }

  lemma SliceOfConcat(x: string, y: string, z: string)
    ensures (x + y + z)[|x|..|x| + |y|] == y
    ensures x + y + z == x + (y + z)
  {
  }

  lemma HexNumberDistancia(distancia: string)
    ensures HexNumber(DistanciaHex(distancia)) == Some(DistanciaCodigo(distancia))
  {
    HexNumberTwoDigits();
  }

  lemma Pow16Values()
    ensures Pow16(2) == 256 && Pow16(6) == 16777216
  {
    assert Pow16(2) == 256;
    assert Pow16(4) == 65536;
  }

  /** The field values of a generated code. */
  lemma EpcFieldValues(prefijo: string, categoriaIdx: nat, genero: string, distancia: string,
                       numero: nat)
    requires categoriaIdx < 12 && 1 <= numero <= 999
    ensures HexNumber(AnioHex(prefijo)) == Some(AnioDe(prefijo))
    ensures HexNumber(DistanciaHex(distancia)) == Some(DistanciaCodigo(distancia))
    ensures HexNumber(HexFixed(categoriaIdx + 1, 2)) == Some(categoriaIdx + 1)
    ensures HexNumber(if genero == "F" then "01" else "02") == Some(if genero == "F" then 1 else 2)
    ensures HexNumber(HexFixed(numero, 6)) == Some(numero)
  {
    HexNumberAnio(prefijo);
    HexNumberDistancia(distancia);
    HexNumberTwoDigits();
    Pow16Values();
    HexFixedRoundTrip(categoriaIdx + 1, 2);
    HexFixedRoundTrip(numero, 6);
  }

  /**
   * Round trip: every code generar_epc produces reads back as its year,
   * distance code, 1-based category index, gender code (1 = F, 2 = M) and
   * runner number, with a checksum that cancels the other eleven bytes.
   */
  lemma EpcRoundTrip(prefijo: string, categoria: string, genero: string, distancia: string,
                     numero: int)
    requires ValidFields(categoria, genero, distancia, numero)
    ensures var r := EpcRecord(prefijo, categoria, genero, distancia, numero);
            r.Ok? && DecodeEpc(r.value.epc)
            == Some(EpcCampos(AnioDe(prefijo), DistanciaCodigo(distancia),
                              CategoriaIndex(categoria).value + 1, if genero == "F" then 1 else 2,
                              numero))
  {
    var ci := CategoriaIndex(categoria).value;
    EpcRecordCode(prefijo, categoria, genero, distancia, numero);
    DecodeGenerated(prefijo, ci, genero, distancia, numero);
  }

  /** With valid fields the code is the 22 characters before the checksum followed by the checksum. */
  lemma EpcRecordCode(prefijo: string, categoria: string, genero: string, distancia: string,
                      numero: int)
    requires ValidFields(categoria, genero, distancia, numero)
    ensures var s := EpcSinCheck(prefijo, CategoriaIndex(categoria).value, genero, distancia, numero);
            && HexToBytes(s).Some?
            && var r := EpcRecord(prefijo, categoria, genero, distancia, numero);
            r.Ok? && r.value.epc == s + ByteToHex(XorAll(HexToBytes(s).value) as int as byte)
  {
    var ci := CategoriaIndex(categoria).value;
    var s := EpcSinCheck(prefijo, ci, genero, distancia, numero);
    EpcSinCheckIsHex(prefijo, ci, genero, distancia, numero);
    HexBytesRoundTrip(s);
  }

  /** Decoding the code built from valid field values gives those values back. */
  lemma DecodeGenerated(prefijo: string, ci: nat, genero: string, distancia: string, numero: int)
    requires ci < 12 && 1 <= numero <= 999
    ensures var s := EpcSinCheck(prefijo, ci, genero, distancia, numero);
            && HexToBytes(s).Some?
            && DecodeEpc(s + ByteToHex(XorAll(HexToBytes(s).value) as int as byte))
               == Some(EpcCampos(AnioDe(prefijo), DistanciaCodigo(distancia), ci + 1,
                                 if genero == "F" then 1 else 2, numero))
  {
    var s := EpcSinCheck(prefijo, ci, genero, distancia, numero);
    EpcSinCheckIsHex(prefijo, ci, genero, distancia, numero);
    EpcChecksumCancels(s);
    var c := ByteToHex(XorAll(HexToBytes(s).value) as int as byte);
    EpcSlices(prefijo, ci, genero, distancia, numero, c);
    EpcFieldValues(prefijo, ci, genero, distancia, numero);
  }

  lemma DistanciaCodigoInjective(d1: string, d2: string)
    requires DistanciaMetros(d1).Some? && DistanciaMetros(d2).Some?
    requires DistanciaCodigo(d1) == DistanciaCodigo(d2)
    ensures d1 == d2
  {
  }

  /** Codes tell runners apart: two requests that yield the same code asked for the same fields. */
  lemma EpcInjective(prefijo: string, c1: string, g1: string, d1: string, n1: int,
                     c2: string, g2: string, d2: string, n2: int)
    requires EpcRecord(prefijo, c1, g1, d1, n1).Ok? && EpcRecord(prefijo, c2, g2, d2, n2).Ok?
    requires EpcRecord(prefijo, c1, g1, d1, n1).value.epc == EpcRecord(prefijo, c2, g2, d2, n2).value.epc
    ensures c1 == c2 && g1 == g2 && d1 == d2 && n1 == n2
  {
    EpcRecordOutcome(prefijo, c1, g1, d1, n1);
    EpcRecordOutcome(prefijo, c2, g2, d2, n2);
    EpcRoundTrip(prefijo, c1, g1, d1, n1);
    EpcRoundTrip(prefijo, c2, g2, d2, n2);
    var i1 := CategoriaIndex(c1).value;
    var i2 := CategoriaIndex(c2).value;
    assert i1 == i2;
    DistanciaCodigoInjective(d1, d2);
  }

  /** A tag programmed with a generated code is read back as the same text (`bytes.hex().upper()`). */
  lemma EpcReadBack(prefijo: string, categoria: string, genero: string, distancia: string,
                    numero: int)
    requires EpcRecord(prefijo, categoria, genero, distancia, numero).Ok?
    ensures var epc := EpcRecord(prefijo, categoria, genero, distancia, numero).value.epc;
            HexToBytes(epc).Some? && |HexToBytes(epc).value| == 12
            && BytesToHex(HexToBytes(epc).value) == epc
  {
    EpcRecordOutcome(prefijo, categoria, genero, distancia, numero);
    HexTextReadBack(EpcRecord(prefijo, categoria, genero, distancia, numero).value.epc);
  }

  lemma HexTextReadBack(epc: string)
    requires |epc| == 24 && IsUpperHex(epc)
    ensures HexToBytes(epc).Some? && |HexToBytes(epc).value| == 12
            && BytesToHex(HexToBytes(epc).value) == epc
  {
    HexBytesRoundTrip(epc);
  }
}
