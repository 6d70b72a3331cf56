/**
 * Splitting swimmers across categories and genders
 * (generar_epcs.py, EPCGenerator._distribuir_en_categorias and
 * generar_distribucion_automatica). A Python dict is an association list
 * that keeps the order in which keys were first inserted.
 */
module Distribucion {
  import opened Wrappers
  import EpcGenerator

  /** An insertion-ordered dict from category code to count. */
  type Dict = seq<(string, int)>

  function Keys(d: Dict): seq<string>
  {
    seq(|d|, i requires 0 <= i < |d| => d[i].0)
  }

  /** `d[k] = v`: overwrite in place when the key is present, else append. */
  function Put(d: Dict, k: string, v: int): Dict
  {
    if d == [] then [(k, v)]
    else if d[0].0 == k then [(k, v)] + d[1..]
    else [d[0]] + Put(d[1..], k, v)
  }

  /** A new key is appended at the end; a present key keeps its place and the order of all keys. */
  lemma PutShape(d: Dict, k: string, v: int)
    ensures k !in Keys(d) ==> Put(d, k, v) == d + [(k, v)]
    ensures k in Keys(d) ==> |Put(d, k, v)| == |d| && Keys(Put(d, k, v)) == Keys(d)
  {
    if k in Keys(d) {
      PutPresent(d, k, v);
    } else {
      PutAbsent(d, k, v);
    }
  }

  lemma {:induction false} PutAbsent(d: Dict, k: string, v: int)
    requires k !in Keys(d)
    ensures Put(d, k, v) == d + [(k, v)]
  {
    if d != [] {
      var t := d[1..];
      assert Keys(d)[0] == d[0].0;
      assert Keys(t) == Keys(d)[1..];
      PutAbsent(t, k, v);
      assert [d[0]] + (t + [(k, v)]) == d + [(k, v)];
    }
  }

  lemma {:induction false} PutPresent(d: Dict, k: string, v: int)
    requires k in Keys(d)
    ensures |Put(d, k, v)| == |d| && Keys(Put(d, k, v)) == Keys(d)
  {
    var t := d[1..];
    assert Keys(d)[0] == d[0].0;
    assert Keys(t) == Keys(d)[1..];
    var r := Put(d, k, v);
    if d[0].0 != k {
      PutPresent(t, k, v);
      assert r == [d[0]] + Put(t, k, v);
      assert Keys(r) == [d[0].0] + Keys(Put(t, k, v));
    } else {
      assert r == [(k, v)] + t;
      assert Keys(r) == [k] + Keys(t);
    }
  }

  /** `d.get(k)`. */
  function Get(d: Dict, k: string): Option<int>
  {
    if d == [] then None else if d[0].0 == k then Some(d[0].1) else Get(d[1..], k)
  }

  lemma {:induction false} GetPut(d: Dict, k: string, v: int, k': string)
    ensures Get(Put(d, k, v), k') == if k' == k then Some(v) else Get(d, k')
  {
    if d != [] && d[0].0 != k {
      GetPut(d[1..], k, v, k');
      assert (Put(d, k, v))[1..] == Put(d[1..], k, v);
    }
  }

  /** Two assignments to one key leave only the second. */
  lemma {:induction false} PutPut(d: Dict, k: string, v: int, w: int)
    ensures Put(Put(d, k, v), k, w) == Put(d, k, w)
  {
    if d != [] && d[0].0 != k {
      PutPut(d[1..], k, v, w);
      assert Put(d, k, v)[1..] == Put(d[1..], k, v);
    }
  }

  predicate Distinct(cats: seq<string>)
  {
    forall i, j :: 0 <= i < j < |cats| ==> cats[i] != cats[j]
  }

  /** `{cat: 0 for cat in categorias}`. */
  function Ceros(cats: seq<string>): Dict
  {
    if cats == [] then [] else Put(Ceros(cats[..|cats| - 1]), cats[|cats| - 1], 0)
  }

  /** The count the i-th category receives: the base share, plus one for the first `resto`. */
  function Cuota(por: int, resto: int, i: nat): int
  {
    if i < resto then por + 1 else por
  }

  /** The loop of _distribuir_en_categorias over the first |cats| categories. */
  function Reparto(por: int, resto: int, cats: seq<string>): Dict
  {
    if cats == [] then []
    else Put(Reparto(por, resto, cats[..|cats| - 1]), cats[|cats| - 1], Cuota(por, resto, |cats| - 1))
  }

  /** What _distribuir_en_categorias returns. */
  function Distribucion(total: int, cats: seq<string>): Dict
  {
    if total == 0 || cats == [] then Ceros(cats)
    else Reparto(total / |cats|, total % |cats|, cats)
  }

  /**
   * EPCGenerator._distribuir_en_categorias: `total // n` to every category and
   * one more to each of the first `total % n`, assigned in order.
   */
  method DistribuirEnCategorias(total: int, categorias: seq<string>) returns (d: Dict)
    ensures d == Distribucion(total, categorias)
  {
    if total == 0 || |categorias| == 0 {
      return Ceros(categorias);
    }
    var n := |categorias|;
    var porCategoria := total / n;
    var resto := total % n;
    d := [];
    for i := 0 to n
      invariant d == Reparto(porCategoria, resto, categorias[..i])
    {
      var cat := categorias[i];
      ghost var before := d;
      RepartoStep(porCategoria, resto, categorias, i);
      d := Put(d, cat, porCategoria);
      if i < resto {
        ExtraShare(before, cat, porCategoria);
        d := Put(d, cat, Get(d, cat).value + 1);
      }
    }
    assert categorias[..n] == categorias;
  }

  /** `d[cat] += 1` right after `d[cat] = por` is `d[cat] = por + 1`. */
  lemma ExtraShare(d: Dict, cat: string, por: int)
    ensures Get(Put(d, cat, por), cat) == Some(por)
    ensures Put(Put(d, cat, por), cat, por + 1) == Put(d, cat, por + 1)
  {
    GetPut(d, cat, por, cat);
    PutPut(d, cat, por, por + 1);
  }

  /** One more category handed its share. */
  lemma RepartoStep(por: int, resto: int, cats: seq<string>, i: nat)
    requires i < |cats|
    ensures Reparto(por, resto, cats[..i + 1]) == Put(Reparto(por, resto, cats[..i]), cats[i], Cuota(por, resto, i))
  {
    assert cats[..i + 1][..i] == cats[..i];
  }

  /** With distinct categories the dict lists them in order, each with its share. */
  lemma {:induction false} RepartoDistinct(por: int, resto: int, cats: seq<string>)
    requires Distinct(cats)
    ensures var d := Reparto(por, resto, cats);
            |d| == |cats| && forall i :: 0 <= i < |cats| ==> d[i] == (cats[i], Cuota(por, resto, i))
  {
    if cats != [] {
      var n := |cats| - 1;
      var init := cats[..n];
      var k := cats[n];
      assert Distinct(init) by {
        forall i, j | 0 <= i < j < n ensures init[i] != init[j] {
          assert init[i] == cats[i] && init[j] == cats[j];
        }
      }
      RepartoDistinct(por, resto, init);
      var prev := Reparto(por, resto, init);
      assert Keys(prev) == init;
      assert k !in init by {
        forall i | 0 <= i < n ensures init[i] != k {
          assert init[i] == cats[i];
        }
      }
      PutAbsent(prev, k, Cuota(por, resto, n));
      var d := Reparto(por, resto, cats);
      assert d == prev + [(k, Cuota(por, resto, n))];
      forall i | 0 <= i < |cats| ensures d[i] == (cats[i], Cuota(por, resto, i)) {
        if i < n {
          assert d[i] == prev[i] && init[i] == cats[i];
        }
      }
    }
  }

  lemma {:induction false} CerosValues(cats: seq<string>)
    ensures forall i :: 0 <= i < |Ceros(cats)| ==> Ceros(cats)[i].1 == 0
  {
    if cats != [] {
      CerosValues(cats[..|cats| - 1]);
      PutValues(Ceros(cats[..|cats| - 1]), cats[|cats| - 1], 0);
    }
  }

  lemma {:induction false} PutValues(d: Dict, k: string, v: int)
    ensures forall i :: 0 <= i < |Put(d, k, v)| ==> Put(d, k, v)[i] in d || Put(d, k, v)[i] == (k, v)
  {
    if d != [] && d[0].0 != k {
      PutValues(d[1..], k, v);
    }
  }

  /**
   * _distribuir_en_categorias on distinct categories: every category appears
   * once, in order, with `total // n` or `total // n + 1`, the first
   * `total % n` getting the extra one.
   */
  lemma DistribucionShares(total: int, cats: seq<string>)
    requires Distinct(cats) && cats != []
    ensures var d := Distribucion(total, cats);
            && |d| == |cats|
            && forall i :: 0 <= i < |cats| ==>
                 d[i].0 == cats[i]
                 && d[i].1 == (if i < total % |cats| then total / |cats| + 1 else total / |cats|)
  {
    var q := total / |cats|;
    var r := total % |cats|;
    if total == 0 {
      assert q == 0 && r == 0;
      CerosIsReparto(cats);
    }
    RepartoDistinct(q, r, cats);
  }

  /** The all-zero dict is the split of nothing. */
  lemma {:induction false} CerosIsReparto(cats: seq<string>)
    ensures Ceros(cats) == Reparto(0, 0, cats)
  {
    if cats != [] {
      CerosIsReparto(cats[..|cats| - 1]);
    }
  }

  /** Nothing to split gives zero everywhere, whatever the categories. */
  lemma DistribucionZero(cats: seq<string>)
    ensures forall i :: 0 <= i < |Distribucion(0, cats)| ==> Distribucion(0, cats)[i].1 == 0
  {
    CerosValues(cats);
  }

  function SumValues(d: Dict): int
  {
    if d == [] then 0 else SumValues(d[..|d| - 1]) + d[|d| - 1].1
  }

  lemma {:induction false} SumShares(por: int, resto: nat, cats: seq<string>)
    requires Distinct(cats)
    ensures SumValues(Reparto(por, resto, cats)) == |cats| * por + (if resto < |cats| then resto else |cats|)
  {
    if cats != [] {
      var n := |cats|;
      var init := cats[..n - 1];
      var prev := Reparto(por, resto, init);
      SumShares(por, resto, init);
      RepartoDistinct(por, resto, init);
      assert Keys(prev) == init;
      PutShape(prev, cats[n - 1], Cuota(por, resto, n - 1));
      var d := Reparto(por, resto, cats);
      assert d == prev + [(cats[n - 1], Cuota(por, resto, n - 1))];
      assert d[..|d| - 1] == prev;
      assert SumValues(d) == SumValues(prev) + Cuota(por, resto, n - 1);
      MulSucc(n, por);
    }
  }

  lemma MulSucc(n: int, p: int)
    ensures (n - 1) * p + p == n * p
  {
  }

  /** On distinct categories the shares add up to the total. */
  lemma DistribucionSum(total: int, cats: seq<string>)
    requires Distinct(cats) && cats != []
    ensures SumValues(Distribucion(total, cats)) == total
  {
    var q := total / |cats|;
    var r := total % |cats|;
    if total == 0 {
      assert q == 0 && r == 0;
      CerosIsReparto(cats);
    }
    SumShares(q, r, cats);
    assert |cats| * q + r == total;
  }

  /** A repeated category is assigned twice and keeps its last share, so the shares fall short. */
  lemma RepeatedCategoryLosesShare()
    ensures Distribucion(3, ["INF_A", "INF_A"]) == [("INF_A", 1)]
    ensures SumValues(Distribucion(3, ["INF_A", "INF_A"])) == 1
  {
    var cats := ["INF_A", "INF_A"];
    assert cats[..1] == ["INF_A"];
    assert Reparto(1, 1, cats[..1]) == [("INF_A", 2)];
  }

  /** One `(categoria, genero, cantidad)` triple of a race configuration. */
  datatype Grupo = Grupo(categoria: string, genero: string, cantidad: int)

  /** One entry of config_carreras: a distance and its groups. */
  datatype Carrera = Carrera(distancia: string, categorias: seq<Grupo>)

  /**
   * One entry of distancias_config. The optional keys are Options;
   * `cantidad` is optional too, because the source checks for it.
   */
  datatype DistanciaConfig = DistanciaConfig(
    distancia: string, cantidad: Option<int>, cantidadFemenino: Option<int>,
    cantidadMasculino: Option<int>, categoriasEnfoque: Option<seq<string>>)

  /** The ValueErrors (and the KeyError) generar_distribucion_automatica raises. */
  datatype DistribucionError =
    | SinDistancias
    | SinCantidad
    | FaltaCantidad
    | SumaNoCoincide(esperado: int, suma: int)
    | GeneroNoSuma(distancia: string)
    | FemeninoExcede(distancia: string)
    | MasculinoExcede(distancia: string)

  /** `list(CATEGORIAS_FECNA.keys())`. */
  function CodigosFecna(): (codes: seq<string>)
    ensures |codes| == |EpcGenerator.CATEGORIAS_FECNA|
  {
    seq(|EpcGenerator.CATEGORIAS_FECNA|, i requires 0 <= i < |EpcGenerator.CATEGORIAS_FECNA| =>
      EpcGenerator.CATEGORIAS_FECNA[i].codigo)
  }

  lemma CodigosFecnaDistinct()
    ensures Distinct(CodigosFecna()) && CodigosFecna() != []
  {
    var c := CodigosFecna();
    assert c == ["INF_A", "INF_B", "JUV_A", "JUV_B", "JUN_A", "JUN_B",
                 "MAY_A", "MAY_B", "MAS_A", "MAS_B", "MAS_C", "MAS_D"];
  }

  /** `sum(d['cantidad'] for d in distancias_config)`; None where a `cantidad` is missing. */
  function SumaCantidades(cfgs: seq<DistanciaConfig>): (r: Option<int>)
    ensures r.Some? <==> forall i :: 0 <= i < |cfgs| ==> cfgs[i].cantidad.Some?
  {
    if cfgs == [] then Some(0)
    else
      var prev := SumaCantidades(cfgs[..|cfgs| - 1]);
      var last := cfgs[|cfgs| - 1].cantidad;
      if prev.Some? && last.Some? then Some(prev.value + last.value) else None
  }

  /**
   * The female/male split of one distance: both counts given, one of them
   * given, or half and half with the odd swimmer in the male race.
   */
  function Generos(n: int, cf: Option<int>, cm: Option<int>, distancia: string)
    : Result<(int, int), DistribucionError>
  {
    if cf.Some? && cm.Some? then
      if cf.value + cm.value != n then Err(GeneroNoSuma(distancia)) else Ok((cf.value, cm.value))
    else if cf.Some? then
      if n - cf.value < 0 then Err(FemeninoExcede(distancia)) else Ok((cf.value, n - cf.value))
    else if cm.Some? then
      if n - cm.value < 0 then Err(MasculinoExcede(distancia)) else Ok((n - cm.value, cm.value))
    else Ok((n / 2, n - n / 2))
  }

  /** The categories a distance is split over. */
  function CategoriasUsar(dc: DistanciaConfig, usarTodas: bool): seq<string>
  {
    if usarTodas || dc.categoriasEnfoque.None? then CodigosFecna() else dc.categoriasEnfoque.value
  }

  /** The entries of a split with a positive count, as groups of one gender, in dict order. */
  function Positivos(d: Dict, genero: string): seq<Grupo>
  {
    if d == [] then []
    else
      var prev := Positivos(d[..|d| - 1], genero);
      var (cat, cantidad) := d[|d| - 1];
      if cantidad > 0 then prev + [Grupo(cat, genero, cantidad)] else prev
  }

  /** The configuration of one distance, or the error its split raises. */
  function ConfigDistancia(dc: DistanciaConfig, usarTodas: bool): Result<Carrera, DistribucionError>
    requires dc.cantidad.Some?
  {
    var split := Generos(dc.cantidad.value, dc.cantidadFemenino, dc.cantidadMasculino, dc.distancia);
    if split.Err? then Err(split.error)
    else
      var cats := CategoriasUsar(dc, usarTodas);
      Ok(Carrera(dc.distancia, Positivos(Distribucion(split.value.0, cats), "F")
                               + Positivos(Distribucion(split.value.1, cats), "M")))
  }

  /** The outcome of every distance on its own, in order. */
  function Resultados(cfgs: seq<DistanciaConfig>, usarTodas: bool): (rs: seq<Result<Carrera, DistribucionError>>)
    requires forall i :: 0 <= i < |cfgs| ==> cfgs[i].cantidad.Some?
    ensures |rs| == |cfgs|
  {
    seq(|cfgs|, i requires 0 <= i < |cfgs| => ConfigDistancia(cfgs[i], usarTodas))
  }

  /** The values of a run of outcomes, or the first error among them. */
  function Collect<T, E>(rs: seq<Result<T, E>>): Result<seq<T>, E>
  {
    if rs == [] then Ok([])
    else match Collect(rs[..|rs| - 1])
      case Err(e) => Err(e)
      case Ok(vs) =>
        match rs[|rs| - 1]
        case Err(e) => Err(e)
        case Ok(v) => Ok(vs + [v])
  }

  /** The configurations of all distances in order; the first failing distance raises. */
  function Configs(cfgs: seq<DistanciaConfig>, usarTodas: bool): Result<seq<Carrera>, DistribucionError>
    requires forall i :: 0 <= i < |cfgs| ==> cfgs[i].cantidad.Some?
  {
    Collect(Resultados(cfgs, usarTodas))
  }

  /** One more successful outcome extends the collection by its value. */
  lemma CollectStep<T, E>(rs: seq<Result<T, E>>, i: nat, vs: seq<T>)
    requires i < |rs| && Collect(rs[..i]) == Ok(vs) && rs[i].Ok?
    ensures Collect(rs[..i + 1]) == Ok(vs + [rs[i].value])
  {
    assert rs[..i + 1][..i] == rs[..i];
  }

  /** A successful collection holds every value, in order. */
  lemma {:induction false} CollectAt<T, E>(rs: seq<Result<T, E>>, i: nat)
    requires Collect(rs).Ok? && i < |rs|
    ensures |Collect(rs).value| == |rs| && rs[i] == Ok(Collect(rs).value[i])
  {
    var n := |rs| - 1;
    var vs := Collect(rs).value;
    var vs0 := Collect(rs[..n]).value;
    assert vs == vs0 + [rs[n].value];
    if i < n {
      CollectAt(rs[..n], i);
      assert rs[..n][i] == rs[i];
      assert vs[i] == vs0[i];
    } else if n > 0 {
      CollectAt(rs[..n], 0);
    }
  }

  /** The first error of a run of outcomes is the error of the whole. */
  lemma {:induction false} CollectStop<T, E>(rs: seq<Result<T, E>>, i: nat)
    requires i < |rs| && Collect(rs[..i]).Ok? && rs[i].Err?
    ensures Collect(rs) == Err(rs[i].error)
    decreases |rs|
  {
    if i == |rs| - 1 {
      assert rs[..|rs| - 1] == rs[..i];
    } else {
      assert rs[..|rs| - 1][..i] == rs[..i];
      CollectStop(rs[..|rs| - 1], i);
    }
  }

  /** What generar_distribucion_automatica returns or raises. */
  function DistribucionAutomatica(total: int, cfgs: seq<DistanciaConfig>, usarTodas: bool)
    : Result<seq<Carrera>, DistribucionError>
  {
    if cfgs == [] then Err(SinDistancias)
    else if cfgs[0].cantidad.None? then Err(SinCantidad)
    else match SumaCantidades(cfgs)
      case None => Err(FaltaCantidad)
      case Some(suma) => if suma != total then Err(SumaNoCoincide(total, suma)) else Configs(cfgs, usarTodas)
  }

  /** Appends the positive entries of a split, as generar_distribucion_automatica's inner loop does. */
  method AgregarPositivos(lista: seq<Grupo>, d: Dict, genero: string) returns (r: seq<Grupo>)
    ensures r == lista + Positivos(d, genero)
  {
    r := lista;
    for k := 0 to |d|
      invariant r == lista + Positivos(d[..k], genero)
    {
      assert d[..k + 1][..k] == d[..k];
      var (categoria, cantidad) := d[k];
      if cantidad > 0 {
        r := r + [Grupo(categoria, genero, cantidad)];
      }
    }
    assert d[..|d|] == d;
  }

  /**
   * EPCGenerator.generar_distribucion_automatica: checks the distances and
   * their counts, then splits each distance by gender and across categories.
   */
  method GenerarDistribucionAutomatica(total: int, cfgs: seq<DistanciaConfig>, usarTodas: bool)
    returns (r: Result<seq<Carrera>, DistribucionError>)
    ensures r == DistribucionAutomatica(total, cfgs, usarTodas)
  {
    if |cfgs| == 0 {
      return Err(SinDistancias);
    }
    if cfgs[0].cantidad.None? {
      return Err(SinCantidad);
    }
    var totalCantidad := SumarCantidades(cfgs);
    if totalCantidad.None? {
      return Err(FaltaCantidad);
    }
    if totalCantidad.value != total {
      return Err(SumaNoCoincide(total, totalCantidad.value));
    }
    r := ConfigurarDistancias(cfgs, usarTodas);
  }

  /** The loop over distancias_config, once the counts are known to add up. */
  method ConfigurarDistancias(cfgs: seq<DistanciaConfig>, usarTodas: bool)
    returns (r: Result<seq<Carrera>, DistribucionError>)
    requires forall i :: 0 <= i < |cfgs| ==> cfgs[i].cantidad.Some?
    ensures r == Configs(cfgs, usarTodas)
  {
    ghost var rs := Resultados(cfgs, usarTodas);
    var configCarreras: seq<Carrera> := [];
    for i := 0 to |cfgs|
      invariant Collect(rs[..i]) == Ok(configCarreras)
    {
      var carrera := ConfigurarDistancia(cfgs[i], usarTodas);
      assert carrera == rs[i];
      if carrera.Err? {
        CollectStop(rs, i);
        return Err(carrera.error);
      }
      CollectStep(rs, i, configCarreras);
      configCarreras := configCarreras + [carrera.value];
    }
    assert rs[..|cfgs|] == rs;
    assert Configs(cfgs, usarTodas) == Collect(rs);
    r := Ok(configCarreras);
  }

  /** The body of the loop over distancias_config: one distance's split and groups. */
  method ConfigurarDistancia(dc: DistanciaConfig, usarTodas: bool) returns (r: Result<Carrera, DistribucionError>)
    requires dc.cantidad.Some?
    ensures r == ConfigDistancia(dc, usarTodas)
  {
    var distancia := dc.distancia;
    var nadadores := dc.cantidad.value;
    var categoriasUsar := if usarTodas then CodigosFecna()
                          else if dc.categoriasEnfoque.Some? then dc.categoriasEnfoque.value
                          else CodigosFecna();
    var split := DividirGeneros(nadadores, dc.cantidadFemenino, dc.cantidadMasculino, distancia);
    if split.Err? {
      return Err(split.error);
    }
    var (femenino, masculino) := split.value;
    assert categoriasUsar == CategoriasUsar(dc, usarTodas);
    var porGeneroF := DistribuirEnCategorias(femenino, categoriasUsar);
    var porGeneroM := DistribuirEnCategorias(masculino, categoriasUsar);
    var categoriasLista := AgregarPositivos([], porGeneroF, "F");
    assert categoriasLista == Positivos(porGeneroF, "F");
    categoriasLista := AgregarPositivos(categoriasLista, porGeneroM, "M");
    r := Ok(Carrera(distancia, categoriasLista));
  }

  /** `sum(d['cantidad'] for d in distancias_config)`, None for the KeyError of a missing count. */
  method SumarCantidades(cfgs: seq<DistanciaConfig>) returns (r: Option<int>)
    ensures r == SumaCantidades(cfgs)
  {
    var totalCantidad := 0;
    for i := 0 to |cfgs|
      invariant SumaCantidades(cfgs[..i]) == Some(totalCantidad)
    {
      assert cfgs[..i + 1][..i] == cfgs[..i];
      if cfgs[i].cantidad.None? {
        return None;
      }
      totalCantidad := totalCantidad + cfgs[i].cantidad.value;
    }
    assert cfgs[..|cfgs|] == cfgs;
    r := Some(totalCantidad);
  }

  /** The female/male branch of the loop body, raising as the source does. */
  method DividirGeneros(nadadores: int, cf: Option<int>, cm: Option<int>, distancia: string)
    returns (r: Result<(int, int), DistribucionError>)
    ensures r == Generos(nadadores, cf, cm, distancia)
  {
    var femenino: int;
    var masculino: int;
    if cf.Some? && cm.Some? {
      if cf.value + cm.value != nadadores {
        return Err(GeneroNoSuma(distancia));
      }
      femenino := cf.value;
      masculino := cm.value;
    } else if cf.Some? {
      femenino := cf.value;
      masculino := nadadores - femenino;
      if masculino < 0 {
        return Err(FemeninoExcede(distancia));
      }
    } else if cm.Some? {
      masculino := cm.value;
      femenino := nadadores - masculino;
      if femenino < 0 {
        return Err(MasculinoExcede(distancia));
      }
    } else {
      femenino := nadadores / 2;
      masculino := nadadores - femenino;
    }
    r := Ok((femenino, masculino));
  }

  /**
   * The gender split raises exactly when the given counts contradict the
   * distance's count; otherwise the two parts add up to it, a given count is
   * kept, and with none given the female half is `n // 2`.
   */
  lemma GenerosSplit(n: int, cf: Option<int>, cm: Option<int>, distancia: string)
    ensures var r := Generos(n, cf, cm, distancia);
            && (r.Err? <==> (cf.Some? && cm.Some? && cf.value + cm.value != n)
                            || (cf.Some? && cm.None? && cf.value > n)
                            || (cf.None? && cm.Some? && cm.value > n))
            && (r.Ok? ==> r.value.0 + r.value.1 == n)
            && (r.Ok? && cf.Some? ==> r.value.0 == cf.value)
            && (r.Ok? && cm.Some? ==> r.value.1 == cm.value)
            && (r.Ok? && cf.Some? && cm.None? ==> r.value.1 >= 0)
            && (r.Ok? && cf.None? && cm.Some? ==> r.value.0 >= 0)
            && (cf.None? && cm.None? ==> r == Ok((n / 2, n - n / 2)))
  {
  }

  /**
   * generar_distribucion_automatica raises for an empty configuration, a
   * first distance without `cantidad`, and counts that do not add up to the
   * total; when it succeeds there is one configuration per distance, in
   * order, and every distance's gender split succeeded.
   */
  lemma {:induction false} AutomaticaOutcome(total: int, cfgs: seq<DistanciaConfig>, usarTodas: bool)
    ensures var r := DistribucionAutomatica(total, cfgs, usarTodas);
            && (cfgs == [] ==> r == Err(SinDistancias))
            && (cfgs != [] && cfgs[0].cantidad.None? ==> r == Err(SinCantidad))
            && (cfgs != [] && SumaCantidades(cfgs).Some? && SumaCantidades(cfgs).value != total ==>
                  r == Err(SumaNoCoincide(total, SumaCantidades(cfgs).value)))
            && (r.Ok? ==> SumaCantidades(cfgs) == Some(total) && |r.value| == |cfgs|
                          && forall i :: 0 <= i < |cfgs| ==>
                               && cfgs[i].cantidad.Some?
                               && ConfigDistancia(cfgs[i], usarTodas) == Ok(r.value[i])
                               && r.value[i].distancia == cfgs[i].distancia)
  {
    var r := DistribucionAutomatica(total, cfgs, usarTodas);
    if r.Ok? {
      var rs := Resultados(cfgs, usarTodas);
      CollectAt(rs, 0);
      forall i | 0 <= i < |cfgs|
        ensures ConfigDistancia(cfgs[i], usarTodas) == Ok(r.value[i])
      {
        CollectAt(rs, i);
      }
    }
  }

  /** The groups emitted from one split have positive counts and its gender. */
  lemma {:induction false} PositivosShape(d: Dict, genero: string)
    ensures forall g :: g in Positivos(d, genero) ==> g.cantidad > 0 && g.genero == genero
  {
    if d != [] {
      PositivosShape(d[..|d| - 1], genero);
    }
  }

  function SumGrupos(gs: seq<Grupo>): int
  {
    if gs == [] then 0 else SumGrupos(gs[..|gs| - 1]) + gs[|gs| - 1].cantidad
  }

  lemma {:induction false} SumGruposConcat(a: seq<Grupo>, b: seq<Grupo>)
    ensures SumGrupos(a + b) == SumGrupos(a) + SumGrupos(b)
  {
    if b == [] {
      assert a + b == a;
    } else {
      SumGruposConcat(a, b[..|b| - 1]);
      assert (a + b)[..|a + b| - 1] == a + b[..|b| - 1];
    }
  }

  /** The sum of the positive counts of a split. */
  function SumPos(d: Dict): int
  {
    if d == [] then 0 else SumPos(d[..|d| - 1]) + (if d[|d| - 1].1 > 0 then d[|d| - 1].1 else 0)
  }

  lemma {:induction false} SumGruposPositivos(d: Dict, genero: string)
    ensures SumGrupos(Positivos(d, genero)) == SumPos(d)
  {
    if d != [] {
      SumGruposPositivos(d[..|d| - 1], genero);
      var prev := Positivos(d[..|d| - 1], genero);
      if d[|d| - 1].1 > 0 {
        assert (prev + [Grupo(d[|d| - 1].0, genero, d[|d| - 1].1)])[..|prev|] == prev;
      }
    }
  }

  lemma {:induction false} SumPosNonNeg(d: Dict)
    requires forall i :: 0 <= i < |d| ==> d[i].1 >= 0
    ensures SumPos(d) == SumValues(d)
  {
    if d != [] {
      SumPosNonNeg(d[..|d| - 1]);
    }
  }

  lemma {:induction false} SumPosNonPos(d: Dict)
    requires forall i :: 0 <= i < |d| ==> d[i].1 <= 0
    ensures SumPos(d) == 0
  {
    if d != [] {
      SumPosNonPos(d[..|d| - 1]);
    }
  }

  lemma DivSign(total: int, n: int)
    requires n > 0
    ensures total >= 0 ==> total / n >= 0
    ensures total < 0 ==> total / n < 0
  {
    assert total == n * (total / n) + total % n;
  }

  /** Every value of a split of distinct categories is the base share or one more. */
  lemma DistribucionBounds(total: int, cats: seq<string>)
    requires Distinct(cats) && cats != []
    ensures var d := Distribucion(total, cats);
            forall i :: 0 <= i < |d| ==> total / |cats| <= d[i].1 <= total / |cats| + 1
  {
    DistribucionShares(total, cats);
  }

  /** On distinct categories the positive shares add up to the total, or to nothing when it is negative. */
  lemma SumPosDistribucion(total: int, cats: seq<string>)
    requires Distinct(cats) && cats != []
    ensures SumPos(Distribucion(total, cats)) == if total > 0 then total else 0
  {
    var d := Distribucion(total, cats);
    DistribucionBounds(total, cats);
    DivSign(total, |cats|);
    if total >= 0 {
      DistribucionSum(total, cats);
      SumPosNonNeg(d);
    } else {
      SumPosNonPos(d);
    }
  }

  /** The counts given for a distance are not negative. */
  predicate CuentasNoNegativas(dc: DistanciaConfig)
  {
    && (dc.cantidad.Some? ==> dc.cantidad.value >= 0)
    && (dc.cantidadFemenino.Some? ==> dc.cantidadFemenino.value >= 0)
    && (dc.cantidadMasculino.Some? ==> dc.cantidadMasculino.value >= 0)
  }

  /** The categories a distance is split over are non-empty and distinct. */
  predicate CategoriasValidas(dc: DistanciaConfig, usarTodas: bool)
  {
    Distinct(CategoriasUsar(dc, usarTodas)) && CategoriasUsar(dc, usarTodas) != []
  }

  /**
   * One distance's configuration: positive counts, all female groups before
   * all male ones, and, over distinct categories with non-negative counts,
   * exactly the distance's count of swimmers.
   */
  lemma ConfigDistanciaShape(dc: DistanciaConfig, usarTodas: bool)
    requires dc.cantidad.Some? && ConfigDistancia(dc, usarTodas).Ok?
    ensures var gs := ConfigDistancia(dc, usarTodas).value.categorias;
            && (forall i :: 0 <= i < |gs| ==> gs[i].cantidad > 0 && (gs[i].genero == "F" || gs[i].genero == "M"))
            && (forall i, j :: 0 <= i < j < |gs| && gs[j].genero == "F" ==> gs[i].genero == "F")
  {
    var split := Generos(dc.cantidad.value, dc.cantidadFemenino, dc.cantidadMasculino, dc.distancia).value;
    var cats := CategoriasUsar(dc, usarTodas);
    var gs := ConfigDistancia(dc, usarTodas).value.categorias;
    var df := Distribucion(split.0, cats);
    var dm := Distribucion(split.1, cats);
    GruposOrdered(df, dm, gs);
  }

  lemma GruposOrdered(df: Dict, dm: Dict, gs: seq<Grupo>)
    requires gs == Positivos(df, "F") + Positivos(dm, "M")
    ensures && (forall i :: 0 <= i < |gs| ==> gs[i].cantidad > 0 && (gs[i].genero == "F" || gs[i].genero == "M"))
            && (forall i, j :: 0 <= i < j < |gs| && gs[j].genero == "F" ==> gs[i].genero == "F")
  {
    var pf := Positivos(df, "F");
    var pm := Positivos(dm, "M");
    PositivosShape(df, "F");
    PositivosShape(dm, "M");
    forall i | 0 <= i < |gs| ensures (i < |pf| && gs[i] in pf && gs[i].genero == "F") || (i >= |pf| && gs[i] in pm && gs[i].genero == "M") {
      if i < |pf| {
        assert gs[i] == pf[i];
      } else {
        assert gs[i] == pm[i - |pf|];
      }
    }
  }

  /**
   * Over distinct categories with non-negative counts, one distance's groups
   * hold exactly the distance's count of swimmers.
   */
  lemma ConfigDistanciaCount(dc: DistanciaConfig, usarTodas: bool)
    requires dc.cantidad.Some? && ConfigDistancia(dc, usarTodas).Ok?
    requires CuentasNoNegativas(dc) && CategoriasValidas(dc, usarTodas)
    ensures SumGrupos(ConfigDistancia(dc, usarTodas).value.categorias) == dc.cantidad.value
  {
    var split := Generos(dc.cantidad.value, dc.cantidadFemenino, dc.cantidadMasculino, dc.distancia).value;
    GenerosSplit(dc.cantidad.value, dc.cantidadFemenino, dc.cantidadMasculino, dc.distancia);
    var cats := CategoriasUsar(dc, usarTodas);
    var df := Distribucion(split.0, cats);
    var dm := Distribucion(split.1, cats);
    SumGruposConcat(Positivos(df, "F"), Positivos(dm, "M"));
    SumGruposPositivos(df, "F");
    SumGruposPositivos(dm, "M");
    SumPosDistribucion(split.0, cats);
    SumPosDistribucion(split.1, cats);
  }

  function SumCarreras(cs: seq<Carrera>): int
  {
    if cs == [] then 0 else SumCarreras(cs[..|cs| - 1]) + SumGrupos(cs[|cs| - 1].categorias)
  }

  /**
   * The distribution places exactly total_nadadores swimmers when every
   * distance's counts are non-negative and its categories are distinct
   * (always the case when all FECNA categories are used).
   */
  lemma AutomaticaTotal(total: int, cfgs: seq<DistanciaConfig>, usarTodas: bool)
    requires DistribucionAutomatica(total, cfgs, usarTodas).Ok?
    requires forall i :: 0 <= i < |cfgs| ==> CuentasNoNegativas(cfgs[i]) && CategoriasValidas(cfgs[i], usarTodas)
    ensures SumCarreras(DistribucionAutomatica(total, cfgs, usarTodas).value) == total
  {
    AutomaticaOutcome(total, cfgs, usarTodas);
    var cs := DistribucionAutomatica(total, cfgs, usarTodas).value;
    forall i | 0 <= i < |cfgs|
      ensures SumGrupos(cs[i].categorias) == cfgs[i].cantidad.value
    {
      ConfigDistanciaCount(cfgs[i], usarTodas);
    }
    SumCarrerasCantidades(cfgs, cs);
  }

  lemma {:induction false} SumCarrerasCantidades(cfgs: seq<DistanciaConfig>, cs: seq<Carrera>)
    requires |cs| == |cfgs|
    requires forall i :: 0 <= i < |cfgs| ==>
               cfgs[i].cantidad.Some? && SumGrupos(cs[i].categorias) == cfgs[i].cantidad.value
    ensures SumaCantidades(cfgs) == Some(SumCarreras(cs))
  {
    if cfgs != [] {
      var n := |cfgs| - 1;
      SumCarrerasCantidades(cfgs[..n], cs[..n]);
    }
  }

  /** With every FECNA category in use, the category condition always holds. */
  lemma TodasCategoriasValidas(dc: DistanciaConfig)
    ensures CategoriasValidas(dc, true)
  {
    CodigosFecnaDistinct();
  }
}
