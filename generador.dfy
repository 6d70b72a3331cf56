/**
 * The stateful part of the EPC generator (generar_epcs.py, EPCGenerator):
 * the event prefix, the log of generated tags, single codes and batches.
 */
module Generador {
  import opened Wrappers
  import opened EpcGenerator
  import opened Distribucion

  /** One call of generar_epc that a batch makes. */
  datatype Peticion = Peticion(categoria: string, genero: string, distancia: string, numero: int)

  /** The calls for one group: runner numbers 1..cantidad, none when cantidad < 1. */
  function GroupRequests(distancia: string, g: Grupo, n: int): (ps: seq<Peticion>)
    ensures |ps| == if n > 0 then n else 0
    decreases if n > 0 then n else 0
  {
    if n <= 0 then [] else GroupRequests(distancia, g, n - 1) + [Peticion(g.categoria, g.genero, distancia, n)]
  }

  /** The calls for one distance, group after group. */
  function CarreraRequests(distancia: string, gs: seq<Grupo>): seq<Peticion>
  {
    if gs == [] then []
    else CarreraRequests(distancia, gs[..|gs| - 1]) + GroupRequests(distancia, gs[|gs| - 1], gs[|gs| - 1].cantidad)
  }

  /** The calls generar_lote_carreras makes, in order. */
  function Requests(cs: seq<Carrera>): seq<Peticion>
  {
    if cs == [] then []
    else Requests(cs[..|cs| - 1]) + CarreraRequests(cs[|cs| - 1].distancia, cs[|cs| - 1].categorias)
  }

  /** Values produced so far, and the error that stopped the run, if any. */
  datatype Lote<T, E> = Lote(tags: seq<T>, error: Option<E>)

  /** Taking outcomes in order until the first error. */
  function Run<T, E>(rs: seq<Result<T, E>>): Lote<T, E>
  {
    if rs == [] then Lote([], None)
    else
      var prev := Run(rs[..|rs| - 1]);
      if prev.error.Some? then prev
      else match rs[|rs| - 1]
        case Ok(t) => Lote(prev.tags + [t], None)
        case Err(e) => Lote(prev.tags, Some(e))
  }

  /** What each call of a batch returns or raises, taken on its own. */
  function Records(prefijo: string, ps: seq<Peticion>): (rs: seq<Result<TagInfo, EpcError>>)
    ensures |rs| == |ps|
  {
    seq(|ps|, i requires 0 <= i < |ps| =>
      EpcRecord(prefijo, ps[i].categoria, ps[i].genero, ps[i].distancia, ps[i].numero))
  }

  /** Running the calls in order until one raises. */
  function RunAll(prefijo: string, ps: seq<Peticion>): Lote<TagInfo, EpcError>
  {
    Run(Records(prefijo, ps))
  }

  class EPCGenerator {
    var prefijoEvento: string
    var tagsGenerados: seq<TagInfo>

    /** EPCGenerator.__init__. */
    constructor (prefijo: string)
      ensures prefijoEvento == prefijo && tagsGenerados == []
    {
      prefijoEvento := prefijo;
      tagsGenerados := [];
    }

    /**
     * EPCGenerator.generar_epc: validates the request, lays out the code,
     * appends the record to tags_generados and returns it.
     */
    method GenerarEpc(categoria: string, genero: string, distancia: string, numero: int)
      returns (r: Result<TagInfo, EpcError>)
      modifies this
      ensures prefijoEvento == old(prefijoEvento)
      ensures r == EpcRecord(prefijoEvento, categoria, genero, distancia, numero)
      ensures tagsGenerados == old(tagsGenerados) + (if r.Ok? then [r.value] else [])
    {
      var ci := CategoriaIndex(categoria);
      if ci.None? {
        return Err(CategoriaInvalida(categoria));
      }
      var gn := GeneroNombre(genero);
      if gn.None? {
        return Err(GeneroInvalido(genero));
      }
      var dm := DistanciaMetros(distancia);
      if dm.None? {
        return Err(DistanciaInvalida(distancia));
      }
      if !(1 <= numero <= 999) {
        return Err(NumeroFueraDeRango(numero));
      }
      var epcSinCheck := EpcSinCheck(prefijoEvento, ci.value, genero, distancia, numero);
      if |epcSinCheck| != 22 {
        return Err(ErrorInterno(|epcSinCheck|));
      }
      var checksum := CalcularChecksum(epcSinCheck);
      if checksum.Err? {
        return Err(checksum.error);
      }
      var epcCompleto := epcSinCheck + checksum.value;
      var cat := CATEGORIAS_FECNA[ci.value];
      var tagInfo := TagInfo(epcCompleto, FormatoEpcLegible(epcCompleto), numero, categoria,
                             cat.nombre, cat.edadMin, cat.edadMax, gn.value, genero, dm.value,
                             distancia, prefijoEvento, checksum.value);
      tagsGenerados := tagsGenerados + [tagInfo];
      r := Ok(tagInfo);
    }

    /**
     * EPCGenerator.generar_lote_carreras: one generar_epc per runner number
     * of every group of every distance. A raising call ends the batch; the
     * tags generated before it stay in tags_generados.
     */
    method GenerarLoteCarreras(config: seq<Carrera>) returns (r: Result<seq<TagInfo>, EpcError>)
      modifies this
      ensures prefijoEvento == old(prefijoEvento)
      ensures tagsGenerados == old(tagsGenerados) + RunAll(prefijoEvento, Requests(config)).tags
      ensures r.Ok? <==> RunAll(prefijoEvento, Requests(config)).error.None?
      ensures r.Ok? ==> r.value == RunAll(prefijoEvento, Requests(config)).tags
      ensures r.Err? ==> RunAll(prefijoEvento, Requests(config)).error == Some(r.error)
    {
      var tags: seq<TagInfo> := [];
      for c := 0 to |config|
        invariant prefijoEvento == old(prefijoEvento)
        invariant RunAll(prefijoEvento, Requests(config[..c])) == Lote(tags, None)
        invariant tagsGenerados == old(tagsGenerados) + tags
      {
        var lote := GenerarCarrera(config[c].distancia, config[c].categorias);
        assert config[..c + 1][..c] == config[..c];
        RunAllConcat(prefijoEvento, Requests(config[..c]),
                     CarreraRequests(config[c].distancia, config[c].categorias));
        assert Requests(config[..c + 1])
               == Requests(config[..c]) + CarreraRequests(config[c].distancia, config[c].categorias);
        ConcatAssoc3(old(tagsGenerados), tags, lote.tags);
        tags := tags + lote.tags;
        if lote.error.Some? {
          RequestsPrefix(config, c + 1);
          RunAllStops(prefijoEvento, Requests(config[..c + 1]), Requests(config));
          return Err(lote.error.value);
        }
      }
      assert config[..|config|] == config;
      r := Ok(tags);
    }

    /** The loop over one distance's groups in generar_lote_carreras. */
    method GenerarCarrera(distancia: string, grupos: seq<Grupo>) returns (lote: Lote<TagInfo, EpcError>)
      modifies this
      ensures prefijoEvento == old(prefijoEvento)
      ensures lote == RunAll(prefijoEvento, CarreraRequests(distancia, grupos))
      ensures tagsGenerados == old(tagsGenerados) + lote.tags
    {
      var tags: seq<TagInfo> := [];
      for j := 0 to |grupos|
        invariant prefijoEvento == old(prefijoEvento)
        invariant RunAll(prefijoEvento, CarreraRequests(distancia, grupos[..j])) == Lote(tags, None)
        invariant tagsGenerados == old(tagsGenerados) + tags
      {
        var grupo := GenerarGrupo(distancia, grupos[j]);
        assert grupos[..j + 1][..j] == grupos[..j];
        RunAllConcat(prefijoEvento, CarreraRequests(distancia, grupos[..j]),
                     GroupRequests(distancia, grupos[j], grupos[j].cantidad));
        assert CarreraRequests(distancia, grupos[..j + 1])
               == CarreraRequests(distancia, grupos[..j]) + GroupRequests(distancia, grupos[j], grupos[j].cantidad);
        ConcatAssoc3(old(tagsGenerados), tags, grupo.tags);
        tags := tags + grupo.tags;
        if grupo.error.Some? {
          CarreraPrefix(distancia, grupos, j + 1);
          RunAllStops(prefijoEvento, CarreraRequests(distancia, grupos[..j + 1]),
                      CarreraRequests(distancia, grupos));
          return Lote(tags, grupo.error);
        }
      }
      assert grupos[..|grupos|] == grupos;
      lote := Lote(tags, None);
    }

    /** The innermost loop of generar_lote_carreras: runner numbers 1..cantidad of one group. */
    method GenerarGrupo(distancia: string, g: Grupo) returns (lote: Lote<TagInfo, EpcError>)
      modifies this
      ensures prefijoEvento == old(prefijoEvento)
      ensures lote == RunAll(prefijoEvento, GroupRequests(distancia, g, g.cantidad))
      ensures tagsGenerados == old(tagsGenerados) + lote.tags
    {
      var tags: seq<TagInfo> := [];
      var i := 1;
      while i <= g.cantidad
        invariant prefijoEvento == old(prefijoEvento)
        invariant GroupSoFar(prefijoEvento, distancia, g, i, tags)
        invariant tagsGenerados == old(tagsGenerados) + tags
        decreases g.cantidad - i
      {
        var tag := GenerarEpc(g.categoria, g.genero, distancia, i);
        GroupStep(prefijoEvento, distancia, g, i, tags);
        if tag.Err? {
          return Lote(tags, Some(tag.error));
        }
        tags := tags + [tag.value];
        i := i + 1;
      }
      GroupDone(prefijoEvento, distancia, g, i, tags);
      lote := Lote(tags, None);
    }
  }

  /** The group loop before runner number `i`: the numbers below it have run without raising. */
  ghost predicate GroupSoFar(prefijo: string, distancia: string, g: Grupo, i: int, tags: seq<TagInfo>)
  {
    1 <= i <= (if g.cantidad > 0 then g.cantidad else 0) + 1
    && RunAll(prefijo, GroupRequests(distancia, g, i - 1)) == Lote(tags, None)
  }

  /** One runner number of a group: either the run grows by its tag, or it raises and the group's run ends there. */
  lemma GroupStep(prefijo: string, distancia: string, g: Grupo, i: int, tags: seq<TagInfo>)
    requires GroupSoFar(prefijo, distancia, g, i, tags) && i <= g.cantidad
    ensures var r := EpcRecord(prefijo, g.categoria, g.genero, distancia, i);
            && (r.Ok? ==> GroupSoFar(prefijo, distancia, g, i + 1, tags + [r.value]))
            && (r.Err? ==> RunAll(prefijo, GroupRequests(distancia, g, g.cantidad)) == Lote(tags, Some(r.error)))
  {
    var q := Peticion(g.categoria, g.genero, distancia, i);
    RunAllSnoc(prefijo, GroupRequests(distancia, g, i - 1), q);
    assert GroupRequests(distancia, g, i) == GroupRequests(distancia, g, i - 1) + [q];
    if EpcRecord(prefijo, g.categoria, g.genero, distancia, i).Err? {
      GroupPrefix(distancia, g, i, g.cantidad);
      RunAllStops(prefijo, GroupRequests(distancia, g, i), GroupRequests(distancia, g, g.cantidad));
    }
  }

  lemma GroupDone(prefijo: string, distancia: string, g: Grupo, i: int, tags: seq<TagInfo>)
    requires GroupSoFar(prefijo, distancia, g, i, tags) && i > g.cantidad
    ensures RunAll(prefijo, GroupRequests(distancia, g, g.cantidad)) == Lote(tags, None)
  {
    assert GroupRequests(distancia, g, i - 1) == GroupRequests(distancia, g, g.cantidad);
  }

  lemma {:induction false} RunConcat<T, E>(p: seq<Result<T, E>>, q: seq<Result<T, E>>)
    requires Run(p).error.None?
    ensures Run(p + q) == Lote(Run(p).tags + Run(q).tags, Run(q).error)
  {
    if q == [] {
      assert p + q == p;
    } else {
      var q0 := q[..|q| - 1];
      RunConcat(p, q0);
      assert (p + q)[..|p + q| - 1] == p + q0;
      if Run(q0).error.None? && q[|q| - 1].Ok? {
        ConcatAssoc3(Run(p).tags, Run(q0).tags, [q[|q| - 1].value]);
      }
    }
  }

  lemma RecordsConcat(prefijo: string, p: seq<Peticion>, q: seq<Peticion>)
    ensures Records(prefijo, p + q) == Records(prefijo, p) + Records(prefijo, q)
  {
  }

  /** Running two lists of calls one after the other, when the first one does not raise. */
  lemma RunAllConcat(prefijo: string, p: seq<Peticion>, q: seq<Peticion>)
    requires RunAll(prefijo, p).error.None?
    ensures RunAll(prefijo, p + q) == Lote(RunAll(prefijo, p).tags + RunAll(prefijo, q).tags, RunAll(prefijo, q).error)
  {
    RecordsConcat(prefijo, p, q);
    RunConcat(Records(prefijo, p), Records(prefijo, q));
  }

  /** One more call after a run that has not raised. */
  lemma RunAllSnoc(prefijo: string, p: seq<Peticion>, q: Peticion)
    requires RunAll(prefijo, p).error.None?
    ensures var r := EpcRecord(prefijo, q.categoria, q.genero, q.distancia, q.numero);
            RunAll(prefijo, p + [q])
            == if r.Ok? then Lote(RunAll(prefijo, p).tags + [r.value], None)
               else Lote(RunAll(prefijo, p).tags, Some(r.error))
  {
    RecordsConcat(prefijo, p, [q]);
    var rs := Records(prefijo, p + [q]);
    assert rs[..|rs| - 1] == Records(prefijo, p);
  }

  lemma ConcatAssoc3<T>(a: seq<T>, b: seq<T>, c: seq<T>)
    ensures a + b + c == a + (b + c)
  {
  }

  ghost predicate IsPrefix<T>(p: seq<T>, s: seq<T>)
  {
    |p| <= |s| && s[..|p|] == p
  }

  lemma {:induction false} RunStops<T, E>(p: seq<Result<T, E>>, s: seq<Result<T, E>>)
    requires IsPrefix(p, s) && Run(p).error.Some?
    ensures Run(s) == Run(p)
    decreases |s|
  {
    if |s| > |p| {
      assert IsPrefix(p, s[..|s| - 1]);
      RunStops(p, s[..|s| - 1]);
    } else {
      assert s == p;
    }
  }

  /** Once a run has raised, later calls change nothing. */
  lemma RunAllStops(prefijo: string, p: seq<Peticion>, s: seq<Peticion>)
    requires IsPrefix(p, s) && RunAll(prefijo, p).error.Some?
    ensures RunAll(prefijo, s) == RunAll(prefijo, p)
  {
    assert s == p + s[|p|..];
    RecordsConcat(prefijo, p, s[|p|..]);
    RunStops(Records(prefijo, p), Records(prefijo, s));
  }

  lemma PrefixAppend<T>(a: seq<T>, p: seq<T>, s: seq<T>)
    requires IsPrefix(p, s)
    ensures IsPrefix(a + p, a + s)
  {
    assert (a + s)[..|a + p|] == a + s[..|p|];
  }

  lemma PrefixTrans<T>(p: seq<T>, q: seq<T>, s: seq<T>)
    requires IsPrefix(p, q) && IsPrefix(q, s)
    ensures IsPrefix(p, s)
  {
    assert s[..|p|] == s[..|q|][..|p|];
  }

  lemma {:induction false} GroupPrefix(distancia: string, g: Grupo, i: nat, n: int)
    requires i <= n
    ensures IsPrefix(GroupRequests(distancia, g, i), GroupRequests(distancia, g, n))
    decreases n - i
  {
    if i < n {
      GroupPrefix(distancia, g, i, n - 1);
      PrefixTrans(GroupRequests(distancia, g, i), GroupRequests(distancia, g, n - 1),
                  GroupRequests(distancia, g, n));
    }
  }

  lemma {:induction false} CarreraPrefix(distancia: string, gs: seq<Grupo>, j: nat)
    requires j <= |gs|
    ensures IsPrefix(CarreraRequests(distancia, gs[..j]), CarreraRequests(distancia, gs))
    decreases |gs| - j
  {
    if j < |gs| {
      var init := gs[..|gs| - 1];
      assert init[..j] == gs[..j];
      CarreraPrefix(distancia, init, j);
      PrefixTrans(CarreraRequests(distancia, gs[..j]), CarreraRequests(distancia, init),
                  CarreraRequests(distancia, gs));
    } else {
      assert gs[..j] == gs;
    }
  }

  lemma {:induction false} RequestsPrefix(cs: seq<Carrera>, c: nat)
    requires c <= |cs|
    ensures IsPrefix(Requests(cs[..c]), Requests(cs))
    decreases |cs| - c
  {
    if c < |cs| {
      var init := cs[..|cs| - 1];
      assert init[..c] == cs[..c];
      RequestsPrefix(init, c);
      PrefixTrans(Requests(cs[..c]), Requests(init), Requests(cs));
    } else {
      assert cs[..c] == cs;
    }
  }

  /** A run without error took every outcome, in order. */
  lemma {:induction false} RunComplete<T, E>(rs: seq<Result<T, E>>)
    requires Run(rs).error.None?
    ensures |Run(rs).tags| == |rs| && forall k :: 0 <= k < |rs| ==> rs[k] == Ok(Run(rs).tags[k])
  {
    if rs != [] {
      var n := |rs| - 1;
      RunComplete(rs[..n]);
      var prev := Run(rs[..n]);
      assert Run(rs).tags == prev.tags + [rs[n].value];
      forall k | 0 <= k < n ensures rs[k] == Ok(Run(rs).tags[k]) {
        assert rs[..n][k] == rs[k];
      }
    }
  }

  /** A run stops exactly at an error: without one, every outcome was a value. */
  lemma {:induction false} RunSucceeds<T, E>(rs: seq<Result<T, E>>)
    requires forall k :: 0 <= k < |rs| ==> rs[k].Ok?
    ensures Run(rs).error.None?
  {
    if rs != [] {
      RunSucceeds(rs[..|rs| - 1]);
    }
  }

  /**
   * A batch that does not raise yields one tag per call, in order: the k-th
   * tag is the record generar_epc returns for the k-th (group, runner number).
   */
  lemma BatchTags(prefijo: string, config: seq<Carrera>)
    requires RunAll(prefijo, Requests(config)).error.None?
    ensures var ps := Requests(config);
            var tags := RunAll(prefijo, ps).tags;
            |tags| == |ps| && forall k :: 0 <= k < |ps| ==>
              EpcRecord(prefijo, ps[k].categoria, ps[k].genero, ps[k].distancia, ps[k].numero) == Ok(tags[k])
  {
    var rs := Records(prefijo, Requests(config));
    RunComplete(rs);
  }

  function GroupsTotal(gs: seq<Grupo>): int
  {
    if gs == [] then 0 else GroupsTotal(gs[..|gs| - 1]) + (if gs[|gs| - 1].cantidad > 0 then gs[|gs| - 1].cantidad else 0)
  }

  /** The number of runners a configuration asks for: the sum of its positive counts. */
  function Requested(config: seq<Carrera>): int
  {
    if config == [] then 0 else Requested(config[..|config| - 1]) + GroupsTotal(config[|config| - 1].categorias)
  }

  lemma {:induction false} CarreraRequestsCount(distancia: string, gs: seq<Grupo>)
    ensures |CarreraRequests(distancia, gs)| == GroupsTotal(gs)
  {
    if gs != [] {
      CarreraRequestsCount(distancia, gs[..|gs| - 1]);
    }
  }

  /** The batch makes one call per requested runner. */
  lemma {:induction false} RequestsCount(config: seq<Carrera>)
    ensures |Requests(config)| == Requested(config)
  {
    if config != [] {
      RequestsCount(config[..|config| - 1]);
      CarreraRequestsCount(config[|config| - 1].distancia, config[|config| - 1].categorias);
    }
  }

  /** Every call of a batch names one of its groups and a runner number from 1 to the group's count. */
  lemma {:induction false} GroupRequestsShape(distancia: string, g: Grupo, n: int)
    ensures forall k :: 0 <= k < |GroupRequests(distancia, g, n)| ==>
              GroupRequests(distancia, g, n)[k] == Peticion(g.categoria, g.genero, distancia, k + 1)
    decreases if n > 0 then n else 0
  {
    if n > 0 {
      GroupRequestsShape(distancia, g, n - 1);
    }
  }

  /** The groups of a configuration are well-formed: valid codes and counts a runner number can reach. */
  predicate ValidGroup(distancia: string, g: Grupo)
  {
    ValidFields(g.categoria, g.genero, distancia, 1) && g.cantidad <= 999
  }

  predicate ValidConfig(config: seq<Carrera>)
  {
    forall c, j :: 0 <= c < |config| && 0 <= j < |config[c].categorias| ==>
      ValidGroup(config[c].distancia, config[c].categorias[j])
  }

  lemma {:induction false} CarreraRequestsValid(distancia: string, gs: seq<Grupo>)
    requires forall j :: 0 <= j < |gs| ==> ValidGroup(distancia, gs[j])
    ensures forall p :: p in CarreraRequests(distancia, gs) ==>
              ValidFields(p.categoria, p.genero, p.distancia, p.numero)
  {
    if gs != [] {
      var g := gs[|gs| - 1];
      CarreraRequestsValid(distancia, gs[..|gs| - 1]);
      GroupRequestsShape(distancia, g, g.cantidad);
      forall p | p in GroupRequests(distancia, g, g.cantidad)
        ensures ValidFields(p.categoria, p.genero, p.distancia, p.numero)
      {
        var k :| 0 <= k < |GroupRequests(distancia, g, g.cantidad)| && GroupRequests(distancia, g, g.cantidad)[k] == p;
      }
    }
  }

  lemma {:induction false} RequestsValid(config: seq<Carrera>)
    requires ValidConfig(config)
    ensures forall p :: p in Requests(config) ==> ValidFields(p.categoria, p.genero, p.distancia, p.numero)
  {
    if config != [] {
      var n := |config| - 1;
      assert ValidConfig(config[..n]) by {
        forall c, j | 0 <= c < n && 0 <= j < |config[..n][c].categorias|
          ensures ValidGroup(config[..n][c].distancia, config[..n][c].categorias[j])
        {
          assert config[..n][c] == config[c];
        }
      }
      RequestsValid(config[..n]);
      CarreraRequestsValid(config[n].distancia, config[n].categorias);
    }
  }

  /**
   * A well-formed configuration never raises: the batch holds exactly the
   * requested number of tags.
   */
  lemma BatchSucceeds(prefijo: string, config: seq<Carrera>)
    requires ValidConfig(config)
    ensures RunAll(prefijo, Requests(config)).error.None?
    ensures |RunAll(prefijo, Requests(config)).tags| == Requested(config)
  {
    var ps := Requests(config);
    RequestsValid(config);
    var rs := Records(prefijo, ps);
    forall k | 0 <= k < |rs| ensures rs[k].Ok? {
      assert ps[k] in ps;
      EpcRecordOutcome(prefijo, ps[k].categoria, ps[k].genero, ps[k].distancia, ps[k].numero);
    }
    RunSucceeds(rs);
    RunComplete(rs);
    RequestsCount(config);
  }

  /**
   * Two tags of one batch share an EPC only when they were asked for with
   * the same category, gender, distance and runner number.
   */
  lemma BatchEpcsIdentifyRequests(prefijo: string, config: seq<Carrera>, k: nat, l: nat)
    requires RunAll(prefijo, Requests(config)).error.None?
    requires k < |Requests(config)| && l < |Requests(config)|
    ensures var tags := RunAll(prefijo, Requests(config)).tags;
            |tags| == |Requests(config)|
            && (tags[k].epc == tags[l].epc <==> Requests(config)[k] == Requests(config)[l])
  {
    var ps := Requests(config);
    BatchTags(prefijo, config);
    var tags := RunAll(prefijo, ps).tags;
    PeticionEpcInjective(prefijo, ps[k], ps[l], tags[k], tags[l]);
  }

  lemma PeticionEpcInjective(prefijo: string, p: Peticion, q: Peticion, tp: TagInfo, tq: TagInfo)
    requires EpcRecord(prefijo, p.categoria, p.genero, p.distancia, p.numero) == Ok(tp)
    requires EpcRecord(prefijo, q.categoria, q.genero, q.distancia, q.numero) == Ok(tq)
    ensures tp.epc == tq.epc <==> p == q
  {
    if tp.epc == tq.epc {
      EpcInjective(prefijo, p.categoria, p.genero, p.distancia, p.numero,
                   q.categoria, q.genero, q.distancia, q.numero);
    }
  }

  /** A group listed twice for one distance gets the same codes twice. */
  lemma RepeatedGroupRepeatsEpc(prefijo: string)
    ensures var g := Grupo("INF_A", "F", 1);
            var tags := RunAll(prefijo, Requests([Carrera("2K", [g, g])])).tags;
            |tags| == 2 && tags[0].epc == tags[1].epc
  {
    var g := Grupo("INF_A", "F", 1);
    var config := [Carrera("2K", [g, g])];
    assert ValidGroup("2K", g) by {
      assert CategoriaIndex("INF_A") == Some(0);
    }
    BatchSucceeds(prefijo, config);
    var p := Peticion("INF_A", "F", "2K", 1);
    assert GroupRequests("2K", g, 1) == [p];
    assert [g, g][..1] == [g];
    assert CarreraRequests("2K", [g]) == [p];
    assert CarreraRequests("2K", [g, g]) == [p, p];
    assert Requests(config) == [p, p];
    BatchTags(prefijo, config);
  }

  /**
   * From total_nadadores to tags: a distribution over distinct categories
   * with non-negative counts, turned into a batch that does not raise,
   * yields exactly total_nadadores tags.
   */
  lemma DistributionBatchSize(prefijo: string, total: int, cfgs: seq<DistanciaConfig>, usarTodas: bool)
    requires DistribucionAutomatica(total, cfgs, usarTodas).Ok?
    requires forall i :: 0 <= i < |cfgs| ==> CuentasNoNegativas(cfgs[i]) && CategoriasValidas(cfgs[i], usarTodas)
    requires RunAll(prefijo, Requests(DistribucionAutomatica(total, cfgs, usarTodas).value)).error.None?
    ensures |RunAll(prefijo, Requests(DistribucionAutomatica(total, cfgs, usarTodas).value)).tags| == total
  {
    var cs := DistribucionAutomatica(total, cfgs, usarTodas).value;
    AutomaticaTotal(total, cfgs, usarTodas);
    AutomaticaOutcome(total, cfgs, usarTodas);
    forall c | 0 <= c < |cs| ensures GroupsTotal(cs[c].categorias) == SumGrupos(cs[c].categorias) {
      ConfigDistanciaShape(cfgs[c], usarTodas);
      PositiveGroupsTotal(cs[c].categorias);
    }
    RequestedIsSum(cs);
    BatchTags(prefijo, cs);
    RequestsCount(cs);
  }

  lemma {:induction false} PositiveGroupsTotal(gs: seq<Grupo>)
    requires forall i :: 0 <= i < |gs| ==> gs[i].cantidad > 0
    ensures GroupsTotal(gs) == SumGrupos(gs)
  {
    if gs != [] {
      PositiveGroupsTotal(gs[..|gs| - 1]);
    }
  }

  lemma {:induction false} RequestedIsSum(cs: seq<Carrera>)
    requires forall c :: 0 <= c < |cs| ==> GroupsTotal(cs[c].categorias) == SumGrupos(cs[c].categorias)
    ensures Requested(cs) == SumCarreras(cs)
  {
    if cs != [] {
      RequestedIsSum(cs[..|cs| - 1]);
    }
  }
}
