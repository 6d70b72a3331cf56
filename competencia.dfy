/**
 * The race ledger (rfid_nadadores.py, CompetenciaManager): first arrivals
 * only, positions 1, 2, 3, ... in arrival order, elapsed time measured from
 * an optional zero instant. Instants are integer milliseconds.
 */
module Competencia {
  import opened Wrappers
  import opened TagRecords

  datatype Llegada = Llegada(posicion: nat, tag: RFIDTag)

  /** One entry of obtener_resultados. */
  datatype Resultado = Resultado(posicion: nat, epc: string, timestamp: int,
                                 tiempoCarrera: Option<int>, rssi: int, antenna: int)

  /**
   * CompetenciaManager._tiempo_carrera: milliseconds from the zero instant
   * to the tag's capture, absent while no zero instant is set.
   */
  function TiempoCarrera(horaInicio: Option<int>, tag: RFIDTag): (r: Option<int>)
    ensures r.None? <==> horaInicio.None?
    ensures r.Some? ==> horaInicio.value + r.value == tag.timestamp
  {
    if horaInicio.None? then None else Some(tag.timestamp - horaInicio.value)
  }

  function EpcsOf(tags: seq<RFIDTag>): set<string>
  {
    set k | 0 <= k < |tags| :: tags[k].epc
  }

  predicate DistinctEpcs(tags: seq<RFIDTag>)
  {
    forall i, j :: 0 <= i < j < |tags| ==> tags[i].epc != tags[j].epc
  }

  /**
   * Reference definition of the ledger: the first event of every EPC, in
   * the order the events came.
   */
  function FirstArrivals(events: seq<RFIDTag>): seq<RFIDTag>
  {
    if events == [] then []
    else
      var prev := FirstArrivals(events[..|events| - 1]);
      var t := events[|events| - 1];
      if t.epc in EpcsOf(prev) then prev else prev + [t]
  }

  lemma EpcsOfSnoc(tags: seq<RFIDTag>, t: RFIDTag)
    ensures EpcsOf(tags + [t]) == EpcsOf(tags) + {t.epc}
  {
    var s := tags + [t];
    assert s[|tags|].epc == t.epc;
    forall e | e in EpcsOf(tags) ensures e in EpcsOf(s) {
      var k :| 0 <= k < |tags| && tags[k].epc == e;
      assert s[k] == tags[k];
    }
  }

  /** The ledger never holds an EPC twice, and holds every EPC it was shown. */
  lemma {:induction false} FirstArrivalsDistinct(events: seq<RFIDTag>)
    ensures DistinctEpcs(FirstArrivals(events))
    ensures EpcsOf(FirstArrivals(events)) == EpcsOf(events)
  {
    if events != [] {
      var init := events[..|events| - 1];
      var t := events[|events| - 1];
      FirstArrivalsDistinct(init);
      var prev := FirstArrivals(init);
      EpcsOfSnoc(init, t);
      assert init + [t] == events;
      if t.epc !in EpcsOf(prev) {
        EpcsOfSnoc(prev, t);
        forall i | 0 <= i < |prev| ensures prev[i].epc != t.epc {
          assert prev[i].epc in EpcsOf(prev);
        }
      }
    }
  }

  /** An event for an EPC already seen leaves the ledger as it was. */
  lemma DuplicateIgnored(events: seq<RFIDTag>, t: RFIDTag)
    requires t.epc in EpcsOf(events)
    ensures FirstArrivals(events + [t]) == FirstArrivals(events)
  {
    assert (events + [t])[..|events|] == events;
    FirstArrivalsDistinct(events);
  }

  /** Index of the first event carrying `epc`. */
  function FirstIndex(events: seq<RFIDTag>, epc: string): (i: nat)
    requires epc in EpcsOf(events)
    ensures i < |events| && events[i].epc == epc
    ensures forall j :: 0 <= j < i ==> events[j].epc != epc
  {
    if events[0].epc == epc then 0
    else
      assert epc in EpcsOf(events[1..]) by {
        var k :| 0 <= k < |events| && events[k].epc == epc;
        assert events[1..][k - 1] == events[k];
      }
      1 + FirstIndex(events[1..], epc)
  }

  /**
   * Entry k of the ledger is the earliest event of its EPC, and the entries
   * are in the order of those earliest events: positions follow arrival.
   */
  lemma {:induction false} FirstArrivalsAreEarliest(events: seq<RFIDTag>, k: nat)
    requires k < |FirstArrivals(events)|
    ensures var t := FirstArrivals(events)[k];
            t.epc in EpcsOf(events) && t == events[FirstIndex(events, t.epc)]
    ensures k > 0 ==> FirstArrivals(events)[k - 1].epc in EpcsOf(events)
    ensures k > 0 ==> FirstIndex(events, FirstArrivals(events)[k - 1].epc)
                      < FirstIndex(events, FirstArrivals(events)[k].epc)
  {
    var init := events[..|events| - 1];
    var t := events[|events| - 1];
    var prev := FirstArrivals(init);
    FirstArrivalsDistinct(init);
    assert init + [t] == events;
    EpcsOfSnoc(init, t);
    forall e | e in EpcsOf(init) ensures FirstIndex(events, e) == FirstIndex(init, e) {
      FirstIndexPrefix(init, t, e);
    }
    if k < |prev| {
      FirstArrivalsAreEarliest(init, k);
      assert FirstArrivals(events)[k] == prev[k];
      assert prev[k].epc in EpcsOf(prev);
      if k > 0 {
        assert FirstArrivals(events)[k - 1] == prev[k - 1];
        assert prev[k - 1].epc in EpcsOf(prev);
      }
    } else {
      assert t.epc !in EpcsOf(init);
      assert FirstArrivals(events)[k] == t;
      FirstIndexLast(init, t);
      if k > 0 {
        assert FirstArrivals(events)[k - 1] == prev[k - 1];
        assert prev[k - 1].epc in EpcsOf(prev);
        var j := FirstIndex(init, prev[k - 1].epc);
        assert j < |init|;
      }
    }
  }

  lemma {:induction false} FirstIndexPrefix(init: seq<RFIDTag>, t: RFIDTag, e: string)
    requires e in EpcsOf(init)
    ensures e in EpcsOf(init + [t]) && FirstIndex(init + [t], e) == FirstIndex(init, e)
  {
    EpcsOfSnoc(init, t);
    var s := init + [t];
    if init[0].epc != e {
      assert s[1..] == init[1..] + [t];
      assert e in EpcsOf(init[1..]) by {
        var k :| 0 <= k < |init| && init[k].epc == e;
        assert init[1..][k - 1] == init[k];
      }
      FirstIndexPrefix(init[1..], t, e);
    }
  }

  lemma FirstIndexLast(init: seq<RFIDTag>, t: RFIDTag)
    requires t.epc !in EpcsOf(init)
    ensures t.epc in EpcsOf(init + [t]) && FirstIndex(init + [t], t.epc) == |init|
  {
    EpcsOfSnoc(init, t);
  }

  function TagsOf(ls: seq<Llegada>): (tags: seq<RFIDTag>)
    ensures |tags| == |ls| && forall k :: 0 <= k < |ls| ==> tags[k] == ls[k].tag
  {
    seq(|ls|, k requires 0 <= k < |ls| => ls[k].tag)
  }

  /** CompetenciaManager: the arrivals, the EPCs already registered, the next position and the zero instant. */
  class CompetenciaManager {
    var llegadas: seq<Llegada>
    var tagsRegistrados: set<string>
    var posicionActual: nat
    var horaInicio: Option<int>
    /** Every tag ever handed to RegistrarLlegada, in order. */
    ghost var eventos: seq<RFIDTag>

    /** The tags of the arrivals, in order. */
    function Arrived(): (tags: seq<RFIDTag>)
      reads this
      ensures |tags| == |llegadas|
    {
      TagsOf(llegadas)
    }

    ghost predicate Valid()
      reads this
    {
      && posicionActual == |llegadas| + 1
      && (forall k :: 0 <= k < |llegadas| ==> llegadas[k].posicion == k + 1)
      && tagsRegistrados == EpcsOf(TagsOf(llegadas))
      && TagsOf(llegadas) == FirstArrivals(eventos)
    }

    /** CompetenciaManager.__init__: no arrivals, position 1, no zero instant. */
    constructor ()
      ensures Valid() && llegadas == [] && eventos == [] && horaInicio.None?
    {
      llegadas := [];
      tagsRegistrados := {};
      posicionActual := 1;
      horaInicio := None;
      eventos := [];
    }

    /** iniciar_carrera: fixes the zero instant to `now`, overwriting any earlier one. */
    method IniciarCarrera(now: int)
      requires Valid()
      modifies this
      ensures Valid() && horaInicio == Some(now)
      ensures llegadas == old(llegadas) && tagsRegistrados == old(tagsRegistrados)
      ensures posicionActual == old(posicionActual) && eventos == old(eventos)
    {
      horaInicio := Some(now);
    }

    /** registrar_llegada: a first detection is appended at the next position; a repeat changes nothing. */
    method RegistrarLlegada(tag: RFIDTag)
      requires Valid()
      modifies this
      ensures Valid() && eventos == old(eventos) + [tag] && horaInicio == old(horaInicio)
      ensures tag.epc in old(tagsRegistrados) ==>
                llegadas == old(llegadas) && tagsRegistrados == old(tagsRegistrados)
                && posicionActual == old(posicionActual)
      ensures tag.epc !in old(tagsRegistrados) ==>
                llegadas == old(llegadas) + [Llegada(old(posicionActual), tag)]
                && tagsRegistrados == old(tagsRegistrados) + {tag.epc}
                && posicionActual == old(posicionActual) + 1
    {
      ghost var before := TagsOf(llegadas);
      assert (eventos + [tag])[..|eventos|] == eventos;
      if tag.epc !in tagsRegistrados {
        llegadas := llegadas + [Llegada(posicionActual, tag)];
        tagsRegistrados := tagsRegistrados + {tag.epc};
        assert TagsOf(llegadas) == before + [tag];
        EpcsOfSnoc(before, tag);
        posicionActual := posicionActual + 1;
      }
      eventos := eventos + [tag];
    }

    /** obtener_resultados: one record per arrival, in arrival order, positions 1..n. */
    function ObtenerResultados(): (r: seq<Resultado>)
      reads this
      requires Valid()
      ensures |r| == |llegadas|
      ensures forall k :: 0 <= k < |r| ==>
                r[k].posicion == k + 1 && r[k].epc == Arrived()[k].epc
                && r[k].tiempoCarrera == TiempoCarrera(horaInicio, Arrived()[k])
                && r[k].timestamp == Arrived()[k].timestamp
                && r[k].rssi == Arrived()[k].rssi && r[k].antenna == Arrived()[k].antenna
      ensures forall i, j :: 0 <= i < j < |r| ==> r[i].epc != r[j].epc
    {
      FirstArrivalsDistinct(eventos);
      seq(|llegadas|, k requires 0 <= k < |llegadas| reads this =>
        var l := llegadas[k];
        Resultado(l.posicion, l.tag.epc, l.tag.timestamp, TiempoCarrera(horaInicio, l.tag),
                  l.tag.rssi, l.tag.antenna))
    }
  }
}
