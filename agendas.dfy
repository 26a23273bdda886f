/** The appointment book: one `AgendaDiaria` per date holding the bookings of
    that date keyed by hour, and the `Agenda` that maps dates to daily agendas
    and creates a daily agenda on the first booking of its date. */
module Agendas {
  import opened Comun
  import opened Citas

  predicate SinRepetidos<T(==)>(s: seq<T>)
  {
    forall i, j | 0 <= i < j < |s| :: s[i] != s[j]
  }

  /** `del` on the key order of a dict: every occurrence of `x` goes, the rest keeps its order. */
  function QuitarClave(s: seq<Hora>, x: Hora): (r: seq<Hora>)
    ensures forall y :: y in r <==> y in s && y != x
    ensures SinRepetidos(s) ==> SinRepetidos(r)
  {
    if s == [] then []
    else if s[0] == x then QuitarClave(s[1..], x)
    else
      var resto := QuitarClave(s[1..], x);
      assert SinRepetidos(s) ==> s[0] !in s[1..];
      [s[0]] + resto
  }

  /** The values of `m` in the order of the keys `ks`. */
  function Valores<K, V>(ks: seq<K>, m: map<K, V>): (vs: seq<V>)
    requires forall k | k in ks :: k in m
    ensures |vs| == |ks|
    ensures forall i | 0 <= i < |ks| :: vs[i] == m[ks[i]]
  {
    if ks == [] then [] else [m[ks[0]]] + Valores(ks[1..], m)
  }

  /** `orden` lists every hour of `claves` exactly once and nothing else: it is a possible
      key order of a dict whose keys are `claves`. */
  ghost predicate Enumera(orden: seq<Hora>, claves: set<Hora>)
    decreases |orden|
  {
    if orden == [] then claves == {}
    else orden[0] in claves && Enumera(orden[1..], claves - {orden[0]})
  }

  /** An enumeration holds exactly its keys, each once. */
  lemma {:induction false} EnumeraPertenencia(orden: seq<Hora>, claves: set<Hora>)
    requires Enumera(orden, claves)
    ensures forall h :: h in orden <==> h in claves
    ensures SinRepetidos(orden)
    decreases |orden|
  {
    if orden != [] {
      EnumeraPertenencia(orden[1..], claves - {orden[0]});
      assert orden == [orden[0]] + orden[1..];
      forall i, j | 0 <= i < j < |orden|
        ensures orden[i] != orden[j]
      {
        if i == 0 {
          assert orden[j] == orden[1..][j - 1];
        } else {
          assert orden[i] == orden[1..][i - 1] && orden[j] == orden[1..][j - 1];
        }
      }
    }
  }

  /** Inserting a new key appends it to the key order. */
  lemma {:induction false} EnumeraAgregar(orden: seq<Hora>, claves: set<Hora>, x: Hora)
    requires Enumera(orden, claves) && x !in claves
    ensures Enumera(orden + [x], claves + {x})
    decreases |orden|
  {
    if orden == [] {
      assert (orden + [x])[1..] == [];
      assert claves + {x} - {x} == {};
    } else {
      EnumeraAgregar(orden[1..], claves - {orden[0]}, x);
      assert (orden + [x])[1..] == orden[1..] + [x];
      assert claves + {x} - {orden[0]} == claves - {orden[0]} + {x};
    }
  }

  /** Deleting a key removes it from the key order. */
  lemma {:induction false} EnumeraQuitar(orden: seq<Hora>, claves: set<Hora>, x: Hora)
    requires Enumera(orden, claves)
    ensures Enumera(QuitarClave(orden, x), claves - {x})
    decreases |orden|
  {
    if orden != [] {
      EnumeraQuitar(orden[1..], claves - {orden[0]}, x);
      if orden[0] == x {
        assert claves - {orden[0]} - {x} == claves - {x};
      } else {
        assert QuitarClave(orden, x)[1..] == QuitarClave(orden[1..], x);
        assert claves - {x} - {orden[0]} == claves - {orden[0]} - {x};
      }
    }
  }

  /** Writing a key twice keeps only the second write. */
  lemma SobrescribirClave<K, V>(m: map<K, V>, k: K, v1: V, v2: V)
    ensures m[k := v1][k := v2] == m[k := v2]
  {
  }

  class AgendaDiaria {
    const fecha: Fecha
    /** The bookings of the day: one appointment per hour. */
    var citas: map<Hora, Cita>
    /** The insertion order of `citas`' keys, which a Python dict's `values()` follows. */
    var orden: seq<Hora>

    /** The bookings are keyed by their own hour, all on this day, and `orden` lists each hour once. */
    ghost predicate Valid()
      reads this
    {
      && Enumera(orden, citas.Keys)
      && (forall h | h in citas :: citas[h].hora == h && citas[h].fecha == fecha)
    }

    constructor (fecha: Fecha)
      ensures Valid() && this.fecha == fecha && citas == map[] && orden == []
    {
      this.fecha := fecha;
      citas := map[];
      orden := [];
    }

    /** `hora_disponible` */
    predicate HoraDisponible(hora: Hora)
      reads this
    {
      hora !in citas
    }

    /** `agregar_cita`: stores a new, unconfirmed appointment of the right variant at `hora`,
        replacing any booking there; every other hour keeps its booking. */
    method AgregarCita(fecha: Fecha, hora: Hora, cedulaPaciente: string, tipoEcografia: Option<string>)
      requires Valid() && fecha == this.fecha
      modifies this
      ensures Valid()
      ensures hora in citas && !HoraDisponible(hora)
      ensures fresh(citas[hora])
      ensures citas[hora].fecha == fecha && citas[hora].hora == hora
      ensures citas[hora].cedulaPaciente == cedulaPaciente
      ensures citas[hora].tipo == TipoDeCita(tipoEcografia)
      ensures !citas[hora].confirmada && !citas[hora].atendida
      ensures citas == old(citas)[hora := citas[hora]]
      ensures orden == if hora in old(citas) then old(orden) else old(orden) + [hora]
    {
      var cita := new Cita(fecha, hora, cedulaPaciente, TipoDeCita(tipoEcografia));
      if hora !in citas {
        EnumeraAgregar(orden, citas.Keys, hora);
        assert citas[hora := cita].Keys == citas.Keys + {hora};
        orden := orden + [hora];
      } else {
        assert citas[hora := cita].Keys == citas.Keys;
      }
      citas := citas[hora := cita];
    }

    /** `eliminar_cita` (a KeyError in the source when `hora` is free): frees `hora` and only it. */
    method EliminarCita(hora: Hora)
      requires Valid() && hora in citas
      modifies this
      ensures Valid()
      ensures HoraDisponible(hora)
      ensures citas == old(citas) - {hora}
      ensures orden == QuitarClave(old(orden), hora)
    {
      EnumeraQuitar(orden, citas.Keys, hora);
      assert (citas - {hora}).Keys == citas.Keys - {hora};
      citas := citas - {hora};
      orden := QuitarClave(orden, hora);
    }

    /** `lista_citas`: every booking of the day exactly once, in the dict's order. */
    function ListaCitas(): (lista: seq<Cita>)
      requires Valid()
      reads this
      ensures |lista| == |orden|
      ensures forall i | 0 <= i < |lista| :: lista[i].hora in citas && citas[lista[i].hora] == lista[i]
      ensures forall i, j | 0 <= i < j < |lista| :: lista[i].hora != lista[j].hora
      ensures forall h | h in citas :: exists i | 0 <= i < |lista| :: lista[i] == citas[h]
    {
      EnumeraPertenencia(orden, citas.Keys);
      var lista := Valores(orden, citas);
      assert forall h | h in citas :: exists i | 0 <= i < |orden| :: orden[i] == h;
      lista
    }

    /** `obtener_horas`: the hours of `lista_citas`, position by position, so the two lists are parallel. */
    method ObtenerHoras() returns (horas: seq<Hora>)
      requires Valid()
      ensures |horas| == |ListaCitas()|
      ensures forall i | 0 <= i < |horas| :: horas[i] == ListaCitas()[i].hora
      ensures forall h :: h in horas <==> h in citas
    {
      var valores := ListaCitas();
      horas := [];
      for k := 0 to |valores|
        invariant |horas| == k
        invariant forall i | 0 <= i < k :: horas[i] == valores[i].hora
      {
        horas := horas + [valores[k].hora];
      }
      forall h | h in citas
        ensures h in horas
      {
        var i :| 0 <= i < |valores| && valores[i] == citas[h];
        assert horas[i] == h;
      }
    }

    /** `cedula_paciente_por_cita`: each appointment paired with its patient's id, in list order. */
    static method CedulaPacientePorCita(listaCitas: seq<Cita>) returns (pares: seq<(string, Cita)>)
      ensures |pares| == |listaCitas|
      ensures forall i | 0 <= i < |pares| :: pares[i] == (listaCitas[i].cedulaPaciente, listaCitas[i])
    {
      pares := [];
      for k := 0 to |listaCitas|
        invariant |pares| == k
        invariant forall i | 0 <= i < k :: pares[i] == (listaCitas[i].cedulaPaciente, listaCitas[i])
      {
        pares := pares + [(listaCitas[k].cedulaPaciente, listaCitas[k])];
      }
    }
  }

  /** The bookings of date `d` in the view `m`, empty when `d` has no daily agenda. */
  function DiaDe(m: map<Fecha, map<Hora, Cita>>, d: Fecha): map<Hora, Cita>
  {
    if d in m then m[d] else map[]
  }

  class Agenda {
    var agendasDiarias: map<Fecha, AgendaDiaria>
    /** The abstract content: date -> hour -> appointment. */
    ghost var citas: map<Fecha, map<Hora, Cita>>
    /** The daily agendas this agenda owns. */
    ghost var Repr: set<AgendaDiaria>

    /** Each daily agenda is filed under its own date, holds only appointments of that date,
        and `citas` is what the daily agendas hold. */
    ghost predicate Valid()
      reads this, Repr
    {
      && (forall d :: d in citas <==> d in agendasDiarias)
      && forall d | d in agendasDiarias ::
           && agendasDiarias[d] in Repr
           && agendasDiarias[d].fecha == d
           && agendasDiarias[d].Valid()
           && citas[d] == agendasDiarias[d].citas
    }

    /** Every appointment sits at its own date and hour. */
    lemma CitasCoherentes()
      requires Valid()
      ensures forall d, h | d in citas && h in citas[d] :: citas[d][h].fecha == d && citas[d][h].hora == h
    {
    }

    constructor ()
      ensures Valid() && agendasDiarias == map[] && citas == map[] && Repr == {}
    {
      agendasDiarias := map[];
      citas := map[];
      Repr := {};
    }

    /** `hora_disponible`: a date without a daily agenda has every hour free. */
    function HoraDisponible(dia: Fecha, hora: Hora): (libre: bool)
      requires Valid()
      reads this, Repr
      ensures dia !in agendasDiarias ==> libre
      ensures libre <==> hora !in DiaDe(citas, dia)
    {
      if dia in agendasDiarias then agendasDiarias[dia].HoraDisponible(hora) else true
    }

    /** The first statement of `agregar_cita`: a date without daily agenda gets a new, empty one. */
    method AsegurarAgendaDiaria(fecha: Fecha)
      requires Valid()
      modifies this
      ensures Valid()
      ensures fecha in agendasDiarias && fresh(Repr - old(Repr))
      ensures fecha !in old(agendasDiarias) ==> fresh(agendasDiarias[fecha])
      ensures agendasDiarias == old(agendasDiarias)[fecha := agendasDiarias[fecha]]
      ensures fecha in old(agendasDiarias) ==> agendasDiarias == old(agendasDiarias)
      ensures citas == old(citas)[fecha := DiaDe(old(citas), fecha)]
    {
      if fecha !in agendasDiarias {
        var nueva := new AgendaDiaria(fecha);
        agendasDiarias := agendasDiarias[fecha := nueva];
        citas := citas[fecha := map[]];
        Repr := Repr + {nueva};
      }
    }

    /** The second statement of `agregar_cita`: books `hora` in the existing daily agenda of `fecha`. */
    method ReservarEnAgendaDiaria(fecha: Fecha, hora: Hora, cedulaPaciente: string, tipoEcografia: Option<string>)
      requires Valid() && fecha in agendasDiarias
      modifies this, agendasDiarias[fecha]
      ensures Valid() && Repr == old(Repr) && agendasDiarias == old(agendasDiarias)
      ensures fecha in citas && hora in citas[fecha]
      ensures var c := citas[fecha][hora];
        && fresh(c) && c.fecha == fecha && c.hora == hora && c.cedulaPaciente == cedulaPaciente
        && c.tipo == TipoDeCita(tipoEcografia) && !c.confirmada && !c.atendida
        && citas == old(citas)[fecha := DiaDe(old(citas), fecha)[hora := c]]
    {
      var diaria := agendasDiarias[fecha];
      diaria.AgregarCita(fecha, hora, cedulaPaciente, tipoEcografia);
      citas := citas[fecha := diaria.citas];
      assert diaria.citas == DiaDe(old(citas), fecha)[hora := diaria.citas[hora]];
    }

    /** `agregar_cita`: creates the daily agenda of `fecha` if it is missing, books `hora` in it
        and leaves every other date, and every other hour of `fecha`, as it was. */
    method AgregarCita(fecha: Fecha, hora: Hora, cedulaPaciente: string, tipoEcografia: Option<string>)
      requires Valid()
      modifies this, Repr
      ensures Valid() && fresh(Repr - old(Repr))
      ensures fecha in citas && hora in citas[fecha]
      ensures var c := citas[fecha][hora];
        && fresh(c) && c.fecha == fecha && c.hora == hora && c.cedulaPaciente == cedulaPaciente
        && c.tipo == TipoDeCita(tipoEcografia) && !c.confirmada && !c.atendida
        && citas == old(citas)[fecha := DiaDe(old(citas), fecha)[hora := c]]
    {
      AsegurarAgendaDiaria(fecha);
      ghost var intermedio := citas;
      ReservarEnAgendaDiaria(fecha, hora, cedulaPaciente, tipoEcografia);
      ghost var dia := DiaDe(old(citas), fecha);
      assert DiaDe(intermedio, fecha) == dia;
      SobrescribirClave(old(citas), fecha, dia, dia[hora := citas[fecha][hora]]);
    }

    /** `eliminar_cita` (a KeyError in the source for a missing date or hour): frees the slot;
        the daily agenda stays even when it becomes empty. */
    method EliminarCita(fecha: Fecha, hora: Hora)
      requires Valid()
      requires fecha in citas && hora in citas[fecha]
      modifies this, agendasDiarias[fecha]
      ensures Valid() && Repr == old(Repr)
      ensures agendasDiarias == old(agendasDiarias)
      ensures HoraDisponible(fecha, hora) && FechaTieneCitas(fecha)
      ensures citas == old(citas)[fecha := old(citas)[fecha] - {hora}]
    {
      agendasDiarias[fecha].EliminarCita(hora);
      citas := citas[fecha := agendasDiarias[fecha].citas];
    }

    /** `fecha_tiene_citas`: whether the date ever had a booking (its daily agenda exists). */
    predicate FechaTieneCitas(fecha: Fecha)
      reads this
    {
      fecha in agendasDiarias
    }

    /** `lista_citas_en_fecha` */
    function ListaCitasEnFecha(fecha: Fecha): (lista: seq<Cita>)
      requires Valid() && fecha in agendasDiarias
      reads this, Repr
      ensures forall i | 0 <= i < |lista| :: lista[i].hora in citas[fecha] && citas[fecha][lista[i].hora] == lista[i]
      ensures forall i, j | 0 <= i < j < |lista| :: lista[i].hora != lista[j].hora
      ensures forall h | h in citas[fecha] :: exists i | 0 <= i < |lista| :: lista[i] == citas[fecha][h]
    {
      agendasDiarias[fecha].ListaCitas()
    }

    /** `obtener_horas` */
    method ObtenerHoras(fecha: Fecha) returns (horas: seq<Hora>)
      requires Valid() && fecha in agendasDiarias
      ensures |horas| == |ListaCitasEnFecha(fecha)|
      ensures forall i | 0 <= i < |horas| :: horas[i] == ListaCitasEnFecha(fecha)[i].hora
      ensures forall h :: h in horas <==> h in citas[fecha]
    {
      horas := agendasDiarias[fecha].ObtenerHoras();
    }

    /** `cedula_paciente_por_cita` (a KeyError in the source for a date without daily agenda). */
    method CedulaPacientePorCita(fecha: Fecha, listaCitas: seq<Cita>) returns (pares: seq<(string, Cita)>)
      requires fecha in agendasDiarias
      ensures |pares| == |listaCitas|
      ensures forall i | 0 <= i < |pares| :: pares[i] == (listaCitas[i].cedulaPaciente, listaCitas[i])
    {
      pares := AgendaDiaria.CedulaPacientePorCita(listaCitas);
    }
  }
}
