/** The projection of a day's unordered bookings onto the fixed list of bookable
    hours: `organizar_agenda` places each booking's information at its hour, and
    `lista_organizada_disponibilidad` marks which hours are free. Both consume
    the hours list as they go, removing each booking once it is placed. */
module Organizacion {
  import opened Comun
  import opened Reglas

  /** The information paired with the first entry of `horas` equal to `hora`, if any. */
  function Buscar<T>(horas: seq<int>, informacion: seq<T>, hora: int): Option<T>
    requires |horas| == |informacion|
  {
    if horas == [] then None
    else if horas[0] == hora then Some(informacion[0])
    else Buscar(horas[1..], informacion[1..], hora)
  }

  /** Python's `list.pop(i)` on a sequence value. */
  function Quitar<T>(s: seq<T>, i: int): (r: seq<T>)
    requires 0 <= i < |s|
    ensures |r| == |s| - 1
  {
    s[..i] + s[i + 1..]
  }

  /** Nothing is found exactly when the hour is not in the list. */
  lemma {:induction false} BuscarAusente<T>(horas: seq<int>, informacion: seq<T>, hora: int)
    requires |horas| == |informacion|
    ensures Buscar(horas, informacion, hora).None? <==> hora !in horas
  {
    if horas != [] {
      BuscarAusente(horas[1..], informacion[1..], hora);
    }
  }

  /** What is found belongs to an entry of that hour. */
  lemma {:induction false} BuscarEncontrada<T>(horas: seq<int>, informacion: seq<T>, hora: int)
    requires |horas| == |informacion|
    requires Buscar(horas, informacion, hora).Some?
    ensures exists j | 0 <= j < |horas| :: horas[j] == hora && informacion[j] == Buscar(horas, informacion, hora).value
  {
    if horas[0] != hora {
      BuscarEncontrada(horas[1..], informacion[1..], hora);
      var j :| 0 <= j < |horas| - 1 && horas[1..][j] == hora && informacion[1..][j] == Buscar(horas, informacion, hora).value;
      assert horas[j + 1] == hora && informacion[j + 1] == Buscar(horas, informacion, hora).value;
    }
  }

  /** The first entry of an hour is the one found. */
  lemma {:induction false} BuscarPrimera<T>(horas: seq<int>, informacion: seq<T>, j: int)
    requires |horas| == |informacion| && 0 <= j < |horas|
    requires forall k | 0 <= k < j :: horas[k] != horas[j]
    ensures Buscar(horas, informacion, horas[j]) == Some(informacion[j])
  {
    if j > 0 {
      BuscarPrimera(horas[1..], informacion[1..], j - 1);
    }
  }

  /** Popping an entry of another hour, from both lists at once, does not change what is found. */
  lemma {:induction false} BuscarTrasQuitar<T>(horas: seq<int>, informacion: seq<T>, j: int, hora: int)
    requires |horas| == |informacion| && 0 <= j < |horas| && horas[j] != hora
    ensures Buscar(Quitar(horas, j), Quitar(informacion, j), hora) == Buscar(horas, informacion, hora)
  {
    if j == 0 {
      assert Quitar(horas, j) == horas[1..];
      assert Quitar(informacion, j) == informacion[1..];
    } else {
      assert Quitar(horas, j)[1..] == Quitar(horas[1..], j - 1);
      assert Quitar(informacion, j)[1..] == Quitar(informacion[1..], j - 1);
      BuscarTrasQuitar(horas[1..], informacion[1..], j - 1, hora);
    }
  }

  /** Removing an entry of another hour does not change whether an hour is present. */
  lemma PertenenciaTrasQuitar(horas: seq<int>, j: int, hora: int)
    requires 0 <= j < |horas| && horas[j] != hora
    ensures hora in Quitar(horas, j) <==> hora in horas
  {
    assert horas == horas[..j] + [horas[j]] + horas[j + 1..];
  }

  /** `organizar_agenda`: one entry per bookable hour, in hour order; the entry of hour h is
      the information of the first booking at h, or None when h has no booking. */
  method OrganizarAgenda<T>(listaHoras: seq<int>, listaInformacion: seq<T>) returns (agenda: seq<Option<T>>)
    requires |listaHoras| == |listaInformacion|
    ensures |agenda| == NUM_HORAS
    ensures forall i | 0 <= i < NUM_HORAS :: agenda[i] == Buscar(listaHoras, listaInformacion, HORA_INICIAL + i)
    ensures forall i | 0 <= i < NUM_HORAS :: agenda[i].None? <==> HORA_INICIAL + i !in listaHoras
  {
    var horas, informacion := listaHoras, listaInformacion;
    agenda := [];
    var hora := HORA_INICIAL;
    while hora <= HORA_FINAL
      invariant HORA_INICIAL <= hora <= HORA_FINAL + 1
      invariant |agenda| == hora - HORA_INICIAL
      invariant |horas| == |informacion|
      invariant forall i | 0 <= i < |agenda| :: agenda[i] == Buscar(listaHoras, listaInformacion, HORA_INICIAL + i)
      invariant forall h | h >= hora :: Buscar(horas, informacion, h) == Buscar(listaHoras, listaInformacion, h)
    {
      // the inner `for hora_cita in lista_horas ... break`; its position is also what
      // `lista_horas.index(hora_cita)` returns, all times being on the hour
      var j := 0;
      while j < |horas| && horas[j] != hora
        invariant 0 <= j <= |horas|
        invariant forall k | 0 <= k < j :: horas[k] != hora
      {
        j := j + 1;
      }
      if j < |horas| {
        BuscarPrimera(horas, informacion, j);
        agenda := agenda + [Some(informacion[j])];
        forall h | h > hora
          ensures Buscar(Quitar(horas, j), Quitar(informacion, j), h) == Buscar(horas, informacion, h)
        {
          BuscarTrasQuitar(horas, informacion, j, h);
        }
        informacion := Quitar(informacion, j);
        horas := Quitar(horas, j);
      } else {
        BuscarAusente(horas, informacion, hora);
        agenda := agenda + [None];
      }
      hora := hora + 1;
    }
    forall i | 0 <= i < NUM_HORAS
      ensures agenda[i].None? <==> HORA_INICIAL + i !in listaHoras
    {
      BuscarAusente(listaHoras, listaInformacion, HORA_INICIAL + i);
    }
  }

  /** Only bookings at office hours reach the organised agenda: each entry shown is the
      information of a booking at a valid hour, at that hour's position, and the first booking
      at a valid hour h is shown at position h - 9. */
  lemma AgendaOrganizadaHorasValidas<T>(listaHoras: seq<int>, listaInformacion: seq<T>, agenda: seq<Option<T>>)
    requires |listaHoras| == |listaInformacion| && |agenda| == NUM_HORAS
    requires forall i | 0 <= i < NUM_HORAS :: agenda[i] == Buscar(listaHoras, listaInformacion, HORA_INICIAL + i)
    ensures forall i | 0 <= i < NUM_HORAS && agenda[i].Some? ::
      exists j | 0 <= j < |listaHoras| ::
        HoraValida(listaHoras[j]) && listaHoras[j] == HORA_INICIAL + i && listaInformacion[j] == agenda[i].value
    ensures forall j | 0 <= j < |listaHoras| && HoraValida(listaHoras[j]) && listaHoras[j] !in listaHoras[..j] ::
      agenda[listaHoras[j] - HORA_INICIAL] == Some(listaInformacion[j])
  {
    forall i | 0 <= i < NUM_HORAS && agenda[i].Some?
      ensures exists j | 0 <= j < |listaHoras| ::
        HoraValida(listaHoras[j]) && listaHoras[j] == HORA_INICIAL + i && listaInformacion[j] == agenda[i].value
    {
      BuscarEncontrada(listaHoras, listaInformacion, HORA_INICIAL + i);
    }
    forall j | 0 <= j < |listaHoras| && HoraValida(listaHoras[j]) && listaHoras[j] !in listaHoras[..j]
      ensures agenda[listaHoras[j] - HORA_INICIAL] == Some(listaInformacion[j])
    {
      assert forall k | 0 <= k < j :: listaHoras[k] != listaHoras[j] by {
        forall k | 0 <= k < j ensures listaHoras[k] != listaHoras[j] {
          assert listaHoras[k] == listaHoras[..j][k];
        }
      }
      BuscarPrimera(listaHoras, listaInformacion, j);
    }
  }

  /** `lista_organizada_disponibilidad`: one flag per bookable hour, in hour order,
      true exactly when no booking has that hour. */
  method ListaOrganizadaDisponibilidad(listaHoras: seq<int>) returns (disponibilidad: seq<bool>)
    ensures |disponibilidad| == NUM_HORAS
    ensures forall i | 0 <= i < NUM_HORAS :: disponibilidad[i] <==> HORA_INICIAL + i !in listaHoras
  {
    var horas := listaHoras;
    disponibilidad := [];
    var hora := HORA_INICIAL;
    while hora <= HORA_FINAL
      invariant HORA_INICIAL <= hora <= HORA_FINAL + 1
      invariant |disponibilidad| == hora - HORA_INICIAL
      invariant forall i | 0 <= i < |disponibilidad| :: disponibilidad[i] <==> HORA_INICIAL + i !in listaHoras
      invariant forall h | h >= hora :: h in horas <==> h in listaHoras
    {
      var j := 0;
      while j < |horas| && horas[j] != hora
        invariant 0 <= j <= |horas|
        invariant forall k | 0 <= k < j :: horas[k] != hora
      {
        j := j + 1;
      }
      if j < |horas| {
        disponibilidad := disponibilidad + [false];
        forall h | h > hora
          ensures h in Quitar(horas, j) <==> h in horas
        {
          PertenenciaTrasQuitar(horas, j, h);
        }
        // `lista_horas.remove(hora_cita)` removes this first occurrence
        horas := Quitar(horas, j);
      } else {
        disponibilidad := disponibilidad + [true];
      }
      hora := hora + 1;
    }
  }
}
