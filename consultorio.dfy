/** The office: the patient registry keyed by cédula, the appointment book, and
    the use cases that validate user input before changing either. Where the
    source only comments an error and carries on (`pass`), each operation here
    returns that error and changes nothing. */
module Consultorios {
  import opened Comun
  import opened Reglas
  import opened Citas
  import opened Pacientes
  import opened Agendas
  import opened Organizacion

  /** `c` is the appointment booked at its own date and hour in the book `m`. */
  ghost predicate ReservadaEn(m: map<Fecha, map<Hora, Cita>>, c: Cita)
  {
    c.fecha in m && c.hora in m[c.fecha] && m[c.fecha][c.hora] == c
  }

  /** Every booking of `m` sits at its own date and hour. */
  ghost predicate Coherente(m: map<Fecha, map<Hora, Cita>>)
  {
    forall d, h | d in m && h in m[d] :: m[d][h].fecha == d && m[d][h].hora == h
  }

  /** Every appointment a patient refers to is that patient's and is booked in `m`. */
  ghost predicate Referidas(m: map<Fecha, map<Hora, Cita>>, citaDe: map<string, Cita?>)
  {
    forall c | c in citaDe && citaDe[c] != null :: citaDe[c].cedulaPaciente == c && ReservadaEn(m, citaDe[c])
  }

  /** Every booking is the appointment its patient refers to: a patient has at most one booking. */
  ghost predicate Vinculadas(m: map<Fecha, map<Hora, Cita>>, citaDe: map<string, Cita?>)
  {
    forall d, h | d in m && h in m[d] ::
      m[d][h].cedulaPaciente in citaDe && citaDe[m[d][h].cedulaPaciente] == m[d][h]
  }

  /** The book `m` with `c` booked at hour `h` of date `d`; the daily agenda is created if missing. */
  function Reservar(m: map<Fecha, map<Hora, Cita>>, d: Fecha, h: Hora, c: Cita): (r: map<Fecha, map<Hora, Cita>>)
    ensures d in r && h in r[d] && r[d][h] == c
  {
    m[d := DiaDe(m, d)[h := c]]
  }

  /** The book `m` with hour `h` of date `d` freed; the daily agenda stays, even empty. */
  function Liberar(m: map<Fecha, map<Hora, Cita>>, d: Fecha, h: Hora): (r: map<Fecha, map<Hora, Cita>>)
    ensures d in r && h !in r[d]
  {
    m[d := DiaDe(m, d) - {h}]
  }

  /** Booking a free hour and freeing it again gives back the book, except that the date
      keeps a (possibly empty) daily agenda. */
  lemma LiberarDeshaceReservar(m: map<Fecha, map<Hora, Cita>>, d: Fecha, h: Hora, c: Cita)
    requires h !in DiaDe(m, d)
    ensures Liberar(Reservar(m, d, h, c), d, h) == m[d := DiaDe(m, d)]
    ensures d in m ==> Liberar(Reservar(m, d, h, c), d, h) == m
  {
    assert DiaDe(m, d)[h := c] - {h} == DiaDe(m, d);
  }

  /** Booking a free hour keeps every earlier booking where it was. */
  lemma ReservadasTrasReservar(m: map<Fecha, map<Hora, Cita>>, d: Fecha, h: Hora, c: Cita, x: Cita)
    requires h !in DiaDe(m, d) && ReservadaEn(m, x)
    ensures ReservadaEn(Reservar(m, d, h, c), x)
  {
  }

  /** Booking a free hour keeps every patient's reference valid. */
  lemma {:induction false} ReferidasTrasReservar(m: map<Fecha, map<Hora, Cita>>, citaDe: map<string, Cita?>, d: Fecha, h: Hora, c: Cita)
    requires Referidas(m, citaDe) && h !in DiaDe(m, d)
    ensures Referidas(Reservar(m, d, h, c), citaDe)
  {
    forall p | p in citaDe && citaDe[p] != null
      ensures ReservadaEn(Reservar(m, d, h, c), citaDe[p])
    {
      ReservadasTrasReservar(m, d, h, c, citaDe[p]);
    }
  }

  /** Booking a free hour for a patient without appointment and linking the patient to it
      keeps references valid and one booking per patient. */
  lemma {:induction false} VincularReserva(m: map<Fecha, map<Hora, Cita>>, citaDe: map<string, Cita?>, p: string, c: Cita)
    requires Referidas(m, citaDe) && Coherente(m)
    requires p in citaDe && citaDe[p] == null && c.cedulaPaciente == p && c.hora !in DiaDe(m, c.fecha)
    ensures Referidas(Reservar(m, c.fecha, c.hora, c), citaDe[p := c])
    ensures Vinculadas(m, citaDe) ==> Vinculadas(Reservar(m, c.fecha, c.hora, c), citaDe[p := c])
  {
    ReferidasTrasReservar(m, citaDe, c.fecha, c.hora, c);
  }

  /** Freeing the hour of patient `p`'s appointment and dropping the reference keeps the
      other references valid, and one booking per patient. */
  lemma {:induction false} LiberarReferida(m: map<Fecha, map<Hora, Cita>>, citaDe: map<string, Cita?>, p: string)
    requires Referidas(m, citaDe) && Coherente(m) && p in citaDe && citaDe[p] != null
    ensures Referidas(Liberar(m, citaDe[p].fecha, citaDe[p].hora), citaDe[p := null])
    ensures Vinculadas(m, citaDe) ==> Vinculadas(Liberar(m, citaDe[p].fecha, citaDe[p].hora), citaDe[p := null])
  {
    var c := citaDe[p];
    var m2 := Liberar(m, c.fecha, c.hora);
    forall q | q in citaDe && q != p && citaDe[q] != null
      ensures ReservadaEn(m2, citaDe[q])
    {
      assert citaDe[q] != c;
    }
  }

  /** Freeing a booking whose patient refers to no appointment keeps every reference valid:
      no patient refers to it. */
  lemma {:induction false} LiberarNoReferida(m: map<Fecha, map<Hora, Cita>>, citaDe: map<string, Cita?>, d: Fecha, h: Hora)
    requires Referidas(m, citaDe) && d in m && h in m[d]
    requires m[d][h].cedulaPaciente in citaDe ==> citaDe[m[d][h].cedulaPaciente] == null
    ensures Referidas(Liberar(m, d, h), citaDe)
  {
    forall q | q in citaDe && citaDe[q] != null
      ensures ReservadaEn(Liberar(m, d, h), citaDe[q])
    {
      assert citaDe[q] != m[d][h];
    }
  }

  /** A new patient, without appointment, changes no booking's patient. */
  lemma AgregarPaciente(m: map<Fecha, map<Hora, Cita>>, citaDe: map<string, Cita?>, p: string)
    requires p !in citaDe
    ensures Referidas(m, citaDe) ==> Referidas(m, citaDe[p := null])
    ensures Vinculadas(m, citaDe) ==> Vinculadas(m, citaDe[p := null])
  {
  }

  /** Removing a patient without appointment keeps references valid and, where every booking
      is linked, leaves no booking without its patient. */
  lemma QuitarPaciente(m: map<Fecha, map<Hora, Cita>>, citaDe: map<string, Cita?>, p: string)
    requires p in citaDe && citaDe[p] == null
    ensures Referidas(m, citaDe) ==> Referidas(m, citaDe - {p})
    ensures Vinculadas(m, citaDe) ==> Vinculadas(m, citaDe - {p})
  {
  }

  /** Where bookings are linked to their patients, no patient holds two bookings. */
  lemma UnaReservaPorPaciente(m: map<Fecha, map<Hora, Cita>>, citaDe: map<string, Cita?>,
                              d1: Fecha, h1: Hora, d2: Fecha, h2: Hora)
    requires Coherente(m) && Vinculadas(m, citaDe)
    requires d1 in m && h1 in m[d1] && d2 in m && h2 in m[d2]
    requires m[d1][h1].cedulaPaciente == m[d2][h2].cedulaPaciente
    ensures d1 == d2 && h1 == h2
  {
  }

  /** Resetting a key and then deleting it is deleting it. */
  lemma AnularYQuitar<K, V>(m: map<K, V>, k: K, v: V)
    ensures m[k := v] - {k} == m - {k}
  {
  }

  /** The pairs `cedula_paciente_por_cita` makes of a day's listing name an unregistered
      patient exactly when one of the day's bookings does. */
  lemma PacientesDelDia(pacientes: map<string, Paciente>, citas: map<Hora, Cita>,
                        lista: seq<Cita>, pares: seq<(string, Cita)>)
    requires forall i | 0 <= i < |lista| :: lista[i].hora in citas && citas[lista[i].hora] == lista[i]
    requires forall h | h in citas :: exists i | 0 <= i < |lista| :: lista[i] == citas[h]
    requires |pares| == |lista| && forall i | 0 <= i < |pares| :: pares[i] == (lista[i].cedulaPaciente, lista[i])
    ensures (exists j | 0 <= j < |pares| :: pares[j].0 !in pacientes) <==>
            (exists h | h in citas :: citas[h].cedulaPaciente !in pacientes)
  {
    if exists h | h in citas :: citas[h].cedulaPaciente !in pacientes {
      var h :| h in citas && citas[h].cedulaPaciente !in pacientes;
      var j :| 0 <= j < |lista| && lista[j] == citas[h];
      assert pares[j].0 !in pacientes;
    }
  }

  /** In the parallel lists a day's listing gives (its bookings, their hours, and anything
      computed per booking), the search by hour finds the entry of the booking at that hour. */
  lemma BuscarEnElDia<T>(citas: map<Hora, Cita>, lista: seq<Cita>, horas: seq<Hora>, informacion: seq<T>, h: Hora)
    requires forall h | h in citas :: citas[h].hora == h
    requires forall i | 0 <= i < |lista| :: lista[i].hora in citas && citas[lista[i].hora] == lista[i]
    requires forall i, j | 0 <= i < j < |lista| :: lista[i].hora != lista[j].hora
    requires forall h | h in citas :: exists i | 0 <= i < |lista| :: lista[i] == citas[h]
    requires |horas| == |lista| && forall i | 0 <= i < |horas| :: horas[i] == lista[i].hora
    requires |informacion| == |lista|
    ensures h in citas ==>
      exists j | 0 <= j < |lista| :: lista[j] == citas[h] && Buscar(horas, informacion, h) == Some(informacion[j])
    ensures h !in citas ==> Buscar(horas, informacion, h) == None
  {
    if h in citas {
      var j :| 0 <= j < |lista| && lista[j] == citas[h];
      assert horas[j] == h;
      BuscarPrimera(horas, informacion, j);
    } else {
      assert forall j | 0 <= j < |horas| :: horas[j] != h;
      BuscarAusente(horas, informacion, h);
    }
  }

  /** The hour-by-hour agenda built from a day's listing and the line computed for each of its
      bookings shows at each office hour the line of the booking at that hour, or None. */
  lemma {:induction false} AgendaDelDiaOrganizada<T>(citas: map<Hora, Cita>, lista: seq<Cita>, horas: seq<Hora>,
                                                     informacion: seq<T>, lineas: map<Hora, T>, organizada: seq<Option<T>>)
    requires forall h | h in citas :: citas[h].hora == h
    requires forall i | 0 <= i < |lista| :: lista[i].hora in citas && citas[lista[i].hora] == lista[i]
    requires forall i, j | 0 <= i < j < |lista| :: lista[i].hora != lista[j].hora
    requires forall h | h in citas :: exists i | 0 <= i < |lista| :: lista[i] == citas[h]
    requires |horas| == |lista| && forall i | 0 <= i < |horas| :: horas[i] == lista[i].hora
    requires |informacion| == |lista|
    requires forall i | 0 <= i < |lista| :: lista[i].hora in lineas && informacion[i] == lineas[lista[i].hora]
    requires |organizada| == NUM_HORAS
    requires forall i | 0 <= i < NUM_HORAS :: organizada[i] == Buscar(horas, informacion, HORA_INICIAL + i)
    ensures forall i | 0 <= i < NUM_HORAS ::
      organizada[i] == if HORA_INICIAL + i in citas then Some(lineas[HORA_INICIAL + i]) else None
  {
    forall i | 0 <= i < NUM_HORAS
      ensures organizada[i] == if HORA_INICIAL + i in citas then Some(lineas[HORA_INICIAL + i]) else None
    {
      BuscarEnElDia(citas, lista, horas, informacion, HORA_INICIAL + i);
    }
  }

  /** The line `obtener_agenda_dia` shows for a booking: the patient's text and the appointment's. */
  function LineaDeCita(p: Paciente, c: Cita): (string, string)
  {
    (PacienteTexto(p), CitaTexto(c))
  }

  /** The loop of `informacion_paciente_por_cita`, for any rendering `linea` of a patient and an
      appointment: stops at the first pair whose patient is unknown. */
  method LineasPorCita<P, L>(pacientes: map<string, P>, pares: seq<(string, Cita)>, linea: (P, Cita) -> L)
    returns (res: Result<seq<L>, Error>)
    ensures res.Failure? <==> exists j | 0 <= j < |pares| :: pares[j].0 !in pacientes
    ensures res.Failure? ==> res.error == UsuarioNoRegistrado
    ensures res.Success? ==>
      && |res.value| == |pares|
      && forall j | 0 <= j < |pares| :: res.value[j] == linea(pacientes[pares[j].0], pares[j].1)
  {
    var lineas := [];
    for k := 0 to |pares|
      invariant |lineas| == k
      invariant forall j | 0 <= j < k :: pares[j].0 in pacientes
      invariant forall j | 0 <= j < k :: lineas[j] == linea(pacientes[pares[j].0], pares[j].1)
    {
      var (cedula, cita) := pares[k];
      if cedula !in pacientes {
        return Failure(UsuarioNoRegistrado);
      }
      lineas := lineas + [linea(pacientes[cedula], cita)];
    }
    return Success(lineas);
  }

  class Consultorio {
    var pacientes: map<string, Paciente>
    const agenda: Agenda
    /** Each registered patient's appointment reference, by cédula. */
    ghost var citaDe: map<string, Cita?>

    /** Each patient is filed under its own cédula, `citaDe` mirrors the patients' references,
        and an appointment a patient refers to is that patient's and is booked in the book. */
    ghost predicate Valid()
      reads this, agenda, agenda.Repr, pacientes.Values
    {
      && agenda.Valid()
      && (forall c :: c in pacientes <==> c in citaDe)
      && (forall c | c in pacientes :: pacientes[c].cedula == c && pacientes[c].cita == citaDe[c])
      && Referidas(agenda.citas, citaDe)
    }

    /** One appointment per patient: every booking is its patient's appointment. The source
        breaks this (asignar_cita never links the booking); `AsignarCitaVinculada` keeps it. */
    ghost predicate CitasVinculadas()
      reads this, agenda
    {
      Vinculadas(agenda.citas, citaDe)
    }

    /** The registry entry of `cedula`, as a frame. */
    function Ficha(cedula: string): set<Paciente>
      reads this
    {
      if cedula in pacientes then {pacientes[cedula]} else {}
    }

    /** The appointment the patient `cedula` refers to, as a frame. */
    function CitaAsignada(cedula: string): set<Cita>
      reads this, pacientes.Values
    {
      if cedula in pacientes && pacientes[cedula].cita != null then {pacientes[cedula].cita} else {}
    }

    /** `LineaDeCita` of booking `c` and its patient's registry entry. */
    function Informacion(c: Cita): (string, string)
      requires c.cedulaPaciente in pacientes
      reads this
    {
      LineaDeCita(pacientes[c.cedulaPaciente], c)
    }

    constructor ()
      ensures Valid() && CitasVinculadas()
      ensures pacientes == map[] && agenda.citas == map[]
      ensures fresh(agenda) && agenda.Repr == {}
    {
      pacientes := map[];
      agenda := new Agenda();
      citaDe := map[];
    }

    /** `registrar_ususario`: adds a new patient when the cédula is free; a second registration
        of the same cédula is refused and leaves the registry as it was. */
    method RegistrarUsuario(nombre: string, cedula: string, sexo: string, fechaNacimiento: seq<string>, celular: string)
      returns (res: Outcome<Error>)
      requires Valid()
      modifies this
      ensures Valid()
      ensures res == if cedula in old(pacientes) then Fail(UsuarioYaRegistrado) else Pass
      ensures res.Fail? ==> pacientes == old(pacientes) && citaDe == old(citaDe)
      ensures res.Pass? ==>
        && cedula in pacientes && pacientes == old(pacientes)[cedula := pacientes[cedula]]
        && fresh(pacientes[cedula]) && pacientes[cedula].nombre == nombre && pacientes[cedula].sexo == sexo
        && pacientes[cedula].fechaNacimiento == fechaNacimiento && pacientes[cedula].celular == celular
        && pacientes[cedula].cita == null && pacientes[cedula].historial == []
        && citaDe == old(citaDe)[cedula := null]
      ensures old(CitasVinculadas()) ==> CitasVinculadas()
    {
      if cedula in pacientes {
        return Fail(UsuarioYaRegistrado);
      }
      var paciente := new Paciente(nombre, cedula, sexo, fechaNacimiento, celular);
      Inscribir(paciente);
      return Pass;
    }

    /** The insertion of `registrar_ususario`: a patient without appointment joins the register
        under their own id. */
    method Inscribir(paciente: Paciente)
      requires Valid() && paciente.cedula !in pacientes && paciente.cita == null
      modifies this
      ensures Valid()
      ensures pacientes == old(pacientes)[paciente.cedula := paciente]
      ensures citaDe == old(citaDe)[paciente.cedula := null]
      ensures old(CitasVinculadas()) ==> CitasVinculadas()
    {
      AgregarPaciente(agenda.citas, citaDe, paciente.cedula);
      pacientes := pacientes[paciente.cedula := paciente];
      citaDe := citaDe[paciente.cedula := null];
    }

    /** `eliminar_paciente`: cancels the patient's appointment, if it refers to one, then
        removes the patient. */
    method EliminarPaciente(cedula: string) returns (res: Outcome<Error>)
      requires Valid()
      modifies this, Ficha(cedula), agenda, agenda.Repr
      ensures Valid()
      ensures res == if cedula in old(pacientes) then Pass else Fail(UsuarioNoRegistrado)
      ensures res.Fail? ==> unchanged(this, agenda)
      ensures res.Pass? ==> pacientes == old(pacientes) - {cedula} && citaDe == old(citaDe) - {cedula}
      ensures res.Pass? ==>
        agenda.citas ==
          if old(citaDe[cedula]) == null then old(agenda.citas)
          else Liberar(old(agenda.citas), old(citaDe[cedula].fecha), old(citaDe[cedula].hora))
      ensures old(CitasVinculadas()) ==> CitasVinculadas()
    {
      if cedula !in pacientes {
        return Fail(UsuarioNoRegistrado);
      }
      var paciente := pacientes[cedula];
      if paciente.PacienteTieneCita() {
        ghost var antes := citaDe;
        var cancelada := CancelarCita(cedula);
        AnularYQuitar(antes, cedula, null);
      }
      QuitarRegistro(cedula);
      return Pass;
    }

    /** The last statement of `eliminar_paciente`: deletes the entry of a patient without appointment. */
    method QuitarRegistro(cedula: string)
      requires Valid() && cedula in pacientes && pacientes[cedula].cita == null
      modifies this
      ensures Valid() && unchanged(agenda)
      ensures pacientes == old(pacientes) - {cedula} && citaDe == old(citaDe) - {cedula}
      ensures old(CitasVinculadas()) ==> CitasVinculadas()
    {
      QuitarPaciente(agenda.citas, citaDe, cedula);
      pacientes := pacientes - {cedula};
      citaDe := citaDe - {cedula};
    }

    /** The checks of `asignar_cita`, in the source's order, through the agenda's own queries:
        the first that fails, or else the date and hour to book. */
    function Solicitud(cedula: string, mes: string, dia: int, hora: int,
                       tipoEcografia: Option<string>, anio: int): (r: Result<(Fecha, Hora), Error>)
      requires agenda.Valid() && 1 <= anio <= 9999
      reads this, agenda, agenda.Repr, pacientes.Values
      ensures r.Success? ==>
        && cedula in pacientes && pacientes[cedula].cita == null
        && r.value.1 == hora && r.value.1 !in DiaDe(agenda.citas, r.value.0)
    {
      if cedula !in pacientes then Failure(UsuarioNoRegistrado)
      else if pacientes[cedula].PacienteTieneCita() then Failure(PacienteYaTieneCita)
      else
        var numeroMes := ObtenerNumeroMes(mes);
        if numeroMes.None? then Failure(MesInvalido)
        else if !DiaValido(dia, numeroMes.value) then Failure(DiaInvalido)
        else
          FechaConstruible(anio, numeroMes.value, dia);
          var formatoFecha := ObtenerFormatoFecha(anio, MesNumero(numeroMes.value), dia).value;
          if !HoraValida(hora) then Failure(HoraInvalida)
          else
            var formatoHora := ObtenerFormatoHora(hora).value;
            if !agenda.HoraDisponible(formatoFecha, formatoHora) then Failure(HoraOcupada)
            else if !TipoEcografiaAdmitido(tipoEcografia) then Failure(EcografiaInvalida)
            else Success((formatoFecha, formatoHora))
    }

    /** A request is accepted exactly when the patient is registered without appointment, the
        month and day name a real date, the hour is a free office hour of that date and the
        ultrasound type, if any, is offered; the date is then built from the month's number. */
    lemma SolicitudAceptada(cedula: string, mes: string, dia: int, hora: int, tipoEcografia: Option<string>, anio: int)
      requires agenda.Valid() && 1 <= anio <= 9999
      ensures Solicitud(cedula, mes, dia, hora, tipoEcografia, anio).Success? <==>
        && cedula in pacientes && pacientes[cedula].cita == null
        && ObtenerNumeroMes(mes).Some? && DiaValido(dia, ObtenerNumeroMes(mes).value)
        && HoraValida(hora) && hora !in DiaDe(agenda.citas, Fecha(anio, ObtenerNumeroMes(mes).value, dia))
        && TipoEcografiaAdmitido(tipoEcografia)
      ensures Solicitud(cedula, mes, dia, hora, tipoEcografia, anio).Success? ==>
        Solicitud(cedula, mes, dia, hora, tipoEcografia, anio).value == (Fecha(anio, ObtenerNumeroMes(mes).value, dia), hora)
    {
      var numeroMes := ObtenerNumeroMes(mes);
      if cedula in pacientes && pacientes[cedula].cita == null && numeroMes.Some? && DiaValido(dia, numeroMes.value) {
        FechaConstruible(anio, numeroMes.value, dia);
        var fecha := Fecha(anio, numeroMes.value, dia);
        assert ObtenerFormatoFecha(anio, MesNumero(numeroMes.value), dia).value == fecha;
        if HoraValida(hora) {
          assert ObtenerFormatoHora(hora).value == hora;
          assert agenda.HoraDisponible(fecha, hora) <==> hora !in DiaDe(agenda.citas, fecha);
        }
      }
    }

    /** `asignar_cita`: books the hour when every check passes and otherwise reports the first
        failed check and changes nothing. As in the source, the patient is NOT linked to the new
        booking: afterwards the patient still has no appointment. */
    method AsignarCita(cedula: string, mes: string, dia: int, hora: int, tipoEcografia: Option<string>, anio: int)
      returns (res: Outcome<Error>)
      requires Valid() && 1 <= anio <= 9999
      modifies agenda, agenda.Repr
      ensures Valid() && fresh(agenda.Repr - old(agenda.Repr))
      ensures res.Fail? <==> old(Solicitud(cedula, mes, dia, hora, tipoEcografia, anio)).Failure?
      ensures res.Fail? ==>
        res.error == old(Solicitud(cedula, mes, dia, hora, tipoEcografia, anio)).error && agenda.citas == old(agenda.citas)
      ensures res.Pass? ==>
        var (fecha, h) := old(Solicitud(cedula, mes, dia, hora, tipoEcografia, anio)).value;
        && fecha in agenda.citas && h in agenda.citas[fecha]
        && var c := agenda.citas[fecha][h];
           && fresh(c) && c.cedulaPaciente == cedula && c.tipo == TipoDeCita(tipoEcografia)
           && !c.confirmada && !c.atendida
           && agenda.citas == Reservar(old(agenda.citas), fecha, h, c)
      ensures res.Pass? ==> cedula in pacientes && pacientes[cedula].cita == null
    {
      var solicitud := Solicitud(cedula, mes, dia, hora, tipoEcografia, anio);
      if solicitud.Failure? {
        return Fail(solicitud.error);
      }
      var (fecha, h) := solicitud.value;
      var cita := ReservarCita(fecha, h, cedula, tipoEcografia);
      return Pass;
    }

    /** The last statement of `asignar_cita`: books a free hour; no patient refers to the new
        booking, so every reference stays valid. Also returns the new appointment. */
    method ReservarCita(fecha: Fecha, hora: Hora, cedula: string, tipoEcografia: Option<string>) returns (cita: Cita)
      requires Valid() && hora !in DiaDe(agenda.citas, fecha)
      modifies agenda, agenda.Repr
      ensures Valid() && fresh(agenda.Repr - old(agenda.Repr))
      ensures fresh(cita) && cita.fecha == fecha && cita.hora == hora && cita.cedulaPaciente == cedula
      ensures cita.tipo == TipoDeCita(tipoEcografia) && !cita.confirmada && !cita.atendida
      ensures agenda.citas == Reservar(old(agenda.citas), fecha, hora, cita)
    {
      ghost var antes := agenda.citas;
      agenda.AgregarCita(fecha, hora, cedula, tipoEcografia);
      cita := agenda.agendasDiarias[fecha].citas[hora];
      ReferidasTrasReservar(antes, citaDe, fecha, hora, cita);
    }

    /** `asignar_cita` as evidently intended: the same checks, and the patient is linked to the
        new booking, which keeps one booking per patient. */
    method AsignarCitaVinculada(cedula: string, mes: string, dia: int, hora: int, tipoEcografia: Option<string>, anio: int)
      returns (res: Outcome<Error>)
      requires Valid() && 1 <= anio <= 9999
      modifies this, agenda, agenda.Repr, Ficha(cedula)
      ensures Valid() && unchanged(this`pacientes) && fresh(agenda.Repr - old(agenda.Repr))
      ensures res.Fail? <==> old(Solicitud(cedula, mes, dia, hora, tipoEcografia, anio)).Failure?
      ensures res.Fail? ==>
        && res.error == old(Solicitud(cedula, mes, dia, hora, tipoEcografia, anio)).error
        && unchanged(this, agenda) && unchanged(Ficha(cedula))
      ensures res.Pass? ==>
        var (fecha, h) := old(Solicitud(cedula, mes, dia, hora, tipoEcografia, anio)).value;
        var c := pacientes[cedula].cita;
        && c != null && fresh(c) && c.cedulaPaciente == cedula && c.tipo == TipoDeCita(tipoEcografia)
        && !c.confirmada && !c.atendida
        && agenda.citas == Reservar(old(agenda.citas), fecha, h, c)
        && citaDe == old(citaDe)[cedula := c]
        && pacientes[cedula].historial == old(pacientes[cedula].historial)
      ensures old(CitasVinculadas()) ==> CitasVinculadas()
    {
      var solicitud := Solicitud(cedula, mes, dia, hora, tipoEcografia, anio);
      if solicitud.Failure? {
        return Fail(solicitud.error);
      }
      var (fecha, h) := solicitud.value;
      var cita := ReservarVinculada(fecha, h, cedula, tipoEcografia);
      return Pass;
    }

    /** Books a free hour for a registered patient without appointment and links the patient
        to the new booking. */
    method ReservarVinculada(fecha: Fecha, hora: Hora, cedula: string, tipoEcografia: Option<string>) returns (cita: Cita)
      requires Valid() && hora !in DiaDe(agenda.citas, fecha)
      requires cedula in pacientes && pacientes[cedula].cita == null
      modifies this, agenda, agenda.Repr, pacientes[cedula]
      ensures Valid() && unchanged(this`pacientes) && fresh(agenda.Repr - old(agenda.Repr))
      ensures fresh(cita) && cita.fecha == fecha && cita.hora == hora && cita.cedulaPaciente == cedula
      ensures cita.tipo == TipoDeCita(tipoEcografia) && !cita.confirmada && !cita.atendida
      ensures agenda.citas == Reservar(old(agenda.citas), fecha, hora, cita)
      ensures pacientes[cedula].cita == cita && citaDe == old(citaDe)[cedula := cita]
      ensures pacientes[cedula].historial == old(pacientes[cedula].historial)
      ensures old(CitasVinculadas()) ==> CitasVinculadas()
    {
      agenda.CitasCoherentes();
      cita := ReservarCita(fecha, hora, cedula, tipoEcografia);
      Vincular(cedula, cita);
      VincularReserva(old(agenda.citas), old(citaDe), cedula, cita);
    }

    /** The statement `asignar_cita` lacks: links the patient, who has no appointment, to
        `cita`, a booking of theirs. */
    method Vincular(cedula: string, cita: Cita)
      requires Valid() && cedula in pacientes && pacientes[cedula].cita == null
      requires cita.cedulaPaciente == cedula && ReservadaEn(agenda.citas, cita)
      modifies this, pacientes[cedula]
      ensures Valid() && unchanged(this`pacientes) && unchanged(agenda)
      ensures pacientes[cedula].cita == cita && pacientes[cedula].historial == old(pacientes[cedula].historial)
      ensures citaDe == old(citaDe)[cedula := cita]
    {
      pacientes[cedula].cita := cita;
      citaDe := citaDe[cedula := cita];
    }

    /** `confimar_cita`: confirms the patient's appointment, leaving its other flag alone. */
    method ConfirmarCita(cedula: string) returns (res: Outcome<Error>)
      requires Valid()
      modifies CitaAsignada(cedula)
      ensures Valid()
      ensures res ==
        if cedula !in pacientes then Fail(UsuarioNoRegistrado)
        else if pacientes[cedula].cita == null then Fail(PacienteSinCita)
        else Pass
      ensures res.Pass? ==>
        pacientes[cedula].cita.confirmada && pacientes[cedula].cita.atendida == old(pacientes[cedula].cita.atendida)
    {
      if cedula in pacientes {
        var paciente := pacientes[cedula];
        if paciente.PacienteTieneCita() {
          paciente.CitaConfirmada();
          return Pass;
        } else {
          return Fail(PacienteSinCita);
        }
      } else {
        return Fail(UsuarioNoRegistrado);
      }
    }

    /** `cancelar_cita`: drops the patient's reference and frees the booked hour, and only it. */
    method CancelarCita(cedula: string) returns (res: Outcome<Error>)
      requires Valid()
      modifies this, Ficha(cedula), agenda, agenda.Repr
      ensures Valid() && unchanged(this`pacientes)
      ensures res ==
        if cedula !in pacientes then Fail(UsuarioNoRegistrado)
        else if old(pacientes[cedula].cita) == null then Fail(PacienteSinCita)
        else Pass
      ensures res.Fail? ==> unchanged(this, agenda) && unchanged(Ficha(cedula))
      ensures res.Pass? ==>
        && pacientes[cedula].cita == null && citaDe == old(citaDe)[cedula := null]
        && pacientes[cedula].historial == old(pacientes[cedula].historial)
        && agenda.citas == Liberar(old(agenda.citas), old(pacientes[cedula].cita.fecha), old(pacientes[cedula].cita.hora))
      ensures old(CitasVinculadas()) ==> CitasVinculadas()
    {
      if cedula in pacientes {
        var paciente := pacientes[cedula];
        if paciente.PacienteTieneCita() {
          QuitarCita(cedula);
          return Pass;
        } else {
          return Fail(PacienteSinCita);
        }
      } else {
        return Fail(UsuarioNoRegistrado);
      }
    }

    /** The successful branch of `cancelar_cita`: the patient drops the appointment and its
        hour is freed in the agenda. */
    method QuitarCita(cedula: string)
      requires Valid() && cedula in pacientes && pacientes[cedula].cita != null
      modifies this, pacientes[cedula], agenda, agenda.Repr
      ensures Valid() && unchanged(this`pacientes)
      ensures pacientes[cedula].cita == null && citaDe == old(citaDe)[cedula := null]
      ensures pacientes[cedula].historial == old(pacientes[cedula].historial)
      ensures agenda.citas == Liberar(old(agenda.citas), old(pacientes[cedula].cita.fecha), old(pacientes[cedula].cita.hora))
      ensures old(CitasVinculadas()) ==> CitasVinculadas()
    {
      var (fecha, hora) := pacientes[cedula].ObtenerFechaHoraDeCita();
      agenda.CitasCoherentes();
      Desvincular(cedula);
      LiberarHora(fecha, hora);
      LiberarReferida(old(agenda.citas), old(citaDe), cedula);
    }

    /** `paciente.eliminar_cita()` inside `cancelar_cita`: drops the patient's reference. */
    method Desvincular(cedula: string)
      requires Valid() && cedula in pacientes
      modifies this, pacientes[cedula]
      ensures Valid() && unchanged(this`pacientes) && unchanged(agenda)
      ensures pacientes[cedula].cita == null && pacientes[cedula].historial == old(pacientes[cedula].historial)
      ensures citaDe == old(citaDe)[cedula := null]
    {
      pacientes[cedula].EliminarCita();
      citaDe := citaDe[cedula := null];
    }

    /** `agenda.eliminar_cita` inside `cancelar_cita`: frees a booking whose patient refers to
        no appointment (a KeyError in the source for a free hour). */
    method LiberarHora(fecha: Fecha, hora: Hora)
      requires Valid() && fecha in agenda.citas && hora in agenda.citas[fecha]
      requires agenda.citas[fecha][hora].cedulaPaciente in citaDe ==> citaDe[agenda.citas[fecha][hora].cedulaPaciente] == null
      modifies agenda, agenda.Repr
      ensures Valid()
      ensures agenda.citas == Liberar(old(agenda.citas), fecha, hora)
    {
      LiberarNoReferida(agenda.citas, citaDe, fecha, hora);
      agenda.EliminarCita(fecha, hora);
    }

    /** `atender_cita`, with the record the external converter makes of the file passed in:
        appends it to the patient's history and marks the appointment attended. */
    method AtenderCita(cedula: string, historial: Historial) returns (res: Outcome<Error>)
      requires Valid()
      modifies Ficha(cedula), CitaAsignada(cedula)
      ensures Valid()
      ensures res ==
        if cedula !in pacientes then Fail(UsuarioNoRegistrado)
        else if pacientes[cedula].cita == null then Fail(PacienteSinCita)
        else Pass
      ensures res.Fail? ==> unchanged(Ficha(cedula))
      ensures res.Pass? ==>
        && pacientes[cedula].historial == old(pacientes[cedula].historial) + [historial]
        && pacientes[cedula].cita == old(pacientes[cedula].cita)
        && pacientes[cedula].cita.atendida
        && pacientes[cedula].cita.confirmada == old(pacientes[cedula].cita.confirmada)
    {
      if cedula in pacientes {
        var paciente := pacientes[cedula];
        if paciente.PacienteTieneCita() {
          paciente.AgregarHistoria(historial);
          paciente.CitaAtendida();
          return Pass;
        } else {
          return Fail(PacienteSinCita);
        }
      } else {
        return Fail(UsuarioNoRegistrado);
      }
    }

    /** `informacion_paciente_por_cita`: the display line of each pair, in order; a pair whose
        patient is no longer registered is a KeyError in the source. */
    method InformacionPacientePorCita(pares: seq<(string, Cita)>) returns (res: Result<seq<(string, string)>, Error>)
      ensures res.Failure? <==> exists j | 0 <= j < |pares| :: pares[j].0 !in pacientes
      ensures res.Failure? ==> res.error == UsuarioNoRegistrado
      ensures res.Success? ==>
        && |res.value| == |pares|
        && forall j | 0 <= j < |pares| :: res.value[j] == LineaDeCita(pacientes[pares[j].0], pares[j].1)
    {
      res := LineasPorCita(pacientes, pares, LineaDeCita);
    }

    /** The second half of `obtener_agenda_dia`, once the date is built: eight entries in hour
        order, the entry of each hour showing its booking or None. */
    method AgendaDeFecha(fecha: Fecha) returns (res: Result<seq<Option<(string, string)>>, Error>)
      requires agenda.Valid()
      ensures fecha !in agenda.citas ==> res == Failure(FechaSinCitas)
      ensures fecha in agenda.citas && (exists h | h in agenda.citas[fecha] :: agenda.citas[fecha][h].cedulaPaciente !in pacientes)
        ==> res == Failure(UsuarioNoRegistrado)
      ensures fecha in agenda.citas && (forall h | h in agenda.citas[fecha] :: agenda.citas[fecha][h].cedulaPaciente in pacientes)
        ==> && res.Success? && |res.value| == NUM_HORAS
            && forall i | 0 <= i < NUM_HORAS ::
                 res.value[i] ==
                   if HORA_INICIAL + i in agenda.citas[fecha] then Some(Informacion(agenda.citas[fecha][HORA_INICIAL + i]))
                   else None
    {
      if !agenda.FechaTieneCitas(fecha) {
        return Failure(FechaSinCitas);
      }
      var listaCitas := agenda.ListaCitasEnFecha(fecha);
      var informacion := LineasDelDia(fecha, listaCitas);
      if informacion.Failure? {
        return Failure(informacion.error);
      }
      var organizada := OrganizarDia(fecha, listaCitas, informacion.value);
      return Success(organizada);
    }

    /** The middle steps of `obtener_agenda_dia`: the (patient, appointment) pairs of the day's
        listing and their display lines, which fail when a booking's patient is not registered. */
    method LineasDelDia(fecha: Fecha, listaCitas: seq<Cita>) returns (informacion: Result<seq<(string, string)>, Error>)
      requires agenda.Valid() && agenda.FechaTieneCitas(fecha) && listaCitas == agenda.ListaCitasEnFecha(fecha)
      ensures informacion.Failure? <==>
        exists h | h in agenda.citas[fecha] :: agenda.citas[fecha][h].cedulaPaciente !in pacientes
      ensures informacion.Failure? ==> informacion.error == UsuarioNoRegistrado
      ensures informacion.Success? ==>
        && |informacion.value| == |listaCitas|
        && forall j | 0 <= j < |listaCitas| ::
             listaCitas[j].cedulaPaciente in pacientes && informacion.value[j] == Informacion(listaCitas[j])
    {
      var pares := agenda.CedulaPacientePorCita(fecha, listaCitas);
      PacientesDelDia(pacientes, agenda.citas[fecha], listaCitas, pares);
      informacion := InformacionPacientePorCita(pares);
    }

    /** The last two steps of `obtener_agenda_dia`: the hours of the day's listing and the
        hour-by-hour arrangement of the lines computed for it. */
    method OrganizarDia(fecha: Fecha, listaCitas: seq<Cita>, informacion: seq<(string, string)>)
      returns (organizada: seq<Option<(string, string)>>)
      requires agenda.Valid() && agenda.FechaTieneCitas(fecha) && listaCitas == agenda.ListaCitasEnFecha(fecha)
      requires |informacion| == |listaCitas|
      requires forall j | 0 <= j < |listaCitas| ::
        listaCitas[j].cedulaPaciente in pacientes && informacion[j] == Informacion(listaCitas[j])
      ensures |organizada| == NUM_HORAS
      ensures forall i | 0 <= i < NUM_HORAS ::
        organizada[i] ==
          if HORA_INICIAL + i in agenda.citas[fecha] then Some(Informacion(agenda.citas[fecha][HORA_INICIAL + i]))
          else None
    {
      ghost var citas := agenda.citas[fecha];
      agenda.CitasCoherentes();
      var listaHoras := agenda.ObtenerHoras(fecha);
      organizada := OrganizarAgenda(listaHoras, informacion);
      ghost var lineas := map h | h in citas :: Informacion(citas[h]);
      AgendaDelDiaOrganizada(citas, listaCitas, listaHoras, informacion, lineas, organizada);
    }

    /** `obtener_agenda_dia`, with the month NUMBER handed to the date (see `FechaDeAgendaTalComoEsta`). */
    method ObtenerAgendaDia(mes: string, dia: int, anio: int) returns (res: Result<seq<Option<(string, string)>>, Error>)
      requires Valid() && 1 <= anio <= 9999
      ensures FechaDeAgenda(mes, dia, anio).Failure? ==> res == Failure(FechaDeAgenda(mes, dia, anio).error)
      ensures FechaDeAgenda(mes, dia, anio).Success? ==>
        var fecha := FechaDeAgenda(mes, dia, anio).value;
        if fecha !in agenda.citas then res == Failure(FechaSinCitas)
        else if exists h | h in agenda.citas[fecha] :: agenda.citas[fecha][h].cedulaPaciente !in pacientes
        then res == Failure(UsuarioNoRegistrado)
        else
          && res.Success? && |res.value| == NUM_HORAS
          && forall i | 0 <= i < NUM_HORAS ::
               res.value[i] ==
                 if HORA_INICIAL + i in agenda.citas[fecha] then Some(Informacion(agenda.citas[fecha][HORA_INICIAL + i]))
                 else None
      ensures CitasVinculadas() ==> res != Failure(UsuarioNoRegistrado)
    {
      var fecha := FechaDeAgenda(mes, dia, anio);
      if fecha.Failure? {
        return Failure(fecha.error);
      }
      res := AgendaDeFecha(fecha.value);
    }

    /** `obtener_historial_paciente`: the texts of the patient's history, one per entry, in order;
        a patient without history gets an error where the source returns None. */
    method ObtenerHistorialPaciente(cedula: string) returns (res: Result<seq<string>, Error>)
      ensures cedula !in pacientes ==> res == Failure(UsuarioNoRegistrado)
      ensures cedula in pacientes && pacientes[cedula].historial == [] ==> res == Failure(SinHistorial)
      ensures cedula in pacientes && pacientes[cedula].historial != [] ==>
        && res.Success? && |res.value| == |pacientes[cedula].historial|
        && forall i | 0 <= i < |res.value| :: res.value[i] == HistorialTexto(pacientes[cedula].historial[i])
    {
      if cedula !in pacientes {
        return Failure(UsuarioNoRegistrado);
      }
      var paciente := pacientes[cedula];
      if paciente.TieneHistorial() {
        var informacion := paciente.InformacionHistoria();
        return Success(informacion);
      } else {
        return Failure(SinHistorial);
      }
    }
  }

  /** The date `obtener_agenda_dia` builds as written: it hands the month NAME to
      `obtener_formato_fecha`, so `datetime.date` raises TypeError whatever the input. */
  function FechaDeAgendaTalComoEsta(mes: string, dia: int, anio: int): (r: Result<Fecha, Error>)
    ensures r == Failure(ArgumentoNoEntero)
  {
    ObtenerFormatoFecha(anio, MesNombre(mes), dia)
  }

  /** The date built from the month number, as `asignar_cita` does: for a month the office
      recognises and a day it accepts, it is the date of those parts. */
  function FechaDeAgenda(mes: string, dia: int, anio: int): (r: Result<Fecha, Error>)
    requires 1 <= anio <= 9999
    ensures ObtenerNumeroMes(mes).Some? && DiaValido(dia, ObtenerNumeroMes(mes).value) ==>
      r == Success(Fecha(anio, ObtenerNumeroMes(mes).value, dia))
  {
    match ObtenerNumeroMes(mes)
    case None => Failure(MesInvalido)
    case Some(n) =>
      if !DiaValido(dia, n) then Failure(DiaInvalido)
      else
        FechaConstruible(anio, n, dia);
        ObtenerFormatoFecha(anio, MesNumero(n), dia)
  }

  /** "enero" is month 1 and January 10 a day `dia_valido` accepts. */
  lemma DiezDeEnero()
    ensures ObtenerNumeroMes("enero") == Some(1) && DiaValido(10, 1)
  {
    assert Minusculas("enero") == "enero";
    NumeroMesCaracterizado("enero", 1);
  }

  /** A new office where patient `cedula` has just registered. */
  method ConsultorioConPaciente(cedula: string) returns (consultorio: Consultorio)
    ensures fresh(consultorio) && fresh(consultorio.agenda) && fresh(consultorio.Ficha(cedula))
    ensures consultorio.Valid() && consultorio.CitasVinculadas()
    ensures cedula in consultorio.pacientes && consultorio.pacientes[cedula].cita == null
    ensures consultorio.agenda.citas == map[] && consultorio.agenda.Repr == {}
  {
    consultorio := new Consultorio();
    var registro := consultorio.RegistrarUsuario("Ana", cedula, "F", [], "300");
  }

  /** A new office where patient `cedula` has booked hour `hora` of a valid date through
      `asignar_cita` as written: the booking is theirs, yet they still have no appointment. */
  method ReservaTalComoEsta(cedula: string, mes: string, dia: int, hora: int, anio: int)
    returns (consultorio: Consultorio, res: Outcome<Error>)
    requires ObtenerNumeroMes(mes).Some? && DiaValido(dia, ObtenerNumeroMes(mes).value) && 1 <= anio <= 9999
    requires HoraValida(hora)
    ensures fresh(consultorio) && fresh(consultorio.agenda) && fresh(consultorio.agenda.Repr)
    ensures res == Pass && consultorio.Valid()
    ensures cedula in consultorio.pacientes && consultorio.pacientes[cedula].cita == null
    ensures var fecha := Fecha(anio, ObtenerNumeroMes(mes).value, dia);
      && consultorio.agenda.citas.Keys == {fecha} && consultorio.agenda.citas[fecha].Keys == {hora}
      && consultorio.agenda.citas[fecha][hora].cedulaPaciente == cedula
  {
    consultorio := ConsultorioConPaciente(cedula);
    consultorio.SolicitudAceptada(cedula, mes, dia, hora, None, anio);
    res := consultorio.AsignarCita(cedula, mes, dia, hora, None, anio);
  }

  /** Booking a second hour of a date whose only booking is at another hour leaves both. */
  lemma SegundaReserva(m: map<Fecha, map<Hora, Cita>>, d: Fecha, h1: Hora, h2: Hora, c: Cita)
    requires d in m && m[d].Keys == {h1} && h1 != h2
    ensures Reservar(m, d, h2, c)[d].Keys == {h1, h2}
    ensures Reservar(m, d, h2, c)[d][h1] == m[d][h1] && Reservar(m, d, h2, c)[d][h2] == c
  {
  }

  /** As written, `asignar_cita` books without linking the patient, so its check "the patient
      already has an appointment" never fires: a new patient who asks for two different office
      hours of a valid date gets both, and the book holds two bookings of theirs. */
  method DobleReservaTalComoEsta(cedula: string, mes: string, dia: int, hora1: int, hora2: int, anio: int)
    returns (consultorio: Consultorio, primera: Outcome<Error>, segunda: Outcome<Error>)
    requires ObtenerNumeroMes(mes).Some? && DiaValido(dia, ObtenerNumeroMes(mes).value) && 1 <= anio <= 9999
    requires HoraValida(hora1) && HoraValida(hora2) && hora1 != hora2
    ensures primera == Pass && segunda == Pass
    ensures var fecha := Fecha(anio, ObtenerNumeroMes(mes).value, dia);
      && fecha in consultorio.agenda.citas && consultorio.agenda.citas[fecha].Keys == {hora1, hora2}
      && consultorio.agenda.citas[fecha][hora1].cedulaPaciente == cedula
      && consultorio.agenda.citas[fecha][hora2].cedulaPaciente == cedula
    ensures consultorio.Valid() && !consultorio.CitasVinculadas()
  {
    consultorio, primera := ReservaTalComoEsta(cedula, mes, dia, hora1, anio);
    ghost var fecha := Fecha(anio, ObtenerNumeroMes(mes).value, dia);
    assert hora2 !in DiaDe(consultorio.agenda.citas, fecha);
    consultorio.SolicitudAceptada(cedula, mes, dia, hora2, None, anio);
    assert consultorio.Solicitud(cedula, mes, dia, hora2, None, anio).Success?;
    ghost var antes := consultorio.agenda.citas;
    segunda := consultorio.AsignarCita(cedula, mes, dia, hora2, None, anio);
    SegundaReserva(antes, fecha, hora1, hora2, consultorio.agenda.citas[fecha][hora2]);
  }

  /** The date `obtener_agenda_dia` builds as written never exists, even for a request the
      office accepts; built from the month number it is January 10. */
  lemma FechaDeAgendaDiscrepa()
    ensures FechaDeAgendaTalComoEsta("enero", 10, 2024).Failure?
    ensures FechaDeAgenda("enero", 10, 2024) == Success(Fecha(2024, 1, 10))
  {
    DiezDeEnero();
  }
}
