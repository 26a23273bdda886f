/** A registered patient: personal data fixed at registration, an optional
    reference to an appointment owned by the agenda, and an append-only history. */
module Pacientes {
  import opened Comun
  import opened Citas

  class Paciente {
    const nombre: string
    const cedula: string
    const sexo: string
    /** The birth date as the "D/M/Y" parts the caller passes; the age is not modelled. */
    const fechaNacimiento: seq<string>
    const celular: string
    var cita: Cita?
    var historial: seq<Historial>

    /** A new patient has no appointment and an empty history. */
    constructor (nombre: string, cedula: string, sexo: string, fechaNacimiento: seq<string>, celular: string)
      ensures this.nombre == nombre && this.cedula == cedula && this.sexo == sexo
      ensures this.fechaNacimiento == fechaNacimiento && this.celular == celular
      ensures cita == null && historial == []
    {
      this.nombre := nombre;
      this.cedula := cedula;
      this.sexo := sexo;
      this.fechaNacimiento := fechaNacimiento;
      this.celular := celular;
      cita := null;
      historial := [];
    }

    /** `paciente_tiene_cita` */
    predicate PacienteTieneCita()
      reads this
    {
      cita != null
    }

    /** `cita_confirmada`: forwards to the appointment (an AttributeError in the source without one). */
    method CitaConfirmada()
      requires cita != null
      modifies cita
      ensures cita.confirmada && cita.atendida == old(cita.atendida)
    {
      cita.CitaConfirmada();
    }

    /** `obtener_fecha_hora_de_cita` */
    function ObtenerFechaHoraDeCita(): (fh: (Fecha, Hora))
      requires cita != null
      reads this
      ensures fh == (cita.fecha, cita.hora)
    {
      cita.ObtenerFechaHora()
    }

    /** `eliminar_cita`: drops the reference only; the agenda is the caller's business. */
    method EliminarCita()
      modifies this
      ensures cita == null && historial == old(historial)
    {
      cita := null;
    }

    /** `agregar_historia`: appends at the end, leaving every earlier entry where it was. */
    method AgregarHistoria(h: Historial)
      modifies this
      ensures historial == old(historial) + [h] && cita == old(cita)
      ensures old(historial) <= historial
    {
      historial := historial + [h];
    }

    /** `cita_atendida`: forwards to the appointment. */
    method CitaAtendida()
      requires cita != null
      modifies cita
      ensures cita.atendida && cita.confirmada == old(cita.confirmada)
    {
      cita.CitaAtendida();
    }

    /** `tiene_historial` */
    predicate TieneHistorial()
      reads this
    {
      historial != []
    }

    /** `informacion_historia`: one text per history entry, same length and same order. */
    method InformacionHistoria() returns (informacion: seq<string>)
      ensures |informacion| == |historial|
      ensures forall i | 0 <= i < |historial| :: informacion[i] == HistorialTexto(historial[i])
    {
      informacion := Textos(historial, HistorialTexto);
    }
  }

  /** The loop `for x in xs: lista.append(str(x))`, for any rendering `texto`. */
  method Textos<T>(xs: seq<T>, texto: T -> string) returns (lista: seq<string>)
    ensures |lista| == |xs|
    ensures forall i | 0 <= i < |xs| :: lista[i] == texto(xs[i])
  {
    lista := [];
    for k := 0 to |xs|
      invariant |lista| == k
      invariant forall i | 0 <= i < k :: lista[i] == texto(xs[i])
    {
      lista := lista + [texto(xs[k])];
    }
  }

  /** `str(paciente)` */
  function PacienteTexto(p: Paciente): string
  {
    "Nombre: " + p.nombre + " Cedula: " + p.cedula + " Celular: " + p.celular
  }
}
