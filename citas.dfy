/** Clinical history entries and appointments. The source's two abstract base
    classes with two subclasses each become one type with a variant tag:
    `Historial` (HistoriaClinica / ResultadoEcografia) is an immutable value,
    `Cita` (CitaMedica / CitaEcografia) an object whose two flags are set in place. */
module Citas {
  import opened Comun

  datatype TipoHistorial = Clinica | ResultadoEcografia(tipoEcografia: string)

  /** A completed-visit record; never changed after it is built. */
  datatype Historial = Historial(fecha: Fecha, informacion: string, tipo: TipoHistorial)

  /** `Historial.__str__` of each subclass. */
  function HistorialTexto(h: Historial): string
  {
    match h.tipo
    case Clinica =>
      "Fecha: " + FechaTexto(h.fecha) + "\nResultado: " + h.informacion
    case ResultadoEcografia(t) =>
      "Fecha: " + FechaTexto(h.fecha) + "\nTipo de Ecografía: " + t + "\nResultado: " + h.informacion
  }

  datatype TipoCita = Medica | Ecografia(tipoEcografia: string)

  /** The subclass `agregar_cita` instantiates: an ultrasound appointment exactly when a type is given. */
  function TipoDeCita(tipoEcografia: Option<string>): (t: TipoCita)
    ensures t.Ecografia? <==> tipoEcografia.Some?
    ensures t.Ecografia? ==> t.tipoEcografia == tipoEcografia.value
  {
    match tipoEcografia
    case None => Medica
    case Some(t) => Ecografia(t)
  }

  class Cita {
    const fecha: Fecha
    const hora: Hora
    const cedulaPaciente: string
    const tipo: TipoCita
    var confirmada: bool
    var atendida: bool

    /** A new appointment is neither confirmed nor attended. */
    constructor (fecha: Fecha, hora: Hora, cedulaPaciente: string, tipo: TipoCita)
      ensures this.fecha == fecha && this.hora == hora
      ensures this.cedulaPaciente == cedulaPaciente && this.tipo == tipo
      ensures !confirmada && !atendida
    {
      this.fecha := fecha;
      this.hora := hora;
      this.cedulaPaciente := cedulaPaciente;
      this.tipo := tipo;
      confirmada := false;
      atendida := false;
    }

    /** `cita_confirmada`: raises only its own flag; calling it again changes nothing. */
    method CitaConfirmada()
      modifies this
      ensures confirmada && atendida == old(atendida)
    {
      confirmada := true;
    }

    /** `cita_atendida`: raises only its own flag; calling it again changes nothing. */
    method CitaAtendida()
      modifies this
      ensures atendida && confirmada == old(confirmada)
    {
      atendida := true;
    }

    /** `obtener_fecha_hora` */
    function ObtenerFechaHora(): (fh: (Fecha, Hora))
      ensures fh.0 == fecha && fh.1 == hora
    {
      (fecha, hora)
    }
  }

  /** `Cita.__str__` of each subclass. */
  function CitaTexto(c: Cita): string
  {
    match c.tipo
    case Medica =>
      "Fecha: " + FechaTexto(c.fecha) + ", Hora: " + HoraTexto(c.hora)
    case Ecografia(t) =>
      "Fecha: " + FechaTexto(c.fecha) + ", Hora: " + HoraTexto(c.hora) + ", Tipo de Ecografía: " + t
  }
}
