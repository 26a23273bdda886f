/** Shared vocabulary of the office model: optional and failure-carrying
    results, the calendar date the office stores, the error taxonomy of the
    office's operations, and decimal rendering used by the textual summaries. */
module Comun {

  datatype Option<+T> = None | Some(value: T)

  datatype Result<+R, +E> = Success(value: R) | Failure(error: E)

  datatype Outcome<+E> = Pass | Fail(error: E)

  /** A time slot: the hour of a `datetime.time(hora, 0)`, which only exists for 0..23. */
  type Hora = h: int | 0 <= h < 24

  /** A `datetime.date`; only built by `Reglas.ObtenerFormatoFecha`, which checks the ranges. */
  datatype Fecha = Fecha(anio: nat, mes: nat, dia: nat)

  /** One error per check of the office, in the words of the source's comments,
      plus the two exceptions `datetime.date` raises. */
  datatype Error =
    | UsuarioYaRegistrado     // "Usuario ya registrado"
    | UsuarioNoRegistrado     // "El usuario no está registrado" (also the KeyError of buscar_paciente)
    | PacienteYaTieneCita     // "El paciente ya tiene una cita agendada"
    | PacienteSinCita         // "El paciente no tiene cita"
    | MesInvalido             // "El mes ingresado no es válido"
    | DiaInvalido             // "El día ingresado no es válido"
    | HoraInvalida            // "La hora ingresada no es válida"
    | HoraOcupada             // "La hora indicada ya está ocupada"
    | EcografiaInvalida       // "El tipo de ecografía ingresado no es válido"
    | FechaSinCitas           // "La fecha ingresada no tiene citas"
    | SinHistorial            // "El paciente no tiene historial"
    | ArgumentoNoEntero       // TypeError of datetime.date: an argument is not an int
    | ValorFueraDeRango       // ValueError of datetime.date or datetime.time: a part out of range

  function Digito(d: nat): char
    requires d < 10
  {
    "0123456789"[d]
  }

  /** Decimal digits of `n`, most significant first. */
  function Decimal(n: nat): string
    decreases n
  {
    if n < 10 then [Digito(n)] else Decimal(n / 10) + [Digito(n % 10)]
  }

  /** Decimal digits of `n`, left-padded with zeros to `ancho` characters (printf's %0Nd). */
  function Relleno(n: nat, ancho: nat): string
  {
    var s := Decimal(n);
    if |s| >= ancho then s else seq(ancho - |s|, _ => '0') + s
  }

  /** `str(date)`: the ISO form YYYY-MM-DD. */
  function FechaTexto(f: Fecha): string
  {
    Relleno(f.anio, 4) + "-" + Relleno(f.mes, 2) + "-" + Relleno(f.dia, 2)
  }

  /** `str(datetime.time(hora, 0))`: HH:00:00. */
  function HoraTexto(h: Hora): string
  {
    Relleno(h, 2) + ":00:00"
  }
}
