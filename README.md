# ModeloConsultorio in Dafny

A verified model of the medical office ("consultorio") of `main.py`. The office keeps:

- a registry of patients (`Paciente`), keyed by cédula;
- an appointment book (`Agenda`), which creates a daily agenda (`AgendaDiaria`) the first time a date gets a booking.

A patient registers, asks for a medical or ultrasound appointment at an office hour (9 to 16) of a date in the current year, and then confirms, cancels or attends it. The office lists a day's agenda hour by hour and shows a patient's clinical history.

Modules, in dependency order:

- `Comun`: Option/Result/Outcome, dates, the error codes and the decimal text of dates and hours.
- `Reglas`: the office's constants and validators (`obtener_numero_mes`, `dia_valido`, `hora_valida`), the ultrasound types, and the construction of `datetime.date` / `datetime.time` values.
- `Citas`: history records and the `Cita` class, with its two kinds as one class with a kind tag.
- `Pacientes`: the `Paciente` class.
- `Agendas`: the `AgendaDiaria` and `Agenda` classes. A daily agenda keeps its insertion order, as a Python dict does. Its listing of bookings and its listing of hours are therefore parallel lists.
- `Organizacion`: `organizar_agenda` and `lista_organizada_disponibilidad`, as loops that consume the hours list.
- `Consultorios`: the `Consultorio` class and its use cases. The book is tracked as a ghost map `agenda.citas` (date → hour → appointment), and the patients' references as a ghost map `citaDe` (cédula → appointment or null). The invariants over them are pure map predicates:
  - `Referidas`: every reference names a booking of that patient.
  - `Vinculadas`: every booking is the appointment of its patient, so each patient has at most one booking.

Every use case checks its inputs in the source's order. Where the source only comments an error and then carries on (`pass`), the model returns that error and changes nothing (see "Left out").

## Model

| member | source | states |
|---|---|---|
| Reglas.Indice | main.py:226-227 | `tuple.index`: None exactly when the value is absent; otherwise a position holding the value with no earlier occurrence |
| Reglas.ObtenerNumeroMes | main.py:222-229 | a number exactly when the lower-cased name is in the month table, and then the table entry at that number is that name |
| Reglas.MesesDistintos | main.py:224-225 | the twelve month names are pairwise distinct |
| Reglas.NumeroMesCaracterizado | main.py:222-229 | a name resolves to k iff 1 ≤ k ≤ 12 and its lower-case form is the k-th entry (both directions) |
| Reglas.EneroSinMayusculas | main.py:226 | "Enero" is month 1: case is ignored |
| Reglas.AbrilNoEsMes | main.py:224 | the correct spelling "abril" is not a month, because the table says "arbil" |
| Reglas.ArbilEsAbril | main.py:224-227 | "ARBIL" is month 4 |
| Reglas.DiaValidoSegunCalendario | main.py:241-249 | for months 1..12, `dia_valido` accepts exactly the days of the Gregorian month, except February 29 |
| Reglas.DiasDeEjemplo | main.py:243-249 | April 30 valid, April 31 and February 29 invalid, though 2024 is a leap year |
| Reglas.EcografiasDeEjemplo | main.py:215-216 | "fetal" and no type are admitted; an unknown type is not |
| Reglas.ObtenerFormatoFecha | main.py:231-235 | a month name always raises TypeError; a built date has exactly the given parts and lies in the calendar |
| Reglas.FechaConstruible | main.py:319-326 | a month number and a day `dia_valido` accepts always make a date in any year 1..9999: `asignar_cita` cannot raise there |
| Reglas.ObtenerFormatoHora | main.py:237-239 | the time of a valid hour always exists and is that hour |
| Citas.TipoDeCita | main.py:154-158 | an ultrasound appointment exactly when a type is given, carrying that type |
| Citas.Cita.constructor | main.py:41-46 | date, hour, patient and kind as given; neither confirmed nor attended |
| Citas.Cita.CitaConfirmada | main.py:48-49 | sets confirmed and leaves attended alone |
| Citas.Cita.CitaAtendida | main.py:54-55 | sets attended and leaves confirmed alone |
| Citas.Cita.ObtenerFechaHora | main.py:51-52 | the appointment's own date and hour |
| Pacientes.Paciente.constructor | main.py:93-101 | the given data, no appointment, empty history |
| Pacientes.Paciente.CitaConfirmada | main.py:109-110 | confirms the patient's appointment, its attended flag unchanged |
| Pacientes.Paciente.ObtenerFechaHoraDeCita | main.py:112-113 | the date and hour of the patient's appointment |
| Pacientes.Paciente.EliminarCita | main.py:115-116 | no appointment afterwards; history unchanged |
| Pacientes.Paciente.AgregarHistoria | main.py:121-122 | the history is the old history extended by the record; the appointment is unchanged |
| Pacientes.Paciente.CitaAtendida | main.py:124-125 | marks the appointment attended, its confirmed flag unchanged |
| Pacientes.Paciente.InformacionHistoria | main.py:130-134 | one text per history entry, in order, each that entry's text |
| Pacientes.Textos | main.py:131-134 | the loop: one text per element, in order |
| Agendas.QuitarClave | main.py:162 | the insertion order after a deletion: every key but the deleted one, still without repeats |
| Agendas.Valores | main.py:165 | the dict values in insertion order, one per key |
| Agendas.EnumeraPertenencia | main.py:141 | the insertion order lists exactly the dict's keys, each once |
| Agendas.EnumeraAgregar | main.py:159 | inserting a new key appends it to the insertion order |
| Agendas.EnumeraQuitar | main.py:162 | deleting a key removes it from the insertion order |
| Agendas.SobrescribirClave | main.py:159 | assigning a key twice leaves the last value |
| Agendas.AgendaDiaria.constructor | main.py:139-141 | the given date, no bookings |
| Agendas.AgendaDiaria.AgregarCita | main.py:154-159 | books a new, unflagged appointment of the right kind at the hour and changes no other hour; a new hour goes to the end of the order |
| Agendas.AgendaDiaria.EliminarCita | main.py:161-162 | the hour becomes free, nothing else changes, and the order loses that hour |
| Agendas.AgendaDiaria.ListaCitas | main.py:164-165 | lists each booking exactly once, each at its own hour |
| Agendas.AgendaDiaria.ObtenerHoras | main.py:167-171 | the hours of the listing, position by position; exactly the booked hours |
| Agendas.Agenda.CitasCoherentes | main.py:154-159 | every booking sits at its own date and hour |
| Agendas.Agenda.constructor | main.py:179-180 | an empty book |
| Agendas.Agenda.HoraDisponible | main.py:182-186 | free exactly when the date has no booking at that hour; a date without an agenda is always free |
| Agendas.Agenda.AsegurarAgendaDiaria | main.py:189-190 | the date has a daily agenda afterwards; a new one is fresh; the bookings are unchanged |
| Agendas.Agenda.ReservarEnAgendaDiaria | main.py:191 | books a new, unflagged appointment at the date and hour; nothing else changes |
| Agendas.Agenda.AgregarCita | main.py:188-191 | the same, creating the daily agenda first when needed |
| Agendas.Agenda.EliminarCita | main.py:193-194 | frees exactly that hour; the date keeps its daily agenda |
| Agendas.Agenda.ListaCitasEnFecha | main.py:199-200 | the date's bookings, each once, each at its own hour |
| Agendas.Agenda.ObtenerHoras | main.py:205-206 | the hours of that listing, position by position |
| Agendas.AgendaDiaria.CedulaPacientePorCita | main.py:143-149 | the loop: one (cédula, appointment) pair per appointment, in order |
| Agendas.Agenda.CedulaPacientePorCita | main.py:202-203 | one (cédula, appointment) pair per appointment, in order |
| Organizacion.Quitar | main.py:273-274 | `list.pop(i)` shortens the list by one |
| Organizacion.BuscarAusente | main.py:270-277 | nothing is found for an hour exactly when it is not in the list |
| Organizacion.BuscarEncontrada | main.py:270-273 | what is found belongs to an entry of that hour |
| Organizacion.BuscarPrimera | main.py:270-275 | the first entry of an hour is the one found |
| Organizacion.BuscarTrasQuitar | main.py:273-274 | popping an entry of another hour from both lists changes nothing that is found |
| Organizacion.PertenenciaTrasQuitar | main.py:286 | removing an entry of another hour keeps membership |
| Organizacion.OrganizarAgenda | main.py:267-278 | eight entries; entry i is the information of the first booking at hour 9+i, or None exactly when no booking has that hour |
| Organizacion.AgendaOrganizadaHorasValidas | main.py:267-278 | only bookings at office hours reach the organised agenda: each entry shown is the information of a booking at a valid hour, at that hour's position; the first booking at a valid hour h is shown at position h - 9 |
| Organizacion.ListaOrganizadaDisponibilidad | main.py:280-290 | eight flags; flag i is true exactly when no booking has hour 9+i |
| Consultorios.Reservar | main.py:188-191 | the book with the appointment at the date and hour |
| Consultorios.Liberar | main.py:193-194 | the book with the hour of that date free |
| Consultorios.LiberarDeshaceReservar | main.py:188-194 | booking a free hour and freeing it again gives back the book; a new date keeps an empty daily agenda |
| Consultorios.ReservadasTrasReservar | main.py:188-191 | booking a free hour keeps every earlier booking |
| Consultorios.ReferidasTrasReservar | main.py:337 | booking a free hour keeps every patient's reference valid |
| Consultorios.VincularReserva | main.py:337 | booking for a patient without appointment and linking them keeps references valid and one booking per patient |
| Consultorios.LiberarReferida | main.py:355-357 | freeing a patient's appointment and dropping the reference keeps both invariants |
| Consultorios.LiberarNoReferida | main.py:357 | freeing a booking nobody refers to keeps the references valid |
| Consultorios.AgregarPaciente | main.py:296-297 | a new patient without appointment keeps both invariants |
| Consultorios.QuitarPaciente | main.py:309 | removing a patient without appointment keeps both invariants |
| Consultorios.UnaReservaPorPaciente | main.py:316-318 | where bookings are linked, two bookings of the same patient are the same booking |
| Consultorios.AnularYQuitar | main.py:308-309 | clearing a patient's reference and then deleting the entry is deleting it |
| Consultorios.PacientesDelDia | main.py:392-393 | the pairs of a day's listing name an unregistered patient iff one of the day's bookings does |
| Consultorios.BuscarEnElDia | main.py:391-395 | in a day's parallel listings, the search by hour finds the entry of the booking at that hour, or nothing |
| Consultorios.AgendaDelDiaOrganizada | main.py:391-395 | the organised agenda shows at each office hour the line of the booking at that hour, or None |
| Consultorios.LineasPorCita | main.py:260-265 | fails, as a missing patient, exactly when some pair's patient is not registered; otherwise one line per pair, in order |
| Consultorios.Consultorio.constructor | main.py:218-220 | no patients and an empty book |
| Consultorios.Consultorio.RegistrarUsuario | main.py:294-300 | refused exactly when the cédula is registered, changing nothing; otherwise a fresh patient with the given data, no appointment and no history; the invariants are kept |
| Consultorios.Consultorio.Inscribir | main.py:296-297 | the patient joins the registry under their own cédula, with no appointment |
| Consultorios.Consultorio.EliminarPaciente | main.py:302-309 | refused for an unknown cédula; otherwise the patient's appointment hour is freed, if any, and the patient is removed; the invariants are kept |
| Consultorios.Consultorio.QuitarRegistro | main.py:309 | removes the entry of a patient without appointment; the book is unchanged |
| Consultorios.Consultorio.Solicitud | main.py:311-336 | the checks of `asignar_cita`, in order; when all pass, the patient is registered without appointment and the hour is free at the date |
| Consultorios.Consultorio.SolicitudAceptada | main.py:311-336 | a request is accepted iff: the patient is registered without appointment, the month is known, the day is valid, the hour is a free office hour and the ultrasound type is admitted; the date is then built from the month's number |
| Consultorios.Consultorio.AsignarCita | main.py:311-337 | fails with the first failed check and changes nothing; otherwise it books a new, unflagged appointment of the right kind, and the patient still has no appointment |
| Consultorios.Consultorio.ReservarCita | main.py:337 | books a free hour; patients' references stay valid |
| Consultorios.Consultorio.AsignarCitaVinculada | main.py:311-337 | as `AsignarCita`, and the patient is also linked to the new appointment, which keeps one booking per patient |
| Consultorios.Consultorio.ReservarVinculada | main.py:337 | books a free hour and links its patient; one booking per patient is kept |
| Consultorios.Consultorio.Vincular | main.py:316 | the patient now refers to their booking; nothing else changes |
| Consultorios.Consultorio.ConfirmarCita | main.py:339-349 | unknown patient, then no appointment, are errors; otherwise the appointment is confirmed and its attended flag unchanged |
| Consultorios.Consultorio.CancelarCita | main.py:351-363 | unknown patient, then no appointment, are errors that change nothing; otherwise the reference is dropped and exactly that hour is freed; the invariants are kept |
| Consultorios.Consultorio.QuitarCita | main.py:355-357 | the patient has no appointment afterwards and its hour is freed |
| Consultorios.Consultorio.Desvincular | main.py:356 | drops the patient's reference; the history and book are unchanged |
| Consultorios.Consultorio.LiberarHora | main.py:357 | frees exactly that booking |
| Consultorios.Consultorio.AtenderCita | main.py:365-377 | unknown patient, then no appointment, are errors; otherwise the record is appended to the history and the appointment marked attended, its confirmed flag unchanged |
| Consultorios.Consultorio.InformacionPacientePorCita | main.py:260-265 | one (patient text, appointment text) line per pair, in order; fails exactly when a pair's patient is not registered |
| Consultorios.Consultorio.AgendaDeFecha | main.py:388-395 | a date without agenda is an error, and so is a booking whose patient is unregistered; otherwise eight entries, entry i the line of the booking at hour 9+i, or None |
| Consultorios.Consultorio.LineasDelDia | main.py:391-393 | the lines of the day's listing, one per booking; fails exactly when a booking's patient is unregistered |
| Consultorios.Consultorio.OrganizarDia | main.py:394-395 | entry i is the line of the booking at hour 9+i, or None |
| Consultorios.Consultorio.ObtenerAgendaDia | main.py:379-395 | month and day errors first, then the day's agenda as `AgendaDeFecha`; with linked bookings it never reports an unregistered patient |
| Consultorios.Consultorio.ObtenerHistorialPaciente | main.py:397-406 | unknown patient and empty history are errors; otherwise one text per history entry, in order |
| Consultorios.FechaDeAgendaTalComoEsta | main.py:387 | the date built as written always fails with TypeError |
| Consultorios.FechaDeAgenda | main.py:380-387 | from a known month and a valid day it builds exactly that date |
| Consultorios.DiezDeEnero | main.py:222-249 | "enero" is month 1 and January 10 a valid day |
| Consultorios.ConsultorioConPaciente | main.py:294-297 | a new office with one registered patient: no appointment, empty book, invariants hold |
| Consultorios.ReservaTalComoEsta | main.py:311-337 | after one booking through the code as written, the hour is the patient's, yet the patient has no appointment |
| Consultorios.DobleReservaTalComoEsta | main.py:311-337 | as written, the same patient gets two different hours of a date: both requests pass, the date's bookings are exactly those two hours, both of that patient, and one booking per patient is broken |
| Consultorios.FechaDeAgendaDiscrepa | main.py:387 | for "enero" 10 the date as written fails, while the date from the month number is January 10 |

## Left out

- Errors: where the source comments an error and writes `pass`, execution goes on and later raises or misbehaves. The model stops at the first failed check with a distinct error and changes nothing. Examples: a KeyError from `buscar_paciente` in `eliminar_paciente`, `asignar_cita` and `obtener_historial_paciente`; a TypeError from `datetime.date(year, None, dia)` (main.py:235, reached from main.py:326) after an unknown month; a silent double booking of an occupied hour.
- Consultorios.Consultorio.ObtenerHistorialPaciente: a patient without history gets the error `SinHistorial`, where the source returns None.
- The current year: `datetime.date.today()` is a clock read. The year is the parameter `anio`, required to be in 1..9999, the range `date.today()` can return.
- `convertir_archivo`: every version is a stub (`pass`). `AtenderCita` takes the history record the converter would make as a parameter. As written, the source appends None to the history.
- Stubs not modelled: `recuperar_informacion`, `lista_citas_sin_confirmar` of `Agenda` and of `AgendaDiaria`.
- The patient's age: main.py:98 is incomplete, an assignment without a value. Age is not modelled; the birth date is kept as given.
- `tuple[a, b]` in `cedula_paciente_por_cita` and `informacion_paciente_por_cita` builds a generic-alias object in Python, not a pair. The model uses real pairs, as the code evidently intends.
- Text: `str.lower()` is modelled on ASCII letters only. This is exact for the month lookup, because every table entry is ASCII letters. Only two non-ASCII characters lower-case to something with an ASCII letter. U+0130 lower-cases to 'i' plus a combining dot, which no entry contains. The Kelvin sign U+212A lower-cases to 'k', a letter no month name contains.
- Text: the `__str__` texts are rendered from the fields. Dates read YYYY-MM-DD and hours HH:00:00, as `str` of `datetime` values does.
- Reglas.DiaValidoSegunCalendario: `dia_valido` has no leap years (February always has 28 days). This is the source's behaviour, stated as such, not a bug claimed.
- Identity: `Agenda` requires an `AgendaDiaria`'s date to match its key, which the source always does. `Agendas.AgendaDiaria.AgregarCita` requires its separate date argument to equal the agenda's date, as the only caller (main.py:191) always passes.
- `Paciente.convertir_archivo` (main.py:118-119) forwards to the stub above and is not modelled.
- One-line queries have no row of their own. `usuario_existe` and `buscar_paciente` appear inlined as `cedula in pacientes` and `pacientes[cedula]`. `Pacientes.Paciente.PacienteTieneCita`, `Pacientes.Paciente.TieneHistorial`, `Agendas.AgendaDiaria.HoraDisponible` and `Agendas.Agenda.FechaTieneCitas` are used by the use cases.
- Definitions used in contracts have no row: `Reglas.DiaValido`, `Reglas.HoraValida` and `Reglas.TipoEcografiaAdmitido` are stated through `Reglas.DiaValidoSegunCalendario`, `Organizacion.AgendaOrganizadaHorasValidas` and `Consultorios.Consultorio.SolicitudAceptada`. `Organizacion.Buscar`, the first match by hour, is the reference `Organizacion.OrganizarAgenda` is proved against, through `BuscarAusente`, `BuscarEncontrada` and `BuscarPrimera`.
- The text renderings `Citas.HistorialTexto`, `Citas.CitaTexto` and `Pacientes.PacienteTexto` (main.py:23-36, 75-88, 103-104) are definitions without a contract of their own.
- `organizar_agenda` and `lista_organizada_disponibilidad` pop from the caller's own lists (main.py:273-274, 286), so the caller's lists lose the entry of every hour placed. `Organizacion.OrganizarAgenda` and `Organizacion.ListaOrganizadaDisponibilidad` consume local copies of sequence values: that effect on the arguments is not captured.

## Findings

| source | as written | input that shows it | evidently intended | confidence | as-written member | corrected member |
|---|---|---|---|---|---|---|
| main.py:311-337 | `asignar_cita` books the hour but never sets `paciente.cita`, so the check "the patient already has an appointment" (main.py:316) never fires | a registered patient asks twice for two different free hours of a valid date: both requests book | link the patient to the new appointment, so a second request fails with `PacienteYaTieneCita` and each patient holds at most one booking | not executed | Consultorios.DobleReservaTalComoEsta | Consultorios.Consultorio.AsignarCitaVinculada |
| main.py:387 | `obtener_agenda_dia` hands the month NAME to `obtener_formato_fecha`, and `datetime.date` raises TypeError | `obtener_agenda_dia("enero", 10)` | build the date from the month number, as `asignar_cita` does at main.py:326 | not executed | Consultorios.FechaDeAgendaDiscrepa | Consultorios.FechaDeAgenda |
