/** The office's fixed configuration and its pure validators: month names,
    month lengths, opening hours, ultrasound types, and the construction of
    `datetime.date` / `datetime.time` values from user input. */
module Reglas {
  import opened Comun

  /** First and last bookable hour (both inclusive). */
  const HORA_INICIAL: int := 9
  const HORA_FINAL: int := 16

  /** Number of entries of a day's organised agenda, one per bookable hour. */
  const NUM_HORAS: int := HORA_FINAL - HORA_INICIAL + 1

  const ECOGRAFIAS: seq<string> :=
    ["fetal", "abdominal", "vias urinarias", "mamaria", "muscular", "cervical", "renal"]

  /** The month table exactly as the office spells it: April is "arbil". */
  const MESES: seq<string> :=
    ["enero", "febrero", "marzo", "arbil", "mayo", "junio", "julio",
     "agosto", "septiembre", "octubre", "noviembre", "diciembre"]

  function Minuscula(c: char): char
  {
    if 'A' <= c <= 'Z' then (c as int - 'A' as int + 'a' as int) as char else c
  }

  /** `str.lower()` restricted to ASCII letters (see README for why this is exact here). */
  function Minusculas(s: string): string
  {
    seq(|s|, i requires 0 <= i < |s| => Minuscula(s[i]))
  }

  /** Python's `list.index`: the first position of `x` in `s`, None when `x` is absent. */
  function Indice<T(==)>(s: seq<T>, x: T): (r: Option<nat>)
    ensures r.None? <==> x !in s
    ensures r.Some? ==> r.value < |s| && s[r.value] == x
    ensures r.Some? ==> forall k | 0 <= k < r.value :: s[k] != x
  {
    if s == [] then None
    else if s[0] == x then Some(0)
    else match Indice(s[1..], x)
      case None => None
      case Some(k) => Some(k + 1)
  }

  /** `obtener_numero_mes`: the 1-based position of the lower-cased name in the month table. */
  function ObtenerNumeroMes(mes: string): (r: Option<int>)
    ensures r.Some? <==> Minusculas(mes) in MESES
    ensures r.Some? ==> 1 <= r.value <= 12 && MESES[r.value - 1] == Minusculas(mes)
  {
    match Indice(MESES, Minusculas(mes))
    case None => None
    case Some(k) => Some(k + 1)
  }

  lemma MesesDistintos()
    ensures forall i, j | 0 <= i < j < |MESES| :: MESES[i] != MESES[j]
  {
  }

  /** A month name resolves to k exactly when its lower-case form is the k-th table entry. */
  lemma NumeroMesCaracterizado(mes: string, k: int)
    ensures ObtenerNumeroMes(mes) == Some(k) <==> 1 <= k <= 12 && Minusculas(mes) == MESES[k - 1]
  {
    if 1 <= k <= 12 && Minusculas(mes) == MESES[k - 1] {
      var r := ObtenerNumeroMes(mes);
      MesesDistintos();
      assert r.Some? && MESES[r.value - 1] == MESES[k - 1];
    }
  }

  /** Case does not matter: "Enero" is January. */
  lemma EneroSinMayusculas()
    ensures ObtenerNumeroMes("Enero") == Some(1)
  {
    assert Minusculas("Enero") == "enero";
    NumeroMesCaracterizado("Enero", 1);
  }

  /** The table's spelling decides: the correct "abril" is no month at all... */
  lemma AbrilNoEsMes()
    ensures ObtenerNumeroMes("abril") == None
  {
    assert Minusculas("abril") == "abril";
    assert forall i | 0 <= i < |MESES| :: MESES[i] != "abril";
  }

  /** ...while "ARBIL" is April. */
  lemma ArbilEsAbril()
    ensures ObtenerNumeroMes("ARBIL") == Some(4)
  {
    assert Minusculas("ARBIL") == "arbil";
    NumeroMesCaracterizado("ARBIL", 4);
  }

  /** `dia_valido`'s month-length table: 31, 30, or 28 for every other value (no leap years). */
  function DiasDelMes(numeroMes: int): int
  {
    if numeroMes in [1, 3, 5, 7, 8, 10, 12] then 31
    else if numeroMes in [4, 6, 9, 11] then 30
    else 28
  }

  /** `dia_valido` */
  predicate DiaValido(dia: int, numeroMes: int)
  {
    0 < dia <= DiasDelMes(numeroMes)
  }

  /** The Gregorian rule `datetime.date` applies. */
  predicate EsBisiesto(anio: int)
  {
    anio % 4 == 0 && (anio % 100 != 0 || anio % 400 == 0)
  }

  /** Month lengths of the Gregorian calendar, an independent reference for `DiasDelMes`. */
  function DiasGregorianos(anio: int, mes: int): int
    requires 1 <= mes <= 12
  {
    [31, if EsBisiesto(anio) then 29 else 28, 31, 30, 31, 30, 31, 31, 30, 31, 30, 31][mes - 1]
  }

  /** For a real month, `dia_valido` accepts exactly the days of that month in the calendar,
      except February 29 of a leap year, which it always rejects. */
  lemma DiaValidoSegunCalendario(anio: int, mes: int, dia: int)
    requires 1 <= mes <= 12
    ensures DiaValido(dia, mes) <==> 1 <= dia <= DiasGregorianos(anio, mes) && !(mes == 2 && dia == 29)
  {
  }

  /** Examples of the simplified table: April 30 is valid, April 31 and February 29 are not. */
  lemma DiasDeEjemplo()
    ensures DiaValido(30, 4) && !DiaValido(31, 4) && !DiaValido(29, 2)
    ensures EsBisiesto(2024) && 29 <= DiasGregorianos(2024, 2)
  {
  }

  /** `hora_valida` */
  predicate HoraValida(hora: int)
  {
    HORA_INICIAL <= hora <= HORA_FINAL
  }

  /** The ultrasound check of `asignar_cita`: no type at all, or one of the seven. */
  predicate TipoEcografiaAdmitido(tipo: Option<string>)
  {
    tipo.None? || tipo.value in ECOGRAFIAS
  }

  lemma EcografiasDeEjemplo()
    ensures TipoEcografiaAdmitido(Some("fetal")) && TipoEcografiaAdmitido(None)
    ensures !TipoEcografiaAdmitido(Some("unknown"))
  {
  }

  /** The month argument handed to `datetime.date`: Python lets either an int or a str through. */
  datatype ArgumentoMes = MesNumero(n: int) | MesNombre(nombre: string)

  /** `obtener_formato_fecha` with the clock's year passed in: `datetime.date(anio, mes, dia)`,
      which raises TypeError for a non-int month and ValueError for a date out of range. */
  function ObtenerFormatoFecha(anio: int, mes: ArgumentoMes, dia: int): (r: Result<Fecha, Error>)
    ensures mes.MesNombre? ==> r == Failure(ArgumentoNoEntero)
    ensures r.Success? ==> mes == MesNumero(r.value.mes) && r.value.anio == anio && r.value.dia == dia
    ensures r.Success? ==> 1 <= r.value.mes <= 12 && 1 <= r.value.dia <= DiasGregorianos(anio, r.value.mes)
  {
    match mes
    case MesNombre(_) => Failure(ArgumentoNoEntero)
    case MesNumero(n) =>
      if 1 <= anio <= 9999 && 1 <= n <= 12 && 1 <= dia <= DiasGregorianos(anio, n)
      then Success(Fecha(anio, n, dia))
      else Failure(ValorFueraDeRango)
  }

  /** A month number and a day that `dia_valido` accepts always make a date, in any year
      the clock can return: the simplified table never admits a day the calendar lacks. */
  lemma FechaConstruible(anio: int, numeroMes: int, dia: int)
    requires 1 <= anio <= 9999
    requires 1 <= numeroMes <= 12 && DiaValido(dia, numeroMes)
    ensures ObtenerFormatoFecha(anio, MesNumero(numeroMes), dia) == Success(Fecha(anio, numeroMes, dia))
  {
    DiaValidoSegunCalendario(anio, numeroMes, dia);
  }

  /** `obtener_formato_hora`: `datetime.time(hora, 0)`, a ValueError outside 0..23. */
  function ObtenerFormatoHora(hora: int): (r: Result<Hora, Error>)
    ensures r.Success? ==> r.value == hora
    ensures HoraValida(hora) ==> r.Success?
  {
    if 0 <= hora < 24 then Success(hora) else Failure(ValorFueraDeRango)
  }
}
