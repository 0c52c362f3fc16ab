/**
 * The rule logic of the backend's automatic notifications and of the mortality
 * registration: which alerts a lot earns on a given day, and the mortality
 * figures that decide the high-mortality alert. Pure functions; the ledger
 * applies them.
 */
module Alerts {
  import opened Wrappers
  import opened Records
  import Strings

  /**
   * The duplicate checks of the alert generator, which the ledger receives as a
   * predicate. Each key stands for one query over the lot's notifications:
   * AgeKey and ExitKey, one of that type created today or later; CapitalKey, one
   * of that type created within the last 3 days; ReminderKey, one of any type
   * created today or later whose message contains the event's description.
   */
  datatype AlertKey =
    | AgeKey(lot: LotId)
    | ExitKey(lot: LotId)
    | CapitalKey(lot: LotId)
    | ReminderKey(lot: LotId, descripcion: string)

  /** Age alert: the lot has just completed another week, from day 21 on. */
  function AgeAlert(id: LotId, lot: Lot, hoy: Day, existe: AlertKey -> bool): seq<Notification> {
    var diasEdad := hoy - lot.fechaInicio;
    if diasEdad >= 21 && diasEdad % 7 == 0 && !existe(AgeKey(id))
    then [Notification(Some(id), AlertaEdad, Media, false)]
    else []
  }

  /** Exit alert: 7, 3 or 1 days before the estimated exit date. */
  function ExitAlert(id: LotId, lot: Lot, hoy: Day, existe: AlertKey -> bool): seq<Notification> {
    match lot.fechaSalida
    case None => []
    case Some(salida) =>
      var diasRestantes := salida - hoy;
      if (diasRestantes == 7 || diasRestantes == 3 || diasRestantes == 1) && !existe(ExitKey(id))
      then [Notification(Some(id), AlertaFechaSalida, if diasRestantes <= 3 then Alta else Media, false)]
      else []
  }

  /** Current capital as a percentage of the initial one; 0 when nothing was assigned. */
  function CapitalPercent(c: Capital): real {
    if c.inicial > 0 then (c.actual as real / c.inicial as real) * 100.0 else 0.0
  }

  /** Below 20 percent means: no initial capital, or less than a fifth of it left. */
  lemma CapitalPercentBelow20(c: Capital)
    ensures CapitalPercent(c) < 20.0 <==> c.inicial <= 0 || 5 * c.actual < c.inicial
  {
    if c.inicial > 0 {
      PercentCompare(c.actual as real, c.inicial as real, 20.0);
      FifthInReals(c.actual, c.inicial);
    }
  }

  lemma FifthInReals(x: int, y: int)
    ensures 100.0 * (x as real) < 20.0 * (y as real) <==> 5 * x < y
  {
  }

  /** Low-capital alert, for a lot that has a capital row. */
  function CapitalAlert(id: LotId, cap: Option<Capital>, existe: AlertKey -> bool): seq<Notification> {
    match cap
    case None => []
    case Some(c) =>
      if CapitalPercent(c) < 20.0 && !existe(CapitalKey(id))
      then [Notification(Some(id), AlertaCapitalBajo, Alta, false)]
      else []
  }

  /** Reminder type chosen from the event's description: molasses wins over vitamins. */
  function ReminderKind(descripcion: string): NotificationKind {
    var lower := Strings.Lower(descripcion);
    var tipo := if Strings.Contains(lower, "vitaminas") then RecordatorioVitaminas
                else RecordatorioCambioAlimento;
    if Strings.Contains(lower, "melaza") then RecordatorioMelaza else tipo
  }

  lemma ReminderKindRule(descripcion: string)
    ensures var lower := Strings.Lower(descripcion);
      && (Strings.Contains(lower, "melaza") <==> ReminderKind(descripcion) == RecordatorioMelaza)
      && (ReminderKind(descripcion) == RecordatorioVitaminas <==>
            !Strings.Contains(lower, "melaza") && Strings.Contains(lower, "vitaminas"))
      && (ReminderKind(descripcion) == RecordatorioCambioAlimento <==>
            !Strings.Contains(lower, "melaza") && !Strings.Contains(lower, "vitaminas"))
  {
  }

  /** Is `e` a pending event of lot `id` scheduled for today that no notification of the lot mentions yet? */
  predicate ReminderDue(id: LotId, e: Event, hoy: Day, existe: AlertKey -> bool) {
    e.lot == id && e.estado == EventoPendiente && e.fechaProgramada == hoy
    && !existe(ReminderKey(id, e.descripcion))
  }

  /** Reminders for the lot's events of today, in the order of the event table. */
  function Reminders(id: LotId, events: seq<Event>, hoy: Day, existe: AlertKey -> bool): seq<Notification>
    decreases |events|
  {
    if events == [] then []
    else
      var e := events[|events| - 1];
      Reminders(id, events[..|events| - 1], hoy, existe)
      + (if ReminderDue(id, e, hoy, existe)
         then [Notification(Some(id), ReminderKind(e.descripcion), Alta, false)]
         else [])
  }

  predicate IsReminder(k: NotificationKind) {
    k == RecordatorioVitaminas || k == RecordatorioCambioAlimento || k == RecordatorioMelaza
  }

  /** At most one reminder per event, each a high-priority, unread reminder of that lot. */
  lemma {:induction false} RemindersShape(id: LotId, events: seq<Event>, hoy: Day, existe: AlertKey -> bool)
    ensures |Reminders(id, events, hoy, existe)| <= |events|
    ensures forall n :: n in Reminders(id, events, hoy, existe) ==>
      n.lot == Some(id) && IsReminder(n.tipo) && n.prioridad == Alta && !n.leida
    decreases |events|
  {
    if events != [] {
      RemindersShape(id, events[..|events| - 1], hoy, existe);
    }
  }

  /** No reminder is due when no event of the lot is pending for today. */
  lemma {:induction false} RemindersNoneDue(id: LotId, events: seq<Event>, hoy: Day, existe: AlertKey -> bool)
    requires forall i :: 0 <= i < |events| ==> !ReminderDue(id, events[i], hoy, existe)
    ensures Reminders(id, events, hoy, existe) == []
    decreases |events|
  {
    if events != [] {
      RemindersNoneDue(id, events[..|events| - 1], hoy, existe);
    }
  }

  /** All alerts of one active lot, in the order the generator adds them. */
  function LotAlerts(id: LotId, lot: Lot, cap: Option<Capital>, events: seq<Event>, hoy: Day,
                     existe: AlertKey -> bool): seq<Notification>
  {
    AgeAlert(id, lot, hoy, existe) + ExitAlert(id, lot, hoy, existe)
    + CapitalAlert(id, cap, existe) + Reminders(id, events, hoy, existe)
  }

  predicate HasKind(ns: seq<Notification>, k: NotificationKind) {
    exists n :: n in ns && n.tipo == k
  }

  lemma HasKindAppend(a: seq<Notification>, b: seq<Notification>, k: NotificationKind)
    ensures HasKind(a + b, k) <==> HasKind(a, k) || HasKind(b, k)
  {
    if HasKind(a + b, k) {
      var n :| n in a + b && n.tipo == k;
      assert n in a || n in b;
    }
    if HasKind(a, k) {
      var n :| n in a && n.tipo == k;
      assert n in a + b;
    }
    if HasKind(b, k) {
      var n :| n in b && n.tipo == k;
      assert n in a + b;
    }
  }

  /** A lot's alerts hold a kind iff one of the four rules produced it; reminders are never another kind. */
  lemma LotAlertsKinds(id: LotId, lot: Lot, cap: Option<Capital>, events: seq<Event>, hoy: Day,
                       existe: AlertKey -> bool, k: NotificationKind)
    requires !IsReminder(k)
    ensures HasKind(LotAlerts(id, lot, cap, events, hoy, existe), k) <==>
      HasKind(AgeAlert(id, lot, hoy, existe), k) || HasKind(ExitAlert(id, lot, hoy, existe), k)
      || HasKind(CapitalAlert(id, cap, existe), k)
  {
    var a := AgeAlert(id, lot, hoy, existe);
    var e := ExitAlert(id, lot, hoy, existe);
    var c := CapitalAlert(id, cap, existe);
    var r := Reminders(id, events, hoy, existe);
    HasKindAppend(a, e, k);
    HasKindAppend(a + e, c, k);
    HasKindAppend(a + e + c, r, k);
    RemindersShape(id, events, hoy, existe);
  }

  /** The age alert appears iff the lot is at least 21 days old on a multiple of 7 days. */
  lemma AgeAlertIff(id: LotId, lot: Lot, cap: Option<Capital>, events: seq<Event>, hoy: Day,
                    existe: AlertKey -> bool)
    ensures var diasEdad := hoy - lot.fechaInicio;
      HasKind(LotAlerts(id, lot, cap, events, hoy, existe), AlertaEdad) <==>
      diasEdad >= 21 && diasEdad % 7 == 0 && !existe(AgeKey(id))
  {
    LotAlertsKinds(id, lot, cap, events, hoy, existe, AlertaEdad);
    var a := AgeAlert(id, lot, hoy, existe);
    if a != [] {
      assert a[0] in a;
    }
  }

  /**
   * The exit alert appears iff the exit date is 7, 3 or 1 days away, and it is
   * high priority exactly when 3 days or fewer remain.
   */
  lemma ExitAlertIff(id: LotId, lot: Lot, cap: Option<Capital>, events: seq<Event>, hoy: Day,
                     existe: AlertKey -> bool)
    ensures HasKind(LotAlerts(id, lot, cap, events, hoy, existe), AlertaFechaSalida) <==>
      lot.fechaSalida.Some? && (lot.fechaSalida.value - hoy) in {7, 3, 1} && !existe(ExitKey(id))
    ensures forall n :: n in LotAlerts(id, lot, cap, events, hoy, existe) && n.tipo == AlertaFechaSalida ==>
      (n.prioridad == Alta <==> lot.fechaSalida.value - hoy <= 3)
  {
    LotAlertsKinds(id, lot, cap, events, hoy, existe, AlertaFechaSalida);
    RemindersShape(id, events, hoy, existe);
    var e := ExitAlert(id, lot, hoy, existe);
    if e != [] {
      assert e[0] in e;
    }
    forall n | n in LotAlerts(id, lot, cap, events, hoy, existe) && n.tipo == AlertaFechaSalida
      ensures n in e
    {
    }
  }

  /** The low-capital alert appears iff the lot has capital and under 20 percent of it is left. */
  lemma CapitalAlertIff(id: LotId, lot: Lot, cap: Option<Capital>, events: seq<Event>, hoy: Day,
                        existe: AlertKey -> bool)
    ensures HasKind(LotAlerts(id, lot, cap, events, hoy, existe), AlertaCapitalBajo) <==>
      cap.Some? && (cap.value.inicial <= 0 || 5 * cap.value.actual < cap.value.inicial)
      && !existe(CapitalKey(id))
  {
    LotAlertsKinds(id, lot, cap, events, hoy, existe, AlertaCapitalBajo);
    if cap.Some? {
      CapitalPercentBelow20(cap.value);
    }
    var c := CapitalAlert(id, cap, existe);
    if c != [] {
      assert c[0] in c;
    }
  }

  /** All alerts of the lot belong to it and are unread; at most three are not reminders. */
  lemma LotAlertsShape(id: LotId, lot: Lot, cap: Option<Capital>, events: seq<Event>, hoy: Day,
                       existe: AlertKey -> bool)
    ensures forall n :: n in LotAlerts(id, lot, cap, events, hoy, existe) ==> n.lot == Some(id) && !n.leida
    ensures |LotAlerts(id, lot, cap, events, hoy, existe)| <= 3 + |events|
  {
    RemindersShape(id, events, hoy, existe);
  }

  /** A percentage `a / d * 100` compared with `k`, without the division. */
  lemma PercentCompare(a: real, d: real, k: real)
    requires d > 0.0
    ensures (a / d) * 100.0 < k <==> 100.0 * a < k * d
    ensures (a / d) * 100.0 > k <==> 100.0 * a > k * d
  {
    var p := (a / d) * 100.0;
    assert (a / d) * d == a;
    assert p * d == 100.0 * a;
    if p < k {
      PositiveProduct(k - p, d);
      assert (k - p) * d == k * d - p * d;
    } else if p > k {
      PositiveProduct(p - k, d);
      assert (p - k) * d == p * d - k * d;
    }
  }

  lemma PositiveProduct(x: real, y: real)
    requires x > 0.0 && y > 0.0
    ensures x * y > 0.0
  {
  }

  // ---------------------------------------------------------------------------
  // Mortality registration

  datatype MortalityOutcome = MortalityOutcome(vivos: int, porcentaje: real)

  /**
   * Live birds after today's deaths, and today's deaths as a percentage of
   * (earlier deaths + birds alive now), which is the initial count minus today's
   * deaths. A zero denominator is the division error that aborts the request.
   */
  function MortalityFigures(inicial: int, anterior: int, muertos: int): (r: Result<MortalityOutcome, Error>)
    ensures r.Err? <==> inicial - muertos == 0
    ensures r.Err? ==> r.error == DivisionByZero
    ensures r.Ok? ==> r.value.vivos == inicial - anterior - muertos
    ensures r.Ok? ==> r.value.porcentaje * (inicial - muertos) as real == muertos as real * 100.0
  {
    var vivos := inicial - anterior - muertos;
    var denominador := anterior + vivos;
    if denominador == 0 then Err(DivisionByZero)
    else Ok(MortalityOutcome(vivos, (muertos as real / denominador as real) * 100.0))
  }

  /** The threshold of the high-mortality alert. */
  predicate HighMortality(porcentaje: real) {
    porcentaje > 5.0
  }

  /** With a positive denominator the alert fires iff deaths exceed a twentieth of it. */
  lemma HighMortalityIff(inicial: int, anterior: int, muertos: int)
    requires inicial - muertos > 0
    ensures MortalityFigures(inicial, anterior, muertos).Ok?
    ensures HighMortality(MortalityFigures(inicial, anterior, muertos).value.porcentaje)
      <==> 20 * muertos > inicial - muertos
  {
    PercentCompare(muertos as real, (inicial - muertos) as real, 5.0);
    TwentiethInReals(muertos, inicial - muertos);
  }

  lemma TwentiethInReals(x: int, y: int)
    ensures 100.0 * (x as real) > 5.0 * (y as real) <==> 20 * x > y
  {
  }
}
