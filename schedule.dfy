/**
 * The lot schedule as the dashboard draws it: how many days remain until an
 * event, which colour class and label the event gets, which type badge it
 * carries, and how far the growing cycle has progressed. Instants are integer
 * milliseconds and dates integer day numbers; the browser clock and `Date`
 * parsing are inputs.
 */
module Schedule {
  import opened Wrappers
  import opened Records
  import opened Strings

  /** `Math.ceil(diffMs / MsPerDay)`: whole days until an instant `diffMs` ms ahead, rounded up. */
  function DaysUntil(diffMs: int): (d: int)
    ensures (d - 1) * MsPerDay < diffMs <= d * MsPerDay
  {
    var q := diffMs / MsPerDay;
    if diffMs % MsPerDay == 0 then q else q + 1
  }

  /** The rounding bound pins the day count down: no other integer satisfies it. */
  lemma DaysUntilUnique(diffMs: int, d: int)
    requires (d - 1) * MsPerDay < diffMs <= d * MsPerDay
    ensures d == DaysUntil(diffMs)
  {
    var e := DaysUntil(diffMs);
    assert (d - 1) * MsPerDay < e * MsPerDay;
    assert (e - 1) * MsPerDay < d * MsPerDay;
  }

  /**
   * Decimal text of an integer (JavaScript's `${n}`): a minus sign exactly when
   * the number is negative, then digits that read back as its magnitude.
   */
  function IntToString(n: int): (r: string)
    ensures |r| > 0 && (r[0] == '-' <==> n < 0)
    ensures var digits := if n < 0 then r[1..] else r;
      && (forall i :: 0 <= i < |digits| ==> IsDigit(digits[i]))
      && ParseDigits(digits) == (if n < 0 then -n else n)
  {
    if n < 0 then
      ParseNatToString(-n);
      "-" + NatToString(-n)
    else
      ParseNatToString(n);
      NatToString(n)
  }

  /** Different integers print differently. */
  lemma IntToStringInjective(m: int, n: int)
    requires IntToString(m) == IntToString(n)
    ensures m == n
  {
  }

  /** Colour class of the day counter of an event. */
  datatype DayClass = Completado | Hoy | Vencido | Proximo | Futuro

  datatype DayTag = DayTag(clase: DayClass, texto: string)

  function OverdueLabel(n: nat): string {
    "Vencido (" + NatToString(n) + "d)"
  }

  function AheadLabel(n: int): string {
    "En " + IntToString(n) + "d"
  }

  /**
   * Class and label of an event in the lot schedule, from its status and the
   * days `d` until its date. A completed event ignores its date; otherwise the
   * classes split the integers into today, overdue, the next three days and later.
   */
  function CronogramaTag(estado: EventStatus, d: int): (t: DayTag)
    ensures estado == EventoCompletado ==> t == DayTag(Completado, "Completado")
    ensures estado != EventoCompletado ==>
      && (t.clase == Hoy <==> d == 0)
      && (t.clase == Vencido <==> d < 0)
      && (t.clase == Proximo <==> 1 <= d <= 3)
      && (t.clase == Futuro <==> d > 3)
    ensures estado != EventoCompletado && d == 0 ==> t.texto == "¡HOY!"
    ensures estado != EventoCompletado && d < 0 ==> t.texto == OverdueLabel(-d)
    ensures estado != EventoCompletado && d > 0 ==> t.texto == AheadLabel(d)
  {
    if estado == EventoCompletado then DayTag(Completado, "Completado")
    else if d == 0 then DayTag(Hoy, "¡HOY!")
    else if d < 0 then DayTag(Vencido, OverdueLabel(-d))
    else if d <= 3 then DayTag(Proximo, AheadLabel(d))
    else DayTag(Futuro, AheadLabel(d))
  }

  lemma OverdueLabelInjective(m: nat, n: nat)
    requires OverdueLabel(m) == OverdueLabel(n)
    ensures m == n
  {
    var a, b := OverdueLabel(m), OverdueLabel(n);
    assert a[9..|a| - 2] == NatToString(m);
    assert b[9..|b| - 2] == NatToString(n);
    NatToStringInjective(m, n);
  }

  lemma AheadLabelInjective(m: int, n: int)
    requires AheadLabel(m) == AheadLabel(n)
    ensures m == n
  {
    var a, b := AheadLabel(m), AheadLabel(n);
    assert a[3..|a| - 1] == IntToString(m);
    assert b[3..|b| - 1] == IntToString(n);
    IntToStringInjective(m, n);
  }

  /**
   * For an event that is not completed the label shows the day count: two
   * different counts never produce the same class and label (overdue ones show |d|).
   */
  lemma CronogramaTagShowsDays(estado: EventStatus, d1: int, d2: int)
    requires estado != EventoCompletado
    requires CronogramaTag(estado, d1) == CronogramaTag(estado, d2)
    ensures d1 == d2
  {
    var t := CronogramaTag(estado, d1);
    if t.clase == Vencido {
      OverdueLabelInjective(-d1, -d2);
    } else if t.clase != Hoy {
      AheadLabelInjective(d1, d2);
    }
  }

  // The list of pending events of all lots (fed by a query with no lower bound
  // on the date, so overdue pending events are part of it).

  /** The pending-events list as written: overdue events fall through to the 'proximo' branch. */
  function PendingTagAsWritten(d: int): DayTag {
    var clase := if d == 0 then Hoy else if d <= 3 then Proximo else Futuro;
    var texto := if d == 0 then "¡HOY!" else AheadLabel(d);
    DayTag(clase, texto)
  }

  /** An event two days overdue is shown as coming up, labelled "En -2d". */
  lemma PendingTagAsWrittenOverdue()
    ensures PendingTagAsWritten(-2) == DayTag(Proximo, "En -2d")
    ensures CronogramaTag(EventoPendiente, -2).clase == Vencido
  {
    assert NatToString(2) == "2";
  }

  /** The pending-events list with the overdue case the lot schedule has. */
  function PendingTag(d: int): (t: DayTag)
    ensures d >= 0 ==> t == PendingTagAsWritten(d)
  {
    if d == 0 then DayTag(Hoy, "¡HOY!")
    else if d < 0 then DayTag(Vencido, OverdueLabel(-d))
    else if d <= 3 then DayTag(Proximo, AheadLabel(d))
    else DayTag(Futuro, AheadLabel(d))
  }

  /** The corrected rule tags a pending event exactly as the lot schedule does. */
  lemma PendingTagAgreesWithSchedule(d: int)
    ensures PendingTag(d) == CronogramaTag(EventoPendiente, d)
  {
  }

  /**
   * The corrected pending-events list: one tag per event, in the order the
   * server sends them, the same as the list as written for every event not overdue.
   */
  function PendingTags(ds: seq<int>): (ts: seq<DayTag>)
    ensures |ts| == |ds|
    ensures forall i :: 0 <= i < |ds| ==> ts[i] == CronogramaTag(EventoPendiente, ds[i])
    ensures forall i :: 0 <= i < |ds| && ds[i] >= 0 ==> ts[i] == PendingTagAsWritten(ds[i])
  {
    seq(|ds|, i requires 0 <= i < |ds| => PendingTag(ds[i]))
  }

  // Type badge from the event type name (first match wins).

  datatype Badge = BadgeVitaminas | BadgeAlimento | BadgeMelaza | BadgeSalida

  /** The badge chain of the lot schedule. */
  function TypeBadge(tipo: string): Option<Badge> {
    if Contains(tipo, "vitaminas") then Some(BadgeVitaminas)
    else if Contains(tipo, "cambio") then Some(BadgeAlimento)
    else if Contains(tipo, "melaza") then Some(BadgeMelaza)
    else if Contains(tipo, "salida") then Some(BadgeSalida)
    else None
  }

  /** The same rules as data, in priority order. */
  const BadgeRules: seq<(string, Badge)> :=
    [("vitaminas", BadgeVitaminas), ("cambio", BadgeAlimento), ("melaza", BadgeMelaza), ("salida", BadgeSalida)]

  /** The badge of the first rule whose key occurs in `tipo`. */
  function FirstMatch(rules: seq<(string, Badge)>, tipo: string): Option<Badge>
    decreases |rules|
  {
    if rules == [] then None
    else if Contains(tipo, rules[0].0) then Some(rules[0].1)
    else FirstMatch(rules[1..], tipo)
  }

  /** Rule `i` is the earliest rule whose key occurs in `tipo`. */
  predicate FirstHit(rules: seq<(string, Badge)>, tipo: string, i: int) {
    && 0 <= i < |rules|
    && Contains(tipo, rules[i].0)
    && forall j :: 0 <= j < i ==> !Contains(tipo, rules[j].0)
  }

  /** `FirstMatch` finds nothing iff no key occurs, and otherwise the earliest rule whose key occurs. */
  lemma {:induction false} FirstMatchSpec(rules: seq<(string, Badge)>, tipo: string)
    ensures var r := FirstMatch(rules, tipo);
      && (r.None? <==> forall i :: 0 <= i < |rules| ==> !Contains(tipo, rules[i].0))
      && (r.Some? ==> exists i :: FirstHit(rules, tipo, i) && rules[i].1 == r.value)
    decreases |rules|
  {
    if rules != [] && !Contains(tipo, rules[0].0) {
      var tail := rules[1..];
      FirstMatchSpec(tail, tipo);
      var r := FirstMatch(tail, tipo);
      if r.Some? {
        var i :| FirstHit(tail, tipo, i) && tail[i].1 == r.value;
        assert rules[i + 1] == tail[i];
        forall j | 0 <= j < i + 1 ensures !Contains(tipo, rules[j].0) {
          if j > 0 { assert rules[j] == tail[j - 1]; }
        }
        assert FirstHit(rules, tipo, i + 1);
      } else {
        forall i | 0 <= i < |rules| ensures !Contains(tipo, rules[i].0) {
          if i > 0 { assert rules[i] == tail[i - 1]; }
        }
      }
    } else if rules != [] {
      assert FirstHit(rules, tipo, 0);
    }
  }

  /** The badge chain is the first-match rule over the four keys in their order. */
  lemma TypeBadgeIsFirstMatch(tipo: string)
    ensures TypeBadge(tipo) == FirstMatch(BadgeRules, tipo)
  {
    assert BadgeRules[1..] == [("cambio", BadgeAlimento), ("melaza", BadgeMelaza), ("salida", BadgeSalida)];
    assert BadgeRules[1..][1..] == [("melaza", BadgeMelaza), ("salida", BadgeSalida)];
    assert BadgeRules[1..][1..][1..] == [("salida", BadgeSalida)];
    assert BadgeRules[1..][1..][1..][1..] == [];
  }

  /** The stored name of an event type. */
  function KindName(k: EventKind): string {
    match k
    case InicioLote => "inicio_lote"
    case VitaminasDia3 => "vitaminas_dia3"
    case CambioPreinicio => "cambio_preinicio"
    case CambioInicio => "cambio_inicio"
    case CambioEngorde => "cambio_engorde"
    case AplicacionMelaza => "aplicacion_melaza"
    case FechaEstimadaSalida => "fecha_estimada_salida"
  }

  lemma ContainsAt(s: string, pat: string, i: int)
    requires OccursAt(s, pat, i)
    ensures Contains(s, pat)
  {
    ContainsIffOccurs(s, pat);
  }

  lemma PrefixKeepsChars(pat: string, s: string)
    ensures pat <= s ==> forall x :: x in pat ==> x in s
  {
    if pat <= s {
      forall x | x in pat ensures x in s {
        var k :| 0 <= k < |pat| && pat[k] == x;
        assert s[k] == x;
      }
    }
  }

  /** A pattern with a character that `s` lacks does not occur in `s`. */
  lemma {:induction false} MissingCharNotContained(s: string, pat: string, c: char)
    requires c in pat && c !in s
    ensures !Contains(s, pat)
    decreases |s|
  {
    PrefixKeepsChars(pat, s);
    if |s| > 0 {
      assert forall x :: x in s[1..] ==> x in s;
      MissingCharNotContained(s[1..], pat, c);
    }
  }

  // The badge each stored event type gets; the start-of-lot event gets none.

  // The characters each stored type name lacks, which rule out the keys that do not occur in it.

  lemma InicioLacks()
    ensures 'v' !in "inicio_lote" && 'b' !in "inicio_lote" && 'm' !in "inicio_lote" && 's' !in "inicio_lote"
  {
  }

  lemma CambioLacks()
    ensures 'v' !in "cambio_preinicio" && 'v' !in "cambio_inicio" && 'v' !in "cambio_engorde"
  {
  }

  lemma MelazaLacks()
    ensures 'v' !in "aplicacion_melaza" && 'b' !in "aplicacion_melaza"
  {
  }

  lemma SalidaLacks()
    ensures 'v' !in "fecha_estimada_salida" && 'b' !in "fecha_estimada_salida" && 'z' !in "fecha_estimada_salida"
  {
  }

  lemma BadgeOfInicio(k: EventKind)
    requires k == InicioLote
    ensures TypeBadge(KindName(k)) == None
  {
    var s := KindName(k);
    InicioLacks();
    MissingCharNotContained(s, "vitaminas", 'v');
    MissingCharNotContained(s, "cambio", 'b');
    MissingCharNotContained(s, "melaza", 'm');
    MissingCharNotContained(s, "salida", 's');
  }

  lemma BadgeOfVitaminas(k: EventKind)
    requires k == VitaminasDia3
    ensures TypeBadge(KindName(k)) == Some(BadgeVitaminas)
  {
    assert "vitaminas" <= KindName(k);
  }

  lemma BadgeOfCambio(k: EventKind)
    requires k == CambioPreinicio || k == CambioInicio || k == CambioEngorde
    ensures TypeBadge(KindName(k)) == Some(BadgeAlimento)
  {
    var s := KindName(k);
    CambioLacks();
    MissingCharNotContained(s, "vitaminas", 'v');
    assert "cambio" <= s;
  }

  lemma MelazaOccurs()
    ensures Contains("aplicacion_melaza", "melaza")
  {
    ContainsAt("aplicacion_melaza", "melaza", 11);
  }

  lemma BadgeOfMelaza(k: EventKind)
    requires k == AplicacionMelaza
    ensures TypeBadge(KindName(k)) == Some(BadgeMelaza)
  {
    var s := KindName(k);
    MelazaLacks();
    MissingCharNotContained(s, "vitaminas", 'v');
    MissingCharNotContained(s, "cambio", 'b');
    MelazaOccurs();
  }

  lemma SalidaOccurs()
    ensures Contains("fecha_estimada_salida", "salida")
  {
    ContainsAt("fecha_estimada_salida", "salida", 15);
  }

  lemma SalidaMisses()
    ensures !Contains("fecha_estimada_salida", "vitaminas")
    ensures !Contains("fecha_estimada_salida", "cambio")
    ensures !Contains("fecha_estimada_salida", "melaza")
  {
    SalidaLacks();
    MissingCharNotContained("fecha_estimada_salida", "vitaminas", 'v');
    MissingCharNotContained("fecha_estimada_salida", "cambio", 'b');
    MissingCharNotContained("fecha_estimada_salida", "melaza", 'z');
  }

  lemma BadgeOfSalida(k: EventKind)
    requires k == FechaEstimadaSalida
    ensures TypeBadge(KindName(k)) == Some(BadgeSalida)
  {
    SalidaMisses();
    SalidaOccurs();
  }

  // Cycle progress.

  /**
   * The progress bar's value: a finite percentage, or the two non-finite
   * numbers JavaScript produces when the start and exit dates coincide.
   */
  datatype Progress = Percent(p: real) | NotANumber | MinusInfinity

  /**
   * Progress of a lot `diasEdad` days old: 0 without an exit date, otherwise
   * `min(100, diasEdad / totalDias * 100)` with `totalDias` the distance between
   * the start and exit dates.
   */
  function CycleProgress(fechaInicio: Day, fechaSalida: Option<Day>, diasEdad: int): (r: Progress)
    ensures fechaSalida.None? ==> r == Percent(0.0)
    ensures r.Percent? ==> r.p <= 100.0
  {
    match fechaSalida
    case None => Percent(0.0)
    case Some(salida) =>
      var totalDias := if salida >= fechaInicio then salida - fechaInicio else fechaInicio - salida;
      if totalDias > 0 then
        var ratio := (diasEdad as real / totalDias as real) * 100.0;
        Percent(if ratio < 100.0 then ratio else 100.0)
      else if diasEdad > 0 then Percent(100.0)
      else if diasEdad == 0 then NotANumber
      else MinusInfinity
  }

  lemma RatioBelowHundred(a: real, t: real)
    requires t > 0.0
    ensures (a / t) * 100.0 < 100.0 <==> a < t
  {
    var q := a / t;
    assert q * t == a;
    if q < 1.0 {
      assert q * t < 1.0 * t;
    } else {
      assert q * t >= 1.0 * t;
    }
  }

  lemma RatioMonotone(a: real, b: real, t: real)
    requires t > 0.0 && a <= b
    ensures (a / t) * 100.0 <= (b / t) * 100.0
  {
    var x, y := a / t, b / t;
    assert x * t == a && y * t == b;
    assert (y - x) * t == b - a;
    NonNegativeFactor(y - x, t);
  }

  lemma NonNegativeFactor(u: real, t: real)
    requires t > 0.0 && u * t >= 0.0
    ensures u >= 0.0
  {
  }

  /**
   * With distinct start and exit dates the progress is finite, never above 100,
   * exactly 100 once the lot is as old as the cycle, and otherwise the plain ratio.
   */
  lemma ProgressBounded(fechaInicio: Day, salida: Day, diasEdad: int)
    requires salida != fechaInicio
    ensures var r := CycleProgress(fechaInicio, Some(salida), diasEdad);
      var totalDias := if salida >= fechaInicio then salida - fechaInicio else fechaInicio - salida;
      && r.Percent?
      && r.p <= 100.0
      && (r.p == 100.0 <==> diasEdad >= totalDias)
      && (diasEdad < totalDias ==> r.p == (diasEdad as real / totalDias as real) * 100.0)
  {
    var totalDias := if salida >= fechaInicio then salida - fechaInicio else fechaInicio - salida;
    RatioBelowHundred(diasEdad as real, totalDias as real);
  }

  /** An older lot never shows less progress. */
  lemma ProgressMonotone(fechaInicio: Day, salida: Day, d1: int, d2: int)
    requires salida != fechaInicio && d1 <= d2
    ensures CycleProgress(fechaInicio, Some(salida), d1).p <= CycleProgress(fechaInicio, Some(salida), d2).p
  {
    var totalDias := if salida >= fechaInicio then salida - fechaInicio else fechaInicio - salida;
    RatioMonotone(d1 as real, d2 as real, totalDias as real);
  }

  /** Halfway through a 30-day cycle the bar shows 50. */
  lemma ProgressHalfway()
    ensures CycleProgress(0, Some(30), 15) == Percent(50.0)
  {
  }
}
