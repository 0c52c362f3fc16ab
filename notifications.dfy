/**
 * The notification widgets of the dashboard: the unread-count badge on the
 * bell, the five-item dropdown preview, the priority filter of the full list,
 * text truncation and the relative age shown next to each notification.
 */
module Notifications {
  import opened Wrappers
  import opened Records
  import opened Strings

  // Unread badge.

  /**
   * Text of the bell badge for `noLeidas` unread notifications, or `None` when
   * the badge is hidden. A count up to 99 is printed and reads back as itself.
   */
  function BadgeText(noLeidas: int): (r: Option<string>)
    ensures r.None? <==> noLeidas <= 0
    ensures noLeidas > 99 ==> r == Some("99+")
    ensures 0 < noLeidas <= 99 ==>
      && r.Some?
      && (forall i :: 0 <= i < |r.value| ==> IsDigit(r.value[i]))
      && ParseDigits(r.value) == noLeidas
  {
    if noLeidas > 0 then
      if noLeidas > 99 then Some("99+")
      else
        ParseNatToString(noLeidas);
        Some(NatToString(noLeidas))
    else None
  }

  // Truncation.

  /**
   * `truncarTexto`: a text no longer than `maxLength` is kept; a longer one is
   * cut to its first `maxLength` characters (none when `maxLength` is negative,
   * as `substring` clamps) followed by an ellipsis.
   */
  function Truncar(texto: string, maxLength: int): (r: string)
    ensures |texto| <= maxLength ==> r == texto
    ensures |texto| > maxLength ==>
      var k := if maxLength < 0 then 0 else maxLength;
      && |r| == k + 3
      && r[..k] == texto[..k]
      && r[k..] == "..."
  {
    if |texto| <= maxLength then texto
    else
      var k := if maxLength < 0 then 0 else maxLength;
      texto[..k] + "..."
  }

  /** What truncation keeps is a prefix of the text, and the result is never longer than the limit plus the ellipsis. */
  lemma TruncarKeepsPrefix(texto: string, maxLength: int)
    requires maxLength >= 0
    ensures var r := Truncar(texto, maxLength);
      |r| <= maxLength + 3 && (r == texto || (r[..maxLength] <= texto && r[maxLength..] == "..."))
  {
  }

  /** Truncating a truncated text again, with room for the ellipsis, changes nothing. */
  lemma TruncarTwice(texto: string, maxLength: int)
    requires maxLength >= 0
    ensures Truncar(Truncar(texto, maxLength), maxLength + 3) == Truncar(texto, maxLength)
  {
  }

  // Relative age.

  /** The bucket `formatearTiempo` puts an elapsed time in; older ones show a calendar date. */
  datatype Elapsed = Ahora | HaceMinutos(m: nat) | HaceHoras(h: nat) | HaceDias(d: nat) | FechaCalendario

  /** Whole hours and whole days counted from whole minutes equal those counted from milliseconds. */
  lemma NestedFloors(x: int)
    ensures (x / MsPerMinute) / 60 == x / MsPerHour
    ensures (x / MsPerHour) / 24 == x / MsPerDay
  {
  }

  /**
   * `formatearTiempo` for a notification created `diffMs` milliseconds ago
   * (negative when the clock lags). Each bucket holds exactly the elapsed
   * times of its range, and the count it shows is the elapsed time rounded down.
   */
  function FormatearTiempo(diffMs: int): (e: Elapsed)
    ensures e == Ahora <==> diffMs < MsPerMinute
    ensures e.HaceMinutos? <==> MsPerMinute <= diffMs < MsPerHour
    ensures e.HaceHoras? <==> MsPerHour <= diffMs < MsPerDay
    ensures e.HaceDias? <==> MsPerDay <= diffMs < 7 * MsPerDay
    ensures e == FechaCalendario <==> diffMs >= 7 * MsPerDay
    ensures e.HaceMinutos? ==> e.m * MsPerMinute <= diffMs < (e.m + 1) * MsPerMinute
    ensures e.HaceHoras? ==> e.h * MsPerHour <= diffMs < (e.h + 1) * MsPerHour
    ensures e.HaceDias? ==> e.d * MsPerDay <= diffMs < (e.d + 1) * MsPerDay
  {
    var minutos := diffMs / MsPerMinute;
    var horas := minutos / 60;
    var dias := horas / 24;
    NestedFloors(diffMs);
    if minutos < 1 then Ahora
    else if minutos < 60 then HaceMinutos(minutos)
    else if horas < 24 then HaceHoras(horas)
    else if dias < 7 then HaceDias(dias)
    else FechaCalendario
  }

  /** Buckets in the order elapsed time passes through them. */
  function Rank(e: Elapsed): nat {
    match e
    case Ahora => 0
    case HaceMinutos(_) => 1
    case HaceHoras(_) => 2
    case HaceDias(_) => 3
    case FechaCalendario => 4
  }

  /** An older notification never shows a younger age: same or later bucket, and no smaller count within a bucket. */
  lemma FormatearTiempoMonotone(x: int, y: int)
    requires x <= y
    ensures var ex, ey := FormatearTiempo(x), FormatearTiempo(y);
      && Rank(ex) <= Rank(ey)
      && (ex.HaceMinutos? && ey.HaceMinutos? ==> ex.m <= ey.m)
      && (ex.HaceHoras? && ey.HaceHoras? ==> ex.h <= ey.h)
      && (ex.HaceDias? && ey.HaceDias? ==> ex.d <= ey.d)
  {
  }

  /** "Hace " followed by a count and its unit letter. */
  function HaceLabel(n: nat, unit: char): (r: string)
    ensures |r| > 6 && r[..5] == "Hace " && r[|r| - 1] == unit
    ensures var ds := r[5..|r| - 1];
      (forall i :: 0 <= i < |ds| ==> IsDigit(ds[i])) && ParseDigits(ds) == n
  {
    var r := "Hace " + NatToString(n) + [unit];
    assert r[5..|r| - 1] == NatToString(n);
    ParseNatToString(n);
    r
  }

  /**
   * The text shown for a bucket: "Ahora", or "Hace " with the bucket's count
   * read back exactly and its unit; a calendar date (not modelled) otherwise.
   */
  function ElapsedLabel(e: Elapsed): (r: Option<string>)
    ensures r.None? <==> e == FechaCalendario
    ensures e == Ahora ==> r == Some("Ahora")
    ensures e.HaceMinutos? ==> r == Some(HaceLabel(e.m, 'm'))
    ensures e.HaceHoras? ==> r == Some(HaceLabel(e.h, 'h'))
    ensures e.HaceDias? ==> r == Some(HaceLabel(e.d, 'd'))
  {
    match e
    case Ahora => Some("Ahora")
    case HaceMinutos(m) => Some(HaceLabel(m, 'm'))
    case HaceHoras(h) => Some(HaceLabel(h, 'h'))
    case HaceDias(d) => Some(HaceLabel(d, 'd'))
    case FechaCalendario => None
  }

  /** Different buckets, or the same bucket with different counts, never show the same text. */
  lemma ElapsedLabelInjective(x: Elapsed, y: Elapsed)
    requires ElapsedLabel(x) == ElapsedLabel(y)
    ensures x == y
  {
    if x.HaceMinutos? || x.HaceHoras? || x.HaceDias? {
      var t := ElapsedLabel(x).value;
      assert t[5..|t| - 1] == ElapsedLabel(y).value[5..|t| - 1];
    }
  }

  // Dropdown preview and the priority filter of the full list.

  /** The dropdown shows the first five notifications, in the order the server sent them. */
  function Preview<T>(ns: seq<T>): (r: seq<T>)
    ensures |r| == if |ns| < 5 then |ns| else 5
    ensures r <= ns
  {
    if |ns| < 5 then ns else ns[..5]
  }

  /** Previewing a preview changes nothing. */
  lemma PreviewIdempotent<T>(ns: seq<T>)
    ensures Preview(Preview(ns)) == Preview(ns)
  {
  }

  /** The stored name of a priority, as the filter's selection compares it. */
  function PriorityName(p: Priority): string {
    match p
    case Baja => "baja"
    case Media => "media"
    case Alta => "alta"
    case Critica => "critica"
  }

  /** The notifications whose priority is named `sel`, in their original order. */
  function KeepPriority(ns: seq<Notification>, sel: string): seq<Notification>
    decreases |ns|
  {
    if ns == [] then []
    else
      KeepPriority(ns[..|ns| - 1], sel) + Kept(ns[|ns| - 1], sel)
  }

  /** The priority post-filter: an empty selection keeps the whole list. */
  function FilterPriority(ns: seq<Notification>, sel: string): seq<Notification> {
    if sel == "" then ns else KeepPriority(ns, sel)
  }

  /** Exactly the notifications of the selected priority are kept. */
  lemma {:induction false} KeepPriorityMembers(ns: seq<Notification>, sel: string)
    ensures forall n :: n in KeepPriority(ns, sel) <==> n in ns && PriorityName(n.prioridad) == sel
    decreases |ns|
  {
    if ns != [] {
      var init := ns[..|ns| - 1];
      KeepPriorityMembers(init, sel);
      assert ns == init + [ns[|ns| - 1]];
    }
  }

  /** The item an appended notification contributes to the filter. */
  function Kept(n: Notification, sel: string): seq<Notification> {
    if PriorityName(n.prioridad) == sel then [n] else []
  }

  lemma KeepPrioritySnoc(s: seq<Notification>, n: Notification, sel: string)
    ensures KeepPriority(s + [n], sel) == KeepPriority(s, sel) + Kept(n, sel)
  {
    var sn := s + [n];
    assert sn[..|sn| - 1] == s;
  }

  /** Filtering distributes over concatenation, so the kept items stay in their relative order. */
  lemma {:induction false} KeepPriorityAppend(a: seq<Notification>, b: seq<Notification>, sel: string)
    ensures KeepPriority(a + b, sel) == KeepPriority(a, sel) + KeepPriority(b, sel)
    decreases |b|
  {
    if b == [] {
      assert a + b == a;
    } else {
      var init, last := b[..|b| - 1], b[|b| - 1];
      assert b == init + [last];
      assert a + b == (a + init) + [last];
      KeepPrioritySnoc(a + init, last, sel);
      KeepPrioritySnoc(init, last, sel);
      KeepPriorityAppend(a, init, sel);
    }
  }

  /** The filter as a whole: which items it keeps, and that it never reorders them. */
  lemma FilterPriorityKeeps(ns: seq<Notification>, sel: string)
    ensures sel == "" ==> FilterPriority(ns, sel) == ns
    ensures sel != "" ==> forall n :: n in FilterPriority(ns, sel) <==> n in ns && PriorityName(n.prioridad) == sel
    ensures forall a, b :: ns == a + b ==> FilterPriority(ns, sel) == FilterPriority(a, sel) + FilterPriority(b, sel)
  {
    KeepPriorityMembers(ns, sel);
    forall a, b | ns == a + b
      ensures FilterPriority(ns, sel) == FilterPriority(a, sel) + FilterPriority(b, sel)
    {
      if sel != "" {
        KeepPriorityAppend(a, b, sel);
      }
    }
  }

  /** A selection that names no priority empties the list. */
  lemma FilterUnknownPriority(ns: seq<Notification>, sel: string)
    requires sel != "" && forall p: Priority :: PriorityName(p) != sel
    ensures FilterPriority(ns, sel) == []
  {
    KeepPriorityMembers(ns, sel);
    if KeepPriority(ns, sel) != [] {
      assert KeepPriority(ns, sel)[0] in KeepPriority(ns, sel);
    }
  }
}
