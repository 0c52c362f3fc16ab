# Poultry lot ledger and dashboard derivations

A Dafny model of the business core of a poultry-farm administration system.

The backend (`app.py`) keeps a ledger of production lots ("lotes"):
- each lot has a capital account;
- purchases of feed and supplies are debited from that capital;
- sales, cash or on credit, are credited to it;
- credit sales carry a debt record (`valor_total`, `valor_pagado`, `valor_pendiente`, `estado_deuda`) that payments move from pending to paid;
- manual capital movements exist alongside;
- a mortality register computes survivors and a mortality percentage;
- an automatic notification generator raises age, exit-date, low-capital and schedule-reminder alerts for each active lot.

The dashboard (`static/js/app.js`) derives display values from the data the server sends:
- the status class and label of each schedule event;
- the event-type badge;
- the cycle progress bar;
- the unread-notification badge;
- truncated texts;
- the relative age of a notification;
- the five-item notification preview;
- the priority filter of the notification list.

Modules:

- `Wrappers`: `Option`, `Result` and `Outcome`.
- `Records`: the entities. Money is integer cents (`Numeric(12,2)`), dates are integer day numbers, and the enum value sets come from `models.py`.
- `Strings`: Python's `in` and `.lower()` (on A–Z) on text, and decimal digits.
- `Schema`: the ledger's tables as one value and the invariant `Consistent` they keep:
  - paid plus pending equals the sale total on every credit;
  - sales and credits point at each other;
  - every row refers to an existing lot and client;
  - identifiers are fresh.
  - It also holds the capital arithmetic, one transition lemma per handler showing the invariant is preserved, and the "delete undoes create" lemmas.
- `Alerts`: the per-lot rules of `generar_notificaciones_automaticas` and the mortality figures, as pure functions, with lemmas stating each rule.
- `Ledger`: `class Ledger`, whose fields are the tables. Each request handler is a method that checks the handler's guards, returns the handler's error or changes exactly the fields the handler writes, and keeps `Valid()`.
- `Schedule`: the event status, type badge and progress of `mostrarCronogramaLote`, and the class/label rule of `mostrarEventosPendientesGeneral`.
- `Notifications`: the badge text, `truncarTexto`, `formatearTiempo`, the preview slice and the priority filter.

Inputs in place of I/O:
- the current date (`hoy`) and the browser clock become parameters;
- `new Date(a) - new Date(b)` becomes an integer number of milliseconds;
- the duplicate-alert queries become one predicate `existe` over alert keys. Each key stands for its own query: an age or exit alert of the lot created today or later; a low-capital alert of the lot created within the last 3 days; and, for a reminder, a notification of the lot of any type, created today or later, whose message contains the event description;
- database identifiers are drawn from one counter `nextId`.

## Model

| member | source | states |
|---|---|---|
| Ledger.Ledger.CreateLot | app.py:93-129 | A lot under a fresh id is added as active, with no closing date, and a capital row whose initial and current capital both equal the declared capital. Nothing else changes. |
| Ledger.Ledger.CloseLot | app.py:161-186 | An unknown lot fails with LotNotFound and a lot without sales fails with LotWithoutSales, with no change. Closing succeeds iff the lot exists and has a sale. Only the status (cerrado) and the closing date change. |
| Ledger.Ledger.DeleteLot | app.py:189-212 | As written: an unknown lot fails with LotNotFound and a lot with movements, purchases or sales fails with LotHasRecords. Any other lot still has its capital row, whose NOT NULL `id_lote` the flush would set to NULL, so the commit fails (LotStillReferenced). Nothing changes in any case. |
| Ledger.Ledger.DeleteLotWithCapital | app.py:196-203 | Corrected: the same guards. A lot still named by a schedule event, mortality record or notification fails with LotStillReferenced. Success holds iff none of these apply, and removes exactly the lot and its capital row, keeping the ledger invariant. |
| Ledger.DeleteNewLot | app.py:189-212 | For a lot just created with nothing recorded on it, the delete as written refuses with LotStillReferenced and the corrected delete succeeds. |
| Ledger.Ledger.CreateClient | app.py:426-450 | A client with a fresh id is added. |
| Ledger.Ledger.DeleteClient | app.py:481-505 | An unknown client fails, and so does a client with sales, with no change. Otherwise exactly that client is removed. |
| Ledger.Ledger.RecordPurchase | app.py:219-265 | Fails iff the lot is unknown, with no change. Otherwise it stores the purchase with costo_total = cantidad × costo_unitario, appends one Compra movement of that amount, and lowers the lot's capital by it. |
| Ledger.Ledger.AddPurchase | app.py:223-253 | The success path of a purchase: a fresh purchase row, one Compra movement, capital lowered by the total cost. |
| Ledger.Ledger.DeletePurchase | app.py:308-340 | Fails iff the purchase is unknown, with no change. Otherwise capital regains the purchase's total cost, the first matching Compra movement is removed, and the purchase row is removed. |
| Ledger.Ledger.RecordMovement | app.py:360-394 | Fails iff the lot is unknown. Otherwise the movement is appended and capital changes by +valor for an ingreso and −valor for a compra, gasto or retiro. |
| Ledger.Ledger.LogMovement | app.py:363-383 | Appends one movement and applies its signed value to the lot's capital. |
| Ledger.Ledger.RecordSale | app.py:575-664 | Rejected, with no change, iff the lot is missing or not active (LotInvalidOrClosed) or the client is missing (ClientNotFound). A credit sale stores the sale and a linked credit with pendiente = total − initial payment and status pendiente/parcial, and raises capital by the initial payment only when it is > 0. A cash sale raises capital by valor_total = kilos × price. |
| Ledger.Ledger.RecordCreditSale | app.py:608-637 | The credit branch of a sale: linked sale and credit rows, the status given by InitialDebtStatus, and the initial-payment movement and capital credit only for a payment > 0. |
| Ledger.Ledger.InsertCreditSale | app.py:612-623 | Inserts a sale and its credit under fresh ids that point at each other. |
| Ledger.Ledger.RecordCashSale | app.py:638-652 | The cash branch of a sale: the sale without a credit, an Ingreso movement of the total, and capital raised by the total. |
| Ledger.Ledger.DeleteSale | app.py:717-759 | Fails iff the sale is unknown. Otherwise a credit sale lowers capital by the credit's valor_pagado and removes the credit and all its payments; a cash sale lowers capital by valor_total. The sale row is removed. |
| Ledger.Ledger.DeleteCreditSale | app.py:724-748 | Deleting a credit sale: capital falls by what was paid, and the credit and its payments go. |
| Ledger.Ledger.DeleteCashSale | app.py:730-731 | Deleting a cash sale: capital falls by the sale total. |
| Ledger.Ledger.RegisterPayment | app.py:814-880 | Unknown credit → CreditNotFound; status pagado → CreditAlreadyPaid; valor_pago > valor_pendiente → PaymentExceedsBalance; each with no change, and success iff none applies. On success exactly valor_pago moves from pendiente to pagado, the status follows StatusAfterPayment, one payment row and one Ingreso movement are appended, and the lot's capital rises by valor_pago. |
| Ledger.Ledger.ApplyPayment | app.py:831-866 | The accepted payment's updates to the credit, payments, movements and capital. |
| Ledger.Ledger.CompleteEvent | app.py:930-949 | An unknown event fails with EventNotFound and no change. Otherwise the event becomes completado with the given execution date, or today when none is given. |
| Ledger.Ledger.RecordMortality | app.py:989-1046 | An unknown lot fails, and so does a lot whose remaining denominator is zero (the division the source would attempt). Otherwise a record dated with the given date, or today when none is given, is appended with the figures of MortalityFigures, where anterior is the sum of earlier deaths for the lot, and one unread 'alta' mortality alert for the lot is appended iff the percentage exceeds 5. |
| Ledger.Ledger.AlertsOfLot | app.py:1191-1290 | The alerts raised for one lot are exactly those the Alerts rules give for its lot row, capital and events. |
| Ledger.Ledger.GenerateAutomatic | app.py:1179-1298 | Over the lot ids that are exactly the active lots, the notifications added are the concatenation of each lot's alerts, and the returned count is the number added. |
| Schema.AddToCapital | app.py:250-253 | Changing one lot's capital leaves the set of lots, the initial capital and every other lot's row unchanged, and shifts the current capital by the delta. |
| Schema.AddToCapitalUndo | app.py:315-317 | Applying −delta after delta restores the capital table. |
| Schema.AddToCapitalTwice | app.py:864-866 | Two successive capital changes equal one change by their sum. |
| Schema.SignedUndo | app.py:376-381 | The capital update a movement makes, of any kind, is exactly reversible: applying its opposite afterwards restores the whole capital table. |
| Schema.RemoveFirst | app.py:319-328 | Removing a present movement takes exactly one occurrence out of the multiset; an absent one changes nothing. |
| Schema.WithoutPayments | app.py:744-747 | Exactly the payments of other credits remain. |
| Schema.WithoutPaymentsNone | app.py:744-747 | Removing the payments of a credit that has none changes nothing. |
| Schema.WithoutPaymentsAppend | app.py:744-747 | Payment removal distributes over concatenation, keeping order. |
| Schema.WithoutPaymentsOnly | app.py:744-747 | Removing a credit's payments from a list that holds only its payments leaves nothing. |
| Schema.InitialDebtStatus | app.py:611-621 | A new debt is never pagado, and it is pendiente iff nothing was paid up front (pendiente equals total). |
| Schema.StatusAfterPayment | app.py:846-849 | After a payment the status is pagado iff nothing is pending (or it already was pagado and no payment was recorded). Otherwise it is parcial once something was paid, and unchanged otherwise. |
| Schema.LotAdded | app.py:93-129 | A new lot with its capital row keeps the ledger invariant. |
| Schema.LotChanged | app.py:161-186 | Changing a lot's status keeps the invariant. |
| Schema.LotRemoved | app.py:189-212 | Removing a lot no row refers to keeps the invariant. |
| Schema.ClientAdded | app.py:426-450 | A new client keeps the invariant. |
| Schema.ClientRemoved | app.py:481-505 | Removing a client without sales keeps the invariant. |
| Schema.PurchaseAdded | app.py:219-265 | A purchase with its movement and capital debit keeps the invariant. |
| Schema.PurchaseRemoved | app.py:308-340 | Deleting a purchase, its movement and its capital debit keeps the invariant. |
| Schema.MovementAdded | app.py:360-394 | A movement on an existing lot keeps the invariant. |
| Schema.CreditSaleAdded | app.py:608-637 | A credit sale whose paid plus pending equals its total keeps the invariant. |
| Schema.CreditPairAdded | app.py:612-623 | Adding a sale and credit that point at each other keeps the sale/credit pairing. |
| Schema.CashSaleAdded | app.py:638-652 | A cash sale keeps the invariant. |
| Schema.CreditSaleDeleted | app.py:717-759 | Deleting a credit sale with its credit and payments keeps the invariant. |
| Schema.CashSaleDeleted | app.py:730-731 | Deleting a cash sale keeps the invariant. |
| Schema.PaymentApplied | app.py:831-866 | A payment that keeps paid + pending = total keeps the invariant. |
| Schema.PairRemoved | app.py:744-748 | Removing a sale and its credit keeps the pairing of the rest. |
| Schema.CreditRowChanged | app.py:843-849 | Updating a credit's amounts while keeping its balance keeps the pairing. |
| Schema.PurchaseUndone | app.py:308-328 | Deleting a purchase right after recording it restores capital, movements and purchases. |
| Schema.CreditedPaymentsSum | app.py:864-866 | A series of payments credits the lot exactly their sum. |
| Schema.CreditSaleUndone | app.py:724-729 | Deleting a credit sale after its initial payment and any later payments restores the lot's capital, since valor_pagado is the initial payment plus all payments. |
| Schema.CreditPaymentsUndone | app.py:744-747 | Deleting a credit removes exactly the payments made on it since it was created. |
| Schema.CashSaleUndone | app.py:730-731 | Deleting a cash sale right after recording it restores capital and sales. |
| Alerts.CapitalPercentBelow20 | app.py:1241-1243 | The low-capital test (current/initial × 100 < 20, or initial ≤ 0) holds iff initial ≤ 0 or 5 × current < initial. |
| Alerts.ReminderKindRule | app.py:1278-1280 | The reminder type is melaza when the lower-cased description contains "melaza", else vitaminas when it contains "vitaminas", else cambio_alimento. |
| Alerts.RemindersShape | app.py:1264-1290 | At most one reminder per event, each a reminder kind for this lot and unread. |
| Alerts.RemindersNoneDue | app.py:1264-1290 | When no pending event of the lot is scheduled for today, or each such event is already mentioned by a notification of the lot, none is raised. |
| Alerts.LotAlertsKinds | app.py:1191-1290 | The lot's age, exit and capital alerts each come from their own rule only. |
| Alerts.AgeAlertIff | app.py:1193-1213 | An age alert is raised iff the lot is at least 21 days old, its age is a multiple of 7 and the alert does not exist yet. |
| Alerts.ExitAlertIff | app.py:1216-1236 | An exit alert is raised iff the exit date is 7, 3 or 1 days away and not yet alerted. Its priority is alta iff at most 3 days remain. |
| Alerts.CapitalAlertIff | app.py:1239-1261 | A low-capital alert is raised iff the lot has a capital row, current capital is under 20% of initial capital, and none exists yet. |
| Alerts.LotAlertsShape | app.py:1205-1289 | Every alert of a lot names that lot and is unread; there are at most three plus one per event. |
| Alerts.MortalityFigures | app.py:997-1004 | survivors = initial − earlier deaths − deaths. The percentage satisfies porcentaje × (anterior + vivos) = muertos × 100, and a zero denominator is a DivisionByZero error. |
| Alerts.HighMortalityIff | app.py:1017-1026 | When the denominator inicial − muertos is positive, the 'alta' mortality alert fires iff 20 × deaths > the denominator, i.e. iff the percentage exceeds 5. |
| Strings.ContainsIffOccurs | app.py:1278-1279 | Substring membership holds iff the pattern occurs at some index. |
| Strings.LowerIdempotent | app.py:1278-1279 | Lower-casing a lower-cased description changes nothing. |
| Strings.LowerContains | app.py:1278-1279 | A pattern occurs in the lower-cased description iff some window of the original description lower-cases to it, so the match ignores the case of A–Z letters in the text. A pattern holding a capital never matches. |
| Strings.ParseNatToString | static/js/app.js:1310 | The decimal text of a count reads back as that count. |
| Strings.NatToStringInjective | static/js/app.js:1622-1627 | Different counts print differently. |
| Schedule.DaysUntil | static/js/app.js:1612 | The day count is the ceiling of the millisecond difference over a day: (d−1)·day < diff ≤ d·day. |
| Schedule.DaysUntilUnique | static/js/app.js:1612 | No other integer meets that bound. |
| Schedule.IntToString | static/js/app.js:1625-1627 | The text starts with '-' iff the number is negative. The rest is digits that read back as the number's magnitude. |
| Schedule.IntToStringInjective | static/js/app.js:1625-1627 | Different day counts print differently. |
| Schedule.CronogramaTag | static/js/app.js:1616-1631 | A completed event is always "Completado"/completado, whatever its date. For any other event the classes partition the integers: hoy iff d = 0, vencido iff d < 0 (label "Vencido (\|d\|d)"), proximo iff 1 ≤ d ≤ 3, futuro iff d > 3 (label "En dd"). |
| Schedule.CronogramaTagShowsDays | static/js/app.js:1619-1631 | For a non-completed event the tag determines the day count. |
| Schedule.PendingTagAsWrittenOverdue | static/js/app.js:1775-1776 | As written, an event two days overdue is tagged proximo with label "En -2d", where the lot schedule says vencido. |
| Schedule.PendingTag | static/js/app.js:1775-1776 | The corrected pending-list rule agrees with the written rule on every d ≥ 0. |
| Schedule.PendingTagAgreesWithSchedule | static/js/app.js:1775-1776 | The corrected rule equals the lot schedule's rule for a pending event, for every d. |
| Schedule.PendingTags | static/js/app.js:1772-1794 | The corrected list: one tag per listed event, in server order, each the lot schedule's tag of a pending event. For every event not overdue it equals the tag as written. |
| Schedule.FirstMatchSpec | static/js/app.js:1635-1643 | The first-match rule list gives no badge iff no pattern occurs, and otherwise gives the badge of the first rule whose pattern occurs. |
| Schedule.TypeBadgeIsFirstMatch | static/js/app.js:1635-1643 | The if-chain of the source equals first-match over the ordered rules vitaminas, cambio, melaza, salida. |
| Schedule.BadgeOfInicio | static/js/app.js:1635-1643 | inicio_lote (models.py:231-235) gets no badge. |
| Schedule.BadgeOfVitaminas | static/js/app.js:1635-1637 | vitaminas_dia3 gets the VITAMINAS badge. |
| Schedule.BadgeOfCambio | static/js/app.js:1637-1639 | The three cambio_* types get the ALIMENTO badge. |
| Schedule.BadgeOfMelaza | static/js/app.js:1639-1641 | aplicacion_melaza gets the MELAZA badge. |
| Schedule.BadgeOfSalida | static/js/app.js:1641-1643 | fecha_estimada_salida gets the SALIDA badge. |
| Schedule.CycleProgress | static/js/app.js:1603-1607 | Progress is 0 without an exit date and never exceeds 100. |
| Schedule.ProgressBounded | static/js/app.js:1605-1606 | With a cycle of positive length, progress is exactly 100 iff the age reaches the cycle length, and is the plain ratio × 100 below it. |
| Schedule.ProgressMonotone | static/js/app.js:1605-1606 | Progress does not decrease as the lot ages. |
| Schedule.ProgressHalfway | static/js/app.js:1603-1607 | A 30-day cycle at day 15 is at 50%. |
| Notifications.BadgeText | static/js/app.js:1309-1314 | The badge is hidden iff the count is ≤ 0, reads "99+" above 99, and otherwise shows digits that read back as the count. |
| Notifications.Truncar | static/js/app.js:121-124 | A text no longer than the limit is unchanged. A longer one becomes its first max characters followed by "...". |
| Notifications.TruncarKeepsPrefix | static/js/app.js:121-124 | The result keeps a prefix of the text and is at most the limit plus three characters long. |
| Notifications.TruncarTwice | static/js/app.js:121-124 | Truncating a truncated text, with room for the ellipsis, changes nothing. |
| Notifications.NestedFloors | static/js/app.js:109-111 | Hours and days counted from rounded-down minutes equal those counted directly from milliseconds. |
| Notifications.FormatearTiempo | static/js/app.js:104-119 | Each bucket holds exactly its range: under a minute → Ahora, under an hour → minutes, under a day → hours, under a week → days, otherwise the calendar date. Each shown count is the elapsed time rounded down. |
| Notifications.HaceLabel | static/js/app.js:114-116 | The text is "Hace ", then decimal digits that read back as the count, then the unit letter. |
| Notifications.ElapsedLabel | static/js/app.js:113-116 | The calendar bucket alone has no modelled text; "Ahora" under a minute; each counted bucket shows its count with its own unit letter (m, h, d). |
| Notifications.ElapsedLabelInjective | static/js/app.js:113-116 | Two buckets show the same text only if they are the same bucket with the same count. |
| Notifications.FormatearTiempoMonotone | static/js/app.js:109-116 | An older notification never looks younger: same or later bucket, and no smaller count within one. |
| Notifications.Preview | static/js/app.js:1339 | The preview is the first min(5, n) notifications in server order. |
| Notifications.PreviewIdempotent | static/js/app.js:1339 | Previewing a preview changes nothing. |
| Notifications.KeepPriorityMembers | static/js/app.js:1440-1442 | The filter keeps exactly the notifications whose priority equals the selection. |
| Notifications.KeepPriorityAppend | static/js/app.js:1440-1442 | The filter distributes over concatenation, so relative order is kept. |
| Notifications.FilterPriorityKeeps | static/js/app.js:1440-1442 | An empty selection keeps the whole list. Otherwise exactly the matching items are kept, in order. |
| Notifications.FilterUnknownPriority | static/js/app.js:1440-1442 | A selection naming no priority empties the list. |

## Left out

- The HTTP layer, JSON envelopes and the ORM session. `get_or_404` becomes an explicit NotFound error, and a commit that fails and is rolled back becomes "no change".
- The source has no explicit check that a purchase's or movement's lot exists; the database foreign key rejects the commit. The model states it as an explicit LotNotFound.
- The deletion of audit movements in `eliminar_venta` by `LIKE '%Cliente: …%'` (app.py:734-742). It only affects movement rows, not capital.
- Ledger.Ledger.DeleteLotWithCapital: assumes a database that enforces foreign keys, so events, mortality records and notifications of the lot block the delete. SQLite does not enforce them unless asked to.
- Creation of schedule events: no handler of app.py inserts them. The constructor takes the events as given.
- `Numeric` quantities: purchase quantities and unit costs (Numeric(10,2)) and sale kilos are whole units, and the mortality percentage is an exact `real` with no `round(..., 2)`.
- Schema.PurchaseUndone: the source stores `cantidad × costo_unitario` rounded to two decimals (app.py:232), so with fractional quantities the amount debited and the amount restored is the rounded total. The exact round trip relies on whole-unit quantities.
- Column ranges: capital and money columns are NUMERIC(12,2), the mortality percentage is NUMERIC(5,2) (models.py:265). A value out of range makes the commit fail on a strict database, and the model does not reject it.
- Ledger.Ledger.RecordMortality: a day percentage of 1000 or more (for example 95 deaths of 100 birds gives 1900) is recorded, with its alert. The source's commit would overflow NUMERIC(5,2) on a strict database and keep neither.
- Notifications.Truncar: lengths and cut points count characters (Unicode scalar values). JavaScript's `length` and `substring` count UTF-16 code units, so a text with characters outside the Basic Multilingual Plane is cut earlier, possibly inside a surrogate pair, by the source.
- Strings.Lower: lowers only A–Z. Python's `str.lower` also lowers accented capitals such as Á and Ñ and maps İ to two characters. This cannot change whether a description contains "melaza" or "vitaminas".
- The duplicate-alert queries become one fixed predicate `existe`. The model does not track that alerts added earlier in the same run become visible to later queries through autoflush.
- The titles and message texts of notifications.
- The update (`actualizar_*`) handlers, the read-only GET endpoints and the summary views, whose definitions are not part of this model.
- The DOM, `fetch`, modals, confirmations and the 30-second polling timer.
- `Date` parsing, time zones and daylight saving: time differences are integer inputs.
- `toLocaleDateString` is the FechaCalendario bucket. `toFixed` and currency formatting are not modelled.
- The rendering loops that concatenate HTML, and the `lotesActivos` / `clientesActivos` caches.
- Schema.CreditSaleUndone: requires a non-negative initial payment. The source accepts a negative one, whose movement is skipped while valor_pagado still records it, so the delete fails to restore capital.
- Schema.PurchaseUndone, Schema.CreditSaleUndone, Schema.CashSaleUndone: these round trips compose the effects the method contracts state. They are not stated as call sequences on one Ledger object.
- Ledger.Ledger.CompleteEvent, Ledger.Ledger.RecordMortality, Ledger.Ledger.GenerateAutomatic: they need no `Valid()` because they do not touch the tables of the ledger invariant.

## Findings

| source | as written | input that shows it | evidently intended | confidence | as-written member | corrected member |
|---|---|---|---|---|---|---|
| static/js/app.js:1775-1776 | The pending-events list tags a pending event whose date has passed as 'proximo' with label "En -Nd". The query feeding it (app.py:963) has no lower bound on the date, so overdue pending events are listed. | dias_para_evento = -2 | Class 'vencido' and label "Vencido (2d)", as the lot schedule shows the same event (static/js/app.js:1622-1624) | not executed | Schedule.PendingTagAsWrittenOverdue | Schedule.PendingTag (Schedule.PendingTagAgreesWithSchedule, Schedule.PendingTags) |
| app.py:202-203 | `eliminar_lote` deletes only the lot row. `Lote.capital` (models.py:28) has no delete cascade, so the flush sets the capital row's `id_lote` to NULL. That column is NOT NULL (models.py:51), so the commit fails and is rolled back. crear_lote always adds a capital row (app.py:112-119), so no lot can be deleted. | a lot just created, with no movements, purchases or sales | The lot is deleted with its capital row once it has no movements, purchases or sales, as the guard at app.py:196-200 implies | not executed | Ledger.Ledger.DeleteLot (Ledger.DeleteNewLot) | Ledger.Ledger.DeleteLotWithCapital |
