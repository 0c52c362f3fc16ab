/**
 * The rows of the poultry backend that the ledger keeps, with the ORM stripped
 * away. Money is in integer cents (the columns are NUMERIC(12,2)); dates are
 * integer day numbers. The enumerations are the value sets of the ENUM columns.
 */
module Records {
  import opened Wrappers

  type LotId = nat
  type ClientId = nat
  type PurchaseId = nat
  type SaleId = nat
  type CreditId = nat
  type EventId = nat

  /** Money in cents. */
  type Cents = int
  /** A calendar date as a day number. */
  type Day = int

  /** Milliseconds of the browser clock per minute, hour and day. */
  const MsPerMinute: int := 60000
  const MsPerHour: int := 60 * MsPerMinute
  const MsPerDay: int := 24 * MsPerHour

  datatype LotStatus = Activo | Cerrado

  datatype Lot = Lot(
    cantidadInicial: int,
    fechaInicio: Day,
    fechaSalida: Option<Day>,
    fechaCierre: Option<Day>,
    estado: LotStatus)

  /** The lot's capital row: what it was given and what it holds now. */
  datatype Capital = Capital(inicial: Cents, actual: Cents)

  datatype MovementKind = Compra | Gasto | Ingreso | Retiro

  /** One row of the capital-movement audit log. */
  datatype Movement = Movement(lot: LotId, tipo: MovementKind, valor: Cents, fecha: Day)

  datatype Purchase = Purchase(
    lot: LotId, cantidad: int, costoUnitario: Cents, costoTotal: Cents, fecha: Day)

  datatype Sale = Sale(
    lot: LotId, client: ClientId, valorTotal: Cents, fecha: Day, credit: Option<CreditId>)

  datatype DebtStatus = Pendiente | Parcial | Pagado

  /** The credit record of a sale on credit. */
  datatype Credit = Credit(
    sale: SaleId, valorTotal: Cents, valorPagado: Cents, valorPendiente: Cents,
    estado: DebtStatus)

  datatype Payment = Payment(credit: CreditId, valor: Cents, fecha: Day)

  datatype EventKind =
    | InicioLote | VitaminasDia3 | CambioPreinicio | CambioInicio | CambioEngorde
    | AplicacionMelaza | FechaEstimadaSalida

  datatype EventStatus = EventoPendiente | EventoCompletado | EventoVencido

  /** A scheduled care event of a lot (a row of eventos_cronograma). */
  datatype Event = Event(
    lot: LotId, tipo: EventKind, descripcion: string, fechaProgramada: Day,
    fechaEjecutada: Option<Day>, estado: EventStatus)

  datatype MortalityRecord = MortalityRecord(
    lot: LotId, fecha: Day, muertos: int, vivos: int)

  datatype NotificationKind =
    | AlertaEdad | AlertaFechaSalida | AlertaCapitalBajo | AlertaMortalidadAlta
    | RecordatorioVitaminas | RecordatorioCambioAlimento | RecordatorioMelaza
    | AlertaCreditoVencido

  datatype Priority = Baja | Media | Alta | Critica

  datatype Notification = Notification(
    lot: Option<LotId>, tipo: NotificationKind, prioridad: Priority, leida: bool)

  /** Why a request is refused; a refused request changes nothing. */
  datatype Error =
    | LotNotFound
    | LotInvalidOrClosed
    | ClientNotFound
    | PurchaseNotFound
    | SaleNotFound
    | CreditNotFound
    | CreditAlreadyPaid
    | PaymentExceedsBalance
    | LotWithoutSales
    | LotHasRecords
    | LotStillReferenced
    | ClientHasSales
    | EventNotFound
    | DivisionByZero
}
