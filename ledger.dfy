/**
 * The backend's lot ledger: lots and their capital, purchases, manual capital
 * movements, clients, cash and credit sales, credit payments, schedule events,
 * mortality records and notifications. Each request handler is a method that
 * either refuses (returning the error and changing nothing, as the rolled-back
 * transaction does) or applies all of its updates.
 */
module Ledger {
  import opened Wrappers
  import opened Records
  import Alerts
  import opened Schema

  // ---------------------------------------------------------------------------
  // The ledger

  class Ledger {
    var lots: map<LotId, Lot>
    var capital: map<LotId, Capital>
    var movements: seq<Movement>
    var purchases: map<PurchaseId, Purchase>
    var clients: set<ClientId>
    var sales: map<SaleId, Sale>
    var credits: map<CreditId, Credit>
    var payments: seq<Payment>
    var events: seq<Event>
    var mortality: seq<MortalityRecord>
    var notifications: seq<Notification>
    /** The next identifier to hand out (the tables' auto-increment). */
    var nextId: nat

    /** The tables the invariant speaks about, as one value. */
    ghost function Db(): Tables
      reads this`lots, this`capital, this`movements, this`purchases, this`clients, this`sales,
            this`credits, this`payments, this`nextId
    {
      Tables(lots, capital, movements, purchases, clients, sales, credits, payments, nextId)
    }

    ghost predicate Valid()
      reads this`lots, this`capital, this`movements, this`purchases, this`clients, this`sales,
            this`credits, this`payments, this`nextId
    {
      Consistent(Db())
    }

    /** An empty database; the schedule events are created by the database itself. */
    constructor (events: seq<Event>)
      ensures Valid()
      ensures lots == map[] && capital == map[] && movements == [] && purchases == map[]
      ensures clients == {} && sales == map[] && credits == map[] && payments == []
      ensures this.events == events && mortality == [] && notifications == []
    {
      lots, capital, movements, purchases := map[], map[], [], map[];
      clients, sales, credits, payments := {}, map[], map[], [];
      this.events, mortality, notifications := events, [], [];
      nextId := 0;
    }

    predicate HasSales(lot: LotId)
      reads this`sales
    {
      exists k :: k in sales && sales[k].lot == lot
    }

    predicate HasPurchases(lot: LotId)
      reads this`purchases
    {
      exists k :: k in purchases && purchases[k].lot == lot
    }

    predicate HasMovements(lot: LotId)
      reads this`movements
    {
      exists i :: 0 <= i < |movements| && movements[i].lot == lot
    }

    // --- lots ----------------------------------------------------------------

    /** A new active lot whose capital row starts at the assigned capital. */
    method CreateLot(cantidadInicial: int, fechaInicio: Day, fechaSalida: Option<Day>, capitalInicial: Cents)
      returns (id: LotId)
      requires Valid()
      modifies this`nextId, this`lots, this`capital
      ensures Valid()
      ensures id !in old(lots)
      ensures lots == old(lots)[id := Lot(cantidadInicial, fechaInicio, fechaSalida, None, Activo)]
      ensures capital == old(capital)[id := Capital(capitalInicial, capitalInicial)]
    {
      id := nextId;
      nextId := nextId + 1;
      lots := lots[id := Lot(cantidadInicial, fechaInicio, fechaSalida, None, Activo)];
      capital := capital[id := Capital(capitalInicial, capitalInicial)];
      LotAdded(old(Db()), lots[id], capital[id], Db());
    }

    /** Closing needs at least one sale; it marks the lot closed as of today. */
    method CloseLot(id: LotId, hoy: Day) returns (r: Outcome<Error>)
      requires Valid()
      modifies this`lots
      ensures Valid()
      ensures id !in old(lots) ==> r == Fail(LotNotFound)
      ensures id in old(lots) && !old(HasSales(id)) ==> r == Fail(LotWithoutSales)
      ensures r.Fail? ==> unchanged(this)
      ensures r.Pass? <==> id in old(lots) && old(HasSales(id))
      ensures r.Pass? ==> lots == old(lots)[id := old(lots)[id].(estado := Cerrado, fechaCierre := Some(hoy))]
    {
      if id !in lots {
        return Fail(LotNotFound);
      }
      if !HasSales(id) {
        return Fail(LotWithoutSales);
      }
      lots := lots[id := lots[id].(estado := Cerrado, fechaCierre := Some(hoy))];
      LotChanged(old(Db()), id, lots[id], Db());
      r := Pass;
    }

    /** Some schedule event, mortality record or notification still names the lot. */
    predicate ReferencedByLog(lot: LotId)
      reads this`events, this`mortality, this`notifications
    {
      || (exists i :: 0 <= i < |events| && events[i].lot == lot)
      || (exists i :: 0 <= i < |mortality| && mortality[i].lot == lot)
      || (exists i :: 0 <= i < |notifications| && notifications[i].lot == Some(lot))
    }

    /**
     * `eliminar_lote` as written. Past the guard it deletes only the lot row, so
     * the flush sets the `id_lote` of the lot's capital row to NULL; that column
     * is NOT NULL, the commit fails and the transaction is rolled back. Every
     * lot has a capital row, so no lot is ever deleted.
     */
    method DeleteLot(id: LotId) returns (r: Outcome<Error>)
      requires Valid()
      ensures id !in lots ==> r == Fail(LotNotFound)
      ensures id in lots && (HasMovements(id) || HasPurchases(id) || HasSales(id)) ==> r == Fail(LotHasRecords)
      ensures id in lots && !(HasMovements(id) || HasPurchases(id) || HasSales(id)) ==>
        id in capital && r == Fail(LotStillReferenced)
    {
      if id !in lots {
        return Fail(LotNotFound);
      }
      if HasMovements(id) || HasPurchases(id) || HasSales(id) {
        return Fail(LotHasRecords);
      }
      assert id in capital;
      r := Fail(LotStillReferenced);
    }

    /**
     * The delete the guard evidently intends: the lot goes together with its
     * capital row. Schedule events, mortality records and notifications of the
     * lot still hold foreign keys to it, so they still block the delete.
     */
    method DeleteLotWithCapital(id: LotId) returns (r: Outcome<Error>)
      requires Valid()
      modifies this`lots, this`capital
      ensures Valid()
      ensures id !in old(lots) ==> r == Fail(LotNotFound)
      ensures id in old(lots) && old(HasMovements(id) || HasPurchases(id) || HasSales(id)) ==>
        r == Fail(LotHasRecords)
      ensures id in old(lots) && !old(HasMovements(id) || HasPurchases(id) || HasSales(id)) && ReferencedByLog(id) ==>
        r == Fail(LotStillReferenced)
      ensures r.Fail? ==> unchanged(this)
      ensures r.Pass? <==>
        id in old(lots) && !old(HasMovements(id) || HasPurchases(id) || HasSales(id)) && !ReferencedByLog(id)
      ensures r.Pass? ==> lots == old(lots) - {id} && capital == old(capital) - {id}
    {
      if id !in lots {
        return Fail(LotNotFound);
      }
      if HasMovements(id) || HasPurchases(id) || HasSales(id) {
        return Fail(LotHasRecords);
      }
      if ReferencedByLog(id) {
        return Fail(LotStillReferenced);
      }
      lots := lots - {id};
      capital := capital - {id};
      LotRemoved(old(Db()), id, Db());
      r := Pass;
    }

    // --- clients -------------------------------------------------------------

    method CreateClient() returns (id: ClientId)
      requires Valid()
      modifies this`nextId, this`clients
      ensures Valid()
      ensures id !in old(clients) && clients == old(clients) + {id}
    {
      id := nextId;
      nextId := nextId + 1;
      clients := clients + {id};
      ClientAdded(old(Db()), Db());
    }

    /** A client can only be deleted while no sale refers to them. */
    method DeleteClient(id: ClientId) returns (r: Outcome<Error>)
      requires Valid()
      modifies this`clients
      ensures Valid()
      ensures id !in old(clients) ==> r == Fail(ClientNotFound)
      ensures id in old(clients) && (exists k :: k in old(sales) && old(sales)[k].client == id) ==>
        r == Fail(ClientHasSales)
      ensures r.Fail? ==> unchanged(this)
      ensures r.Pass? <==> id in old(clients) && !(exists k :: k in old(sales) && old(sales)[k].client == id)
      ensures r.Pass? ==> clients == old(clients) - {id}
    {
      if id !in clients {
        return Fail(ClientNotFound);
      }
      if exists k :: k in sales && sales[k].client == id {
        return Fail(ClientHasSales);
      }
      clients := clients - {id};
      ClientRemoved(old(Db()), id, Db());
      r := Pass;
    }

    // --- purchases and movements ----------------------------------------------

    /** A purchase costs quantity times unit cost, logged as a 'compra' movement and taken from capital. */
    method RecordPurchase(lot: LotId, cantidad: int, costoUnitario: Cents, fecha: Day)
      returns (r: Result<PurchaseId, Error>)
      requires Valid()
      modifies this`nextId, this`purchases, this`movements, this`capital
      ensures Valid()
      ensures r.Err? <==> lot !in old(lots)
      ensures r.Err? ==> r.error == LotNotFound && unchanged(this)
      ensures r.Ok? ==> r.value !in old(purchases)
      ensures r.Ok? ==> purchases == old(purchases)[r.value := Purchase(lot, cantidad, costoUnitario, cantidad * costoUnitario, fecha)]
      ensures r.Ok? ==> movements == old(movements) + [Movement(lot, Compra, cantidad * costoUnitario, fecha)]
      ensures r.Ok? ==> capital == AddToCapital(old(capital), lot, -(cantidad * costoUnitario))
    {
      if lot !in lots {
        return Err(LotNotFound);
      }
      var id := AddPurchase(Purchase(lot, cantidad, costoUnitario, cantidad * costoUnitario, fecha));
      r := Ok(id);
    }

    /** The accepted branch of `RecordPurchase`: the purchase row, its movement and the capital debit. */
    method AddPurchase(p: Purchase) returns (id: PurchaseId)
      requires Valid() && p.lot in lots
      modifies this`nextId, this`purchases, this`movements, this`capital
      ensures Valid()
      ensures id !in old(purchases) && purchases == old(purchases)[id := p]
      ensures movements == old(movements) + [Movement(p.lot, Compra, p.costoTotal, p.fecha)]
      ensures capital == AddToCapital(old(capital), p.lot, -p.costoTotal)
    {
      id := nextId;
      nextId := nextId + 1;
      purchases := purchases[id := p];
      movements := movements + [Movement(p.lot, Compra, p.costoTotal, p.fecha)];
      capital := AddToCapital(capital, p.lot, -p.costoTotal);
      PurchaseAdded(old(Db()), p, Db());
    }

    /** Deleting a purchase gives its cost back to capital and drops its movement. */
    method DeletePurchase(id: PurchaseId) returns (r: Outcome<Error>)
      requires Valid()
      modifies this`capital, this`movements, this`purchases
      ensures Valid()
      ensures r.Fail? <==> id !in old(purchases)
      ensures r.Fail? ==> r.error == PurchaseNotFound && unchanged(this)
      ensures r.Pass? ==> var p := old(purchases)[id];
        && capital == AddToCapital(old(capital), p.lot, p.costoTotal)
        && movements == RemoveFirst(old(movements), Movement(p.lot, Compra, p.costoTotal, p.fecha))
        && purchases == old(purchases) - {id}
    {
      if id !in purchases {
        return Fail(PurchaseNotFound);
      }
      var p := purchases[id];
      capital := AddToCapital(capital, p.lot, p.costoTotal);
      movements := RemoveFirst(movements, Movement(p.lot, Compra, p.costoTotal, p.fecha));
      purchases := purchases - {id};
      PurchaseRemoved(old(Db()), id, Db());
      r := Pass;
    }

    /** A manual capital movement: logged, and applied to capital with its sign. */
    method RecordMovement(lot: LotId, tipo: MovementKind, valor: Cents, fecha: Day) returns (r: Outcome<Error>)
      requires Valid()
      modifies this`movements, this`capital
      ensures Valid()
      ensures r.Fail? <==> lot !in old(lots)
      ensures r.Fail? ==> r.error == LotNotFound && unchanged(this)
      ensures r.Pass? ==> movements == old(movements) + [Movement(lot, tipo, valor, fecha)]
      ensures r.Pass? ==> capital == AddToCapital(old(capital), lot, Signed(tipo, valor))
    {
      if lot !in lots {
        return Fail(LotNotFound);
      }
      LogMovement(Movement(lot, tipo, valor, fecha));
      r := Pass;
    }

    /** Log a movement and apply it to its lot's capital with its sign. */
    method LogMovement(m: Movement)
      requires Valid() && m.lot in lots
      modifies this`movements, this`capital
      ensures Valid()
      ensures movements == old(movements) + [m]
      ensures capital == AddToCapital(old(capital), m.lot, Signed(m.tipo, m.valor))
    {
      movements := movements + [m];
      capital := AddToCapital(capital, m.lot, Signed(m.tipo, m.valor));
      MovementAdded(old(Db()), m, Signed(m.tipo, m.valor), Db());
    }

    // --- sales, credits and payments ------------------------------------------

    /**
     * A sale of `kilos` at `precioKilo` on an active lot to an existing client.
     * On credit ("credito"), a credit record owes the total minus the initial
     * payment and only that initial payment, when positive, enters capital; any
     * other payment type is cash and the whole total enters capital.
     */
    method RecordSale(lot: LotId, client: ClientId, kilos: int, precioKilo: Cents, fecha: Day,
                      tipoPago: string, pagadoInicial: Cents)
      returns (r: Result<SaleId, Error>)
      requires Valid()
      modifies this`nextId, this`sales, this`credits, this`movements, this`capital
      ensures Valid()
      ensures lot !in old(lots) || old(lots)[lot].estado != Activo ==> r == Err(LotInvalidOrClosed)
      ensures lot in old(lots) && old(lots)[lot].estado == Activo && client !in old(clients) ==>
        r == Err(ClientNotFound)
      ensures r.Err? <==> lot !in old(lots) || old(lots)[lot].estado != Activo || client !in old(clients)
      ensures r.Err? ==> unchanged(this)
      ensures r.Ok? ==> r.value !in old(sales)
      ensures r.Ok? && tipoPago == "credito" ==>
        r.value in sales && sales[r.value].credit.Some? &&
        var c := sales[r.value].credit.value;
        var pendiente := kilos * precioKilo - pagadoInicial;
        && sales == old(sales)[r.value := Sale(lot, client, kilos * precioKilo, fecha, Some(c))]
        && c !in old(credits)
        && credits == old(credits)[c := Credit(r.value, kilos * precioKilo, pagadoInicial, pendiente,
                                                 InitialDebtStatus(kilos * precioKilo, pendiente))]
        && movements == old(movements) + (if pagadoInicial > 0 then [Movement(lot, Ingreso, pagadoInicial, fecha)] else [])
        && capital == AddToCapital(old(capital), lot, if pagadoInicial > 0 then pagadoInicial else 0)
      ensures r.Ok? && tipoPago != "credito" ==>
        && sales == old(sales)[r.value := Sale(lot, client, kilos * precioKilo, fecha, None)]
        && credits == old(credits)
        && movements == old(movements) + [Movement(lot, Ingreso, kilos * precioKilo, fecha)]
        && capital == AddToCapital(old(capital), lot, kilos * precioKilo)
    {
      if lot !in lots || lots[lot].estado != Activo {
        return Err(LotInvalidOrClosed);
      }
      if client !in clients {
        return Err(ClientNotFound);
      }
      var id;
      if tipoPago == "credito" {
        id := RecordCreditSale(lot, client, kilos * precioKilo, fecha, pagadoInicial);
      } else {
        id := RecordCashSale(lot, client, kilos * precioKilo, fecha);
      }
      r := Ok(id);
    }

    /** The credit branch of `RecordSale`. */
    method RecordCreditSale(lot: LotId, client: ClientId, valorTotal: Cents, fecha: Day, pagadoInicial: Cents)
      returns (id: SaleId)
      requires Valid() && lot in lots && client in clients
      modifies this`nextId, this`sales, this`credits, this`movements, this`capital
      ensures Valid()
      ensures id !in old(sales) && id + 1 !in old(credits)
      ensures var pendiente := valorTotal - pagadoInicial;
        && sales == old(sales)[id := Sale(lot, client, valorTotal, fecha, Some(id + 1))]
        && credits == old(credits)[id + 1 := Credit(id, valorTotal, pagadoInicial, pendiente,
                                                      InitialDebtStatus(valorTotal, pendiente))]
        && movements == old(movements) + (if pagadoInicial > 0 then [Movement(lot, Ingreso, pagadoInicial, fecha)] else [])
        && capital == AddToCapital(old(capital), lot, if pagadoInicial > 0 then pagadoInicial else 0)
    {
      var pendiente := valorTotal - pagadoInicial;
      id := InsertCreditSale(Sale(lot, client, valorTotal, fecha, None),
                             Credit(0, valorTotal, pagadoInicial, pendiente, InitialDebtStatus(valorTotal, pendiente)));
      ghost var sold := sales;
      ghost var owed := credits;
      if pagadoInicial > 0 {
        LogMovement(Movement(lot, Ingreso, pagadoInicial, fecha));
      } else {
        assert AddToCapital(capital, lot, 0) == capital;
      }
      assert sales == sold && credits == owed;
    }

    /** A sale row and its credit row, linked to each other under the next two identifiers. */
    method InsertCreditSale(s: Sale, cr: Credit) returns (id: SaleId)
      requires Valid() && s.lot in lots && s.client in clients
      requires cr.valorPagado + cr.valorPendiente == cr.valorTotal == s.valorTotal && cr.estado != Pagado
      modifies this`nextId, this`sales, this`credits
      ensures Valid()
      ensures id !in old(sales) && id + 1 !in old(credits)
      ensures sales == old(sales)[id := s.(credit := Some(id + 1))]
      ensures credits == old(credits)[id + 1 := cr.(sale := id)]
    {
      id := nextId;
      nextId := nextId + 2;
      sales := sales[id := s.(credit := Some(id + 1))];
      credits := credits[id + 1 := cr.(sale := id)];
      CreditSaleAdded(old(Db()), sales[id], credits[id + 1], Db());
    }

    /** The cash branch of `RecordSale`. */
    method RecordCashSale(lot: LotId, client: ClientId, valorTotal: Cents, fecha: Day) returns (id: SaleId)
      requires Valid() && lot in lots && client in clients
      modifies this`nextId, this`sales, this`movements, this`capital
      ensures Valid()
      ensures id !in old(sales)
      ensures sales == old(sales)[id := Sale(lot, client, valorTotal, fecha, None)]
      ensures movements == old(movements) + [Movement(lot, Ingreso, valorTotal, fecha)]
      ensures capital == AddToCapital(old(capital), lot, valorTotal)
    {
      id := nextId;
      var sale := Sale(lot, client, valorTotal, fecha, None);
      nextId := nextId + 1;
      sales := sales[id := sale];
      CashSaleAdded(old(Db()), sale, Db());
      LogMovement(Movement(lot, Ingreso, valorTotal, fecha));
    }

    /**
     * Deleting a sale takes back from capital what it brought in: the amount paid
     * so far on a credit sale, the total of a cash sale. A credit sale's credit
     * and payments go with it.
     */
    method DeleteSale(id: SaleId) returns (r: Outcome<Error>)
      requires Valid()
      modifies this`capital, this`payments, this`credits, this`sales
      ensures Valid()
      ensures r.Fail? <==> id !in old(sales)
      ensures r.Fail? ==> r.error == SaleNotFound && unchanged(this)
      ensures r.Pass? && old(sales)[id].credit.Some? ==>
        var s := old(sales)[id];
        var c := s.credit.value;
        && capital == AddToCapital(old(capital), s.lot, -old(credits)[c].valorPagado)
        && credits == old(credits) - {c}
        && payments == WithoutPayments(old(payments), c)
      ensures r.Pass? && old(sales)[id].credit.None? ==>
        && capital == AddToCapital(old(capital), old(sales)[id].lot, -old(sales)[id].valorTotal)
        && credits == old(credits) && payments == old(payments)
      ensures r.Pass? ==> sales == old(sales) - {id}
    {
      if id !in sales {
        return Fail(SaleNotFound);
      }
      if sales[id].credit.Some? {
        DeleteCreditSale(id);
      } else {
        DeleteCashSale(id);
      }
      r := Pass;
    }

    /** The credit branch of `DeleteSale`: what was paid leaves capital, the credit and its payments go. */
    method DeleteCreditSale(id: SaleId)
      requires Valid() && id in sales && sales[id].credit.Some?
      modifies this`capital, this`payments, this`credits, this`sales
      ensures Valid()
      ensures var s := old(sales)[id];
        var c := s.credit.value;
        && capital == AddToCapital(old(capital), s.lot, -old(credits)[c].valorPagado)
        && credits == old(credits) - {c}
        && payments == WithoutPayments(old(payments), c)
        && sales == old(sales) - {id}
    {
      var s := sales[id];
      var c := s.credit.value;
      capital := AddToCapital(capital, s.lot, -credits[c].valorPagado);
      payments := WithoutPayments(payments, c);
      credits := credits - {c};
      sales := sales - {id};
      CreditSaleDeleted(old(Db()), id, Db());
    }

    /** The cash branch of `DeleteSale`: the sale's total leaves capital. */
    method DeleteCashSale(id: SaleId)
      requires Valid() && id in sales && sales[id].credit.None?
      modifies this`capital, this`sales
      ensures Valid()
      ensures capital == AddToCapital(old(capital), old(sales)[id].lot, -old(sales)[id].valorTotal)
      ensures sales == old(sales) - {id}
    {
      var s := sales[id];
      capital := AddToCapital(capital, s.lot, -s.valorTotal);
      sales := sales - {id};
      CashSaleDeleted(old(Db()), id, Db());
    }

    /**
     * A payment on a credit: refused when the debt is already paid or the payment
     * exceeds what is owed; otherwise it moves from owed to paid, updates the
     * debt status and enters the sale's lot capital as income.
     */
    method RegisterPayment(creditId: CreditId, valorPago: Cents, fecha: Day)
      returns (r: Result<(Cents, DebtStatus), Error>)
      requires Valid()
      modifies this`payments, this`credits, this`movements, this`capital
      ensures Valid()
      ensures creditId !in old(credits) ==> r == Err(CreditNotFound)
      ensures creditId in old(credits) && old(credits)[creditId].estado == Pagado ==> r == Err(CreditAlreadyPaid)
      ensures (creditId in old(credits) && old(credits)[creditId].estado != Pagado
               && valorPago > old(credits)[creditId].valorPendiente) ==> r == Err(PaymentExceedsBalance)
      ensures r.Err? ==> unchanged(this)
      ensures r.Ok? <==> (creditId in old(credits) && old(credits)[creditId].estado != Pagado
                          && valorPago <= old(credits)[creditId].valorPendiente)
      ensures r.Ok? ==> var c := old(credits)[creditId];
        var lot := old(sales)[c.sale].lot;
        && credits == old(credits)[creditId := c.(
             valorPagado := c.valorPagado + valorPago,
             valorPendiente := c.valorPendiente - valorPago,
             estado := StatusAfterPayment(c.valorPagado + valorPago, c.valorPendiente - valorPago, c.estado))]
        && r.value == (credits[creditId].valorPendiente, credits[creditId].estado)
        && payments == old(payments) + [Payment(creditId, valorPago, fecha)]
        && movements == old(movements) + [Movement(lot, Ingreso, valorPago, fecha)]
        && capital == AddToCapital(old(capital), lot, valorPago)
    {
      if creditId !in credits {
        return Err(CreditNotFound);
      }
      if credits[creditId].estado == Pagado {
        return Err(CreditAlreadyPaid);
      }
      if valorPago > credits[creditId].valorPendiente {
        return Err(PaymentExceedsBalance);
      }
      var c' := ApplyPayment(creditId, valorPago, fecha);
      r := Ok((c'.valorPendiente, c'.estado));
    }

    /** The accepted branch of `RegisterPayment`; returns the updated credit. */
    method ApplyPayment(creditId: CreditId, valorPago: Cents, fecha: Day) returns (c': Credit)
      requires Valid() && creditId in credits && credits[creditId].estado != Pagado
      requires valorPago <= credits[creditId].valorPendiente
      modifies this`payments, this`credits, this`movements, this`capital
      ensures Valid()
      ensures var c := old(credits)[creditId];
        var lot := old(sales)[c.sale].lot;
        && c' == c.(valorPagado := c.valorPagado + valorPago,
                    valorPendiente := c.valorPendiente - valorPago,
                    estado := StatusAfterPayment(c.valorPagado + valorPago, c.valorPendiente - valorPago, c.estado))
        && credits == old(credits)[creditId := c']
        && payments == old(payments) + [Payment(creditId, valorPago, fecha)]
        && movements == old(movements) + [Movement(lot, Ingreso, valorPago, fecha)]
        && capital == AddToCapital(old(capital), lot, valorPago)
    {
      var c := credits[creditId];
      var pagado := c.valorPagado + valorPago;
      var pendiente := c.valorPendiente - valorPago;
      c' := c.(valorPagado := pagado, valorPendiente := pendiente,
               estado := StatusAfterPayment(pagado, pendiente, c.estado));
      var lot := sales[c.sale].lot;
      payments := payments + [Payment(creditId, valorPago, fecha)];
      credits := credits[creditId := c'];
      movements := movements + [Movement(lot, Ingreso, valorPago, fecha)];
      capital := AddToCapital(capital, lot, valorPago);
      PaymentApplied(old(Db()), creditId, c', Payment(creditId, valorPago, fecha), Db());
    }

    // --- schedule events and mortality -----------------------------------------

    /** Mark an event done on the given date, or today when none is given. */
    method CompleteEvent(id: EventId, fechaEjecutada: Option<Day>, hoy: Day) returns (r: Outcome<Error>)
      modifies this`events
      ensures r.Fail? <==> id >= |old(events)|
      ensures r.Fail? ==> r.error == EventNotFound && unchanged(this)
      ensures r.Pass? ==> events == old(events)[id := old(events)[id].(
        estado := EventoCompletado, fechaEjecutada := Some(fechaEjecutada.GetOr(hoy)))]
    {
      if id >= |events| {
        return Fail(EventNotFound);
      }
      events := events[id := events[id].(estado := EventoCompletado, fechaEjecutada := Some(fechaEjecutada.GetOr(hoy)))];
      r := Pass;
    }

    /**
     * Record today's deaths of a lot. The live count is the initial count minus
     * every death recorded so far, this one included; a day's percentage above 5
     * raises a high-priority mortality alert.
     */
    method RecordMortality(lot: LotId, muertos: int, fecha: Option<Day>, hoy: Day) returns (r: Result<Alerts.MortalityOutcome, Error>)
      modifies this`mortality, this`notifications
      ensures lot !in old(lots) ==> r == Err(LotNotFound)
      ensures lot in old(lots) && old(lots)[lot].cantidadInicial - muertos == 0 ==> r == Err(DivisionByZero)
      ensures r.Err? ==> unchanged(this)
      ensures r.Ok? <==> lot in old(lots) && old(lots)[lot].cantidadInicial - muertos != 0
      ensures r.Ok? ==>
        && r == Alerts.MortalityFigures(old(lots)[lot].cantidadInicial, Deaths(old(mortality), lot), muertos)
        && mortality == old(mortality) + [MortalityRecord(lot, fecha.GetOr(hoy), muertos, r.value.vivos)]
        && r.value.vivos == old(lots)[lot].cantidadInicial - Deaths(mortality, lot)
        && notifications == old(notifications)
             + (if Alerts.HighMortality(r.value.porcentaje)
                then [Notification(Some(lot), AlertaMortalidadAlta, Alta, false)] else [])
    {
      if lot !in lots {
        return Err(LotNotFound);
      }
      var anterior := Deaths(mortality, lot);
      var figures := Alerts.MortalityFigures(lots[lot].cantidadInicial, anterior, muertos);
      if figures.Err? {
        return Err(figures.error);
      }
      var m := MortalityRecord(lot, fecha.GetOr(hoy), muertos, figures.value.vivos);
      assert (mortality + [m])[..|mortality|] == mortality;
      mortality := mortality + [m];
      if Alerts.HighMortality(figures.value.porcentaje) {
        notifications := notifications + [Notification(Some(lot), AlertaMortalidadAlta, Alta, false)];
      }
      r := figures;
    }

    // --- automatic notifications -------------------------------------------------

    /** The capital row of a lot, if it has one. */
    function CapitalOf(lot: LotId): Option<Capital>
      reads this`capital
    {
      if lot in capital then Some(capital[lot]) else None
    }

    /** The alerts of the listed lots, lot after lot. */
    function AlertsFor(ids: seq<LotId>, hoy: Day, existe: Alerts.AlertKey -> bool): seq<Notification>
      reads this`lots, this`capital, this`events
      requires forall i :: 0 <= i < |ids| ==> ids[i] in lots
      decreases |ids|
    {
      if ids == [] then []
      else
        var id := ids[|ids| - 1];
        AlertsFor(ids[..|ids| - 1], hoy, existe)
        + Alerts.LotAlerts(id, lots[id], CapitalOf(id), events, hoy, existe)
    }

    /** The alerts one active lot earns today: its age, exit and capital alerts, then one reminder per due event. */
    method AlertsOfLot(id: LotId, hoy: Day, existe: Alerts.AlertKey -> bool) returns (nuevas: seq<Notification>)
      requires id in lots
      ensures nuevas == Alerts.LotAlerts(id, lots[id], CapitalOf(id), events, hoy, existe)
    {
      var lot := lots[id];
      nuevas := Alerts.AgeAlert(id, lot, hoy, existe) + Alerts.ExitAlert(id, lot, hoy, existe)
                + Alerts.CapitalAlert(id, CapitalOf(id), existe);
      var j := 0;
      while j < |events|
        invariant 0 <= j <= |events|
        invariant nuevas == Alerts.AgeAlert(id, lot, hoy, existe) + Alerts.ExitAlert(id, lot, hoy, existe)
                            + Alerts.CapitalAlert(id, CapitalOf(id), existe)
                            + Alerts.Reminders(id, events[..j], hoy, existe)
      {
        var e := events[j];
        assert events[..j + 1][..j] == events[..j];
        if Alerts.ReminderDue(id, e, hoy, existe) {
          nuevas := nuevas + [Notification(Some(id), Alerts.ReminderKind(e.descripcion), Alta, false)];
        }
        j := j + 1;
      }
      assert events[..j] == events;
    }

    /**
     * The automatic-notification job: for every active lot (listed in `activos`,
     * as the query returns them), add its age, exit, low-capital and event
     * alerts; return how many were added.
     */
    method GenerateAutomatic(activos: seq<LotId>, hoy: Day, existe: Alerts.AlertKey -> bool)
      returns (creadas: nat)
      requires forall i :: 0 <= i < |activos| ==> activos[i] in lots && lots[activos[i]].estado == Activo
      requires forall k :: k in lots && lots[k].estado == Activo ==> k in activos
      requires forall i, j :: 0 <= i < j < |activos| ==> activos[i] != activos[j]
      modifies this`notifications
      ensures notifications == old(notifications) + old(AlertsFor(activos, hoy, existe))
      ensures creadas == |notifications| - |old(notifications)|
    {
      creadas := 0;
      var added: seq<Notification> := [];
      var i := 0;
      while i < |activos|
        invariant 0 <= i <= |activos|
        invariant unchanged(this)
        invariant added == AlertsFor(activos[..i], hoy, existe)
        invariant creadas == |added|
      {
        var nuevas := AlertsOfLot(activos[i], hoy, existe);
        assert activos[..i + 1][..i] == activos[..i];
        added := added + nuevas;
        creadas := creadas + |nuevas|;
        i := i + 1;
      }
      assert activos[..i] == activos;
      notifications := notifications + added;
    }
  }

  /**
   * A lot just created, with nothing recorded on it: the delete as written
   * refuses it, the corrected delete removes it.
   */
  method DeleteNewLot() returns (asWritten: Outcome<Error>, corrected: Outcome<Error>)
    ensures asWritten == Fail(LotStillReferenced)
    ensures corrected == Pass
  {
    var ledger := new Ledger([]);
    var id := ledger.CreateLot(1000, 0, None, 50000);
    asWritten := ledger.DeleteLot(id);
    corrected := ledger.DeleteLotWithCapital(id);
  }
}
