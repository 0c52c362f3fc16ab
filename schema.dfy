/**
 * The tables behind the lot ledger as one value, the invariant that ties their
 * rows together, and the pure pieces of the request handlers together with the
 * proof that each handler's update keeps the invariant.
 */
module Schema {
  import opened Wrappers
  import opened Records

  // ---------------------------------------------------------------------------
  // Pure pieces of the handlers

  /** Credit `delta` cents to the lot's capital row, if the lot has one. */
  function AddToCapital(cap: map<LotId, Capital>, lot: LotId, delta: Cents): (r: map<LotId, Capital>)
    ensures r.Keys == cap.Keys
    ensures lot in cap ==> r[lot] == cap[lot].(actual := cap[lot].actual + delta)
    ensures forall l :: l in cap && l != lot ==> r[l] == cap[l]
  {
    if lot in cap then cap[lot := cap[lot].(actual := cap[lot].actual + delta)] else cap
  }

  /** Taking back what was credited restores the capital rows. */
  lemma AddToCapitalUndo(cap: map<LotId, Capital>, lot: LotId, delta: Cents)
    ensures AddToCapital(AddToCapital(cap, lot, delta), lot, -delta) == cap
  {
    var r := AddToCapital(AddToCapital(cap, lot, delta), lot, -delta);
    assert r.Keys == cap.Keys;
    forall l | l in cap ensures r[l] == cap[l] {
      if l == lot {
        assert r[l].actual == cap[l].actual;
      }
    }
  }

  /** Two credits to the same lot add up. */
  lemma AddToCapitalTwice(cap: map<LotId, Capital>, lot: LotId, x: Cents, y: Cents)
    ensures AddToCapital(AddToCapital(cap, lot, x), lot, y) == AddToCapital(cap, lot, x + y)
  {
    var r := AddToCapital(AddToCapital(cap, lot, x), lot, y);
    var q := AddToCapital(cap, lot, x + y);
    assert r.Keys == q.Keys;
    forall l | l in r ensures r[l] == q[l] {
      if l == lot {
        assert r[l].actual == q[l].actual;
      }
    }
  }

  /** The effect of a capital movement: income adds, purchases, expenses and withdrawals subtract. */
  function Signed(tipo: MovementKind, valor: Cents): (r: Cents)
    ensures tipo == Ingreso ==> r == valor
    ensures tipo in {Compra, Gasto, Retiro} ==> r == -valor
  {
    match tipo
    case Compra | Gasto | Retiro => -valor
    case Ingreso => valor
  }

  /**
   * The capital update a movement makes is exactly reversible, whatever its
   * kind: applying the opposite amount afterwards restores every capital row.
   */
  lemma SignedUndo(cap: map<LotId, Capital>, lot: LotId, tipo: MovementKind, valor: Cents)
    ensures AddToCapital(AddToCapital(cap, lot, Signed(tipo, valor)), lot, -Signed(tipo, valor)) == cap
  {
    AddToCapitalUndo(cap, lot, Signed(tipo, valor));
  }

  /** Delete the first row equal to `m` (the `.first()` of a filtered query), if any. */
  function RemoveFirst(s: seq<Movement>, m: Movement): (r: seq<Movement>)
    ensures m in s ==> multiset(r) == multiset(s) - multiset{m} && |r| == |s| - 1
    ensures m !in s ==> r == s
    ensures forall x :: x in r ==> x in s
  {
    if s == [] then []
    else
      assert s == [s[0]] + s[1..];
      if s[0] == m then s[1..]
      else [s[0]] + RemoveFirst(s[1..], m)
  }

  /** The payments that do not belong to credit `c`, in their order. */
  function WithoutPayments(ps: seq<Payment>, c: CreditId): (r: seq<Payment>)
    ensures forall p :: p in r <==> p in ps && p.credit != c
    ensures |r| <= |ps|
  {
    if ps == [] then []
    else (if ps[0].credit == c then [] else [ps[0]]) + WithoutPayments(ps[1..], c)
  }

  /** Filtering out a credit that no payment refers to changes nothing. */
  lemma {:induction false} WithoutPaymentsNone(ps: seq<Payment>, c: CreditId)
    requires forall i :: 0 <= i < |ps| ==> ps[i].credit != c
    ensures WithoutPayments(ps, c) == ps
  {
    if ps != [] {
      WithoutPaymentsNone(ps[1..], c);
    }
  }

  /** The filter distributes over appending. */
  lemma {:induction false} WithoutPaymentsAppend(ps: seq<Payment>, qs: seq<Payment>, c: CreditId)
    ensures WithoutPayments(ps + qs, c) == WithoutPayments(ps, c) + WithoutPayments(qs, c)
  {
    if ps == [] {
      assert ps + qs == qs;
    } else {
      assert (ps + qs)[1..] == ps[1..] + qs;
      WithoutPaymentsAppend(ps[1..], qs, c);
    }
  }

  /** Filtering out credit `c` drops a run of payments that all belong to it. */
  lemma {:induction false} WithoutPaymentsOnly(ps: seq<Payment>, c: CreditId)
    requires forall i :: 0 <= i < |ps| ==> ps[i].credit == c
    ensures WithoutPayments(ps, c) == []
  {
    if ps != [] {
      WithoutPaymentsOnly(ps[1..], c);
    }
  }

  /** Debt status of a new credit: nothing paid yet, or partly paid. */
  function InitialDebtStatus(valorTotal: Cents, valorPendiente: Cents): (r: DebtStatus)
    ensures r != Pagado
    ensures r == Pendiente <==> valorPendiente == valorTotal
  {
    if valorPendiente == valorTotal then Pendiente else Parcial
  }

  /** Debt status after a payment left `valorPagado` paid and `valorPendiente` owed. */
  function StatusAfterPayment(valorPagado: Cents, valorPendiente: Cents, previo: DebtStatus): (r: DebtStatus)
    ensures r == Pagado <==> valorPendiente == 0 || (previo == Pagado && valorPagado <= 0)
    ensures valorPendiente != 0 && valorPagado > 0 ==> r == Parcial
    ensures valorPendiente != 0 && valorPagado <= 0 ==> r == previo
  {
    if valorPendiente == 0 then Pagado
    else if valorPagado > 0 then Parcial
    else previo
  }

  /** Birds of lot `lot` recorded dead so far (the SUM over its mortality rows, 0 when none). */
  function Deaths(records: seq<MortalityRecord>, lot: LotId): int
    decreases |records|
  {
    if records == [] then 0
    else
      var last := records[|records| - 1];
      Deaths(records[..|records| - 1], lot) + (if last.lot == lot then last.muertos else 0)
  }

  // ---------------------------------------------------------------------------
  // The tables and their invariant

  /** The tables whose rows refer to each other, as one value. */
  datatype Tables = Tables(
    lots: map<LotId, Lot>,
    capital: map<LotId, Capital>,
    movements: seq<Movement>,
    purchases: map<PurchaseId, Purchase>,
    clients: set<ClientId>,
    sales: map<SaleId, Sale>,
    credits: map<CreditId, Credit>,
    payments: seq<Payment>,
    nextId: nat)

  /** A credit balances: paid plus owed is its sale's total, and a paid debt owes nothing. */
  ghost predicate CreditBalanced(c: Credit, s: Sale) {
    && c.valorPagado + c.valorPendiente == c.valorTotal
    && c.valorTotal == s.valorTotal
    && (c.estado == Pagado ==> c.valorPendiente == 0)
  }

  /** Sales and their credits refer to each other one to one, and every credit balances. */
  ghost predicate SalesAndCredits(sales: map<SaleId, Sale>, credits: map<CreditId, Credit>) {
    && (forall k :: k in sales && sales[k].credit.Some? ==>
          sales[k].credit.value in credits && credits[sales[k].credit.value].sale == k)
    && (forall c :: c in credits ==>
          && credits[c].sale in sales && sales[credits[c].sale].credit == Some(c)
          && CreditBalanced(credits[c], sales[credits[c].sale]))
  }

  /** Every identifier in use is below `nextId`. */
  ghost predicate IdsFresh(t: Tables) {
    && (forall k :: k in t.lots ==> k < t.nextId)
    && (forall k :: k in t.purchases ==> k < t.nextId)
    && (forall k :: k in t.clients ==> k < t.nextId)
    && (forall k :: k in t.sales ==> k < t.nextId)
    && (forall k :: k in t.credits ==> k < t.nextId)
  }

  /** Every reference between rows points at an existing row; every credit balances. */
  ghost predicate Linked(t: Tables) {
    && t.capital.Keys == t.lots.Keys
    && (forall k :: k in t.purchases ==> t.purchases[k].lot in t.lots)
    && (forall m :: m in t.movements ==> m.lot in t.lots)
    && (forall k :: k in t.sales ==> t.sales[k].lot in t.lots && t.sales[k].client in t.clients)
    && SalesAndCredits(t.sales, t.credits)
    && (forall p :: p in t.payments ==> p.credit in t.credits)
  }

  ghost predicate Consistent(t: Tables) {
    IdsFresh(t) && Linked(t)
  }

  // ---------------------------------------------------------------------------
  // Each handler's update keeps the invariant. Every lemma takes the tables
  // before (`t`) and after (`t2`) the update.

  lemma LotAdded(t: Tables, lot: Lot, cap: Capital, t2: Tables)
    requires Consistent(t)
    requires t2 == t.(nextId := t.nextId + 1, lots := t.lots[t.nextId := lot], capital := t.capital[t.nextId := cap])
    ensures Consistent(t2)
  {
  }

  lemma LotChanged(t: Tables, id: LotId, lot: Lot, t2: Tables)
    requires Consistent(t) && id in t.lots
    requires t2 == t.(lots := t.lots[id := lot])
    ensures Consistent(t2)
  {
  }

  lemma LotRemoved(t: Tables, id: LotId, t2: Tables)
    requires Consistent(t)
    requires forall k :: k in t.purchases ==> t.purchases[k].lot != id
    requires forall i :: 0 <= i < |t.movements| ==> t.movements[i].lot != id
    requires forall k :: k in t.sales ==> t.sales[k].lot != id
    requires t2 == t.(lots := t.lots - {id}, capital := t.capital - {id})
    ensures Consistent(t2)
  {
  }

  lemma ClientAdded(t: Tables, t2: Tables)
    requires Consistent(t)
    requires t2 == t.(nextId := t.nextId + 1, clients := t.clients + {t.nextId})
    ensures Consistent(t2)
  {
  }

  lemma ClientRemoved(t: Tables, id: ClientId, t2: Tables)
    requires Consistent(t)
    requires forall k :: k in t.sales ==> t.sales[k].client != id
    requires t2 == t.(clients := t.clients - {id})
    ensures Consistent(t2)
  {
  }

  lemma PurchaseAdded(t: Tables, p: Purchase, t2: Tables)
    requires Consistent(t) && p.lot in t.lots
    requires t2 == t.(nextId := t.nextId + 1, purchases := t.purchases[t.nextId := p],
                      movements := t.movements + [Movement(p.lot, Compra, p.costoTotal, p.fecha)],
                      capital := AddToCapital(t.capital, p.lot, -p.costoTotal))
    ensures Consistent(t2)
  {
  }

  lemma PurchaseRemoved(t: Tables, id: PurchaseId, t2: Tables)
    requires Consistent(t) && id in t.purchases
    requires var p := t.purchases[id];
      t2 == t.(capital := AddToCapital(t.capital, p.lot, p.costoTotal),
               movements := RemoveFirst(t.movements, Movement(p.lot, Compra, p.costoTotal, p.fecha)),
               purchases := t.purchases - {id})
    ensures Consistent(t2)
  {
  }

  lemma MovementAdded(t: Tables, m: Movement, delta: Cents, t2: Tables)
    requires Consistent(t) && m.lot in t.lots
    requires t2 == t.(movements := t.movements + [m], capital := AddToCapital(t.capital, m.lot, delta))
    ensures Consistent(t2)
  {
  }

  lemma CreditSaleAdded(t: Tables, s: Sale, cr: Credit, t2: Tables)
    requires Consistent(t) && s.lot in t.lots && s.client in t.clients
    requires s.credit == Some(t.nextId + 1) && cr.sale == t.nextId && CreditBalanced(cr, s)
    requires t2 == t.(nextId := t.nextId + 2, sales := t.sales[t.nextId := s], credits := t.credits[t.nextId + 1 := cr])
    ensures Consistent(t2)
  {
    CreditPairAdded(t.sales, t.credits, t.nextId, s, t.nextId + 1, cr);
  }

  lemma CreditPairAdded(sales: map<SaleId, Sale>, credits: map<CreditId, Credit>,
                        id: SaleId, s: Sale, c: CreditId, cr: Credit)
    requires SalesAndCredits(sales, credits)
    requires id !in sales && c !in credits
    requires s.credit == Some(c) && cr.sale == id && CreditBalanced(cr, s)
    ensures SalesAndCredits(sales[id := s], credits[c := cr])
  {
  }

  lemma CashSaleAdded(t: Tables, s: Sale, t2: Tables)
    requires Consistent(t) && s.lot in t.lots && s.client in t.clients && s.credit.None?
    requires t2 == t.(nextId := t.nextId + 1, sales := t.sales[t.nextId := s])
    ensures Consistent(t2)
  {
  }

  lemma CreditSaleDeleted(t: Tables, id: SaleId, t2: Tables)
    requires Consistent(t) && id in t.sales && t.sales[id].credit.Some?
    requires var s := t.sales[id];
      var c := s.credit.value;
      t2 == t.(capital := AddToCapital(t.capital, s.lot, -t.credits[c].valorPagado),
               payments := WithoutPayments(t.payments, c),
               credits := t.credits - {c},
               sales := t.sales - {id})
    ensures Consistent(t2)
  {
    PairRemoved(t.sales, t.credits, id);
  }

  lemma CashSaleDeleted(t: Tables, id: SaleId, t2: Tables)
    requires Consistent(t) && id in t.sales && t.sales[id].credit.None?
    requires t2 == t.(capital := AddToCapital(t.capital, t.sales[id].lot, -t.sales[id].valorTotal),
                      sales := t.sales - {id})
    ensures Consistent(t2)
  {
    PairRemoved(t.sales, t.credits, id);
  }

  lemma PaymentApplied(t: Tables, id: CreditId, cr: Credit, p: Payment, t2: Tables)
    requires Consistent(t) && id in t.credits
    requires cr.sale == t.credits[id].sale && CreditBalanced(cr, t.sales[cr.sale])
    requires p.credit == id
    requires var lot := t.sales[cr.sale].lot;
      t2 == t.(payments := t.payments + [p], credits := t.credits[id := cr],
               movements := t.movements + [Movement(lot, Ingreso, p.valor, p.fecha)],
               capital := AddToCapital(t.capital, lot, p.valor))
    ensures Consistent(t2)
  {
    CreditRowChanged(t.sales, t.credits, id, cr);
  }

  lemma PairRemoved(sales: map<SaleId, Sale>, credits: map<CreditId, Credit>, id: SaleId)
    requires SalesAndCredits(sales, credits) && id in sales
    ensures SalesAndCredits(sales - {id},
      if sales[id].credit.Some? then credits - {sales[id].credit.value} else credits)
  {
  }

  lemma CreditRowChanged(sales: map<SaleId, Sale>, credits: map<CreditId, Credit>, c: CreditId, cr: Credit)
    requires SalesAndCredits(sales, credits)
    requires c in credits && cr.sale == credits[c].sale && CreditBalanced(cr, sales[cr.sale])
    ensures SalesAndCredits(sales, credits[c := cr])
  {
  }

  // ---------------------------------------------------------------------------
  // Deleting what was just recorded undoes it. Each lemma composes the effects
  // that the ledger's two handlers state in their contracts.

  /** A purchase followed by its deletion: capital and purchases as before, the same movement rows. */
  lemma PurchaseUndone(cap: map<LotId, Capital>, ms: seq<Movement>, purchases: map<PurchaseId, Purchase>,
                       id: PurchaseId, p: Purchase)
    requires id !in purchases
    ensures var m := Movement(p.lot, Compra, p.costoTotal, p.fecha);
      && AddToCapital(AddToCapital(cap, p.lot, -p.costoTotal), p.lot, p.costoTotal) == cap
      && multiset(RemoveFirst(ms + [m], m)) == multiset(ms)
      && purchases[id := p] - {id} == purchases
  {
    var m := Movement(p.lot, Compra, p.costoTotal, p.fecha);
    AddToCapitalUndo(cap, p.lot, -p.costoTotal);
    assert m in ms + [m];
    assert multiset(ms + [m]) == multiset(ms) + multiset{m};
    assert purchases[id := p] - {id} == purchases;
  }

  /** Capital after a run of accepted payments, each credited to the lot in turn. */
  function CreditedPayments(cap: map<LotId, Capital>, lot: LotId, pagos: seq<Cents>): map<LotId, Capital>
    decreases |pagos|
  {
    if pagos == [] then cap
    else AddToCapital(CreditedPayments(cap, lot, pagos[..|pagos| - 1]), lot, pagos[|pagos| - 1])
  }

  function Sum(xs: seq<int>): int
    decreases |xs|
  {
    if xs == [] then 0 else Sum(xs[..|xs| - 1]) + xs[|xs| - 1]
  }

  /** A run of payments adds up to one credit of their sum. */
  lemma {:induction false} CreditedPaymentsSum(cap: map<LotId, Capital>, lot: LotId, pagos: seq<Cents>)
    ensures CreditedPayments(cap, lot, pagos) == AddToCapital(cap, lot, Sum(pagos))
    decreases |pagos|
  {
    if pagos == [] {
      assert AddToCapital(cap, lot, 0) == cap;
    } else {
      var init := pagos[..|pagos| - 1];
      CreditedPaymentsSum(cap, lot, init);
      AddToCapitalTwice(cap, lot, Sum(init), pagos[|pagos| - 1]);
    }
  }

  /**
   * A credit sale with a non-negative initial payment, any run of accepted
   * payments, then its deletion, which takes out what was paid in total:
   * capital is as before.
   */
  lemma CreditSaleUndone(cap: map<LotId, Capital>, lot: LotId, pagadoInicial: Cents, pagos: seq<Cents>)
    requires pagadoInicial >= 0
    ensures var vendido := AddToCapital(cap, lot, if pagadoInicial > 0 then pagadoInicial else 0);
      AddToCapital(CreditedPayments(vendido, lot, pagos), lot, -(pagadoInicial + Sum(pagos))) == cap
  {
    var vendido := AddToCapital(cap, lot, pagadoInicial);
    CreditedPaymentsSum(vendido, lot, pagos);
    AddToCapitalTwice(cap, lot, pagadoInicial, Sum(pagos));
    AddToCapitalUndo(cap, lot, pagadoInicial + Sum(pagos));
  }

  /** Deleting a credit takes exactly its own payments out of the payment log. */
  lemma CreditPaymentsUndone(ps: seq<Payment>, qs: seq<Payment>, c: CreditId)
    requires forall i :: 0 <= i < |ps| ==> ps[i].credit != c
    requires forall i :: 0 <= i < |qs| ==> qs[i].credit == c
    ensures WithoutPayments(ps + qs, c) == ps
  {
    WithoutPaymentsAppend(ps, qs, c);
    WithoutPaymentsNone(ps, c);
    WithoutPaymentsOnly(qs, c);
    assert ps + [] == ps;
  }

  /** A cash sale followed by its deletion: capital and sales as before. */
  lemma CashSaleUndone(cap: map<LotId, Capital>, sales: map<SaleId, Sale>, id: SaleId, s: Sale)
    requires id !in sales
    ensures AddToCapital(AddToCapital(cap, s.lot, s.valorTotal), s.lot, -s.valorTotal) == cap
    ensures sales[id := s] - {id} == sales
  {
    AddToCapitalUndo(cap, s.lot, s.valorTotal);
    assert sales[id := s] - {id} == sales;
  }
}
