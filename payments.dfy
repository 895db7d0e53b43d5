/**
 * The transaction-table updates of the payment flow: the rows an order fans
 * out to, the outcome the gateway's callback writes to them, and the courses
 * a paid order adds to its buyers' profiles.
 */
module Payments {
  import opened Wrappers
  import opened Models

  /** Row k of an order fanned out from base: the (k - base)-th course, with the status and order id it ends with. */
  function FanoutRow(user: UserId, courses: map<CourseId, Course>, ids: seq<CourseId>, base: TxnId, k: TxnId,
                     status: Status, orderId: string): Transaction
    requires base <= k < base + |ids| && ids[k - base] in courses
  {
    var id := ids[k - base];
    NewTransaction(user, id, courses[id].priceInPaise).(status := status, orderId := orderId)
  }

  /** The rows created for the first m courses of an order, keyed from base on. */
  function Fanout(user: UserId, courses: map<CourseId, Course>, ids: seq<CourseId>, base: TxnId, m: nat,
                  status: Status, orderId: string): (rows: map<TxnId, Transaction>)
    requires m <= |ids|
    requires forall id :: id in ids ==> id in courses
    ensures forall k :: k in rows <==> base <= k < base + m
  {
    if m == 0 then map[]
    else Fanout(user, courses, ids, base, m - 1, status, orderId)[base + m - 1 := FanoutRow(user, courses, ids, base, base + m - 1, status, orderId)]
  }

  /** Each row of the fan-out is the row built for its key. */
  lemma {:induction false} FanoutAt(user: UserId, courses: map<CourseId, Course>, ids: seq<CourseId>, base: TxnId, m: nat,
                                     status: Status, orderId: string, k: TxnId)
    requires m <= |ids|
    requires forall id :: id in ids ==> id in courses
    requires base <= k < base + m
    ensures Fanout(user, courses, ids, base, m, status, orderId)[k] == FanoutRow(user, courses, ids, base, k, status, orderId)
  {
    if k < base + m - 1 {
      FanoutAt(user, courses, ids, base, m - 1, status, orderId, k);
    }
  }

  /**
   * The whole fan-out: one row per listed course, in list order from base on,
   * each with the user, that course, its price, the given status and order id,
   * and blank payment id and signature.
   */
  lemma FanoutRows(user: UserId, courses: map<CourseId, Course>, ids: seq<CourseId>, base: TxnId,
                   status: Status, orderId: string)
    requires forall id :: id in ids ==> id in courses
    ensures var rows := Fanout(user, courses, ids, base, |ids|, status, orderId);
      forall j :: 0 <= j < |ids| ==>
        base + j in rows
        && rows[base + j] == Transaction(user, ids[j], courses[ids[j]].priceInPaise, status, orderId, "", "")
  {
    forall j | 0 <= j < |ids|
      ensures Fanout(user, courses, ids, base, |ids|, status, orderId)[base + j]
           == Transaction(user, ids[j], courses[ids[j]].priceInPaise, status, orderId, "", "")
    {
      FanoutAt(user, courses, ids, base, |ids|, status, orderId, base + j);
    }
  }

  /** One more row of the fan-out. */
  lemma FanoutStep(user: UserId, courses: map<CourseId, Course>, ids: seq<CourseId>, base: TxnId, m: nat,
                   status: Status, orderId: string)
    requires m < |ids|
    requires forall id :: id in ids ==> id in courses
    ensures Fanout(user, courses, ids, base, m + 1, status, orderId)
         == Fanout(user, courses, ids, base, m, status, orderId)[base + m := FanoutRow(user, courses, ids, base, base + m, status, orderId)]
  {
  }

  /** Writing the next fanned-out row over a table extends the fan-out by one. */
  lemma FanoutExtend(table: map<TxnId, Transaction>, user: UserId, courses: map<CourseId, Course>, ids: seq<CourseId>,
                     base: TxnId, m: nat, status: Status, orderId: string)
    requires m < |ids|
    requires forall id :: id in ids ==> id in courses
    ensures (table + Fanout(user, courses, ids, base, m, status, orderId))[base + m := FanoutRow(user, courses, ids, base, base + m, status, orderId)]
         == table + Fanout(user, courses, ids, base, m + 1, status, orderId)
  {
    FanoutStep(user, courses, ids, base, m, status, orderId);
  }

  /** Entries overridden by a later map with at least the same keys leave no trace. */
  lemma OverrideShadowed<K, V>(a: map<K, V>, b: map<K, V>, c: map<K, V>)
    requires b.Keys <= c.Keys
    ensures a + b + c == a + c
  {
  }

  /** The parameters the gateway posts back to the callback. */
  datatype CallbackRequest = CallbackRequest(
    httpMethod: string,
    paymentId: Option<string>,
    orderId: Option<string>,
    signature: Option<string>)

  datatype CallbackParams = CallbackParams(paymentId: string, orderId: string, signature: string)

  /** The two bad-request answers of the callback. */
  datatype CallbackError = InvalidMethod | MissingParameters

  /** A parameter that was sent and is not empty. */
  predicate Present(v: Option<string>) {
    v.Some? && v.value != ""
  }

  /** Accepts only a POST carrying a non-empty payment id, order id and signature. */
  function ValidateCallback(req: CallbackRequest): (r: Result<CallbackParams, CallbackError>)
    ensures r.Success? <==>
      req.httpMethod == "POST" && Present(req.paymentId) && Present(req.orderId) && Present(req.signature)
    ensures r == Failure(InvalidMethod) <==> req.httpMethod != "POST"
    ensures r.Success? ==>
      r.value.paymentId == req.paymentId.value && r.value.orderId == req.orderId.value
      && r.value.signature == req.signature.value
    ensures r.Success? ==> r.value.paymentId != "" && r.value.orderId != "" && r.value.signature != ""
  {
    if req.httpMethod != "POST" then Failure(InvalidMethod)
    else if !(Present(req.paymentId) && Present(req.orderId) && Present(req.signature)) then Failure(MissingParameters)
    else Success(CallbackParams(req.paymentId.value, req.orderId.value, req.signature.value))
  }

  /** Writes the outcome of a callback to every row of its order: status, payment id and signature. */
  function Settle(txns: map<TxnId, Transaction>, p: CallbackParams, status: Status): map<TxnId, Transaction> {
    map k | k in txns ::
      if txns[k].orderId == p.orderId
      then txns[k].(status := status, paymentId := p.paymentId, signature := p.signature)
      else txns[k]
  }

  /** The courses of an order's rows that belong to one user. */
  function PurchasedBy(txns: map<TxnId, Transaction>, orderId: string, user: UserId): set<CourseId> {
    set k | k in txns && txns[k].orderId == orderId && txns[k].user == user :: txns[k].course
  }

  /** Every profile after the courses of an order's rows are added to their buyers. */
  function Grant(profiles: map<UserId, set<CourseId>>, txns: map<TxnId, Transaction>, orderId: string)
    : map<UserId, set<CourseId>>
  {
    map u | u in profiles :: profiles[u] + PurchasedBy(txns, orderId, u)
  }

  /**
   * Settling touches exactly the rows of the order: they get the status and the
   * gateway ids and keep user, course, amount and order id; other rows are unchanged.
   */
  lemma SettleTouchesOnlyTheOrder(txns: map<TxnId, Transaction>, p: CallbackParams, status: Status)
    ensures Settle(txns, p, status).Keys == txns.Keys
    ensures forall k :: k in txns && txns[k].orderId != p.orderId ==> Settle(txns, p, status)[k] == txns[k]
    ensures forall k :: k in txns && txns[k].orderId == p.orderId ==>
      var t := Settle(txns, p, status)[k];
      t.status == status && t.paymentId == p.paymentId && t.signature == p.signature
      && t.user == txns[k].user && t.course == txns[k].course
      && t.amountInPaise == txns[k].amountInPaise && t.orderId == txns[k].orderId
  {
  }

  /** A row whose order id is blank is never touched by an accepted callback. */
  lemma BlankOrderRowsAreNeverSettled(txns: map<TxnId, Transaction>, req: CallbackRequest, status: Status)
    requires ValidateCallback(req).Success?
    ensures forall k :: k in txns && txns[k].orderId == "" ==>
      Settle(txns, ValidateCallback(req).value, status)[k] == txns[k]
  {
  }

  /**
   * Granting adds, to each existing profile, exactly the courses of the order's
   * rows that belong to its user: nothing is taken away and nothing else is added.
   */
  lemma GrantAddsExactlyTheOrder(profiles: map<UserId, set<CourseId>>, txns: map<TxnId, Transaction>, orderId: string)
    ensures Grant(profiles, txns, orderId).Keys == profiles.Keys
    ensures forall u :: u in profiles ==> profiles[u] <= Grant(profiles, txns, orderId)[u]
    ensures forall k :: k in txns && txns[k].orderId == orderId && txns[k].user in profiles ==>
      txns[k].course in Grant(profiles, txns, orderId)[txns[k].user]
    ensures forall u, c :: u in profiles && c in Grant(profiles, txns, orderId)[u] && c !in profiles[u] ==>
      exists k :: k in txns && txns[k].orderId == orderId && txns[k].user == u && txns[k].course == c
  {
  }

  /** Settling keeps every row's user, course and order id, so it keeps what each user bought in the order. */
  lemma SettleKeepsPurchases(txns: map<TxnId, Transaction>, p: CallbackParams, status: Status, u: UserId)
    ensures PurchasedBy(Settle(txns, p, status), p.orderId, u) == PurchasedBy(txns, p.orderId, u)
  {
    var settled := Settle(txns, p, status);
    forall c | c in PurchasedBy(txns, p.orderId, u) ensures c in PurchasedBy(settled, p.orderId, u) {
      var k :| k in txns && txns[k].orderId == p.orderId && txns[k].user == u && txns[k].course == c;
      assert settled[k].course == c;
    }
  }

  /**
   * Replaying a successful callback changes nothing: the rows are already paid
   * with the same ids, and the profiles already hold the courses.
   */
  lemma {:induction false} ReplayedPaymentChangesNothing(
    profiles: map<UserId, set<CourseId>>, txns: map<TxnId, Transaction>, p: CallbackParams)
    ensures Settle(Settle(txns, p, Paid), p, Paid) == Settle(txns, p, Paid)
    ensures Grant(Grant(profiles, txns, p.orderId), Settle(txns, p, Paid), p.orderId)
         == Grant(profiles, txns, p.orderId)
  {
    var once := Grant(profiles, txns, p.orderId);
    forall u | u in once
      ensures once[u] + PurchasedBy(Settle(txns, p, Paid), p.orderId, u) == once[u]
    {
      SettleKeepsPurchases(txns, p, Paid, u);
    }
  }
}
