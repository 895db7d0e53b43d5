/**
 * The views of the purchases app, over the course, transaction and profile
 * tables and the visitor's session. The payment gateway is an oracle: its
 * order creation is a `GatewayOrder` argument and its signature check a
 * boolean argument.
 */
module Views {
  import opened Wrappers
  import opened Models
  import opened Sequences
  import opened Cart
  import opened Queries
  import opened Payments

  /** The visitor's session; only the 'cart' key is kept. */
  class Session {
    var cart: SessionCart

    constructor ()
      ensures cart == Absent
    {
      cart := Absent;
    }
  }

  /** What the gateway answers to an order request: an error, or the id of the new order. */
  datatype GatewayOrder = GatewayError | GatewayOrderId(id: string)

  /** One entry of the course list page. */
  datatype ListItem = ListItem(id: CourseId, title: string, description: string, purchased: bool, inCart: bool)

  datatype AddResponse = AddNotFound | AddAlreadyOwned | AddedToCart(courseId: CourseId, cartCount: nat)

  datatype OrderResponse =
    | OrderNotFound
    | OrderAlreadyOwned
    | OrderFailed
    | OrderCheckout(txnId: TxnId, orderId: string, amountInPaise: nat)

  datatype CheckoutResponse =
    | CheckoutEmptyCart
    | CheckoutNothingEligible
    | CheckoutFailed
    | CheckoutPage(orderId: string, amountInPaise: nat)

  datatype CallbackResponse =
    | CallbackBadRequest(error: CallbackError)
    | CallbackFailed
    | CallbackSucceeded(course: Option<CourseId>)

  /** remove_from_cart: drops the first occurrence of the id and reports the cart's length. */
  method RemoveFromCart(courseId: CourseId, session: Session) returns (cartCount: nat)
    modifies session
    ensures var cart := GetCart(old(session.cart));
      if courseId in cart then session.cart == SaveCart(RemoveFirst(cart, courseId))
      else session.cart == old(session.cart)
    ensures cartCount == |GetCart(session.cart)|
  {
    var cart := GetCart(session.cart);
    if courseId in cart {
      cart := RemoveFirst(cart, courseId);
      session.cart := SaveCart(cart);
    }
    cartCount := |cart|;
  }

  /** The database: the course, transaction and profile tables. */
  class Shop {
    var courses: map<CourseId, Course>
    var nextCourseId: nat
    var txns: map<TxnId, Transaction>
    var nextTxnId: nat
    /** Each user's one profile: the set of courses bought. */
    var profiles: map<UserId, set<CourseId>>

    ghost predicate Valid()
      reads this
    {
      (forall id :: id in courses ==> id < nextCourseId)
      && (forall k :: k in txns ==> k < nextTxnId)
      && (forall k :: k in txns ==> txns[k].user in profiles && txns[k].course in courses)
      && (forall u :: u in profiles ==> profiles[u] <= courses.Keys)
    }

    /** Empty tables and an empty profile for each user. */
    constructor (users: set<UserId>)
      ensures Valid()
      ensures courses == map[] && nextCourseId == 0 && txns == map[] && nextTxnId == 0
      ensures profiles == map u | u in users :: {}
    {
      courses, nextCourseId, txns, nextTxnId := map[], 0, map[], 0;
      profiles := map u | u in users :: {};
    }

    /** `get_object_or_404(Course, pk=courseId, is_active=True)` succeeds. */
    predicate Purchasable(courseId: CourseId)
      reads this
    {
      courseId in courses && courses[courseId].isActive
    }

    /** The courses a user owns; a user without a profile owns none. */
    function Owned(user: UserId): set<CourseId>
      reads this
    {
      if user in profiles then profiles[user] else {}
    }

    /**
     * course_list: every active course in id order, flagged as purchased by the
     * viewer and as in the cart, and the number of distinct ids in the cart.
     */
    method CourseList(viewer: Option<UserId>, session: Session) returns (items: seq<ListItem>, cartCount: nat)
      requires Valid()
      ensures var ids := ActiveIds(courses, nextCourseId);
        |items| == |ids| && forall i :: 0 <= i < |items| ==> items[i].id == ids[i]
      ensures forall id :: (exists i :: 0 <= i < |items| && items[i].id == id) <==> id in courses && courses[id].isActive
      ensures forall i :: 0 <= i < |items| ==>
        var id := items[i].id;
        id in courses && items[i].title == courses[id].title && items[i].description == courses[id].description
        && (items[i].purchased <==> viewer.Some? && id in Owned(viewer.value))
        && (items[i].inCart <==> id in GetCart(session.cart))
      ensures cartCount == |set id: CourseId | id in GetCart(session.cart)|
      ensures NoDuplicates(GetCart(session.cart)) ==> cartCount == |GetCart(session.cart)|
    {
      var ids := ActiveIds(courses, nextCourseId);
      var purchased := if viewer.Some? then Owned(viewer.value) else {};
      var cartSet := set id: CourseId | id in GetCart(session.cart);
      items := [];
      for i := 0 to |ids|
        invariant |items| == i
        invariant forall j :: 0 <= j < i ==>
          items[j] == ListItem(ids[j], courses[ids[j]].title, courses[ids[j]].description,
                               ids[j] in purchased, ids[j] in cartSet)
      {
        var c := courses[ids[i]];
        items := items + [ListItem(ids[i], c.title, c.description, ids[i] in purchased, ids[i] in cartSet)];
      }
      forall id | id in courses && courses[id].isActive
        ensures exists i :: 0 <= i < |items| && items[i].id == id
      {
        var i :| 0 <= i < |ids| && ids[i] == id;
        assert items[i].id == id;
      }
      cartCount := |cartSet|;
      if NoDuplicates(GetCart(session.cart)) {
        DistinctCardinality<CourseId>(GetCart(session.cart));
      }
    }

    /**
     * add_to_cart: a missing or inactive course is a 404 and an owned course is
     * refused; otherwise the id is appended unless already there, and the
     * response carries the cart's length.
     */
    method AddToCart(user: UserId, courseId: CourseId, session: Session) returns (r: AddResponse)
      modifies session
      ensures !Purchasable(courseId) ==> r == AddNotFound && session.cart == old(session.cart)
      ensures Purchasable(courseId) && courseId in Owned(user) ==>
        r == AddAlreadyOwned && session.cart == old(session.cart)
      ensures Purchasable(courseId) && courseId !in Owned(user) ==>
        var cart := GetCart(old(session.cart));
        (if courseId in cart then session.cart == old(session.cart) else session.cart == SaveCart(AddId(cart, courseId)))
        && r == AddedToCart(courseId, |AddId(cart, courseId)|)
    {
      if !Purchasable(courseId) {
        return AddNotFound;
      }
      if courseId in Owned(user) {
        return AddAlreadyOwned;
      }
      var cart := GetCart(session.cart);
      if courseId !in cart {
        cart := cart + [courseId];
        session.cart := SaveCart(cart);
      }
      r := AddedToCart(courseId, |cart|);
    }

    /**
     * cart_view: the active cart courses the user does not own, in id order,
     * and the sum of their prices, each distinct course counted once.
     */
    method CartView(user: UserId, session: Session) returns (items: seq<CourseId>, totalPaise: nat)
      requires Valid()
      ensures items == EligibleIds(courses, GetCart(session.cart), Owned(user), nextCourseId)
      ensures totalPaise == SetPriceSum(courses, EligibleSet(courses, GetCart(session.cart), Owned(user)))
    {
      var cart := GetCart(session.cart);
      var owned := Owned(user);
      var found := EligibleIds(courses, cart, {}, nextCourseId);
      items, totalPaise := [], 0;
      for i := 0 to |found|
        invariant items == Unowned(found[..i], owned)
        invariant forall id :: id in items ==> id in courses
        invariant totalPaise == SeqPriceSum(courses, items)
      {
        assert found[..i + 1][..i] == found[..i];
        var id := found[i];
        assert id in found;
        if id in owned {
          continue;
        }
        var before := items;
        items := items + [id];
        assert items[..|items| - 1] == before;
        totalPaise := totalPaise + courses[id].priceInPaise;
      }
      assert found[..|found|] == found;
      CartTotal(courses, cart, owned, nextCourseId);
    }

    /**
     * create_order: a missing or inactive course is a 404 and an owned course
     * creates nothing; otherwise one row is created for the course's price and
     * ends failed with a blank order id if the gateway fails, or created with
     * the gateway's order id.
     */
    method CreateOrder(user: UserId, courseId: CourseId, gateway: GatewayOrder) returns (r: OrderResponse)
      requires Valid() && user in profiles
      modifies this
      ensures Valid()
      ensures courses == old(courses) && nextCourseId == old(nextCourseId) && profiles == old(profiles)
      ensures !Purchasable(courseId) ==> r == OrderNotFound && txns == old(txns) && nextTxnId == old(nextTxnId)
      ensures Purchasable(courseId) && courseId in Owned(user) ==>
        r == OrderAlreadyOwned && txns == old(txns) && nextTxnId == old(nextTxnId)
      ensures Purchasable(courseId) && courseId !in Owned(user) ==>
        var k, price := old(nextTxnId), courses[courseId].priceInPaise;
        var row := NewTransaction(user, courseId, price);
        k !in old(txns) && nextTxnId == k + 1
        && match gateway
           case GatewayError =>
             r == OrderFailed && txns == old(txns)[k := row.(status := Failed)]
           case GatewayOrderId(orderId) =>
             r == OrderCheckout(k, orderId, price) && txns == old(txns)[k := row.(orderId := orderId)]
    {
      if !Purchasable(courseId) {
        return OrderNotFound;
      }
      if courseId in Owned(user) {
        return OrderAlreadyOwned;
      }
      var price := courses[courseId].priceInPaise;
      var k := nextTxnId;
      txns := txns[k := NewTransaction(user, courseId, price)];
      nextTxnId := nextTxnId + 1;
      match gateway
      case GatewayError =>
        txns := txns[k := txns[k].(status := Failed)];
        r := OrderFailed;
      case GatewayOrderId(orderId) =>
        txns := txns[k := txns[k].(orderId := orderId)];
        r := OrderCheckout(k, orderId, price);
    }

    /**
     * cart_checkout: an empty cart, or one without an eligible course, creates
     * nothing. Otherwise one row per eligible course is created with that
     * course's price; if the gateway fails every new row ends failed with a
     * blank order id, else every new row carries the one order id and the order
     * amount is the sum of the prices. Earlier rows are untouched.
     */
    method CartCheckout(user: UserId, session: Session, gateway: GatewayOrder) returns (r: CheckoutResponse)
      requires Valid() && user in profiles
      modifies this
      ensures Valid()
      ensures courses == old(courses) && nextCourseId == old(nextCourseId) && profiles == old(profiles)
      ensures forall k :: k in old(txns) ==> k in txns && txns[k] == old(txns)[k]
      ensures var cart := GetCart(session.cart);
        var ids := EligibleIds(courses, cart, Owned(user), nextCourseId);
        var base := old(nextTxnId);
        if cart == [] then
          r == CheckoutEmptyCart && txns == old(txns) && nextTxnId == base
        else if ids == [] then
          r == CheckoutNothingEligible && txns == old(txns) && nextTxnId == base
        else
          nextTxnId == base + |ids|
          && match gateway
             case GatewayError =>
               r == CheckoutFailed && txns == old(txns) + Fanout(user, courses, ids, base, |ids|, Failed, "")
             case GatewayOrderId(orderId) =>
               r == CheckoutPage(orderId, SeqPriceSum(courses, ids))
               && txns == old(txns) + Fanout(user, courses, ids, base, |ids|, Created, orderId)
      ensures r.CheckoutPage? ==>
        r.amountInPaise == SetPriceSum(courses, EligibleSet(courses, GetCart(session.cart), Owned(user)))
    {
      var cart := GetCart(session.cart);
      if cart == [] {
        return CheckoutEmptyCart;
      }
      var owned := Owned(user);
      var ids := EligibleIds(courses, cart, owned, nextCourseId);
      if ids == [] {
        return CheckoutNothingEligible;
      }
      r := PlaceOrder(user, ids, gateway);
      EligibleIdsListEligibleSet(courses, cart, owned, nextCourseId);
      SeqSumIsSetSum(courses, ids);
    }

    /**
     * The part of cart_checkout after the eligible courses are known: one
     * created row per course, then the gateway order; a gateway error marks
     * the rows failed, an order id is recorded on every row.
     */
    method PlaceOrder(user: UserId, ids: seq<CourseId>, gateway: GatewayOrder) returns (r: CheckoutResponse)
      requires Valid() && user in profiles
      requires forall id :: id in ids ==> id in courses
      modifies this
      ensures Valid()
      ensures courses == old(courses) && nextCourseId == old(nextCourseId) && profiles == old(profiles)
      ensures nextTxnId == old(nextTxnId) + |ids|
      ensures match gateway
        case GatewayError =>
          r == CheckoutFailed && txns == old(txns) + Fanout(user, courses, ids, old(nextTxnId), |ids|, Failed, "")
        case GatewayOrderId(orderId) =>
          r == CheckoutPage(orderId, SeqPriceSum(courses, ids))
          && txns == old(txns) + Fanout(user, courses, ids, old(nextTxnId), |ids|, Created, orderId)
    {
      var total := SeqPriceSum(courses, ids);
      var base := nextTxnId;
      CreateRows(user, ids);
      ghost var status, orderId := Created, "";
      match gateway {
        case GatewayError =>
          status := Failed;
          MarkRowsFailed(old(txns), user, ids, base);
          r := CheckoutFailed;
        case GatewayOrderId(id) =>
          orderId := id;
          StampOrderId(old(txns), user, ids, base, id);
          r := CheckoutPage(id, total);
      }
      NewRowsKeepValid(this, old(txns), base, user, ids, status, orderId);
    }

    /** Creates one row per listed course, in list order, with fresh ids from the counter on. */
    method CreateRows(user: UserId, ids: seq<CourseId>)
      requires forall id :: id in ids ==> id in courses
      modifies this
      ensures courses == old(courses) && nextCourseId == old(nextCourseId) && profiles == old(profiles)
      ensures nextTxnId == old(nextTxnId) + |ids|
      ensures txns == old(txns) + Fanout(user, courses, ids, old(nextTxnId), |ids|, Created, "")
    {
      var table, base := txns, nextTxnId;
      for i := 0 to |ids|
        invariant table == old(txns) + Fanout(user, courses, ids, base, i, Created, "")
        modifies {}
      {
        assert ids[i] in ids;
        FanoutStep(user, courses, ids, base, i, Created, "");
        table := table[base + i := NewTransaction(user, ids[i], courses[ids[i]].priceInPaise)];
      }
      txns, nextTxnId := table, base + |ids|;
    }

    /** Marks the rows just created for an order failed, one by one. */
    method MarkRowsFailed(ghost before: map<TxnId, Transaction>, user: UserId, ids: seq<CourseId>, base: TxnId)
      requires forall id :: id in ids ==> id in courses
      requires txns == before + Fanout(user, courses, ids, base, |ids|, Created, "")
      modifies this
      ensures courses == old(courses) && nextCourseId == old(nextCourseId) && profiles == old(profiles)
      ensures nextTxnId == old(nextTxnId)
      ensures txns == before + Fanout(user, courses, ids, base, |ids|, Failed, "")
    {
      var table := txns;
      for i := 0 to |ids|
        invariant table == old(txns) + Fanout(user, courses, ids, base, i, Failed, "")
        modifies {}
      {
        FanoutAt(user, courses, ids, base, |ids|, Created, "", base + i);
        MarkFailedStep(old(txns), user, courses, ids, base, i);
        table := table[base + i := table[base + i].(status := Failed)];
      }
      txns := table;
      OverrideShadowed(before, Fanout(user, courses, ids, base, |ids|, Created, ""), Fanout(user, courses, ids, base, |ids|, Failed, ""));
    }

    /** Records the gateway's order id on the rows just created for an order, one by one. */
    method StampOrderId(ghost before: map<TxnId, Transaction>, user: UserId, ids: seq<CourseId>, base: TxnId, orderId: string)
      requires forall id :: id in ids ==> id in courses
      requires txns == before + Fanout(user, courses, ids, base, |ids|, Created, "")
      modifies this
      ensures courses == old(courses) && nextCourseId == old(nextCourseId) && profiles == old(profiles)
      ensures nextTxnId == old(nextTxnId)
      ensures txns == before + Fanout(user, courses, ids, base, |ids|, Created, orderId)
    {
      var table := txns;
      for i := 0 to |ids|
        invariant table == old(txns) + Fanout(user, courses, ids, base, i, Created, orderId)
        modifies {}
      {
        FanoutAt(user, courses, ids, base, |ids|, Created, "", base + i);
        StampOrderStep(old(txns), user, courses, ids, base, i, orderId);
        table := table[base + i := table[base + i].(orderId := orderId)];
      }
      txns := table;
      OverrideShadowed(before, Fanout(user, courses, ids, base, |ids|, Created, ""), Fanout(user, courses, ids, base, |ids|, Created, orderId));
    }

    /**
     * payment_callback: a request that is not a POST or lacks a parameter is
     * refused and changes nothing. A failed signature check marks every row of
     * the order failed. A valid one marks every row of the order paid, adds each
     * row's course to its user's profile and clears the session cart. Rows of
     * other orders are untouched either way.
     */
    method PaymentCallback(req: CallbackRequest, signatureValid: bool, session: Session) returns (r: CallbackResponse)
      requires Valid()
      modifies this, session
      ensures Valid()
      ensures courses == old(courses) && nextCourseId == old(nextCourseId) && nextTxnId == old(nextTxnId)
      ensures match ValidateCallback(req)
        case Failure(e) =>
          r == CallbackBadRequest(e) && txns == old(txns) && profiles == old(profiles)
          && session.cart == old(session.cart)
        case Success(p) =>
          if !signatureValid then
            r == CallbackFailed && txns == Settle(old(txns), p, Failed) && profiles == old(profiles)
            && session.cart == old(session.cart)
          else
            var rows := OrderRows(old(txns), p.orderId, nextTxnId);
            r == CallbackSucceeded(if |rows| == 1 then Some(old(txns)[rows[0]].course) else None)
            && txns == Settle(old(txns), p, Paid)
            && profiles == Grant(old(profiles), old(txns), p.orderId)
            && session.cart == Absent
    {
      var checked := ValidateCallback(req);
      if checked.Failure? {
        return CallbackBadRequest(checked.error);
      }
      var p := checked.value;
      if !signatureValid {
        txns := Settle(txns, p, Failed);
        return CallbackFailed;
      }
      ghost var before, owned := txns, profiles;
      var rows := OrderRows(txns, p.orderId, nextTxnId);
      OrderRowsListTheOrder(txns, p.orderId, nextTxnId);
      PayOrder(rows, p);
      PaidSoFarSettles(before, p, rows);
      GrantedSoFarGrants(owned, before, p.orderId, rows);
      SettledOrderIsValid(this, before, owned, p);
      session.cart := Absent;
      r := CallbackSucceeded(if |rows| == 1 then Some(txns[rows[0]].course) else None);
    }

    /**
     * The loop of the callback's success path: over the order's rows as loaded
     * before it starts, marks each one paid and adds its course to its user's
     * profile.
     */
    method PayOrder(rows: seq<TxnId>, p: CallbackParams)
      requires forall j :: 0 <= j < |rows| ==> rows[j] in txns && txns[rows[j]].user in profiles
      modifies this
      ensures txns == PaidSoFar(old(txns), p, rows, |rows|)
      ensures profiles == GrantedSoFar(old(profiles), old(txns), rows, |rows|)
      ensures courses == old(courses) && nextCourseId == old(nextCourseId) && nextTxnId == old(nextTxnId)
    {
      var loaded := txns;
      ghost var owned := profiles;
      for i := 0 to |rows|
        invariant courses == old(courses) && nextCourseId == old(nextCourseId) && nextTxnId == old(nextTxnId)
        invariant txns == PaidSoFar(loaded, p, rows, i)
        invariant profiles == GrantedSoFar(owned, loaded, rows, i)
      {
        var t := loaded[rows[i]];
        GrantedSoFarKeepsUsers(owned, loaded, rows, i, t.user);
        PayRow(rows[i], t, p);
      }
    }

    /** One pass of the callback's loop: the row is saved as paid and its course joins its user's profile. */
    method PayRow(k: TxnId, t: Transaction, p: CallbackParams)
      requires t.user in profiles
      modifies this
      ensures txns == old(txns)[k := t.(status := Paid, paymentId := p.paymentId, signature := p.signature)]
      ensures profiles == old(profiles)[t.user := old(profiles)[t.user] + {t.course}]
      ensures courses == old(courses) && nextCourseId == old(nextCourseId) && nextTxnId == old(nextTxnId)
    {
      txns := txns[k := t.(status := Paid, paymentId := p.paymentId, signature := p.signature)];
      profiles := profiles[t.user := profiles[t.user] + {t.course}];
    }
  }

  /** The table after the first i listed rows are marked paid, one after the other. */
  ghost function PaidSoFar(txns: map<TxnId, Transaction>, p: CallbackParams, rows: seq<TxnId>, i: nat)
    : map<TxnId, Transaction>
    requires i <= |rows|
    requires forall j :: 0 <= j < |rows| ==> rows[j] in txns
  {
    if i == 0 then txns
    else
      var k := rows[i - 1];
      PaidSoFar(txns, p, rows, i - 1)[k := txns[k].(status := Paid, paymentId := p.paymentId, signature := p.signature)]
  }

  /** The profiles after the courses of the first i listed rows are added to their users, one after the other. */
  ghost function GrantedSoFar(owned: map<UserId, set<CourseId>>, txns: map<TxnId, Transaction>, rows: seq<TxnId>, i: nat)
    : map<UserId, set<CourseId>>
    requires i <= |rows|
    requires forall j :: 0 <= j < |rows| ==> rows[j] in txns
  {
    if i == 0 then owned
    else
      var g := GrantedSoFar(owned, txns, rows, i - 1);
      var t := txns[rows[i - 1]];
      if t.user in g then g[t.user := g[t.user] + {t.course}] else g
  }

  /** Granting keeps the set of profiles. */
  lemma {:induction false} GrantedSoFarKeepsUsers(owned: map<UserId, set<CourseId>>, txns: map<TxnId, Transaction>,
                                                rows: seq<TxnId>, i: nat, u: UserId)
    requires i <= |rows|
    requires forall j :: 0 <= j < |rows| ==> rows[j] in txns
    ensures u in GrantedSoFar(owned, txns, rows, i) <==> u in owned
  {
    if i > 0 {
      GrantedSoFarKeepsUsers(owned, txns, rows, i - 1, u);
    }
  }

  /** Row k after the first i listed rows are marked paid: settled if listed among them, else as it was. */
  lemma {:induction false} PaidSoFarAt(txns: map<TxnId, Transaction>, p: CallbackParams, rows: seq<TxnId>, i: nat, k: TxnId)
    requires i <= |rows|
    requires forall j :: 0 <= j < |rows| ==> rows[j] in txns
    requires k in txns
    ensures k in PaidSoFar(txns, p, rows, i)
    ensures PaidSoFar(txns, p, rows, i)[k]
         == if k in rows[..i] then txns[k].(status := Paid, paymentId := p.paymentId, signature := p.signature)
            else txns[k]
  {
    if i > 0 {
      PaidSoFarAt(txns, p, rows, i - 1, k);
      assert rows[..i] == rows[..i - 1] + [rows[i - 1]];
    }
  }

  /** Marking rows paid keeps the set of rows. */
  lemma {:induction false} PaidSoFarKeys(txns: map<TxnId, Transaction>, p: CallbackParams, rows: seq<TxnId>, i: nat)
    requires i <= |rows|
    requires forall j :: 0 <= j < |rows| ==> rows[j] in txns
    ensures PaidSoFar(txns, p, rows, i).Keys == txns.Keys
  {
    if i > 0 {
      PaidSoFarKeys(txns, p, rows, i - 1);
    }
  }

  /** The list holds rows of the table, and a row is listed exactly when it carries the order id: the order's rows in any order. */
  ghost predicate ListsOrder(txns: map<TxnId, Transaction>, orderId: string, rows: seq<TxnId>) {
    (forall j :: 0 <= j < |rows| ==> rows[j] in txns)
    && (forall k :: k in txns ==> (k in rows <==> txns[k].orderId == orderId))
  }

  /** Marking paid, one by one and in any order, the rows of the order is settling the order. */
  lemma PaidSoFarSettles(txns: map<TxnId, Transaction>, p: CallbackParams, rows: seq<TxnId>)
    requires ListsOrder(txns, p.orderId, rows)
    ensures PaidSoFar(txns, p, rows, |rows|) == Settle(txns, p, Paid)
  {
    assert rows[..|rows|] == rows;
    var paid := PaidSoFar(txns, p, rows, |rows|);
    PaidSoFarKeys(txns, p, rows, |rows|);
    forall k | k in txns ensures k in paid && paid[k] == Settle(txns, p, Paid)[k] {
      PaidSoFarAt(txns, p, rows, |rows|, k);
    }
  }

  /** The courses the first i listed rows bring to user u. */
  ghost function CoursesSoFar(txns: map<TxnId, Transaction>, rows: seq<TxnId>, i: nat, u: UserId): set<CourseId>
    requires i <= |rows|
    requires forall j :: 0 <= j < |rows| ==> rows[j] in txns
  {
    set j | 0 <= j < i && txns[rows[j]].user == u :: txns[rows[j]].course
  }

  /** A profile after the first i listed rows: what it held plus the courses those rows bring its user. */
  lemma {:induction false} GrantedSoFarAt(owned: map<UserId, set<CourseId>>, txns: map<TxnId, Transaction>,
                                        rows: seq<TxnId>, i: nat, u: UserId)
    requires i <= |rows|
    requires forall j :: 0 <= j < |rows| ==> rows[j] in txns
    requires u in owned
    ensures u in GrantedSoFar(owned, txns, rows, i)
    ensures GrantedSoFar(owned, txns, rows, i)[u] == owned[u] + CoursesSoFar(txns, rows, i, u)
  {
    if i > 0 {
      GrantedSoFarAt(owned, txns, rows, i - 1, u);
      var t := txns[rows[i - 1]];
      GrantedSoFarKeepsUsers(owned, txns, rows, i - 1, t.user);
      assert CoursesSoFar(txns, rows, i, u)
          == CoursesSoFar(txns, rows, i - 1, u) + (if t.user == u then {t.course} else {});
    }
  }

  /** Granting, one by one and in any order, the courses of the rows of the order is granting the order. */
  lemma GrantedSoFarGrants(owned: map<UserId, set<CourseId>>, txns: map<TxnId, Transaction>, orderId: string, rows: seq<TxnId>)
    requires ListsOrder(txns, orderId, rows)
    ensures GrantedSoFar(owned, txns, rows, |rows|) == Grant(owned, txns, orderId)
  {
    var granted := GrantedSoFar(owned, txns, rows, |rows|);
    forall u ensures u in granted <==> u in owned {
      GrantedSoFarKeepsUsers(owned, txns, rows, |rows|, u);
    }
    forall u | u in owned ensures granted[u] == Grant(owned, txns, orderId)[u] {
      GrantedSoFarAt(owned, txns, rows, |rows|, u);
      RowsGrant(txns, orderId, rows, u);
    }
  }

  /** Marking the next just-created row failed extends the failed fan-out by one. */
  lemma MarkFailedStep(created: map<TxnId, Transaction>, user: UserId, courses: map<CourseId, Course>, ids: seq<CourseId>,
                   base: TxnId, i: nat)
    requires i < |ids|
    requires forall id :: id in ids ==> id in courses
    requires base + i in created && created[base + i] == FanoutRow(user, courses, ids, base, base + i, Created, "")
    ensures var table := created + Fanout(user, courses, ids, base, i, Failed, "");
      base + i in table
      && table[base + i := table[base + i].(status := Failed)] == created + Fanout(user, courses, ids, base, i + 1, Failed, "")
  {
    assert base + i !in Fanout(user, courses, ids, base, i, Failed, "");
    FanoutExtend(created, user, courses, ids, base, i, Failed, "");
  }

  /** Recording the order id on the next just-created row extends the stamped fan-out by one. */
  lemma StampOrderStep(created: map<TxnId, Transaction>, user: UserId, courses: map<CourseId, Course>, ids: seq<CourseId>,
                   base: TxnId, i: nat, orderId: string)
    requires i < |ids|
    requires forall id :: id in ids ==> id in courses
    requires base + i in created && created[base + i] == FanoutRow(user, courses, ids, base, base + i, Created, "")
    ensures var table := created + Fanout(user, courses, ids, base, i, Created, orderId);
      base + i in table
      && table[base + i := table[base + i].(orderId := orderId)] == created + Fanout(user, courses, ids, base, i + 1, Created, orderId)
  {
    assert base + i !in Fanout(user, courses, ids, base, i, Created, orderId);
    FanoutExtend(created, user, courses, ids, base, i, Created, orderId);
  }

  /** Rows fanned out for a user with a profile, over listed courses, keyed from the old counter on, keep the tables consistent. */
  lemma NewRowsKeepValid(shop: Shop, before: map<TxnId, Transaction>, base: TxnId, user: UserId, ids: seq<CourseId>,
                         status: Status, orderId: string)
    requires forall id :: id in shop.courses ==> id < shop.nextCourseId
    requires forall k :: k in before ==> k < base && before[k].user in shop.profiles && before[k].course in shop.courses
    requires forall u :: u in shop.profiles ==> shop.profiles[u] <= shop.courses.Keys
    requires user in shop.profiles && forall id :: id in ids ==> id in shop.courses
    requires shop.nextTxnId == base + |ids|
    requires shop.txns == before + Fanout(user, shop.courses, ids, base, |ids|, status, orderId)
    ensures shop.Valid()
  {
    forall k | k in shop.txns
      ensures k < shop.nextTxnId && shop.txns[k].user in shop.profiles && shop.txns[k].course in shop.courses
    {
      if k !in before {
        FanoutAt(user, shop.courses, ids, base, |ids|, status, orderId, k);
        assert ids[k - base] in ids;
      }
    }
  }

  /** Settling and granting an order keep the tables consistent. */
  lemma SettledOrderIsValid(shop: Shop, before: map<TxnId, Transaction>, owned: map<UserId, set<CourseId>>, p: CallbackParams)
    requires forall k :: k in before ==> k < shop.nextTxnId
    requires forall k :: k in before ==> before[k].user in owned && before[k].course in shop.courses
    requires forall u :: u in owned ==> owned[u] <= shop.courses.Keys
    requires forall id :: id in shop.courses ==> id < shop.nextCourseId
    requires shop.txns == Settle(before, p, Paid) && shop.profiles == Grant(owned, before, p.orderId)
    ensures shop.Valid()
  {
    SettleTouchesOnlyTheOrder(before, p, Paid);
    GrantAddsExactlyTheOrder(owned, before, p.orderId);
  }

  /** The order query lists the order's rows, each once. */
  lemma OrderRowsListTheOrder(txns: map<TxnId, Transaction>, orderId: string, n: nat)
    requires forall k :: k in txns ==> k < n
    ensures var rows := OrderRows(txns, orderId, n);
      ListsOrder(txns, orderId, rows) && NoDuplicates(rows)
  {
    var rows := OrderRows(txns, orderId, n);
    forall j | 0 <= j < |rows| ensures rows[j] in txns {
      assert rows[j] in rows;
    }
  }

  /** The rows of an order, in any order, bring each user exactly what that user bought in the order. */
  lemma RowsGrant(txns: map<TxnId, Transaction>, orderId: string, rows: seq<TxnId>, u: UserId)
    requires ListsOrder(txns, orderId, rows)
    ensures CoursesSoFar(txns, rows, |rows|, u) == PurchasedBy(txns, orderId, u)
  {
    forall c | c in PurchasedBy(txns, orderId, u) ensures c in CoursesSoFar(txns, rows, |rows|, u) {
      var k :| k in txns && txns[k].orderId == orderId && txns[k].user == u && txns[k].course == c;
      assert k in rows;
      var j :| 0 <= j < |rows| && rows[j] == k;
    }
  }
}
