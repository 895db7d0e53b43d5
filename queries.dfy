/**
 * The table queries of the views and of the seeding command, over tables keyed
 * by auto-increment ids: every key of a table lies below its next id `n`, and
 * a query result lists the matching ids below `n` in ascending order.
 */
module Queries {
  import opened Models
  import opened Sequences

  /** `Course.objects.filter(is_active=True).order_by('id')`. */
  function ActiveIds(courses: map<CourseId, Course>, n: nat): (r: seq<CourseId>)
    ensures forall id :: id in r <==> id < n && id in courses && courses[id].isActive
    ensures StrictlyIncreasing(r)
  {
    if n == 0 then []
    else
      var below := ActiveIds(courses, n - 1);
      if n - 1 in courses && courses[n - 1].isActive then AppendLargest(below, n - 1); below + [n - 1] else below
  }

  /** A course a cart checkout would charge for: it exists, is active, is in the cart and is not owned. */
  predicate Eligible(courses: map<CourseId, Course>, cart: seq<CourseId>, owned: set<CourseId>, id: CourseId) {
    id in courses && courses[id].isActive && id in cart && id !in owned
  }

  /**
   * `Course.objects.filter(id__in=cart, is_active=True).exclude(id__in=owned)`,
   * listed in id order; each course appears once however often the cart names it.
   */
  function EligibleIds(courses: map<CourseId, Course>, cart: seq<CourseId>, owned: set<CourseId>, n: nat): (r: seq<CourseId>)
    ensures forall id: CourseId :: id in r <==> id < n && Eligible(courses, cart, owned, id)
    ensures StrictlyIncreasing(r)
  {
    if n == 0 then []
    else
      var below := EligibleIds(courses, cart, owned, n - 1);
      if Eligible(courses, cart, owned, n - 1) then AppendLargest(below, n - 1); below + [n - 1] else below
  }

  /** The distinct eligible courses, as a set. */
  function EligibleSet(courses: map<CourseId, Course>, cart: seq<CourseId>, owned: set<CourseId>): set<CourseId> {
    set id: CourseId | id in courses && Eligible(courses, cart, owned, id)
  }

  /** When every course id lies below n, the query lists exactly the eligible set, each id once. */
  lemma EligibleIdsListEligibleSet(courses: map<CourseId, Course>, cart: seq<CourseId>, owned: set<CourseId>, n: nat)
    requires forall id :: id in courses ==> id < n
    ensures (set id: CourseId | id in EligibleIds(courses, cart, owned, n)) == EligibleSet(courses, cart, owned)
    ensures NoDuplicates(EligibleIds(courses, cart, owned, n))
  {
  }

  /** The ids of s that are not owned, in their order (the loop of cart_view skips owned courses). */
  function Unowned(s: seq<CourseId>, owned: set<CourseId>): (r: seq<CourseId>)
    ensures forall x :: x in r <==> x in s && x !in owned
    ensures |r| <= |s|
  {
    if s == [] then []
    else
      var last := s[|s| - 1];
      assert s == s[..|s| - 1] + [last];
      Unowned(s[..|s| - 1], owned) + (if last in owned then [] else [last])
  }

  /** Skipping the owned courses of the active cart courses gives the checkout query. */
  lemma {:induction false} UnownedOfEligible(courses: map<CourseId, Course>, cart: seq<CourseId>, owned: set<CourseId>, n: nat)
    ensures Unowned(EligibleIds(courses, cart, {}, n), owned) == EligibleIds(courses, cart, owned, n)
  {
    if n > 0 {
      UnownedOfEligible(courses, cart, owned, n - 1);
      var below := EligibleIds(courses, cart, {}, n - 1);
      if Eligible(courses, cart, {}, n - 1) {
        assert (below + [n - 1])[..|below|] == below;
      }
    }
  }

  /** The sum of the prices of a set of courses, in no particular order. */
  ghost function SetPriceSum(courses: map<CourseId, Course>, ids: set<CourseId>): nat
    requires ids <= courses.Keys
  {
    if ids == {} then 0
    else
      var x :| x in ids;
      courses[x].priceInPaise + SetPriceSum(courses, ids - {x})
  }

  /** Any member of the set can be taken out first. */
  lemma {:induction false} SetPriceSumRemove(courses: map<CourseId, Course>, ids: set<CourseId>, y: CourseId)
    requires ids <= courses.Keys && y in ids
    ensures SetPriceSum(courses, ids) == courses[y].priceInPaise + SetPriceSum(courses, ids - {y})
    decreases ids
  {
    var x :| x in ids && SetPriceSum(courses, ids) == courses[x].priceInPaise + SetPriceSum(courses, ids - {x});
    if x != y {
      SetPriceSumRemove(courses, ids - {x}, y);
      SetPriceSumRemove(courses, ids - {y}, x);
      assert ids - {x} - {y} == ids - {y} - {x};
    }
  }

  /** `sum(c.price_in_paise for c in courses)` over a list of course ids. */
  function SeqPriceSum(courses: map<CourseId, Course>, s: seq<CourseId>): nat
    requires forall id :: id in s ==> id in courses
  {
    if s == [] then 0
    else SeqPriceSum(courses, s[..|s| - 1]) + courses[s[|s| - 1]].priceInPaise
  }

  /** Summing a list without repeats gives the sum over its set, whatever its order. */
  lemma {:induction false} SeqSumIsSetSum(courses: map<CourseId, Course>, s: seq<CourseId>)
    requires forall id :: id in s ==> id in courses
    requires NoDuplicates(s)
    ensures SeqPriceSum(courses, s) == SetPriceSum(courses, set id: CourseId | id in s)
  {
    if s != [] {
      var init, last := s[..|s| - 1], s[|s| - 1];
      assert NoDuplicates(init) && last !in init by {
        forall i | 0 <= i < |init| ensures init[i] == s[i] {
        }
      }
      SeqSumIsSetSum(courses, init);
      assert s == init + [last];
      ElementsOfSnoc(init, last);
      var all := set id: CourseId | id in s;
      assert all - {last} == set id: CourseId | id in init;
      SetPriceSumRemove(courses, all, last);
    }
  }

  /** The active cart courses, less the owned ones, are the eligible list, and their price sum is the sum over the eligible set. */
  lemma CartTotal(courses: map<CourseId, Course>, cart: seq<CourseId>, owned: set<CourseId>, n: nat)
    requires forall id :: id in courses ==> id < n
    ensures var items := Unowned(EligibleIds(courses, cart, {}, n), owned);
      items == EligibleIds(courses, cart, owned, n)
      && (forall id :: id in items ==> id in courses)
      && SeqPriceSum(courses, items) == SetPriceSum(courses, EligibleSet(courses, cart, owned))
  {
    UnownedOfEligible(courses, cart, owned, n);
    EligibleIdsListEligibleSet(courses, cart, owned, n);
    SeqSumIsSetSum(courses, EligibleIds(courses, cart, owned, n));
  }

  /** `Transaction.objects.filter(razorpay_order_id=orderId)`, in id order. */
  function OrderRows(txns: map<TxnId, Transaction>, orderId: string, n: nat): (r: seq<TxnId>)
    ensures forall k :: k in r <==> k < n && k in txns && txns[k].orderId == orderId
    ensures StrictlyIncreasing(r)
  {
    if n == 0 then []
    else
      var below := OrderRows(txns, orderId, n - 1);
      if n - 1 in txns && txns[n - 1].orderId == orderId then AppendLargest(below, n - 1); below + [n - 1] else below
  }

  /** `Course.objects.filter(title=title)`, in id order: what get_or_create looks up. */
  function TitleMatches(courses: map<CourseId, Course>, title: string, n: nat): (r: seq<CourseId>)
    ensures forall id :: id in r <==> id < n && id in courses && courses[id].title == title
    ensures StrictlyIncreasing(r)
  {
    if n == 0 then []
    else
      var below := TitleMatches(courses, title, n - 1);
      if n - 1 in courses && courses[n - 1].title == title then AppendLargest(below, n - 1); below + [n - 1] else below
  }

  /** The courses that carry a title. */
  ghost function TitleIds(courses: map<CourseId, Course>, title: string): set<CourseId> {
    set id: CourseId | id in courses && courses[id].title == title
  }

  /** The lookup finds as many courses as carry the title. */
  lemma TitleMatchesCount(courses: map<CourseId, Course>, title: string, n: nat)
    requires forall id :: id in courses ==> id < n
    ensures |TitleMatches(courses, title, n)| == |TitleIds(courses, title)|
  {
    var r := TitleMatches(courses, title, n);
    assert (set id: nat | id in r) == TitleIds(courses, title) by {
      forall id | id in TitleIds(courses, title) ensures id in r {
      }
    }
    IncreasingHasNoDuplicates(r);
    DistinctCardinality<nat>(r);
    assert |set id: nat | id in r| == |r|;
  }
}
