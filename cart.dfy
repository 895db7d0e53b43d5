/**
 * The session cart: the list of course ids kept under the session key 'cart',
 * and the list operations that add_to_cart and remove_from_cart apply to it.
 */
module Cart {
  import opened Models
  import opened Sequences

  /** What the session holds under 'cart': nothing, a list of course ids, or some other value. */
  datatype SessionCart = Absent | CartList(ids: seq<CourseId>) | NotAList

  /** Reads the cart; anything that is not a list reads as the empty cart. */
  function GetCart(s: SessionCart): (cart: seq<CourseId>)
    ensures s.CartList? ==> cart == s.ids
    ensures !s.CartList? ==> cart == []
  {
    if s.CartList? then s.ids else []
  }

  /** Stores a list under 'cart'; reading it back gives the same list. */
  function SaveCart(cart: seq<CourseId>): (s: SessionCart)
    ensures GetCart(s) == cart
  {
    CartList(cart)
  }

  /** The cart after add_to_cart's membership test and append. */
  function AddId(cart: seq<CourseId>, id: CourseId): (r: seq<CourseId>)
    ensures forall x :: x in r <==> x in cart || x == id
    ensures |cart| <= |r| <= |cart| + 1 && r[..|cart|] == cart
    ensures NoDuplicates(cart) ==> NoDuplicates(r)
  {
    if id in cart then cart else cart + [id]
  }

  /** Adding an id twice is the same as adding it once. */
  lemma AddIdIdempotent(cart: seq<CourseId>, id: CourseId)
    ensures AddId(AddId(cart, id), id) == AddId(cart, id)
  {
  }

  /** An id that is not yet in the cart goes to its end; one already there changes nothing. */
  lemma AddIdAppends(cart: seq<CourseId>, id: CourseId)
    ensures id !in cart ==> AddId(cart, id) == cart + [id]
    ensures id in cart ==> AddId(cart, id) == cart
  {
  }

  /** Python's list.remove: deletes the first occurrence of id, if there is one. */
  function RemoveFirst(cart: seq<CourseId>, id: CourseId): (r: seq<CourseId>)
    ensures id !in cart ==> r == cart
    ensures id in cart ==> |r| == |cart| - 1
    ensures multiset(r) == multiset(cart) - multiset{id}
  {
    if cart == [] then []
    else if cart[0] == id then
      assert cart == [cart[0]] + cart[1..];
      cart[1..]
    else
      assert cart == [cart[0]] + cart[1..];
      [cart[0]] + RemoveFirst(cart[1..], id)
  }

  /** The position of the first occurrence of an id in the cart. */
  function FirstIndex(cart: seq<CourseId>, id: CourseId): (i: nat)
    requires id in cart
    ensures i < |cart| && cart[i] == id && id !in cart[..i]
  {
    if cart[0] == id then 0
    else
      assert cart == [cart[0]] + cart[1..];
      var i := FirstIndex(cart[1..], id);
      assert cart[..i + 1] == [cart[0]] + cart[1..][..i];
      i + 1
  }

  /** Removal deletes the first occurrence of id and keeps every other id, in its order. */
  lemma {:induction false} RemoveFirstDropsFirstOccurrence(cart: seq<CourseId>, id: CourseId)
    requires id in cart
    ensures var i := FirstIndex(cart, id); RemoveFirst(cart, id) == cart[..i] + cart[i + 1..]
  {
    if cart[0] != id {
      var rest := cart[1..];
      assert cart == [cart[0]] + rest;
      RemoveFirstDropsFirstOccurrence(rest, id);
      var i := FirstIndex(rest, id);
      assert cart[..i + 1] == [cart[0]] + rest[..i];
      assert cart[i + 2..] == rest[i + 1..];
    }
  }

  /** The cart with every occurrence of id dropped and the other ids in their order. */
  function Without(cart: seq<CourseId>, id: CourseId): (r: seq<CourseId>)
    ensures forall x :: x in r <==> x in cart && x != id
  {
    if cart == [] then []
    else if cart[0] == id then Without(cart[1..], id)
    else [cart[0]] + Without(cart[1..], id)
  }

  /** The tail of a cart without repeats has no repeats and does not hold the head. */
  lemma DistinctTail(cart: seq<CourseId>)
    requires cart != [] && NoDuplicates(cart)
    ensures NoDuplicates(cart[1..]) && cart[0] !in cart[1..]
  {
    var rest := cart[1..];
    forall i, j | 0 <= i < j < |rest| ensures rest[i] != rest[j] {
      assert rest[i] == cart[i + 1] && rest[j] == cart[j + 1];
    }
    forall j | 0 <= j < |rest| ensures rest[j] != cart[0] {
      assert rest[j] == cart[j + 1];
    }
  }

  /** On a cart without repeats, removal drops exactly that id and keeps the others in order. */
  lemma {:induction false} RemoveFromDistinctCart(cart: seq<CourseId>, id: CourseId)
    requires NoDuplicates(cart)
    ensures RemoveFirst(cart, id) == Without(cart, id)
  {
    if cart != [] {
      DistinctTail(cart);
      if cart[0] == id {
        WithoutAbsent(cart[1..], id);
      } else {
        RemoveFromDistinctCart(cart[1..], id);
      }
    }
  }

  /** Dropping an id from a cart without repeats leaves a cart without repeats. */
  lemma {:induction false} WithoutKeepsDistinct(cart: seq<CourseId>, id: CourseId)
    requires NoDuplicates(cart)
    ensures NoDuplicates(Without(cart, id))
  {
    if cart != [] {
      DistinctTail(cart);
      WithoutKeepsDistinct(cart[1..], id);
      var w := Without(cart[1..], id);
      if cart[0] != id {
        var r := [cart[0]] + w;
        forall i, j | 0 <= i < j < |r| ensures r[i] != r[j] {
          if i == 0 {
            assert r[j] == w[j - 1] && r[j] in w;
          } else {
            assert r[i] == w[i - 1] && r[j] == w[j - 1];
          }
        }
      }
    }
  }

  /** Dropping an id that is absent changes nothing. */
  lemma {:induction false} WithoutAbsent(cart: seq<CourseId>, id: CourseId)
    requires id !in cart
    ensures Without(cart, id) == cart
  {
    if cart != [] {
      assert id !in cart[1..];
      WithoutAbsent(cart[1..], id);
      assert cart == [cart[0]] + cart[1..];
    }
  }
}
