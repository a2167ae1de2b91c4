/** The cart of the menu-selection step: adding an item merges it into an
    existing line with the same item id or appends a new line; removing an
    item id deletes that whole line. */
module CartOps {
  import opened Types

  /** Every line whose id is `id` gets one more unit; nothing else changes. */
  function IncrementId(cart: Cart, id: string): (r: Cart)
    ensures |r| == |cart|
    ensures forall i | 0 <= i < |cart| ::
      r[i].item == cart[i].item &&
      r[i].quantity == cart[i].quantity + (if cart[i].item.id == id then 1 else 0)
  {
    seq(|cart|, i requires 0 <= i < |cart| =>
      if cart[i].item.id == id then cart[i].(quantity := cart[i].quantity + 1) else cart[i])
  }

  /** Adds one unit of `item`.  A line already carrying the item's id keeps
      its position and its own item snapshot and gains one unit; otherwise a
      line of quantity 1 goes at the end.  A well-formed cart stays
      well-formed, and the item's id is in the cart afterwards. */
  function AddToCart(cart: Cart, item: MenuItem): (r: Cart)
    ensures item.id in Ids(cart) ==>
      |r| == |cart| && Ids(r) == Ids(cart) &&
      forall i | 0 <= i < |cart| ::
        r[i].item == cart[i].item &&
        r[i].quantity == cart[i].quantity + (if cart[i].item.id == item.id then 1 else 0)
    ensures item.id !in Ids(cart) ==> r == cart + [OrderItem(item, 1)]
    ensures item.id in Ids(r)
    ensures WellFormedCart(cart) ==> WellFormedCart(r)
  {
    if item.id in Ids(cart) then
      var r := IncrementId(cart, item.id);
      assert Ids(r) == Ids(cart);
      assert forall i | 0 <= i < |r| :: IdAt(r, i) == IdAt(cart, i);
      r
    else
      var r := cart + [OrderItem(item, 1)];
      assert Ids(r)[|cart|] == item.id;
      assert forall i | 0 <= i < |cart| :: IdAt(r, i) == IdAt(cart, i) == Ids(cart)[i];
      assert IdAt(r, |cart|) == item.id;
      r
  }

  /** Drops every line whose id is `id`, keeping the others in order; the
      id is absent afterwards, and a cart without the id is returned as it
      was. */
  function RemoveFromCart(cart: Cart, id: string): (r: Cart)
    ensures |r| <= |cart|
    ensures id !in Ids(r)
    ensures id !in Ids(cart) ==> r == cart
  {
    if cart == [] then []
    else
      var rest := RemoveFromCart(cart[1..], id);
      if cart[0].item.id == id then rest
      else
        assert id !in Ids(cart[1..]) ==> cart == [cart[0]] + cart[1..];
        assert Ids([cart[0]] + rest) == [cart[0].item.id] + Ids(rest);
        [cart[0]] + rest
  }

  /** Two carts of equal length whose lines have equal amounts everywhere
      except at position `k`, where the amount grows by `d`, have totals
      that differ by `d`. */
  lemma {:induction false} LinesTotalUpdateAt(a: Cart, b: Cart, k: nat, d: nat)
    requires |a| == |b| && k < |a|
    requires forall i | 0 <= i < |a| && i != k :: LineAmount(a[i]) == LineAmount(b[i])
    requires LineAmount(b[k]) == LineAmount(a[k]) + d
    ensures LinesTotal(b) == LinesTotal(a) + d
    decreases |a|
  {
    var n := |a| - 1;
    if k < n {
      LinesTotalUpdateAt(a[..n], b[..n], k, d);
    } else {
      LinesTotalSame(a[..n], b[..n]);
    }
  }

  /** Carts whose lines have pairwise equal amounts have equal totals. */
  lemma {:induction false} LinesTotalSame(a: Cart, b: Cart)
    requires |a| == |b|
    requires forall i | 0 <= i < |a| :: LineAmount(a[i]) == LineAmount(b[i])
    ensures LinesTotal(a) == LinesTotal(b)
    decreases |a|
  {
    if a != [] {
      LinesTotalSame(a[..|a| - 1], b[..|b| - 1]);
    }
  }

  /** Adding an item whose id is not in the cart raises the total by the
      item's price. */
  lemma AddNewTotal(cart: Cart, item: MenuItem)
    requires item.id !in Ids(cart)
    ensures LinesTotal(AddToCart(cart, item)) == LinesTotal(cart) + item.price
  {
    var r := AddToCart(cart, item);
    assert r[..|r| - 1] == cart;
    assert LineAmount(r[|r| - 1]) == item.price;
  }

  /** Adding an item whose id is held by line `k` of a well-formed cart
      raises the total by the unit price stored in that line (not the price
      of the item passed in). */
  lemma AddExistingTotal(cart: Cart, item: MenuItem, k: nat)
    requires WellFormedCart(cart)
    requires k < |cart| && cart[k].item.id == item.id
    ensures LinesTotal(AddToCart(cart, item)) == LinesTotal(cart) + cart[k].item.price
  {
    assert item.id in Ids(cart) by {
      assert Ids(cart)[k] == item.id;
    }
    assert AddToCart(cart, item) == IncrementId(cart, item.id);
    IncrementTotal(cart, k);
  }

  /** Incrementing the id of line `k` in a cart with distinct ids changes
      only that line, so the total grows by that line's unit price. */
  lemma IncrementTotal(cart: Cart, k: nat)
    requires DistinctIds(cart) && k < |cart|
    ensures LinesTotal(IncrementId(cart, IdAt(cart, k))) == LinesTotal(cart) + cart[k].item.price
  {
    var r := IncrementId(cart, IdAt(cart, k));
    IncrementOnlyLine(cart, k);
    IncrementLineAmount(cart, k);
    LinesTotalUpdateAt(cart, r, k, cart[k].item.price);
  }

  lemma IncrementLineAmount(cart: Cart, k: nat)
    requires k < |cart|
    ensures |IncrementId(cart, IdAt(cart, k))| == |cart|
    ensures LineAmount(IncrementId(cart, IdAt(cart, k))[k]) == LineAmount(cart[k]) + cart[k].item.price
  {
    assert IncrementId(cart, IdAt(cart, k))[k] == cart[k].(quantity := cart[k].quantity + 1);
    IncrementAmount(cart[k]);
  }

  lemma IncrementOnlyLine(cart: Cart, k: nat)
    requires DistinctIds(cart) && k < |cart|
    ensures forall i | 0 <= i < |cart| && i != k :: IncrementId(cart, IdAt(cart, k))[i] == cart[i]
  {
    forall i | 0 <= i < |cart| && i != k
      ensures IncrementId(cart, IdAt(cart, k))[i] == cart[i]
    {
      assert IdAt(cart, i) != IdAt(cart, k);
    }
  }

  lemma IncrementAmount(line: OrderItem)
    ensures LineAmount(line.(quantity := line.quantity + 1)) == LineAmount(line) + line.item.price
  {
    var p, q := line.item.price, line.quantity;
    assert p * (q + 1) == p * q + p;
  }

  /** Adding the same new item twice yields a single line of quantity 2. */
  lemma AddTwiceMerges(cart: Cart, item: MenuItem)
    requires item.id !in Ids(cart)
    ensures AddToCart(AddToCart(cart, item), item) == cart + [OrderItem(item, 2)]
  {
    var once := AddToCart(cart, item);
    var twice := AddToCart(once, item);
    assert |twice| == |cart| + 1;
    forall i | 0 <= i < |cart|
      ensures twice[i] == cart[i]
    {
      assert cart[i].item.id == Ids(cart)[i];
    }
  }

  /** Removing the id of line `k` from a well-formed cart deletes exactly
      that line and keeps the others in their order; the total falls by
      that line's amount, and the cart stays well-formed. */
  lemma RemoveDeletesLine(cart: Cart, k: nat)
    requires WellFormedCart(cart) && k < |cart|
    ensures RemoveFromCart(cart, cart[k].item.id) == cart[..k] + cart[k + 1..]
    ensures LinesTotal(RemoveFromCart(cart, cart[k].item.id)) == LinesTotal(cart) - LineAmount(cart[k])
    ensures WellFormedCart(RemoveFromCart(cart, cart[k].item.id))
  {
    RemoveIsDeleteAt(cart, k);
    DeleteAtTotal(cart, k);
    DeleteAtWellFormed(cart, k);
  }

  lemma {:induction false} RemoveIsDeleteAt(cart: Cart, k: nat)
    requires DistinctIds(cart) && k < |cart|
    ensures RemoveFromCart(cart, cart[k].item.id) == cart[..k] + cart[k + 1..]
    decreases k, 1
  {
    if k == 0 {
      RemoveHead(cart);
      assert cart[..0] + cart[1..] == cart[1..];
    } else {
      RemoveLater(cart, k);
    }
  }

  /** With distinct ids, removing the first line's id removes just it. */
  lemma RemoveHead(cart: Cart)
    requires DistinctIds(cart) && cart != []
    ensures RemoveFromCart(cart, cart[0].item.id) == cart[1..]
  {
    var id, tail := cart[0].item.id, cart[1..];
    assert id !in Ids(tail) by {
      forall j | 0 <= j < |tail|
        ensures Ids(tail)[j] != id
      {
        assert IdAt(cart, 0) != IdAt(cart, j + 1);
      }
    }
  }

  lemma {:induction false} RemoveLater(cart: Cart, k: nat)
    requires DistinctIds(cart) && 0 < k < |cart|
    ensures RemoveFromCart(cart, cart[k].item.id) == cart[..k] + cart[k + 1..]
    decreases k, 0
  {
    var tail := cart[1..];
    assert IdAt(cart, 0) != IdAt(cart, k);
    DistinctIdsTail(cart);
    RemoveIsDeleteAt(tail, k - 1);
    assert tail[k - 1] == cart[k];
    DeleteAtCons(cart, k);
  }

  lemma DistinctIdsTail(cart: Cart)
    requires DistinctIds(cart) && cart != []
    ensures DistinctIds(cart[1..])
  {
    assert forall i | 0 <= i < |cart[1..]| :: IdAt(cart[1..], i) == IdAt(cart, i + 1);
  }

  lemma DeleteAtCons(cart: Cart, k: nat)
    requires 0 < k < |cart|
    ensures cart[..k] + cart[k + 1..] == [cart[0]] + (cart[1..][..k - 1] + cart[1..][k..])
  {
  }

  /** Deleting line `k` lowers the total by that line's amount. */
  lemma DeleteAtTotal(cart: Cart, k: nat)
    requires k < |cart|
    ensures LinesTotal(cart[..k] + cart[k + 1..]) == LinesTotal(cart) - LineAmount(cart[k])
  {
    SplitAround(cart, k);
    SplitTotal(cart[..k], cart[k], cart[k + 1..]);
  }

  lemma SplitAround(cart: Cart, k: nat)
    requires k < |cart|
    ensures cart == (cart[..k] + [cart[k]]) + cart[k + 1..]
  {
  }

  lemma SplitTotal(a: Cart, x: OrderItem, b: Cart)
    ensures LinesTotal((a + [x]) + b) == LinesTotal(a + b) + LineAmount(x)
  {
    LinesTotalConcat(a + [x], b);
    LinesTotalSnoc(a, x);
    LinesTotalConcat(a, b);
  }

  /** Deleting a line keeps the remaining ids distinct and quantities
      positive. */
  lemma DeleteAtWellFormed(cart: Cart, k: nat)
    requires WellFormedCart(cart) && k < |cart|
    ensures WellFormedCart(cart[..k] + cart[k + 1..])
  {
    var r := cart[..k] + cart[k + 1..];
    forall i | 0 <= i < |r|
      ensures IdAt(r, i) == IdAt(cart, if i < k then i else i + 1)
      ensures r[i] == cart[if i < k then i else i + 1]
    {
    }
    forall i, j | 0 <= i < j < |r|
      ensures IdAt(r, i) != IdAt(r, j)
    {
      var i' := if i < k then i else i + 1;
      var j' := if j < k then j else j + 1;
      assert IdAt(cart, i') != IdAt(cart, j');
    }
  }

  /** A well-formed cart stays well-formed when an id is removed. */
  lemma RemoveKeepsWellFormed(cart: Cart, id: string)
    requires WellFormedCart(cart)
    ensures WellFormedCart(RemoveFromCart(cart, id))
  {
    if id in Ids(cart) {
      var k :| 0 <= k < |cart| && Ids(cart)[k] == id;
      RemoveDeletesLine(cart, k);
    }
  }

  /** Removing a freshly added item's id undoes the addition. */
  lemma AddThenRemove(cart: Cart, item: MenuItem)
    requires WellFormedCart(cart)
    requires item.id !in Ids(cart)
    ensures RemoveFromCart(AddToCart(cart, item), item.id) == cart
  {
    var r := AddToCart(cart, item);
    assert r[|cart|].item.id == item.id;
    RemoveDeletesLine(r, |cart|);
    assert r[..|cart|] == cart;
  }
}
