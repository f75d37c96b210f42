/**
  The order arithmetic and checkout of client/src/pages/cart.tsx, over the rows that
  `GET /api/cart` answers with: the subtotal loop, shipping, 14% tax and the grand total,
  the quantity-change guard, and the checkout message.

  Prices are integers, so the grand total is an exact number of hundredths:
  100 * (subtotal + shipping + 0.14 * subtotal) = 114 * subtotal + 100 * shipping.
*/
module CartPage {
  import opened Wrappers
  import opened Text
  import CartRoutes

  type Line = CartRoutes.ViewRow

  /** The sum of price × quantity over the rows, defined on the last row so it follows the loop. */
  function Subtotal(lines: seq<Line>): (s: int)
    ensures (forall i :: 0 <= i < |lines| ==> lines[i].productPrice >= 0 && lines[i].itemQuantity >= 0) ==> s >= 0
  {
    if lines == [] then 0
    else
      var last := lines[|lines| - 1];
      assert forall i :: 0 <= i < |lines| - 1 ==> lines[..|lines| - 1][i] == lines[i];
      Subtotal(lines[..|lines| - 1]) + last.productPrice * last.itemQuantity
  }

  /** The `forEach` loop that accumulates `subtotal`. */
  method ComputeSubtotal(lines: seq<Line>) returns (subtotal: int)
    ensures subtotal == Subtotal(lines)
  {
    subtotal := 0;
    for i := 0 to |lines|
      invariant subtotal == Subtotal(lines[..i])
    {
      assert lines[..i + 1][..i] == lines[..i];
      subtotal := subtotal + lines[i].productPrice * lines[i].itemQuantity;
    }
    assert lines[..|lines|] == lines;
  }

  /** The subtotal of two carts put together is the sum of their subtotals. */
  lemma {:induction false} SubtotalConcat(a: seq<Line>, b: seq<Line>)
    ensures Subtotal(a + b) == Subtotal(a) + Subtotal(b)
    decreases |b|
  {
    if b == [] {
      assert a + b == a;
    } else {
      assert (a + b)[..|a + b| - 1] == a + b[..|b| - 1];
      SubtotalConcat(a, b[..|b| - 1]);
    }
  }

  /** The order of the rows does not matter: a row moved to the front leaves the subtotal alone. */
  lemma SubtotalRotate(a: seq<Line>, x: Line)
    ensures Subtotal([x] + a) == Subtotal(a + [x])
  {
    SubtotalConcat([x], a);
    SubtotalConcat(a, [x]);
    assert ([x] + [])[..0] == [];
    assert Subtotal([x]) == x.productPrice * x.itemQuantity by {
      assert [x][..0] == [];
    }
  }

  /** 120 for a non-empty order below 1500, free otherwise. */
  function Shipping(subtotal: int): (r: int)
    ensures r == 120 <==> 0 < subtotal < 1500
    ensures r == 0 <==> !(0 < subtotal < 1500)
  {
    if subtotal < 1500 && subtotal > 0 then 120 else 0
  }

  /** `subtotal * 0.14`, kept exact. */
  function Tax(subtotal: int): (r: real)
    ensures r * 100.0 == 14.0 * subtotal as real
  {
    subtotal as real * 14.0 / 100.0
  }

  function GrandTotal(subtotal: int): real {
    subtotal as real + Shipping(subtotal) as real + Tax(subtotal)
  }

  /** The grand total in hundredths, which is what `toFixed(2)` renders. */
  function GrandTotalCents(subtotal: int): (c: int)
    ensures c as real == 100.0 * GrandTotal(subtotal)
    ensures subtotal >= 0 ==> c >= 114 * subtotal
  {
    114 * subtotal + 100 * Shipping(subtotal)
  }

  /** An empty cart costs nothing, and a cart of 1500 or more ships free. */
  lemma ShippingBounds(subtotal: int)
    ensures Subtotal([]) == 0 && GrandTotalCents(Subtotal([])) == 0
    ensures subtotal >= 1500 ==> GrandTotalCents(subtotal) == 114 * subtotal
    ensures 0 < subtotal < 1500 ==> GrandTotalCents(subtotal) == 114 * subtotal + 12000
  {
  }

  /** The request `handleQuantityChange` issues: the row id and its new quantity. */
  datatype QuantityUpdate = QuantityUpdate(id: int, quantity: int)

  /** `handleQuantityChange`: a result below 1 issues nothing; otherwise current + change for that id. */
  function QuantityChange(id: int, current: int, change: int): (r: Option<QuantityUpdate>)
    ensures r.None? <==> current + change < 1
    ensures r.Some? ==> r.value.id == id && r.value.quantity >= 1 && r.value.quantity - current == change
  {
    var q := current + change;
    if q < 1 then None else Some(QuantityUpdate(id, q))
  }

  /** The minus button's `disabled`. */
  predicate DecrementDisabled(quantity: int) {
    quantity <= 1
  }

  /** The minus button is disabled exactly when pressing it would be refused, and plus always goes through. */
  lemma QuantityControls(id: int, quantity: int)
    ensures DecrementDisabled(quantity) <==> QuantityChange(id, quantity, -1).None?
    ensures quantity >= 0 ==> QuantityChange(id, quantity, 1) == Some(QuantityUpdate(id, quantity + 1))
  {
  }

  /**
    The message's symbols are the characters the page's source holds, which are the UTF-8
    bytes of the shopping-bags, package and rupee signs and of a right single quote read back
    as Windows-1252 text: the message carries those characters, not the signs.
  */
  const ShoppingBags := "\U{F0}\U{178}\U{203A}\U{EF}\U{B8}"
  const Package := "\U{F0}\U{178}\U{201C}\U{A6}"
  const Rupee := "\U{E2}\U{201A}\U{B9}"
  const Greeting := "Hello! I\U{E2}\U{20AC}\U{2122}d like to finalize this order from kabirclub:\n\n"

  /** One row's block of the message: name, size, quantity, price and quantity × price. */
  function Block(l: Line): (s: string)
    ensures IsPrefix(ShoppingBags + " *" + l.productName + "*\nSize: " + l.itemSize, s)
    ensures Contains(s, "\nQty: " + IntToString(l.itemQuantity))
    ensures Contains(s, "\nPrice: " + Rupee + IntToString(l.productPrice))
    ensures IsSuffix("\nSubtotal: " + Rupee + IntToString(l.itemQuantity * l.productPrice), s)
  {
    var head := ShoppingBags + " *" + l.productName + "*\nSize: " + l.itemSize;
    var qty := "\nQty: " + IntToString(l.itemQuantity);
    var price := "\nPrice: " + Rupee + IntToString(l.productPrice);
    var subtotal := "\nSubtotal: " + Rupee + IntToString(l.itemQuantity * l.productPrice);
    FourParts(head, qty, price, subtotal);
    head + qty + price + subtotal
  }

  function Blocks(lines: seq<Line>): (r: seq<string>)
    ensures |r| == |lines| && forall i :: 0 <= i < |lines| ==> r[i] == Block(lines[i])
  {
    seq(|lines|, i requires 0 <= i < |lines| => Block(lines[i]))
  }

  function TotalLine(cents: int): string {
    "\n\n" + Package + " *Total*: " + Rupee + Fixed2(cents) + " (Including tax and shipping)"
  }

  /**
    The "Finalise the deal" button: an empty cart yields no message; otherwise the greeting,
    the blocks in cart order separated by a blank line, and the grand-total line.
  */
  function Checkout(lines: seq<Line>): (r: Option<string>)
    ensures r.None? <==> lines == []
    ensures r.Some? ==> IsPrefix(Greeting, r.value)
    ensures r.Some? ==> r.value == Greeting + Join(Blocks(lines), "\n\n") + TotalLine(GrandTotalCents(Subtotal(lines)))
  {
    if |lines| == 0 then None
    else
      var body := Join(Blocks(lines), "\n\n");
      var total := TotalLine(GrandTotalCents(Subtotal(lines)));
      PrefixOfAppend2(Greeting, body, total);
      Some(Greeting + body + total)
  }

  /** Every row's block appears in the checkout message. */
  lemma CheckoutMentionsEveryRow(lines: seq<Line>, i: nat)
    requires i < |lines|
    ensures Contains(Checkout(lines).value, Block(lines[i]))
  {
    var blocks := Blocks(lines);
    var total := TotalLine(GrandTotalCents(Subtotal(lines)));
    JoinContains(blocks, "\n\n", i);
    ContainsAfter(Greeting, Join(blocks, "\n\n"), Block(lines[i]));
    ContainsBefore(Greeting + Join(blocks, "\n\n"), total, Block(lines[i]));
  }

  /** The message is as long as its parts: one separator between neighbouring blocks. */
  lemma CheckoutLength(lines: seq<Line>)
    requires lines != []
    ensures |Checkout(lines).value| ==
            |Greeting| + SumLengths(Blocks(lines)) + 2 * (|lines| - 1) + |TotalLine(GrandTotalCents(Subtotal(lines)))|
  {
    JoinLength(Blocks(lines), "\n\n");
  }

  /** Two of a 500 item: 1000 + 120 shipping + 140 tax, rendered as "1260.00". */
  lemma SmallOrderExample(l: Line)
    requires l.productPrice == 500 && l.itemQuantity == 2
    ensures Subtotal([l]) == 1000
    ensures GrandTotalCents(Subtotal([l])) == 126000
    ensures Fixed2(GrandTotalCents(Subtotal([l]))) == IntToString(1260) + ".00"
  {
    assert [l][..0] == [];
    Fixed2Whole(1260);
  }
}
