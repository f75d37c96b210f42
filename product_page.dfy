/**
  The state of the product page of client/src/pages/product.tsx: the quantity stepper, the
  selected size, the sizes offered for a product, and the body "Add to cart" posts to
  `POST /api/cart`.

  The product id is the route parameter, a string; the server hands it to Postgres as the
  `product_id` parameter, which reads it as an integer by its own rule (`PgInt`): blanks and
  a '+' are allowed, and the empty string is refused.
*/
module ProductPage {
  import opened Wrappers
  import opened Text
  import opened Schema
  import OM = OrderedMap
  import CartRoutes

  const SizeRequired := "Please select size before adding to cart."

  /** `increaseQuantity`. */
  function Increased(q: int): (r: int)
    ensures r > q && r - q == 1
  {
    q + 1
  }

  /** `decreaseQuantity`: one less, but never below 1. */
  function Decreased(q: int): (r: int)
    ensures r >= 1
    ensures q > 1 ==> r == q - 1
    ensures q <= 1 ==> r == 1
  {
    if q > 1 then q - 1 else 1
  }

  /** Minus undoes plus on any quantity the page can show. */
  lemma DecreaseUndoesIncrease(q: int)
    requires q >= 1
    ensures Decreased(Increased(q)) == q
    ensures q > 1 ==> Increased(Decreased(q)) == q
  {
  }

  /** The minus button's `disabled`. */
  predicate MinusDisabled(q: int) {
    q <= 1
  }

  /** On any quantity the page can show, minus is disabled exactly where pressing it would change nothing. */
  lemma MinusDisabledAtFloor(q: int)
    requires q >= 1
    ensures MinusDisabled(q) <==> Decreased(q) == q
  {
  }

  /** The quantity after a run of presses, `true` for plus and `false` for minus. */
  function Presses(q: int, plus: seq<bool>): (r: int)
    decreases |plus|
  {
    if plus == [] then q
    else Presses(if plus[0] then Increased(q) else Decreased(q), plus[1..])
  }

  /** Starting from 1, no sequence of presses takes the quantity below 1. */
  lemma {:induction false} PressesStayPositive(q: int, plus: seq<bool>)
    requires q >= 1
    ensures Presses(q, plus) >= 1
    decreases |plus|
  {
    if plus != [] {
      PressesStayPositive(if plus[0] then Increased(q) else Decreased(q), plus[1..]);
    }
  }

  /** A run of n presses raises the quantity by at most n. */
  lemma {:induction false} PressesBound(q: int, plus: seq<bool>)
    requires q >= 1
    ensures Presses(q, plus) <= q + |plus|
    decreases |plus|
  {
    if plus != [] {
      PressesBound(if plus[0] then Increased(q) else Decreased(q), plus[1..]);
    }
  }

  /** `availableSizes`: the keys of `productsizes` whose value is set, in key order; none without the object. */
  function AvailableSizes(sizes: Option<OM.Entries<string, bool>>): (r: seq<string>)
    ensures sizes.None? ==> r == []
    ensures sizes.Some? ==> forall s :: s in r <==> (s, true) in sizes.value
    ensures sizes.Some? ==> |r| <= |sizes.value|
  {
    if sizes.None? then [] else Offered(sizes.value)
  }

  function Offered(m: OM.Entries<string, bool>): (r: seq<string>)
    ensures forall s :: s in r <==> (s, true) in m
    ensures |r| <= |m|
  {
    if m == [] then []
    else (if m[0].1 then [m[0].0] else []) + Offered(m[1..])
  }

  /** The body `addToCart` posts: the route's product id, the current quantity and the selected size. */
  datatype CartPost = CartPost(productId: string, quantity: int, size: string)

  /**
    What the cart handler reads from that body: the id as a JSON string and the quantity as a
    JSON number, both bound to `integer` parameters; a string id is never NULL.
  */
  function Received(p: CartPost): (b: CartRoutes.AddBody)
    ensures b.size == Some(p.size)
    ensures b.quantity == (if Int4Min <= p.quantity <= Int4Max then CartRoutes.Reads(p.quantity) else CartRoutes.Refused)
    ensures !b.productId.Absent?
    ensures b.productId.Reads? <==> PgInt(p.productId).Some?
    ensures b.productId.Reads? ==> Some(b.productId.value) == PgInt(p.productId)
  {
    CartRoutes.AddBody(CartRoutes.Bind(Some(JStr(p.productId))), CartRoutes.Bind(Some(JNum(p.quantity))), Some(p.size))
  }

  /**
    The page opened from a link `/product/${id}` posts that id back, when it fits the
    `integer` column; an id beyond 32 bits is refused.
  */
  lemma ReceivedFromLink(id: int, quantity: int, size: string)
    ensures Received(CartPost(IntToString(id), quantity, size)).productId ==
            (if Int4Min <= id <= Int4Max then CartRoutes.Reads(id) else CartRoutes.Refused)
  {
    PgIntReadsRendered(id);
  }

  /** The page's own state: `quantity` starts at 1 and no size is selected. */
  class ProductView {
    const productId: string
    var quantity: int
    var selectedSize: Option<string>

    ghost predicate Valid()
      reads this
    {
      quantity >= 1
    }

    constructor (id: string)
      ensures Valid()
      ensures productId == id && quantity == 1 && selectedSize == None
    {
      productId := id;
      quantity := 1;
      selectedSize := None;
    }

    method Increase()
      requires Valid()
      modifies this`quantity
      ensures Valid()
      ensures quantity == Increased(old(quantity))
    {
      quantity := quantity + 1;
    }

    method Decrease()
      requires Valid()
      modifies this`quantity
      ensures Valid()
      ensures quantity == Decreased(old(quantity))
    {
      quantity := if quantity > 1 then quantity - 1 else 1;
    }

    /** A size button: the clicked size replaces any earlier choice. */
    method SelectSize(size: string)
      modifies this`selectedSize
      ensures selectedSize == Some(size)
    {
      selectedSize := Some(size);
    }

    /** `addToCart.mutationFn`: no request without a size (null or empty); otherwise the body to post. */
    function AddToCart(): (r: Result<CartPost, string>)
      reads this
      ensures r.Err? <==> selectedSize.None? || selectedSize.value == ""
      ensures r.Err? ==> r.error == SizeRequired
      ensures r.Ok? ==> r.value == CartPost(productId, quantity, selectedSize.value) && r.value.size != ""
    {
      match selectedSize
      case None => Err(SizeRequired)
      case Some(s) => if s == "" then Err(SizeRequired) else Ok(CartPost(productId, quantity, s))
    }
  }

  /**
    Whatever the page posts reaches the cart handler with a size and a quantity of at least 1,
    so the handler's "size missing" failure cannot come from this page; only a quantity
    pressed beyond 32 bits is refused.
  */
  lemma PostCarriesSize(v: ProductView)
    requires v.Valid() && v.AddToCart().Ok?
    ensures Received(v.AddToCart().value).size.Some?
    ensures Received(v.AddToCart().value).quantity.Reads? <==> v.quantity <= Int4Max
    ensures Received(v.AddToCart().value).quantity.Reads? ==> Received(v.AddToCart().value).quantity.value >= 1
  {
  }
}
