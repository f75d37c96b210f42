/**
  The cart handlers of server/routes.ts as operations on the `cart_items` table, plus the
  two pure mappings of that file the storefront depends on: the `featured`/`trending`
  flags of `PUT /api/products/:id` and the status of a failed waitlist request.

  The table is a list of rows in storage order with the serial counter that numbers new
  rows. `GET /api/cart` joins it with the `products` table, given as a list of rows.
*/
module CartRoutes {
  import opened Wrappers
  import opened Text
  import opened Schema
  import opened Positions
  import Auth
  import Storage

  /** The columns of a `products` row that the cart view selects. */
  datatype ProductRow = ProductRow(id: int, name: string, price: int, imageUrl: string)

  /** A row of the `GET /api/cart` answer: product image, name and price, then the cart row's id, size and quantity. */
  datatype ViewRow = ViewRow(productImage: string, productName: string, productPrice: int,
                             cartItemId: int, itemSize: string, itemQuantity: int)

  /**
    A body value as Postgres binds it to an `integer` parameter: left out or null
    (`Absent`), an integer it reads, or a value it refuses to read as an integer.
  */
  datatype IntParam = Absent | Reads(value: int) | Refused {
    /** The column value it stores: NULL when absent. */
    function Column(): Option<int>
      requires !Refused?
    {
      if Reads? then Some(value) else None
    }
  }

  /**
    How a body value reaches an `integer` parameter: a missing or null value is NULL; a
    number or a string is sent as its text, which Postgres reads by `PgInt`; a boolean or an
    array is sent as text that never reads as an integer.
  */
  function Bind(v: Option<JsValue>): (p: IntParam)
    ensures p.Absent? <==> v.None? || v == Some(JNull)
    ensures forall n :: v == Some(JNum(n)) ==> p == (if Int4Min <= n <= Int4Max then Reads(n) else Refused)
    ensures forall s :: v == Some(JStr(s)) ==> (p.Reads? <==> PgInt(s).Some?) && (p.Reads? ==> Some(p.value) == PgInt(s))
    ensures p.Reads? ==> Int4Min <= p.value <= Int4Max
  {
    match v
    case None => Absent
    case Some(JNull) => Absent
    case Some(JNum(n)) => PgIntReadsRendered(n); FromText(IntToString(n))
    case Some(JStr(s)) => FromText(s)
    case Some(_) => Refused
  }

  function FromText(s: string): (p: IntParam)
    ensures !p.Absent?
  {
    match PgInt(s)
    case Some(n) => Reads(n)
    case None => Refused
  }

  /** The fields `POST /api/cart` reads from the body, as bound; `None` is a size the body leaves out. */
  datatype AddBody = AddBody(productId: IntParam, quantity: IntParam, size: Option<string>)

  function Joined(p: ProductRow, row: CartRow): ViewRow {
    ViewRow(p.imageUrl, p.name, p.price, row.id, row.size, row.quantity)
  }

  /** The join of one cart row with every product whose id equals its `product_id` (none when NULL). */
  function Matches(row: CartRow, products: seq<ProductRow>): (r: seq<ViewRow>)
    ensures forall v :: v in r <==> exists p :: p in products && row.productId == Some(p.id) && v == Joined(p, row)
  {
    if products == [] then []
    else
      var rest := Matches(row, products[1..]);
      assert forall p :: p in products[1..] ==> p in products;
      assert forall p :: p in products && p != products[0] ==> p in products[1..];
      (if row.productId == Some(products[0].id) then [Joined(products[0], row)] else []) + rest
  }

  /** `FROM cart_items INNER JOIN products ON products.id = cart_items.product_id WHERE user_id = uid`. */
  function OwnedJoin(rows: seq<CartRow>, products: seq<ProductRow>, uid: int): (r: seq<ViewRow>)
    ensures forall v :: v in r <==>
      exists row, p :: row in rows && p in products && row.userId == uid && row.productId == Some(p.id) && v == Joined(p, row)
  {
    if rows == [] then []
    else
      var head := if rows[0].userId == uid then Matches(rows[0], products) else [];
      var rest := OwnedJoin(rows[1..], products, uid);
      assert forall row :: row in rows[1..] ==> row in rows;
      assert forall row :: row in rows && row != rows[0] ==> row in rows[1..];
      head + rest
  }

  /**
    An orphaned row (NULL or dangling `product_id`) never shows up in the view: with the
    serial ids distinct, no view row carries its id.
  */
  lemma OrphanHidden(rows: seq<CartRow>, next: int, products: seq<ProductRow>, uid: int, row: CartRow)
    requires IdsOk(rows, next) && row in rows
    requires forall p :: p in products ==> row.productId != Some(p.id)
    ensures forall v :: v in OwnedJoin(rows, products, uid) ==> v.cartItemId != row.id
  {
    forall v | v in OwnedJoin(rows, products, uid) ensures v.cartItemId != row.id {
      var other, p :| other in rows && p in products && other.userId == uid
                      && other.productId == Some(p.id) && v == Joined(p, other);
      assert other != row;
      var i :| 0 <= i < |rows| && rows[i] == other;
      var j :| 0 <= j < |rows| && rows[j] == row;
      assert i != j;
    }
  }

  /** The rows of one user are the same whatever the other users' rows are. */
  lemma ViewIgnoresOtherUsers(rows: seq<CartRow>, extra: CartRow, products: seq<ProductRow>, uid: int)
    requires extra.userId != uid
    ensures OwnedJoin(rows + [extra], products, uid) == OwnedJoin(rows, products, uid)
    decreases |rows|
  {
    if rows != [] {
      assert (rows + [extra])[1..] == rows[1..] + [extra];
      ViewIgnoresOtherUsers(rows[1..], extra, products, uid);
    }
  }

  /** `.filter(x => !drop(x))` over table rows: the rows a DELETE leaves, in order. */
  function Keep(rows: seq<CartRow>, drop: CartRow -> bool): (r: seq<CartRow>)
    ensures forall x :: x in r <==> x in rows && !drop(x)
    ensures |r| <= |rows|
  {
    if rows == [] then []
    else
      var rest := Keep(rows[1..], drop);
      assert forall x :: x in rows[1..] ==> x in rows;
      assert forall x :: x in rows && x != rows[0] ==> x in rows[1..];
      if drop(rows[0]) then rest else [rows[0]] + rest
  }

  /** Every row that `drop` does not match has its position in `p`. */
  predicate CoversKept(rows: seq<CartRow>, drop: CartRow -> bool, p: seq<nat>) {
    forall i :: 0 <= i < |rows| && !drop(rows[i]) ==> i in p
  }

  /**
    The rows a DELETE leaves keep their order: they sit at ascending positions `p` of the
    old table, and every old row the WHERE clause does not match is at one of them.
  */
  lemma {:induction false} KeepInOrder(rows: seq<CartRow>, drop: CartRow -> bool) returns (p: seq<nat>)
    ensures PositionsOf(rows, Keep(rows, drop), p)
    ensures Ascending(p)
    ensures CoversKept(rows, drop, p)
  {
    if rows == [] {
      return [];
    }
    var q := KeepInOrder(rows[1..], drop);
    var rest := Keep(rows[1..], drop);
    ShiftPositions(rows, rest, q);
    ShiftAscending(q);
    KeepCovers(rows, drop, q);
    if drop(rows[0]) {
      p := Shift(q);
    } else {
      p := [0] + Shift(q);
      assert Keep(rows, drop) == [rows[0]] + rest;
      ConsPositions(rows, rest, Shift(q));
    }
  }

  /** Positions covering the tail's kept rows, shifted, cover the kept rows of the table. */
  lemma KeepCovers(rows: seq<CartRow>, drop: CartRow -> bool, q: seq<nat>)
    requires rows != [] && CoversKept(rows[1..], drop, q)
    ensures drop(rows[0]) ==> CoversKept(rows, drop, Shift(q))
    ensures CoversKept(rows, drop, [0] + Shift(q))
  {
    forall i | 1 <= i < |rows| && !drop(rows[i]) ensures i in Shift(q) && i in [0] + Shift(q) {
      assert rows[1..][i - 1] == rows[i];
      ShiftCovers(q, i - 1);
    }
    assert ([0] + Shift(q))[0] == 0;
  }

  /** `UPDATE cart_items SET quantity = q WHERE id = id`: only the rows with that id get the new quantity. */
  function SetQuantity(rows: seq<CartRow>, id: int, q: int): (r: seq<CartRow>)
    ensures |r| == |rows|
    ensures forall i :: 0 <= i < |rows| && rows[i].id == id ==> r[i] == rows[i].(quantity := q)
    ensures forall i :: 0 <= i < |rows| && rows[i].id != id ==> r[i] == rows[i]
  {
    seq(|rows|, i requires 0 <= i < |rows| => if rows[i].id == id then rows[i].(quantity := q) else rows[i])
  }

  /** The primary key: ids are distinct, and all of them lie below the next serial value. */
  predicate IdsOk(rows: seq<CartRow>, next: int) {
    && (forall i, j :: 0 <= i < j < |rows| ==> rows[i].id != rows[j].id)
    && (forall i :: 0 <= i < |rows| ==> 1 <= rows[i].id < next)
  }

  predicate HasRow(rows: seq<CartRow>, id: int) {
    exists i :: 0 <= i < |rows| && rows[i].id == id
  }

  /** The `cart_items` table and the sequence behind its serial `id` column. */
  class CartTable {
    var rows: seq<CartRow>
    var nextId: int

    ghost predicate Valid()
      reads this
    {
      1 <= nextId && IdsOk(rows, nextId)
    }

    constructor ()
      ensures Valid() && rows == [] && nextId == 1
    {
      rows, nextId := [], 1;
    }

    /**
      `GET /api/cart`: 401 for an anonymous request; otherwise exactly the caller's rows
      whose product exists, each joined with that product.
    */
    function View(req: Auth.Request, products: seq<ProductRow>): (r: Result<seq<ViewRow>, int>)
      reads this
      ensures req.user.None? <==> r == Err(401)
      ensures r.Ok? ==> forall v :: v in r.value <==>
        exists row, p :: row in rows && p in products && row.userId == req.user.value.id &&
                         row.productId == Some(p.id) && v == Joined(p, row)
    {
      match req.user
      case None => Err(401)
      case Some(u) => Ok(OwnedJoin(rows, products, u.id))
    }

    /**
      `POST /api/cart`: 401 for an anonymous request and nothing changes. Otherwise one new
      row is inserted, never merged, owned by the session user whatever the body says; the
      quantity defaults to 1. A `product_id` or `quantity` Postgres cannot read as an integer
      fails the statement when it is bound (500), before the serial value is drawn; a missing
      size violates NOT NULL (500) after the serial value was already drawn.
    */
    method Add(req: Auth.Request, body: AddBody) returns (status: int)
      requires Valid()
      modifies this
      ensures Valid()
      ensures req.user.None? ==> status == 401 && rows == old(rows) && nextId == old(nextId)
      ensures req.user.Some? && (body.productId.Refused? || body.quantity.Refused?) ==>
                status == 500 && rows == old(rows) && nextId == old(nextId)
      ensures req.user.Some? && !body.productId.Refused? && !body.quantity.Refused? && body.size.None? ==>
                status == 500 && rows == old(rows) && nextId == old(nextId) + 1
      ensures req.user.Some? && !body.productId.Refused? && !body.quantity.Refused? && body.size.Some? ==>
                && status == 201
                && rows == old(rows) + [CartRow(old(nextId), body.productId.Column(),
                                                if body.quantity.Reads? then body.quantity.value else 1,
                                                req.user.value.id, body.size.value)]
                && nextId == old(nextId) + 1
    {
      if req.user.None? {
        return 401;
      }
      if body.productId.Refused? || body.quantity.Refused? {
        return 500;
      }
      var id := nextId;
      nextId := nextId + 1;
      var made := MakeCartRow(id, CartInsert(body.productId.Column(), body.quantity.Column(), Some(req.user.value.id), body.size));
      match made {
        case Err(_) =>
          status := 500;
        case Ok(row) =>
          rows := rows + [row];
          status := 201;
      }
    }

    /**
      `PUT /api/cart/:id` with `id` and `quantity` taken from the body, as `Bind` reads them:
      no session check and no lower bound. A value Postgres cannot read as an integer fails
      the statement when it is bound (500) and nothing changes. A missing id matches no row;
      a missing quantity on an existing row violates NOT NULL (500) and nothing changes.
    */
    method UpdateQuantity(id: IntParam, quantity: IntParam) returns (status: int)
      requires Valid()
      modifies this`rows
      ensures Valid()
      ensures id.Refused? || quantity.Refused? ==> status == 500 && rows == old(rows)
      ensures id.Absent? && !quantity.Refused? ==> status == 201 && rows == old(rows)
      ensures id.Reads? && quantity.Absent? && HasRow(old(rows), id.value) ==> status == 500 && rows == old(rows)
      ensures id.Reads? && quantity.Absent? && !HasRow(old(rows), id.value) ==> status == 201 && rows == old(rows)
      ensures id.Reads? && quantity.Reads? ==> status == 201 && rows == SetQuantity(old(rows), id.value, quantity.value)
    {
      if id.Refused? || quantity.Refused? {
        return 500;
      }
      if id.Absent? {
        return 201;
      }
      if quantity.Absent? {
        if HasRow(rows, id.value) {
          return 500;
        }
        return 201;
      }
      rows := SetQuantity(rows, id.value, quantity.value);
      status := 201;
    }

    /** `DELETE /api/cart/:id` with the id taken from the body: drops that row; a missing or unknown id drops nothing. */
    method DeleteItem(id: Option<int>)
      requires Valid()
      modifies this`rows
      ensures Valid()
      ensures rows == Keep(old(rows), (x: CartRow) => id == Some(x.id))
    {
      KeepValid(rows, nextId, (x: CartRow) => id == Some(x.id));
      rows := Keep(rows, (x: CartRow) => id == Some(x.id));
    }

    /**
      `DELETE /api/cart`: drops every row of the session user. An anonymous request fails
      on `req.user.id` before the query, so nothing changes.
    */
    method Clear(req: Auth.Request)
      requires Valid()
      modifies this`rows
      ensures Valid()
      ensures req.user.None? ==> rows == old(rows)
      ensures req.user.Some? ==> rows == Keep(old(rows), (x: CartRow) => x.userId == req.user.value.id)
    {
      if req.user.Some? {
        var uid := req.user.value.id;
        KeepValid(rows, nextId, (x: CartRow) => x.userId == uid);
        rows := Keep(rows, (x: CartRow) => x.userId == uid);
      }
    }
  }

  /** A filtered table keeps distinct ids below the counter. */
  lemma {:induction false} KeepValid(rows: seq<CartRow>, next: int, drop: CartRow -> bool)
    requires IdsOk(rows, next)
    ensures IdsOk(Keep(rows, drop), next)
  {
    if rows != [] {
      IdsOkTail(rows, next);
      KeepValid(rows[1..], next, drop);
      if !drop(rows[0]) {
        IdsOkCons(rows[0], Keep(rows[1..], drop), next);
      }
    }
  }

  lemma IdsOkTail(rows: seq<CartRow>, next: int)
    requires rows != [] && IdsOk(rows, next)
    ensures IdsOk(rows[1..], next)
    ensures forall x :: x in rows[1..] ==> x.id != rows[0].id
  {
    var t := rows[1..];
    forall i, j | 0 <= i < j < |t| ensures t[i].id != t[j].id {
      assert t[i] == rows[i + 1] && t[j] == rows[j + 1];
    }
    forall x | x in t ensures x.id != rows[0].id {
      var k :| 0 <= k < |t| && t[k] == x;
      assert rows[k + 1] == x;
    }
  }

  lemma IdsOkCons(h: CartRow, rest: seq<CartRow>, next: int)
    requires IdsOk(rest, next) && 1 <= h.id < next
    requires forall x :: x in rest ==> x.id != h.id
    ensures IdsOk([h] + rest, next)
  {
    var r := [h] + rest;
    forall i, j | 0 <= i < j < |r| ensures r[i].id != r[j].id {
      assert r[j] == rest[j - 1];
      if i == 0 { assert r[j] in rest; } else { assert r[i] == rest[i - 1]; }
    }
    forall i | 0 <= i < |r| ensures 1 <= r[i].id < next {
      if i > 0 { assert r[i] == rest[i - 1]; }
    }
  }

  /** Clearing removes every row of the user and keeps every row of everyone else. */
  lemma ClearScope(rows: seq<CartRow>, uid: int)
    ensures forall x :: x in Keep(rows, (x: CartRow) => x.userId == uid) ==> x.userId != uid
    ensures forall x :: x in rows && x.userId != uid ==> x in Keep(rows, (x: CartRow) => x.userId == uid)
  {
  }

  /** Deleting twice is deleting once. */
  lemma {:induction false} KeepIdempotent(rows: seq<CartRow>, drop: CartRow -> bool)
    ensures Keep(Keep(rows, drop), drop) == Keep(rows, drop)
  {
    if rows != [] {
      KeepIdempotent(rows[1..], drop);
      if !drop(rows[0]) {
        assert ([rows[0]] + Keep(rows[1..], drop))[1..] == Keep(rows[1..], drop);
      }
    }
  }

  /** A quantity update touches only the chosen row, and accepts zero or a negative quantity. */
  lemma UpdateKeepsOthers(rows: seq<CartRow>, id: int, q: int)
    ensures forall x :: x in rows && x.id != id ==> x in SetQuantity(rows, id, q)
    ensures forall x :: x in SetQuantity(rows, id, q) ==> x in rows || (x.id == id && x.quantity == q)
  {
    var r := SetQuantity(rows, id, q);
    forall x | x in rows && x.id != id ensures x in r {
      var i :| 0 <= i < |rows| && rows[i] == x;
      assert r[i] == x;
    }
    forall x | x in r ensures x in rows || (x.id == id && x.quantity == q) {
      var i :| 0 <= i < |r| && r[i] == x;
      if rows[i].id != id { assert rows[i] == x; }
    }
  }

  // ---------------------------------------------------------------------------
  // PUT /api/products/:id flags and the waitlist status
  // ---------------------------------------------------------------------------

  /** `featured === true || featured === 'true'`. */
  function RouteFlag(v: Option<JsValue>): (b: bool)
    ensures b <==> v == Some(JBool(true)) || v == Some(JStr("true"))
  {
    match v
    case Some(JBool(x)) => x
    case Some(JStr(s)) => s == "true"
    case _ => false
  }

  /** The route's flag is true exactly when the schema's coercion yields true; it never fails where the schema does. */
  lemma RouteFlagAgreesWithSchema(v: Option<JsValue>)
    ensures RouteFlag(v) <==> CoerceBool(v) == Ok(true)
    ensures CoerceBool(v).Err? ==> !RouteFlag(v)
  {
  }

  /** How `POST /api/waitlist` can fail: the body does not validate, or storage throws a message. */
  datatype WaitlistFailure = InvalidBody | Thrown(message: string)

  const DuplicateMarker := "already on our waitlist"

  /** The status of a failed waitlist request. */
  function WaitlistErrorStatus(f: WaitlistFailure): (status: int)
    ensures f.InvalidBody? ==> status == 400
    ensures f.Thrown? ==> (status == 409 <==> Contains(f.message, DuplicateMarker))
    ensures f.Thrown? && !Contains(f.message, DuplicateMarker) ==> status == 500
  {
    match f
    case InvalidBody => 400
    case Thrown(m) => if Contains(m, DuplicateMarker) then 409 else 500
  }

  /** The storage's duplicate-email error is reported as a conflict. */
  lemma DuplicateIsConflict()
    ensures WaitlistErrorStatus(Thrown(Storage.DuplicateWaitlistMessage)) == 409
  {
    assert Storage.DuplicateWaitlistMessage == "This email is " + DuplicateMarker + "";
    ContainsInfix("This email is ", DuplicateMarker, "");
  }

  /**
    `POST /api/waitlist` over the in-memory store: a missing name or e-mail is 400, an
    e-mail already listed (ignoring case) is 409, and otherwise the entry is stored and
    the answer is 201.
  */
  method PostWaitlist(store: Storage.MemStorage, name: Option<string>, email: Option<string>) returns (status: int)
    requires store.Valid()
    modifies store`waitlist, store`waitlistId
    ensures store.Valid()
    ensures name.None? || email.None? ==>
              status == 400 && store.waitlist == old(store.waitlist) && store.waitlistId == old(store.waitlistId)
    ensures name.Some? && email.Some? && Storage.EmailListed(Storage.OM.Values(old(store.waitlist)), email.value) ==>
              status == 409 && store.waitlist == old(store.waitlist) && store.waitlistId == old(store.waitlistId)
    ensures name.Some? && email.Some? && !Storage.EmailListed(Storage.OM.Values(old(store.waitlist)), email.value) ==>
              && status == 201
              && store.waitlist == old(store.waitlist) + [(old(store.waitlistId), Storage.WaitlistEntry(old(store.waitlistId), name.value, email.value))]
              && store.waitlistId == old(store.waitlistId) + 1
  {
    if name.None? || email.None? {
      return WaitlistErrorStatus(InvalidBody);
    }
    var r := store.AddToWaitlist(name.value, email.value);
    match r {
      case Ok(_) =>
        status := 201;
      case Err(m) =>
        DuplicateIsConflict();
        status := WaitlistErrorStatus(Thrown(m));
    }
  }
}
