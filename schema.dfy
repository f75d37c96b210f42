/**
  The validation and coercion rules of shared/schema.ts: the `cart_items` row shape and
  its insert schema, the preprocessing of product fields that arrive as strings, and the
  password rules of registration and login.

  A request body is a JSON object, modelled as an insertion-ordered list of entries
  (`OrderedMap`); a key that is absent reads as `undefined`.
*/
module Schema {
  import opened Wrappers
  import opened Text
  import OM = OrderedMap

  /** The JSON values a request body carries; numbers are modelled as integers. */
  datatype JsValue = JNull | JBool(b: bool) | JNum(n: int) | JStr(s: string) | JArray(items: seq<JsValue>)

  type JsObject = OM.Entries<string, JsValue>

  /** A zod issue: the path of the offending field and its message. */
  datatype Issue = Issue(path: string, message: string)

  // ---------------------------------------------------------------------------
  // Product field preprocessing
  // ---------------------------------------------------------------------------

  /**
    `price` and `stockQuantity`: a string goes through `Number(...)` first, anything else is
    handed to `z.number()` as is. `Number` of a string that is not a number is NaN, which
    `z.number()` refuses; so is a missing field (`None`).
  */
  function CoerceNumber(v: Option<JsValue>): (r: Result<int, string>)
    ensures v == Some(JStr("")) ==> r == Ok(0)
    ensures forall n :: v == Some(JNum(n)) ==> r == Ok(n)
    ensures r.Ok? ==> v.Some? && (v.value.JNum? || v.value.JStr?)
    ensures v.Some? && v.value.JStr? ==> (r.Ok? <==> ParseInt(v.value.s).Some?)
    ensures v.Some? && v.value.JStr? && ParseInt(v.value.s).Some? ==> r == Ok(ParseInt(v.value.s).value)
  {
    match v
    case None => Err("Required")
    case Some(JNum(n)) => Ok(n)
    case Some(JStr(s)) =>
      (match ParseInt(s)
       case Some(n) => Ok(n)
       case None => Err("Expected number, received nan"))
    case Some(_) => Err("Expected number")
  }

  /** A number sent as its decimal text coerces to the same number as the number itself. */
  lemma CoerceNumberText(n: int)
    ensures CoerceNumber(Some(JStr(IntToString(n)))) == CoerceNumber(Some(JNum(n))) == Ok(n)
  {
    IntToStringRoundTrip(n);
  }

  /**
    `featured` and `trending`: a string becomes `val === 'true'`, anything else is handed
    to `z.boolean()` as is, which accepts only booleans.
  */
  function CoerceBool(v: Option<JsValue>): (r: Result<bool, string>)
    ensures r.Ok? <==> v.Some? && (v.value.JStr? || v.value.JBool?)
    ensures r == Ok(true) <==> v == Some(JBool(true)) || v == Some(JStr("true"))
    ensures forall b :: v == Some(JBool(b)) ==> r == Ok(b)
  {
    match v
    case Some(JStr(s)) => Ok(s == "true")
    case Some(JBool(b)) => Ok(b)
    case None => Err("Required")
    case Some(_) => Err("Expected boolean")
  }

  /** Any text other than exactly "true" — "True", "1", "yes" — coerces to false, never to an error. */
  lemma CoerceBoolText(s: string)
    requires s != "true"
    ensures CoerceBool(Some(JStr(s))) == Ok(false)
  {
  }

  /** The four coerced product fields, in schema order. */
  datatype ProductNumbers = ProductNumbers(price: int, stockQuantity: int, featured: bool, trending: bool)

  /** Some issue is reported on `path`. */
  predicate Reports(issues: seq<Issue>, path: string) {
    exists i :: 0 <= i < |issues| && issues[i].path == path
  }

  /** The issue a failed field check contributes, or none. */
  function IssueAt<T>(r: Result<T, string>, path: string): (s: seq<Issue>)
    ensures r.Ok? ==> s == []
    ensures r.Err? ==> s == [Issue(path, r.error)]
  {
    if r.Ok? then [] else [Issue(path, r.error)]
  }

  /** Issues gathered from four field checks name a path exactly when one of the checks failed on it. */
  lemma ReportsOfFour(a: seq<Issue>, b: seq<Issue>, c: seq<Issue>, d: seq<Issue>, path: string)
    requires |a| <= 1 && |b| <= 1 && |c| <= 1 && |d| <= 1
    ensures Reports(a + b + c + d, path) <==>
              (a != [] && a[0].path == path) || (b != [] && b[0].path == path) ||
              (c != [] && c[0].path == path) || (d != [] && d[0].path == path)
  {
    var s := a + b + c + d;
    if Reports(s, path) {
      var i :| 0 <= i < |s| && s[i].path == path;
      if i < |a| { assert a[i] == s[i]; }
      else if i < |a| + |b| { assert b[i - |a|] == s[i]; }
      else if i < |a| + |b| + |c| { assert c[i - |a| - |b|] == s[i]; }
      else { assert d[i - |a| - |b| - |c|] == s[i]; }
    }
    if a != [] && a[0].path == path { assert s[0] == a[0]; }
    if b != [] && b[0].path == path { assert s[|a|] == b[0]; }
    if c != [] && c[0].path == path { assert s[|a| + |b|] == c[0]; }
    if d != [] && d[0].path == path { assert s[|a| + |b| + |c|] == d[0]; }
  }

  /** The issues of four field checks in schema order: one for each check that failed, on its path. */
  function Gather<A, B, C, D>(a: Result<A, string>, pa: string, b: Result<B, string>, pb: string,
                              c: Result<C, string>, pc: string, d: Result<D, string>, pd: string): seq<Issue>
  {
    IssueAt(a, pa) + IssueAt(b, pb) + IssueAt(c, pc) + IssueAt(d, pd)
  }

  /**
    zod checks every field and collects the issues: none exactly when every check passes,
    one on each failing field's path and on no other, the first field's issue first and
    the last field's issue last.
  */
  lemma GatherReports<A, B, C, D>(a: Result<A, string>, pa: string, b: Result<B, string>, pb: string,
                                  c: Result<C, string>, pc: string, d: Result<D, string>, pd: string)
    requires pa != pb && pa != pc && pa != pd && pb != pc && pb != pd && pc != pd
    ensures var s := Gather(a, pa, b, pb, c, pc, d, pd);
            && (s == [] <==> a.Ok? && b.Ok? && c.Ok? && d.Ok?)
            && (Reports(s, pa) <==> a.Err?) && (Reports(s, pb) <==> b.Err?)
            && (Reports(s, pc) <==> c.Err?) && (Reports(s, pd) <==> d.Err?)
            && (forall i :: 0 <= i < |s| ==> s[i].path == pa || s[i].path == pb || s[i].path == pc || s[i].path == pd)
            && (a.Err? ==> s[0] == Issue(pa, a.error))
            && (d.Err? ==> s[|s| - 1] == Issue(pd, d.error))
  {
    var w, x, y, z := IssueAt(a, pa), IssueAt(b, pb), IssueAt(c, pc), IssueAt(d, pd);
    var s := w + x + y + z;
    ReportsOfFour(w, x, y, z, pa);
    ReportsOfFour(w, x, y, z, pb);
    ReportsOfFour(w, x, y, z, pc);
    ReportsOfFour(w, x, y, z, pd);
    forall i | 0 <= i < |s| ensures s[i].path == pa || s[i].path == pb || s[i].path == pc || s[i].path == pd {
      assert Reports(s, s[i].path);
      ReportsOfFour(w, x, y, z, s[i].path);
    }
  }

  /**
    The coerced part of `insertProductSchema.safeParse(body)`: every one of the four
    extended fields is required, and every one that fails is reported, in schema order.
    The other picked fields are left out of the model.
  */
  function CoerceProductFields(body: JsObject): (r: Result<ProductNumbers, seq<Issue>>)
    ensures r.Ok? <==> && CoerceNumber(OM.Get(body, "price")).Ok?
                       && CoerceNumber(OM.Get(body, "stockQuantity")).Ok?
                       && CoerceBool(OM.Get(body, "featured")).Ok?
                       && CoerceBool(OM.Get(body, "trending")).Ok?
    ensures r.Err? ==> && (Reports(r.error, "price") <==> CoerceNumber(OM.Get(body, "price")).Err?)
                       && (Reports(r.error, "stockQuantity") <==> CoerceNumber(OM.Get(body, "stockQuantity")).Err?)
                       && (Reports(r.error, "featured") <==> CoerceBool(OM.Get(body, "featured")).Err?)
                       && (Reports(r.error, "trending") <==> CoerceBool(OM.Get(body, "trending")).Err?)
  {
    ProductFromFields(OM.Get(body, "price"), OM.Get(body, "stockQuantity"), OM.Get(body, "featured"), OM.Get(body, "trending"))
  }

  /** The four coercions applied to the values of their keys; the issues come in schema order. */
  function ProductFromFields(price: Option<JsValue>, stock: Option<JsValue>, featured: Option<JsValue>, trending: Option<JsValue>)
    : (r: Result<ProductNumbers, seq<Issue>>)
    ensures r.Ok? <==> CoerceNumber(price).Ok? && CoerceNumber(stock).Ok? && CoerceBool(featured).Ok? && CoerceBool(trending).Ok?
    ensures r.Ok? ==> r.value == ProductNumbers(CoerceNumber(price).value, CoerceNumber(stock).value,
                                                CoerceBool(featured).value, CoerceBool(trending).value)
    ensures r.Err? ==> forall i :: 0 <= i < |r.error| ==> r.error[i].path in ["price", "stockQuantity", "featured", "trending"]
    ensures r.Err? ==> && (Reports(r.error, "price") <==> CoerceNumber(price).Err?)
                       && (Reports(r.error, "stockQuantity") <==> CoerceNumber(stock).Err?)
                       && (Reports(r.error, "featured") <==> CoerceBool(featured).Err?)
                       && (Reports(r.error, "trending") <==> CoerceBool(trending).Err?)
    ensures r.Err? && CoerceNumber(price).Err? ==> r.error[0] == Issue("price", CoerceNumber(price).error)
    ensures r.Err? && CoerceBool(trending).Err? ==> r.error[|r.error| - 1] == Issue("trending", CoerceBool(trending).error)
  {
    var p, q, f, t := CoerceNumber(price), CoerceNumber(stock), CoerceBool(featured), CoerceBool(trending);
    var issues := Gather(p, "price", q, "stockQuantity", f, "featured", t, "trending");
    GatherReports(p, "price", q, "stockQuantity", f, "featured", t, "trending");
    if issues == [] then Ok(ProductNumbers(p.value, q.value, f.value, t.value)) else Err(issues)
  }

  /** A form that sends every field as text parses to the numbers and flags it spelled. */
  lemma ProductFieldsFromText(price: int, stock: int, featured: bool, trending: bool)
    ensures ProductFromFields(Some(JStr(IntToString(price))), Some(JStr(IntToString(stock))),
                              Some(JStr(if featured then "true" else "false")),
                              Some(JStr(if trending then "true" else "false")))
            == Ok(ProductNumbers(price, stock, featured, trending))
  {
    CoerceNumberText(price);
    CoerceNumberText(stock);
  }

  // ---------------------------------------------------------------------------
  // Cart rows
  // ---------------------------------------------------------------------------

  /** A row of the `cart_items` table; `productId` is the nullable `product_id` column. */
  datatype CartRow = CartRow(id: int, productId: Option<int>, quantity: int, userId: int, size: string)

  /** The columns an INSERT names; `None` is a column the statement leaves out. */
  datatype CartInsert = CartInsert(productId: Option<int>, quantity: Option<int>, userId: Option<int>, size: Option<string>)

  /**
    The row the table builds from an insert under serial id `id`: `quantity` defaults to 1,
    `product_id` to NULL, while a missing `user_id` or `size` violates NOT NULL and nothing
    is stored.
  */
  function MakeCartRow(id: int, ins: CartInsert): (r: Result<CartRow, string>)
    ensures r.Ok? <==> ins.userId.Some? && ins.size.Some?
    ensures r.Ok? ==> && r.value.id == id
                      && r.value.productId == ins.productId
                      && r.value.userId == ins.userId.value
                      && r.value.size == ins.size.value
                      && r.value.quantity == (if ins.quantity.Some? then ins.quantity.value else 1)
    ensures r.Err? ==> r.error == (if ins.userId.None? then "user_id" else "size")
  {
    if ins.userId.None? then Err("user_id")
    else if ins.size.None? then Err("size")
    else Ok(CartRow(id, ins.productId, if ins.quantity.Some? then ins.quantity.value else 1, ins.userId.value, ins.size.value))
  }

  /** What `insertCartItemSchema` keeps: `id`, `quantity`, `product_id` and `user_id`, never `size`. */
  datatype CartItemFields = CartItemFields(id: Option<int>, quantity: Option<int>, productId: Option<Option<int>>, userId: int)

  /** An optional integer field: absent is `None`, a number is kept, anything else fails. */
  function OptionalInt(v: Option<JsValue>): (r: Result<Option<int>, string>)
    ensures r.Ok? <==> v.None? || v.value.JNum?
    ensures v.None? ==> r == Ok(None)
    ensures forall n :: v == Some(JNum(n)) ==> r == Ok(Some(n))
  {
    match v
    case None => Ok(None)
    case Some(JNum(n)) => Ok(Some(n))
    case Some(_) => Err("Expected number")
  }

  /** An optional, nullable integer field: absent is `None`, `null` is `Some(None)`. */
  function NullableInt(v: Option<JsValue>): (r: Result<Option<Option<int>>, string>)
    ensures r.Ok? <==> v.None? || v.value.JNull? || v.value.JNum?
    ensures v.None? ==> r == Ok(None)
    ensures v == Some(JNull) ==> r == Ok(Some(None))
    ensures forall n :: v == Some(JNum(n)) ==> r == Ok(Some(Some(n)))
  {
    match v
    case None => Ok(None)
    case Some(JNull) => Ok(Some(None))
    case Some(JNum(n)) => Ok(Some(Some(n)))
    case Some(_) => Err("Expected number")
  }

  /** A required integer field. */
  function RequiredInt(v: Option<JsValue>): (r: Result<int, string>)
    ensures r.Ok? <==> v.Some? && v.value.JNum?
    ensures r.Ok? ==> v == Some(JNum(r.value))
    ensures v.None? ==> r == Err("Required")
  {
    match v
    case Some(JNum(n)) => Ok(n)
    case None => Err("Required")
    case Some(_) => Err("Expected number")
  }

  /**
    `insertCartItemSchema.safeParse(body)`: `id` and `quantity` are optional (serial,
    defaulted), `product_id` is optional and nullable, `user_id` is required, and every
    other key, `size` included, is stripped. Every failing field is reported, in schema order.
  */
  function ParseCartItem(body: JsObject): (r: Result<CartItemFields, seq<Issue>>)
    ensures r.Ok? <==> && OptionalInt(OM.Get(body, "id")).Ok?
                       && OptionalInt(OM.Get(body, "quantity")).Ok?
                       && NullableInt(OM.Get(body, "product_id")).Ok?
                       && RequiredInt(OM.Get(body, "user_id")).Ok?
    ensures r.Ok? ==> && r.value.id == OptionalInt(OM.Get(body, "id")).value
                      && r.value.quantity == OptionalInt(OM.Get(body, "quantity")).value
                      && r.value.productId == NullableInt(OM.Get(body, "product_id")).value
                      && OM.Get(body, "user_id") == Some(JNum(r.value.userId))
    ensures r.Ok? ==> (r.value.quantity.Some? <==> OM.HasKey(body, "quantity"))
    ensures OM.Get(body, "user_id").None? ==> r.Err? && Reports(r.error, "user_id")
    ensures r.Err? ==> && (Reports(r.error, "id") <==> OptionalInt(OM.Get(body, "id")).Err?)
                       && (Reports(r.error, "quantity") <==> OptionalInt(OM.Get(body, "quantity")).Err?)
                       && (Reports(r.error, "product_id") <==> NullableInt(OM.Get(body, "product_id")).Err?)
                       && (Reports(r.error, "user_id") <==> RequiredInt(OM.Get(body, "user_id")).Err?)
  {
    CartItemFromFields(OM.Get(body, "id"), OM.Get(body, "quantity"), OM.Get(body, "product_id"), OM.Get(body, "user_id"))
  }

  /** The insert schema applied to the values of its four keys; the issues come in schema order. */
  function CartItemFromFields(id: Option<JsValue>, quantity: Option<JsValue>, productId: Option<JsValue>, userId: Option<JsValue>)
    : (r: Result<CartItemFields, seq<Issue>>)
    ensures r.Ok? <==> && OptionalInt(id).Ok? && OptionalInt(quantity).Ok?
                       && NullableInt(productId).Ok? && RequiredInt(userId).Ok?
    ensures r.Ok? ==> && r.value.id == OptionalInt(id).value
                      && r.value.quantity == OptionalInt(quantity).value
                      && r.value.productId == NullableInt(productId).value
                      && userId == Some(JNum(r.value.userId))
    ensures r.Ok? ==> (r.value.quantity.Some? <==> quantity.Some?)
    ensures userId.None? ==> r.Err? && Reports(r.error, "user_id")
    ensures r.Err? ==> && (Reports(r.error, "id") <==> OptionalInt(id).Err?)
                       && (Reports(r.error, "quantity") <==> OptionalInt(quantity).Err?)
                       && (Reports(r.error, "product_id") <==> NullableInt(productId).Err?)
                       && (Reports(r.error, "user_id") <==> RequiredInt(userId).Err?)
  {
    var i, q, p, u := OptionalInt(id), OptionalInt(quantity), NullableInt(productId), RequiredInt(userId);
    var issues := Gather(i, "id", q, "quantity", p, "product_id", u, "user_id");
    GatherReports(i, "id", q, "quantity", p, "product_id", u, "user_id");
    if issues == [] then Ok(CartItemFields(i.value, q.value, p.value, u.value)) else Err(issues)
  }

  /** The insert schema never looks at `size`: whatever the body says there, the outcome is the same. */
  lemma ParseCartItemIgnoresSize(body: JsObject, size: JsValue)
    ensures ParseCartItem(OM.Set(body, "size", size)) == ParseCartItem(body)
  {
    var sized := OM.Set(body, "size", size);
    assert OM.Get(sized, "id") == OM.Get(body, "id");
    assert OM.Get(sized, "quantity") == OM.Get(body, "quantity");
    assert OM.Get(sized, "product_id") == OM.Get(body, "product_id");
    assert OM.Get(sized, "user_id") == OM.Get(body, "user_id");
  }

  // ---------------------------------------------------------------------------
  // Users
  // ---------------------------------------------------------------------------

  const ShortPasswordMessage := "Password must be at least 8 characters"
  const MismatchMessage := "Passwords do not match"
  const PasswordRequiredMessage := "Password is required"
  const InvalidEmailMessage := "Invalid email"

  /**
    The password issues of `insertUserSchema`: a password shorter than 8 characters, then
    (the refinement still runs on a short password) a confirmation that differs, reported
    on `confirmPassword`.
  */
  function RegistrationIssues(password: string, confirmPassword: string): (r: seq<Issue>)
    ensures r == [] <==> |password| >= 8 && password == confirmPassword
    ensures Issue("password", ShortPasswordMessage) in r <==> |password| < 8
    ensures Issue("confirmPassword", MismatchMessage) in r <==> password != confirmPassword
    ensures forall i :: 0 <= i < |r| ==> r[i].path in ["password", "confirmPassword"]
  {
    (if |password| < 8 then [Issue("password", ShortPasswordMessage)] else []) +
    (if password != confirmPassword then [Issue("confirmPassword", MismatchMessage)] else [])
  }

  /**
    `loginUserSchema`: the e-mail must pass zod's `.email()` check (an opaque predicate of
    this model, given as `emailOk`) and the password must be non-empty.
  */
  function LoginIssues(emailOk: bool, password: string): (r: seq<Issue>)
    ensures r == [] <==> emailOk && |password| >= 1
    ensures Issue("password", PasswordRequiredMessage) in r <==> password == ""
    ensures Issue("email", InvalidEmailMessage) in r <==> !emailOk
  {
    (if emailOk then [] else [Issue("email", InvalidEmailMessage)]) +
    (if |password| < 1 then [Issue("password", PasswordRequiredMessage)] else [])
  }

  /** Any password registration accepts, login accepts too (given a well-formed e-mail). */
  lemma RegistrationPasswordLogsIn(password: string)
    requires RegistrationIssues(password, password) == []
    ensures LoginIssues(true, password) == []
  {
  }
}
