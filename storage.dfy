/**
  The in-memory store `MemStorage` of server/storage.ts: insertion-ordered tables keyed
  by id, each with a post-incremented id counter. Covered here: the cart operations,
  the waitlist, product update and delete, the seeded categories and the lookups by slug
  and by e-mail.
*/
module Storage {
  import opened Wrappers
  import opened Text
  import OM = OrderedMap
  import opened Positions

  datatype Category = Category(id: int, name: string, slug: string, imageUrl: string)

  datatype Product = Product(
    id: int, itemId: Option<string>, featured: bool, trending: bool,
    name: string, description: string, price: int, imageUrl: string,
    categoryId: int, sizes: OM.Entries<string, bool>, stockQuantity: int)

  /** The fields of `Partial<InsertProduct>`; `None` is a field the caller left out. */
  datatype ProductPatch = ProductPatch(
    name: Option<string>, description: Option<string>, price: Option<int>,
    itemId: Option<Option<string>>, imageUrl: Option<string>,
    sizes: Option<OM.Entries<string, bool>>, stockQuantity: Option<int>,
    featured: Option<bool>, trending: Option<bool>)

  /** A cart row of the in-memory store, owned by a session id. */
  datatype CartItem = CartItem(id: int, sessionId: string, productId: int, quantity: int)

  /** What a caller hands to `addCartItem`; `quantity` may be left out. */
  datatype CartItemInput = CartItemInput(sessionId: string, productId: int, quantity: Option<int>)

  datatype WaitlistEntry = WaitlistEntry(id: int, name: string, email: string)

  datatype User = User(id: int, email: string, name: string, passwordHash: string, role: string)

  const DuplicateWaitlistMessage := "This email is already on our waitlist"

  /** `item.quantity || 1`: a missing or zero quantity counts as one. */
  function QuantityOrOne(q: Option<int>): (r: int)
    ensures r == 1 <==> q == None || q == Some(0) || q == Some(1)
    ensures q.Some? && q.value != 0 ==> r == q.value
  {
    match q
    case None => 1
    case Some(n) => if n == 0 then 1 else n
  }

  /** Image addresses of the seeded categories. */
  const SummerImage := "https://images.pexels.com/photos/1043474/pexels-photo-1043474.jpeg?auto=compress&cs=tinysrgb&w=1600"
  const WinterImage := "https://images.pexels.com/photos/1183266/pexels-photo-1183266.jpeg?auto=compress&cs=tinysrgb&w=1600"
  const PartyImage := "https://images.pexels.com/photos/27313021/pexels-photo-27313021/free-photo-of-a-man-and-woman-posing-for-a-photo-in-front-of-a-chair.jpeg?auto=compress&cs=tinysrgb&w=1600"
  const BottomImage := "https://images.pexels.com/photos/3914693/pexels-photo-3914693.jpeg?auto=compress&cs=tinysrgb&w=1600"
  const TrackImage := "https://images.pexels.com/photos/18600731/pexels-photo-18600731/free-photo-of-attractive-woman-sitting-in-the-studio.jpeg?auto=compress&cs=tinysrgb&w=1600"
  const AccessoriesImage := "https://images.pexels.com/photos/31323080/pexels-photo-31323080/free-photo-of-elegant-leather-belts-displayed-on-gray-surface.jpeg"

  /** The six categories `initializeData` seeds, as (name, slug, image) in listed order. */
  function SeedCategories(): (r: seq<(string, string, string)>)
    ensures |r| == 6
    ensures forall i :: 0 <= i < 6 ==> |r[i].1| > 0
    ensures forall i, j :: 0 <= i < j < 6 ==> r[i].1[0] != r[j].1[0]
  {
    [ ("Summer Articles", "summer-articles", SummerImage),
      ("Winter Articles", "winter-articles", WinterImage),
      ("Party Wear", "party-wear", PartyImage),
      ("Bottom Wear", "bottom-wear", BottomImage),
      ("Track Suits", "track-suits", TrackImage),
      ("Accessories", "accessories", AccessoriesImage) ]
  }

  /** The category table after seeding the first `n` seeds, the j-th under id j + 1. */
  function Seeded(seeds: seq<(string, string, string)>, n: nat): (r: OM.Entries<int, Category>)
    requires n <= |seeds|
    ensures |r| == n
    ensures forall j :: 0 <= j < n ==> r[j] == (j + 1, Category(j + 1, seeds[j].0, seeds[j].1, seeds[j].2))
  {
    if n == 0 then []
    else Seeded(seeds, n - 1) + [(n, Category(n, seeds[n - 1].0, seeds[n - 1].1, seeds[n - 1].2))]
  }

  /** `Array.from(categories.values()).find(c => c.slug === slug)`. */
  function FindBySlug(cats: seq<Category>, slug: string): (r: Option<Category>)
    ensures r.None? <==> forall i :: 0 <= i < |cats| ==> cats[i].slug != slug
    ensures r.Some? ==> exists i :: 0 <= i < |cats| && cats[i] == r.value && r.value.slug == slug &&
                                  forall j :: 0 <= j < i ==> cats[j].slug != slug
  {
    if cats == [] then None
    else if cats[0].slug == slug then Some(cats[0])
    else
      var r := FindBySlug(cats[1..], slug);
      assert r.Some? ==> exists i :: 0 <= i < |cats| && cats[i] == r.value && r.value.slug == slug &&
                                     forall j :: 0 <= j < i ==> cats[j].slug != slug by {
        if r.Some? {
          var i :| 0 <= i < |cats[1..]| && cats[1..][i] == r.value && r.value.slug == slug &&
                   forall j :: 0 <= j < i ==> cats[1..][j].slug != slug;
          assert cats[i + 1] == r.value;
          forall j | 0 <= j < i + 1 ensures cats[j].slug != slug {
            if j > 0 { assert cats[j] == cats[1..][j - 1]; }
          }
        }
      }
      r
  }

  /** `Array.from(users.values()).find(u => u.email.toLowerCase() === email.toLowerCase())`. */
  function FindUserByEmail(users: seq<User>, email: string): (r: Option<User>)
    ensures r.None? <==> forall i :: 0 <= i < |users| ==> !SameIgnoringCase(users[i].email, email)
    ensures r.Some? ==> exists i :: 0 <= i < |users| && users[i] == r.value && SameIgnoringCase(r.value.email, email) &&
                                   forall j :: 0 <= j < i ==> !SameIgnoringCase(users[j].email, email)
  {
    if users == [] then None
    else if SameIgnoringCase(users[0].email, email) then Some(users[0])
    else
      var r := FindUserByEmail(users[1..], email);
      assert r.None? ==> forall i :: 0 <= i < |users| ==> !SameIgnoringCase(users[i].email, email) by {
        if r.None? {
          forall i | 0 <= i < |users| ensures !SameIgnoringCase(users[i].email, email) {
            if i > 0 { assert users[i] == users[1..][i - 1]; }
          }
        }
      }
      assert r.Some? ==> exists i :: 0 <= i < |users| && users[i] == r.value && SameIgnoringCase(r.value.email, email) &&
                                     forall j :: 0 <= j < i ==> !SameIgnoringCase(users[j].email, email) by {
        if r.Some? {
          var i :| 0 <= i < |users[1..]| && users[1..][i] == r.value && SameIgnoringCase(r.value.email, email) &&
                   forall j :: 0 <= j < i ==> !SameIgnoringCase(users[1..][j].email, email);
          assert users[i + 1] == r.value;
          forall j | 0 <= j < i + 1 ensures !SameIgnoringCase(users[j].email, email) {
            if j > 0 { assert users[j] == users[1..][j - 1]; }
          }
        }
      }
      r
  }

  /** The item belongs to the session and is for the product. */
  predicate SameLine(x: CartItem, sessionId: string, productId: int) {
    x.sessionId == sessionId && x.productId == productId
  }

  /** No item before index `i` belongs to the session and is for the product. */
  predicate NoLineBefore(items: seq<CartItem>, sessionId: string, productId: int, i: nat)
    requires i <= |items|
  {
    forall j :: 0 <= j < i ==> !SameLine(items[j], sessionId, productId)
  }

  /** The first cart item of `sessionId` for `productId`, in insertion order (`existingItems[0]`). */
  function FirstCartMatch(items: seq<CartItem>, sessionId: string, productId: int): (r: Option<CartItem>)
    ensures r.None? <==> forall i :: 0 <= i < |items| ==> !SameLine(items[i], sessionId, productId)
    ensures r.Some? ==> r.value in items && SameLine(r.value, sessionId, productId)
  {
    if items == [] then None
    else if SameLine(items[0], sessionId, productId) then Some(items[0])
    else
      var r := FirstCartMatch(items[1..], sessionId, productId);
      assert r.None? ==> forall i :: 0 <= i < |items| ==> !SameLine(items[i], sessionId, productId) by {
        if r.None? {
          forall i | 0 <= i < |items| ensures !SameLine(items[i], sessionId, productId) {
            if i > 0 { assert items[i] == items[1..][i - 1]; }
          }
        }
      }
      r
  }

  /** The matched item is the first of the session for the product: no earlier item matches. */
  lemma {:induction false} FirstCartMatchIsFirst(items: seq<CartItem>, sessionId: string, productId: int)
    ensures var r := FirstCartMatch(items, sessionId, productId);
            r.Some? ==> exists i :: 0 <= i < |items| && items[i] == r.value && NoLineBefore(items, sessionId, productId, i)
  {
    var r := FirstCartMatch(items, sessionId, productId);
    if items != [] && !SameLine(items[0], sessionId, productId) && r.Some? {
      FirstCartMatchIsFirst(items[1..], sessionId, productId);
      var i :| 0 <= i < |items[1..]| && items[1..][i] == r.value && NoLineBefore(items[1..], sessionId, productId, i);
      assert items[i + 1] == r.value;
      forall j | 0 <= j < i + 1 ensures !SameLine(items[j], sessionId, productId) {
        if j > 0 { assert items[j] == items[1..][j - 1]; }
      }
      assert NoLineBefore(items, sessionId, productId, i + 1);
    } else if r.Some? {
      assert NoLineBefore(items, sessionId, productId, 0);
    }
  }


  /**
    `filter(c => c.sessionId === sessionId)`: the items of one session, each as often as the
    store holds it (`SessionItemsInOrder` proves the order).
  */
  function SessionItems(items: seq<CartItem>, sessionId: string): (r: seq<CartItem>)
    ensures forall x :: x in r <==> x in items && x.sessionId == sessionId
    ensures forall x :: multiset(r)[x] == (if x.sessionId == sessionId then multiset(items)[x] else 0)
    ensures |r| <= |items|
  {
    if items == [] then []
    else
      var rest := SessionItems(items[1..], sessionId);
      assert items == [items[0]] + items[1..];
      if items[0].sessionId == sessionId then [items[0]] + rest else rest
  }

  /** Every item of the session has its position in `p`. */
  predicate CoversSession(items: seq<CartItem>, sessionId: string, p: seq<nat>) {
    forall i :: 0 <= i < |items| && items[i].sessionId == sessionId ==> i in p
  }

  /**
    The filter keeps the store's order: the session's items sit at ascending positions `p`
    of the store, and every item of the session is at one of them.
  */
  lemma {:induction false} SessionItemsInOrder(items: seq<CartItem>, sessionId: string) returns (p: seq<nat>)
    ensures PositionsOf(items, SessionItems(items, sessionId), p)
    ensures Ascending(p)
    ensures CoversSession(items, sessionId, p)
  {
    if items == [] {
      return [];
    }
    var q := SessionItemsInOrder(items[1..], sessionId);
    var rest := SessionItems(items[1..], sessionId);
    ShiftPositions(items, rest, q);
    ShiftAscending(q);
    SessionCovers(items, sessionId, q);
    if items[0].sessionId == sessionId {
      p := [0] + Shift(q);
      assert SessionItems(items, sessionId) == [items[0]] + rest;
      ConsPositions(items, rest, Shift(q));
    } else {
      p := Shift(q);
    }
  }

  /** Positions covering the session's items of the tail, shifted, cover those of the store. */
  lemma SessionCovers(items: seq<CartItem>, sessionId: string, q: seq<nat>)
    requires items != [] && CoversSession(items[1..], sessionId, q)
    ensures items[0].sessionId != sessionId ==> CoversSession(items, sessionId, Shift(q))
    ensures CoversSession(items, sessionId, [0] + Shift(q))
  {
    forall i | 1 <= i < |items| && items[i].sessionId == sessionId ensures i in Shift(q) && i in [0] + Shift(q) {
      assert items[1..][i - 1] == items[i];
      ShiftCovers(q, i - 1);
    }
    assert ([0] + Shift(q))[0] == 0;
  }

  /**
    `items.map(item => ({ ...item, product: products.get(item.productId) }))`, which throws
    at the first item whose product is missing; the error carries that item's id.
  */
  function AttachProducts(items: seq<CartItem>, products: OM.Entries<int, Product>): (r: Result<seq<(CartItem, Product)>, int>)
    ensures r.Ok? <==> forall i :: 0 <= i < |items| ==> OM.HasKey(products, items[i].productId)
    ensures r.Ok? ==> |r.value| == |items| &&
                      forall i :: 0 <= i < |items| ==> r.value[i].0 == items[i] &&
                                                       OM.Get(products, items[i].productId) == Some(r.value[i].1)
    ensures r.Err? ==> exists i :: 0 <= i < |items| && items[i].id == r.error && !OM.HasKey(products, items[i].productId) &&
                                   forall j :: 0 <= j < i ==> OM.HasKey(products, items[j].productId)
  {
    if items == [] then Ok([])
    else
      match OM.Get(products, items[0].productId)
      case None => Err(items[0].id)
      case Some(p) =>
        var rest := AttachProducts(items[1..], products);
        assert rest.Ok? <==> forall i :: 0 <= i < |items| ==> OM.HasKey(products, items[i].productId) by {
          if rest.Ok? {
            forall i | 0 <= i < |items| ensures OM.HasKey(products, items[i].productId) {
              if i > 0 { assert items[i] == items[1..][i - 1]; }
            }
          }
        }
        assert rest.Err? ==> exists i :: 0 <= i < |items| && items[i].id == rest.error && !OM.HasKey(products, items[i].productId) &&
                                         forall j :: 0 <= j < i ==> OM.HasKey(products, items[j].productId) by {
          if rest.Err? {
            var i :| 0 <= i < |items[1..]| && items[1..][i].id == rest.error && !OM.HasKey(products, items[1..][i].productId) &&
                     forall j :: 0 <= j < i ==> OM.HasKey(products, items[1..][j].productId);
            assert items[i + 1] == items[1..][i];
            forall j | 0 <= j < i + 1 ensures OM.HasKey(products, items[j].productId) {
              if j > 0 { assert items[j] == items[1..][j - 1]; }
            }
          }
        }
        match rest
        case Err(e) => Err(e)
        case Ok(tail) => Ok([(items[0], p)] + tail)
  }

  /** `{ ...existing, ...patch }`: every field the patch gives wins, the rest are kept. */
  function Overlay(p: Product, patch: ProductPatch): (r: Product)
    ensures r.id == p.id && r.categoryId == p.categoryId
    ensures patch.name.None? ==> r.name == p.name
    ensures patch.name.Some? ==> r.name == patch.name.value
    ensures patch.price.None? ==> r.price == p.price
    ensures patch.price.Some? ==> r.price == patch.price.value
    ensures patch.description.None? ==> r.description == p.description
    ensures patch.description.Some? ==> r.description == patch.description.value
    ensures patch.itemId.None? ==> r.itemId == p.itemId
    ensures patch.itemId.Some? ==> r.itemId == patch.itemId.value
    ensures patch.imageUrl.None? ==> r.imageUrl == p.imageUrl
    ensures patch.imageUrl.Some? ==> r.imageUrl == patch.imageUrl.value
    ensures patch.sizes.None? ==> r.sizes == p.sizes
    ensures patch.sizes.Some? ==> r.sizes == patch.sizes.value
    ensures patch.stockQuantity.None? ==> r.stockQuantity == p.stockQuantity
    ensures patch.stockQuantity.Some? ==> r.stockQuantity == patch.stockQuantity.value
    ensures patch.featured.None? ==> r.featured == p.featured
    ensures patch.featured.Some? ==> r.featured == patch.featured.value
    ensures patch.trending.None? ==> r.trending == p.trending
    ensures patch.trending.Some? ==> r.trending == patch.trending.value
  {
    p.(name := patch.name.Or(p.name),
       description := patch.description.Or(p.description),
       price := patch.price.Or(p.price),
       itemId := patch.itemId.Or(p.itemId),
       imageUrl := patch.imageUrl.Or(p.imageUrl),
       sizes := patch.sizes.Or(p.sizes),
       stockQuantity := patch.stockQuantity.Or(p.stockQuantity),
       featured := patch.featured.Or(p.featured),
       trending := patch.trending.Or(p.trending))
  }

  const EmptyPatch := ProductPatch(None, None, None, None, None, None, None, None, None)

  /** Applying the same patch twice is the same as applying it once. */
  lemma OverlayIdempotent(p: Product, patch: ProductPatch)
    ensures Overlay(Overlay(p, patch), patch) == Overlay(p, patch)
  {
  }

  /** An empty patch changes nothing. */
  lemma OverlayEmpty(p: Product)
    ensures Overlay(p, EmptyPatch) == p
  {
  }

  /** Distinct keys, all at least 1 and below the table's post-incremented counter. */
  predicate KeysBelow<V>(t: OM.Entries<int, V>, next: int) {
    1 <= next && OM.KeysDistinct(t) && forall k :: k in OM.Keys(t) ==> 1 <= k < next
  }

  /** Every cart row is stored under its own id. */
  predicate CartTableOk(t: OM.Entries<int, CartItem>, next: int) {
    KeysBelow(t, next) && forall e :: e in t ==> e.0 == e.1.id
  }

  /** Besides well-formedness, no two waitlist entries share an e-mail ignoring case. */
  predicate WaitlistTableOk(t: OM.Entries<int, WaitlistEntry>, next: int) {
    && KeysBelow(t, next)
    && (forall e :: e in t ==> e.0 == e.1.id)
    && (forall i, j :: 0 <= i < j < |t| ==> !SameIgnoringCase(t[i].1.email, t[j].1.email))
  }

  predicate CategoryTableOk(t: OM.Entries<int, Category>, next: int) {
    KeysBelow(t, next) && forall e :: e in t ==> e.0 == e.1.id
  }

  predicate ProductTableOk(t: OM.Entries<int, Product>) {
    OM.KeysDistinct(t) && forall e :: e in t ==> e.0 == e.1.id
  }

  /** Storing under the counter appends, and the counter moves one past the new key. */
  lemma AppendBelow<V>(t: OM.Entries<int, V>, next: int, x: V)
    requires KeysBelow(t, next)
    ensures OM.Set(t, next, x) == t + [(next, x)]
    ensures KeysBelow(t + [(next, x)], next + 1)
  {
    OM.SetAbsentAppends(t, next, x);
    OM.SetKeysDistinct(t, next, x);
    OM.KeysSnoc(t, (next, x));
  }

  /** Overwriting a stored key keeps the keys, in order, and their bounds. */
  lemma OverwriteBelow<V>(t: OM.Entries<int, V>, next: int, k: int, x: V)
    requires KeysBelow(t, next) && OM.HasKey(t, k)
    ensures OM.Keys(OM.Set(t, k, x)) == OM.Keys(t)
    ensures KeysBelow(OM.Set(t, k, x), next)
  {
    OM.SetPresentKeepsKeys(t, k, x);
    OM.SetKeysDistinct(t, k, x);
  }

  /** Overwriting a stored row under its own id keeps the keys and the table well formed. */
  lemma CartTableOverwrite(t: OM.Entries<int, CartItem>, next: int, e: CartItem, x: CartItem)
    requires CartTableOk(t, next) && e in OM.Values(t) && x.id == e.id
    ensures CartTableOk(OM.Set(t, x.id, x), next)
    ensures OM.Keys(OM.Set(t, x.id, x)) == OM.Keys(t)
  {
    var k :| 0 <= k < |t| && OM.Values(t)[k] == e;
    assert t[k] in t;
    assert OM.Keys(t)[k] == e.id;
    OverwriteBelow(t, next, x.id, x);
    OM.SetEntries(t, x.id, x);
  }

  /** A row appended under the counter keeps the table well formed past it. */
  lemma CartTableAppend(t: OM.Entries<int, CartItem>, next: int, x: CartItem)
    requires CartTableOk(t, next) && x.id == next
    ensures CartTableOk(t + [(next, x)], next + 1)
  {
    AppendBelow(t, next, x);
    forall e | e in t + [(next, x)] ensures e.0 == e.1.id {
      if e != (next, x) { assert e in t; }
    }
  }

  /** Deleting a key keeps the remaining keys distinct and within their bounds. */
  lemma DeleteBelow<V>(t: OM.Entries<int, V>, next: int, id: int)
    requires KeysBelow(t, next)
    ensures KeysBelow(OM.Delete(t, id), next)
  {
    var r := OM.Delete(t, id);
    OM.DeleteKeysDistinct(t, id);
    forall k | k in OM.Keys(r) ensures 1 <= k < next {
      var i :| 0 <= i < |r| && OM.Keys(r)[i] == k;
      assert r[i] in t;
      var j :| 0 <= j < |t| && t[j] == r[i];
      assert OM.Keys(t)[j] == k;
      assert k in OM.Keys(t);
    }
  }

  /** Deleting a key keeps a cart table well formed. */
  lemma CartTableDelete(t: OM.Entries<int, CartItem>, next: int, id: int)
    requires CartTableOk(t, next)
    ensures CartTableOk(OM.Delete(t, id), next)
  {
    DeleteBelow(t, next, id);
  }

  /** Empty tables with their counters at 1 are well formed. */
  lemma EmptyTablesOk()
    ensures ProductTableOk([]) && CartTableOk([], 1) && WaitlistTableOk([], 1)
  {
    assert OM.Keys<int, CartItem>([]) == [];
    assert OM.Keys<int, WaitlistEntry>([]) == [];
  }

  /** Some stored waitlist e-mail equals `email` ignoring case. */
  predicate EmailListed(entries: seq<WaitlistEntry>, email: string) {
    exists i :: 0 <= i < |entries| && SameIgnoringCase(entries[i].email, email)
  }

  class MemStorage {
    var categories: OM.Entries<int, Category>
    var products: OM.Entries<int, Product>
    var cartItems: OM.Entries<int, CartItem>
    var waitlist: OM.Entries<int, WaitlistEntry>
    var users: OM.Entries<int, User>
    var categoryId: int
    var cartItemId: int
    var waitlistId: int

    ghost predicate Valid()
      reads this
    {
      && CategoryTableOk(categories, categoryId)
      && ProductTableOk(products)
      && CartTableOk(cartItems, cartItemId)
      && WaitlistTableOk(waitlist, waitlistId)
    }

    constructor ()
      ensures Valid()
      ensures categories == Seeded(SeedCategories(), 6) && categoryId == 7
      ensures products == [] && cartItems == [] && waitlist == [] && users == []
      ensures cartItemId == 1 && waitlistId == 1
    {
      categories, products, cartItems, waitlist, users := [], [], [], [], [];
      categoryId, cartItemId, waitlistId := 1, 1, 1;
      new;
      InitializeData();
      SeededTableOk(SeedCategories(), 6);
      EmptyTablesOk();
    }

    /** Seeds the categories with ids 1..6, post-incrementing the category counter. */
    method InitializeData()
      requires categories == [] && categoryId == 1
      modifies this`categories, this`categoryId
      ensures categories == Seeded(SeedCategories(), 6) && categoryId == 7
    {
      var seeds := SeedCategories();
      for i := 0 to |seeds|
        invariant categoryId == i + 1
        invariant categories == Seeded(seeds, i)
      {
        var c := Category(categoryId, seeds[i].0, seeds[i].1, seeds[i].2);
        SeededStep(seeds, i);
        categories := OM.Set(categories, categoryId, c);
        categoryId := categoryId + 1;
      }
    }

    /** `getCategoryBySlug`. */
    function GetCategoryBySlug(slug: string): (r: Option<Category>)
      reads this
      ensures r.Some? ==> r.value.slug == slug && r.value in OM.Values(categories)
      ensures r.None? <==> forall c :: c in OM.Values(categories) ==> c.slug != slug
      ensures r.Some? ==> exists i :: 0 <= i < |categories| && categories[i].1 == r.value &&
                                     forall j :: 0 <= j < i ==> categories[j].1.slug != slug
    {
      FindBySlug(OM.Values(categories), slug)
    }

    /** `getUserByEmail`: the first user whose e-mail matches ignoring case. */
    function GetUserByEmail(email: string): (r: Option<User>)
      reads this
      ensures r.Some? ==> r.value in OM.Values(users) && SameIgnoringCase(r.value.email, email)
      ensures r.None? <==> forall u :: u in OM.Values(users) ==> !SameIgnoringCase(u.email, email)
      ensures r.Some? ==> exists i :: 0 <= i < |users| && users[i].1 == r.value &&
                                     forall j :: 0 <= j < i ==> !SameIgnoringCase(users[j].1.email, email)
    {
      FindUserByEmail(OM.Values(users), email)
    }

    /** `getCartItem`. */
    function GetCartItem(id: int): (r: Option<CartItem>)
      requires Valid()
      reads this
      ensures r.Some? ==> r.value.id == id && (id, r.value) in cartItems
      ensures r.None? <==> forall e :: e in cartItems ==> e.1.id != id
    {
      var r := OM.Get(cartItems, id);
      assert r.None? <== forall e :: e in cartItems ==> e.1.id != id by {
        if r.Some? { assert (id, r.value) in cartItems; }
      }
      assert r.None? ==> forall e :: e in cartItems ==> e.1.id != id by {
        if r.None? {
          forall e | e in cartItems ensures e.1.id != id {
            var i :| 0 <= i < |cartItems| && cartItems[i] == e;
            assert OM.Keys(cartItems)[i] == e.0;
          }
        }
      }
      r
    }

    /** `getCartItems(sessionId)`: the session's items, each with its product; fails on a missing product. */
    function GetCartItems(sessionId: string): (r: Result<seq<(CartItem, Product)>, int>)
      reads this
      ensures r.Ok? <==> forall x :: x in OM.Values(cartItems) && x.sessionId == sessionId ==> OM.HasKey(products, x.productId)
      ensures r.Ok? ==> forall row :: row in r.value ==>
                row.0 in OM.Values(cartItems) && row.0.sessionId == sessionId && OM.Get(products, row.0.productId) == Some(row.1)
      ensures r.Ok? ==> forall x :: x in OM.Values(cartItems) && x.sessionId == sessionId ==> exists row :: row in r.value && row.0 == x
      ensures r.Ok? ==> forall x ::
                multiset(OM.Keys(r.value))[x] == (if x.sessionId == sessionId then multiset(OM.Values(cartItems))[x] else 0)
      ensures r.Ok? ==> exists p :: PositionsOf(OM.Values(cartItems), OM.Keys(r.value), p) && Ascending(p)
      ensures r.Err? ==> exists i :: 0 <= i < |cartItems| && FirstMissingAt(OM.Values(cartItems), sessionId, products, i, r.error)
    {
      SessionListingOrder(OM.Values(cartItems), sessionId, products);
      SessionListingOk(OM.Values(cartItems), sessionId, products);
      SessionListingRows(OM.Values(cartItems), sessionId, products);
      SessionListingComplete(OM.Values(cartItems), sessionId, products);
      AttachProducts(SessionItems(OM.Values(cartItems), sessionId), products)
    }

    /**
      `addCartItem`: merge into the first item of the same session and product, adding
      `quantity || 1`; otherwise append a new item with the next id.
    */
    method AddCartItem(item: CartItemInput) returns (r: CartItem)
      requires Valid()
      modifies this`cartItems, this`cartItemId
      ensures Valid()
      ensures r.sessionId == item.sessionId && r.productId == item.productId
      ensures match FirstCartMatch(OM.Values(old(cartItems)), item.sessionId, item.productId)
              case Some(e) =>
                && r == e.(quantity := e.quantity + QuantityOrOne(item.quantity))
                && cartItems == OM.Set(old(cartItems), e.id, r)
                && OM.Keys(cartItems) == OM.Keys(old(cartItems))
                && cartItemId == old(cartItemId)
              case None =>
                && r == CartItem(old(cartItemId), item.sessionId, item.productId, QuantityOrOne(item.quantity))
                && cartItems == old(cartItems) + [(r.id, r)]
                && cartItemId == old(cartItemId) + 1
    {
      var existing := FirstCartMatch(OM.Values(cartItems), item.sessionId, item.productId);
      match existing {
        case Some(e) =>
          r := e.(quantity := e.quantity + QuantityOrOne(item.quantity));
          Overwrite(e, r);
        case None =>
          r := CartItem(cartItemId, item.sessionId, item.productId, QuantityOrOne(item.quantity));
          Append(r);
      }
    }

    /** Stores `x` under the id of the stored item `e` it replaces; the keys stay as they were. */
    method Overwrite(e: CartItem, x: CartItem)
      requires Valid() && e in OM.Values(cartItems) && x.id == e.id
      modifies this`cartItems
      ensures Valid()
      ensures cartItems == OM.Set(old(cartItems), e.id, x) && OM.Keys(cartItems) == OM.Keys(old(cartItems))
    {
      CartTableOverwrite(cartItems, cartItemId, e, x);
      cartItems := OM.Set(cartItems, e.id, x);
    }

    /** Stores `x` under the next id, which the counter then passes. */
    method Append(x: CartItem)
      requires Valid() && x.id == cartItemId
      modifies this`cartItems, this`cartItemId
      ensures Valid()
      ensures cartItems == old(cartItems) + [(x.id, x)] && cartItemId == old(cartItemId) + 1
    {
      CartTableAppend(cartItems, cartItemId, x);
      cartItems := cartItems + [(x.id, x)];
      cartItemId := cartItemId + 1;
    }

    /** `updateCartItem`: an unknown id fails and changes nothing; otherwise only the quantity is replaced. */
    method UpdateCartItem(id: int, quantity: int) returns (r: Result<CartItem, string>)
      requires Valid()
      modifies this`cartItems
      ensures Valid()
      ensures match OM.Get(old(cartItems), id)
              case None => r == Err("Cart item not found: " + IntToString(id)) && cartItems == old(cartItems)
              case Some(item) =>
                && r == Ok(item.(quantity := quantity))
                && cartItems == OM.Set(old(cartItems), id, r.value)
                && OM.Keys(cartItems) == OM.Keys(old(cartItems))
    {
      match OM.Get(cartItems, id) {
        case None =>
          r := Err("Cart item not found: " + IntToString(id));
        case Some(item) =>
          var updated := item.(quantity := quantity);
          r := Ok(updated);
          assert (id, item) in cartItems;
          assert item in OM.Values(cartItems) by { OM.EntryValue(cartItems, id, item); }
          Overwrite(item, updated);
      }
    }

    /** `removeCartItem`: delete that key; an absent id is not an error. */
    method RemoveCartItem(id: int)
      requires Valid()
      modifies this`cartItems
      ensures Valid()
      ensures cartItems == OM.Delete(old(cartItems), id)
    {
      CartTableDelete(cartItems, cartItemId, id);
      cartItems := OM.Delete(cartItems, id);
    }

    /**
      `addToWaitlist`: an e-mail already listed (ignoring case) is refused and nothing
      changes; otherwise the entry is stored under the next waitlist id.
    */
    method AddToWaitlist(name: string, email: string) returns (r: Result<WaitlistEntry, string>)
      requires Valid()
      modifies this`waitlist, this`waitlistId
      ensures Valid()
      ensures EmailListed(OM.Values(old(waitlist)), email) ==>
                r == Err(DuplicateWaitlistMessage) && waitlist == old(waitlist) && waitlistId == old(waitlistId)
      ensures !EmailListed(OM.Values(old(waitlist)), email) ==>
                && r == Ok(WaitlistEntry(old(waitlistId), name, email))
                && waitlist == old(waitlist) + [(old(waitlistId), r.value)]
                && waitlistId == old(waitlistId) + 1
    {
      if EmailListed(OM.Values(waitlist), email) {
        r := Err(DuplicateWaitlistMessage);
        return;
      }
      var entry := WaitlistEntry(waitlistId, name, email);
      WaitlistAppend(waitlist, waitlistId, entry);
      waitlist := waitlist + [(waitlistId, entry)];
      waitlistId := waitlistId + 1;
      r := Ok(entry);
    }

    /** `updateProduct`: an unknown id fails; otherwise the patch is laid over the stored product. */
    method UpdateProduct(id: int, patch: ProductPatch) returns (r: Result<Product, string>)
      requires Valid()
      modifies this`products
      ensures Valid()
      ensures match OM.Get(old(products), id)
              case None => r == Err("Product not found: " + IntToString(id)) && products == old(products)
              case Some(p) =>
                && r == Ok(Overlay(p, patch))
                && products == OM.Set(old(products), id, r.value)
                && OM.Keys(products) == OM.Keys(old(products))
    {
      match OM.Get(products, id) {
        case None =>
          r := Err("Product not found: " + IntToString(id));
        case Some(p) =>
          var updated := Overlay(p, patch);
          r := Ok(updated);
          assert (id, p) in products;
          var k :| 0 <= k < |products| && products[k] == (id, p);
          assert OM.Keys(products)[k] == id;
          OM.SetPresentKeepsKeys(products, id, updated);
          OM.SetKeysDistinct(products, id, updated);
          OM.SetEntries(products, id, updated);
          products := OM.Set(products, id, updated);
      }
    }

    /** `deleteProduct`: an unknown id fails; otherwise only that key is removed. */
    method DeleteProduct(id: int) returns (r: Result<(), string>)
      requires Valid()
      modifies this`products
      ensures Valid()
      ensures !OM.HasKey(old(products), id) ==> r == Err("Product not found: " + IntToString(id)) && products == old(products)
      ensures OM.HasKey(old(products), id) ==> r == Ok(()) && products == OM.Delete(old(products), id)
    {
      if !OM.HasKey(products, id) {
        r := Err("Product not found: " + IntToString(id));
        return;
      }
      OM.DeleteKeysDistinct(products, id);
      products := OM.Delete(products, id);
      r := Ok(());
    }
  }

  /**
    `all[i]` is the first item of the session, in insertion order, whose product is missing,
    and `id` is its id.
  */
  predicate FirstMissingAt(all: seq<CartItem>, sessionId: string, products: OM.Entries<int, Product>, i: nat, id: int)
    requires i < |all|
  {
    && all[i].sessionId == sessionId && all[i].id == id && !OM.HasKey(products, all[i].productId)
    && forall j :: 0 <= j < i && all[j].sessionId == sessionId ==> OM.HasKey(products, all[j].productId)
  }

  /** The session listing succeeds exactly when every item of the session has its product. */
  lemma SessionListingOk(all: seq<CartItem>, sessionId: string, products: OM.Entries<int, Product>)
    ensures var r := AttachProducts(SessionItems(all, sessionId), products);
            (r.Ok? <==> forall x :: x in all && x.sessionId == sessionId ==> OM.HasKey(products, x.productId)) &&
            (r.Err? ==> exists i :: 0 <= i < |all| && FirstMissingAt(all, sessionId, products, i, r.error))
  {
    SessionFirstMissing(all, sessionId, products);
  }

  /** A failed listing names the first item of the session, in insertion order, whose product is missing. */
  lemma {:induction false} SessionFirstMissing(all: seq<CartItem>, sessionId: string, products: OM.Entries<int, Product>)
    ensures var r := AttachProducts(SessionItems(all, sessionId), products);
            r.Err? ==> exists i :: 0 <= i < |all| && FirstMissingAt(all, sessionId, products, i, r.error)
  {
    if all != [] {
      var mine := SessionItems(all, sessionId);
      var rest := SessionItems(all[1..], sessionId);
      var r := AttachProducts(mine, products);
      SessionFirstMissing(all[1..], sessionId, products);
      if r.Err? {
        if all[0].sessionId == sessionId && !OM.HasKey(products, all[0].productId) {
          assert mine == [all[0]] + rest;
          assert r.error == all[0].id;
          assert FirstMissingAt(all, sessionId, products, 0, r.error);
        } else {
          assert AttachProducts(rest, products) == r by {
            if all[0].sessionId == sessionId {
              assert mine == [all[0]] + rest && mine[1..] == rest;
            }
          }
          var i :| 0 <= i < |all[1..]| && FirstMissingAt(all[1..], sessionId, products, i, r.error);
          FirstMissingShift(all, sessionId, products, i, r.error);
        }
      }
    }
  }

  /** Past a head that is of another session or has its product, the first missing item moves one place. */
  lemma FirstMissingShift(all: seq<CartItem>, sessionId: string, products: OM.Entries<int, Product>, i: nat, id: int)
    requires 0 < |all| && i < |all| - 1 && FirstMissingAt(all[1..], sessionId, products, i, id)
    requires all[0].sessionId != sessionId || OM.HasKey(products, all[0].productId)
    ensures FirstMissingAt(all, sessionId, products, i + 1, id)
  {
    assert all[i + 1] == all[1..][i];
    forall j | 0 <= j < i + 1 && all[j].sessionId == sessionId ensures OM.HasKey(products, all[j].productId) {
      if j > 0 { assert all[j] == all[1..][j - 1]; }
    }
  }

  /** The rows listed hold the session's items (their first components) in the order of the store. */
  lemma SessionListingOrder(all: seq<CartItem>, sessionId: string, products: OM.Entries<int, Product>)
    ensures var r := AttachProducts(SessionItems(all, sessionId), products);
            r.Ok? ==> OM.Keys(r.value) == SessionItems(all, sessionId) &&
                      exists p :: PositionsOf(all, OM.Keys(r.value), p) && Ascending(p)
  {
    var mine := SessionItems(all, sessionId);
    var r := AttachProducts(mine, products);
    if r.Ok? {
      assert OM.Keys(r.value) == mine;
      var p := SessionItemsInOrder(all, sessionId);
      assert PositionsOf(all, OM.Keys(r.value), p);
    }
  }

  /** Every row of the listing is an item of the session paired with its product. */
  lemma SessionListingRows(all: seq<CartItem>, sessionId: string, products: OM.Entries<int, Product>)
    ensures var r := AttachProducts(SessionItems(all, sessionId), products);
            r.Ok? ==> forall row :: row in r.value ==>
              row.0 in all && row.0.sessionId == sessionId && OM.Get(products, row.0.productId) == Some(row.1)
  {
    var mine := SessionItems(all, sessionId);
    var r := AttachProducts(mine, products);
    if r.Ok? {
      forall row | row in r.value
        ensures row.0 in all && row.0.sessionId == sessionId && OM.Get(products, row.0.productId) == Some(row.1)
      {
        var i :| 0 <= i < |r.value| && r.value[i] == row;
        assert mine[i] in mine;
      }
    }
  }

  /** Every item of the session appears in the listing. */
  lemma SessionListingComplete(all: seq<CartItem>, sessionId: string, products: OM.Entries<int, Product>)
    ensures var r := AttachProducts(SessionItems(all, sessionId), products);
            r.Ok? ==> forall x :: x in all && x.sessionId == sessionId ==> exists row :: row in r.value && row.0 == x
  {
    var mine := SessionItems(all, sessionId);
    var r := AttachProducts(mine, products);
    if r.Ok? {
      forall x | x in all && x.sessionId == sessionId ensures exists row :: row in r.value && row.0 == x {
        var i :| 0 <= i < |mine| && mine[i] == x;
        assert r.value[i] in r.value;
      }
    }
  }

  /** One more seed stores one category under the old counter, which appends it. */
  lemma SeededStep(seeds: seq<(string, string, string)>, i: nat)
    requires i < |seeds|
    ensures var c := Category(i + 1, seeds[i].0, seeds[i].1, seeds[i].2);
            OM.Set(Seeded(seeds, i), i + 1, c) == Seeded(seeds, i + 1)
  {
    SeededTableOk(seeds, i);
    AppendBelow(Seeded(seeds, i), i + 1, Category(i + 1, seeds[i].0, seeds[i].1, seeds[i].2));
  }

  /** The seeded table is well formed with the counter just past its last id. */
  lemma SeededTableOk(seeds: seq<(string, string, string)>, n: nat)
    requires n <= |seeds|
    ensures CategoryTableOk(Seeded(seeds, n), n + 1)
  {
    var t := Seeded(seeds, n);
    forall e | e in t ensures e.0 == e.1.id {
      var j :| 0 <= j < n && t[j] == e;
    }
  }

  /** Appending an entry whose e-mail is not listed keeps the waitlist well formed. */
  lemma WaitlistAppend(t: OM.Entries<int, WaitlistEntry>, next: int, x: WaitlistEntry)
    requires WaitlistTableOk(t, next) && x.id == next && !EmailListed(OM.Values(t), x.email)
    ensures WaitlistTableOk(t + [(next, x)], next + 1)
  {
    var r := t + [(next, x)];
    AppendBelow(t, next, x);
    forall e | e in r ensures e.0 == e.1.id {
      if e != (next, x) { assert e in t; }
    }
    forall i, j | 0 <= i < j < |r| ensures !SameIgnoringCase(r[i].1.email, r[j].1.email) {
      if j == |t| {
        assert OM.Values(t)[i] == r[i].1;
      }
    }
  }

  /** After construction the slug lookup finds each seeded category under its listed id. */
  lemma SeededSlugLookup(i: nat)
    requires i < 6
    ensures var s := SeedCategories();
            FindBySlug(OM.Values(Seeded(s, 6)), s[i].1) == Some(Category(i + 1, s[i].0, s[i].1, s[i].2))
  {
    var s := SeedCategories();
    var cats := OM.Values(Seeded(s, 6));
    forall j | 0 <= j < i ensures cats[j].slug != s[i].1 {
      assert cats[j].slug[0] != s[i].1[0];
    }
    FindBySlugAt(cats, s[i].1, i);
  }

  /** The lookup returns the first category carrying the slug. */
  lemma FindBySlugAt(cats: seq<Category>, slug: string, i: nat)
    requires i < |cats| && cats[i].slug == slug
    requires forall j :: 0 <= j < i ==> cats[j].slug != slug
    ensures FindBySlug(cats, slug) == Some(cats[i])
  {
    var r := FindBySlug(cats, slug);
    var k :| 0 <= k < |cats| && cats[k] == r.value && r.value.slug == slug &&
             forall j :: 0 <= j < k ==> cats[j].slug != slug;
    assert k == i;
  }
}
