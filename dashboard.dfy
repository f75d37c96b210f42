/**
  The local state of the admin dashboard in
  client/src/components/admin/dashboard-component.tsx: which category is expanded, the
  products listed under each category name, the product dialog, and the size checkboxes
  of the product form.

  `products` is a plain object keyed by category name, so it is an ordered map here.
  Whether a request succeeded (`response.ok`) and the product the server answers with are
  parameters.
*/
module AdminDashboard {
  import opened Wrappers
  import opened Text
  import OM = OrderedMap

  /** `AVAILABLE_SIZES`. */
  const AvailableSizes: seq<string> := ["XS", "S", "M", "L", "XL", "XXL"]

  /** The category names the dashboard lists, in order. */
  const CategoryNames: seq<string> := ["Summer Articles", "Winter Articles", "Party Wear", "Bottom Wear", "Track Suits", "Accessories"]

  const ProductsPath := "/api/products"

  /** A product as the dashboard holds it: `category` and `sizes` may be absent. */
  datatype AdminProduct = AdminProduct(id: int, name: string, category: Option<string>, sizes: Option<OM.Entries<string, bool>>)

  /** A string is truthy in JavaScript when it is present and not empty. */
  predicate Truthy(s: Option<string>) {
    s.Some? && s.value != ""
  }

  /** `toggleCategory`'s new value: collapse the expanded category, expand any other. */
  function Toggled(expanded: Option<string>, category: string): (r: Option<string>)
    ensures r.None? <==> expanded == Some(category)
    ensures r.Some? ==> r.value == category
  {
    if expanded == Some(category) then None else Some(category)
  }

  /**
    Toggling the same category twice restores the previous state exactly when that state
    was collapsed or had this category expanded; from another expanded category it collapses.
  */
  lemma ToggleTwice(expanded: Option<string>, category: string)
    ensures Toggled(Toggled(expanded, category), category) == expanded <==> expanded.None? || expanded == Some(category)
    ensures expanded.Some? && expanded != Some(category) ==> Toggled(Toggled(expanded, category), category).None?
  {
  }

  /** The HTTP verb and address `handleSaveProduct` uses, and the `category` its body carries. */
  datatype SaveRequest = SaveRequest(verb: string, url: string, category: Option<string>)

  /** Editing (a current product) sends PUT to that product's address; adding sends POST to the collection. */
  function SaveTarget(current: Option<AdminProduct>, expanded: Option<string>): (r: SaveRequest)
    ensures r.verb == "PUT" <==> current.Some?
    ensures r.verb == "POST" <==> current.None?
    ensures current.None? ==> r.url == ProductsPath
    ensures current.Some? ==> r.url == ProductsPath + "/" + IntToString(current.value.id)
    ensures current.Some? && Truthy(current.value.category) ==> r.category == current.value.category
    ensures !(current.Some? && Truthy(current.value.category)) ==> r.category == expanded
  {
    var category := if current.Some? && Truthy(current.value.category) then current.value.category else expanded;
    if current.Some? then SaveRequest("PUT", ProductsPath + "/" + IntToString(current.value.id), category)
    else SaveRequest("POST", ProductsPath, category)
  }

  /** The address of an edit names the edited product: the id reads back from it. */
  lemma SaveUrlNamesProduct(p: AdminProduct, expanded: Option<string>)
    ensures var url := SaveTarget(Some(p), expanded).url;
            |url| > |ProductsPath| + 1 && ParseInt(url[|ProductsPath| + 1..]) == Some(p.id)
  {
    var url := SaveTarget(Some(p), expanded).url;
    assert url[|ProductsPath| + 1..] == IntToString(p.id);
    IntToStringRoundTrip(p.id);
  }

  /** The object key a response's `category` selects: an absent category is the key "undefined". */
  function KeyOf(category: Option<string>): (k: string)
    ensures category.Some? ==> k == category.value
  {
    if category.Some? then category.value else "undefined"
  }

  /** `products[key] || []`. */
  function ListAt(m: OM.Entries<string, seq<AdminProduct>>, key: string): (r: seq<AdminProduct>)
    ensures OM.HasKey(m, key) ==> OM.Get(m, key) == Some(r)
    ensures !OM.HasKey(m, key) ==> r == []
  {
    match OM.Get(m, key)
    case None => []
    case Some(l) => l
  }

  /** `findIndex(p => p.id === id)`: the first index with that id, or -1. */
  function FindIndex(list: seq<AdminProduct>, id: int): (r: int)
    ensures r == -1 <==> forall j :: 0 <= j < |list| ==> list[j].id != id
    ensures r != -1 ==> 0 <= r < |list| && list[r].id == id && forall j :: 0 <= j < r ==> list[j].id != id
  {
    if list == [] then -1
    else if list[0].id == id then 0
    else
      var r := FindIndex(list[1..], id);
      assert forall j :: 1 <= j < |list| ==> list[j] == list[1..][j - 1];
      if r == -1 then -1 else r + 1
  }

  /** Position `j` holds the first product of the list with that id. */
  predicate FirstWithId(list: seq<AdminProduct>, j: nat, id: int)
    requires j < |list|
  {
    list[j].id == id && forall k :: 0 <= k < j ==> list[k].id != id
  }

  /** Below a head of another id, the first match moves one place down the tail. */
  lemma FirstWithIdTail(list: seq<AdminProduct>, j: nat, id: int)
    requires 1 <= j < |list| && list[0].id != id
    ensures FirstWithId(list, j, id) <==> FirstWithId(list[1..], j - 1, id)
  {
    if FirstWithId(list[1..], j - 1, id) {
      forall k | 0 <= k < j ensures list[k].id != id {
        if k > 0 { assert list[k] == list[1..][k - 1]; }
      }
    }
  }

  /** The list with its first product of that id replaced by `p`; every other element stays. */
  function ReplaceFirst(list: seq<AdminProduct>, id: int, p: AdminProduct): (r: seq<AdminProduct>)
    ensures |r| == |list|
    ensures forall j :: 0 <= j < |list| ==> r[j] == (if FirstWithId(list, j, id) then p else list[j])
  {
    if list == [] then []
    else if list[0].id == id then
      var r := [p] + list[1..];
      assert forall j :: 0 <= j < |list| ==> r[j] == (if FirstWithId(list, j, id) then p else list[j]) by {
        forall j | 1 <= j < |list| ensures !FirstWithId(list, j, id) && r[j] == list[j] { }
      }
      r
    else
      var t := ReplaceFirst(list[1..], id, p);
      var r := [list[0]] + t;
      assert forall j :: 1 <= j < |list| ==> r[j] == (if FirstWithId(list, j, id) then p else list[j]) by {
        forall j | 1 <= j < |list| ensures r[j] == (if FirstWithId(list, j, id) then p else list[j]) {
          FirstWithIdTail(list, j, id);
        }
      }
      r
  }

  /** A list without a product of that id is left as it is by a replacement. */
  lemma ReplaceMissing(list: seq<AdminProduct>, id: int, p: AdminProduct)
    requires FindIndex(list, id) == -1
    ensures ReplaceFirst(list, id, p) == list
  {
  }

  /** Replacing the first product of an id is writing at the index `findIndex` returns. */
  lemma ReplaceAt(list: seq<AdminProduct>, id: int, p: AdminProduct)
    requires FindIndex(list, id) != -1
    ensures ReplaceFirst(list, id, p) == list[FindIndex(list, id) := p]
  {
    var k := FindIndex(list, id);
    var r := ReplaceFirst(list, id, p);
    forall j | 0 <= j < |list| ensures r[j] == list[k := p][j] {
      if j > k {
        assert list[k].id == id;
      }
    }
  }

  /** The list of the response's category after a successful save. */
  function Updated(current: Option<AdminProduct>, list: seq<AdminProduct>, p: AdminProduct): (r: seq<AdminProduct>)
    ensures current.None? ==> r == list + [p]
    ensures current.Some? ==> |r| == |list|
    ensures current.Some? && FindIndex(list, current.value.id) == -1 ==> r == list
    ensures current.Some? && FindIndex(list, current.value.id) != -1 ==> r[FindIndex(list, current.value.id)] == p
  {
    if current.Some? then ReplaceFirst(list, current.value.id, p) else list + [p]
  }

  /** `filter(p => p.id !== id)`. */
  function Without(list: seq<AdminProduct>, id: int): (r: seq<AdminProduct>)
    ensures forall p :: p in r <==> p in list && p.id != id
    ensures |r| <= |list|
  {
    if list == [] then []
    else (if list[0].id != id then [list[0]] else []) + Without(list[1..], id)
  }

  /** Deleting the same product twice is the same as deleting it once. */
  lemma {:induction false} WithoutIdempotent(list: seq<AdminProduct>, id: int)
    ensures Without(Without(list, id), id) == Without(list, id)
  {
    if list != [] {
      WithoutIdempotent(list[1..], id);
      if list[0].id != id {
        assert Without(list, id) == [list[0]] + Without(list[1..], id);
        assert Without(list, id)[1..] == Without(list[1..], id);
      } else {
        assert Without(list, id) == [] + Without(list[1..], id) == Without(list[1..], id);
      }
    }
  }

  /** The dashboard component's state. */
  class Dashboard {
    var expandedCategory: Option<string>
    var products: OM.Entries<string, seq<AdminProduct>>
    var isProductModalOpen: bool
    var currentProduct: Option<AdminProduct>

    constructor ()
      ensures expandedCategory.None? && products == [] && !isProductModalOpen && currentProduct.None?
    {
      expandedCategory, products, isProductModalOpen, currentProduct := None, [], false, None;
    }

    /**
      `fetchAllProducts`: the list of each category is stored under its name, in the
      listed order; a failed request leaves `products` as it was.
    */
    method LoadProducts(fetched: Option<seq<seq<AdminProduct>>>)
      requires fetched.Some? ==> |fetched.value| == |CategoryNames|
      modifies this`products
      ensures fetched.None? ==> products == old(products)
      ensures fetched.Some? ==> products == OM.SetAll(CategoryNames, fetched.value)
    {
      if fetched.None? {
        return;
      }
      var lists := fetched.value;
      var data: OM.Entries<string, seq<AdminProduct>> := [];
      for i := 0 to |CategoryNames|
        invariant data == OM.SetAll(CategoryNames[..i], lists[..i])
      {
        OM.SetAllPrefix(CategoryNames, lists, i);
        data := OM.Set(data, CategoryNames[i], lists[i]);
      }
      assert CategoryNames[..|CategoryNames|] == CategoryNames;
      assert lists[..|lists|] == lists;
      products := data;
    }

    /** `toggleCategory`. */
    method ToggleCategory(category: string)
      modifies this`expandedCategory
      ensures expandedCategory == Toggled(old(expandedCategory), category)
    {
      expandedCategory := if expandedCategory == Some(category) then None else Some(category);
    }

    /** `handleOpenProductModal`: a truthy category is expanded as well; the dialog opens. */
    method OpenProductModal(product: Option<AdminProduct>, category: Option<string>)
      modifies this`currentProduct, this`expandedCategory, this`isProductModalOpen
      ensures currentProduct == product && isProductModalOpen
      ensures Truthy(category) ==> expandedCategory == category
      ensures !Truthy(category) ==> expandedCategory == old(expandedCategory)
    {
      currentProduct := product;
      if category.Some? && category.value != "" {
        expandedCategory := category;
      }
      isProductModalOpen := true;
    }

    /** The form's cancel button. */
    method CloseModal()
      modifies this`isProductModalOpen
      ensures !isProductModalOpen
    {
      isProductModalOpen := false;
    }

    /**
      The local-state part of `handleSaveProduct`, once the server has answered: only a
      successful answer changes anything. The answered product goes into the list under its
      own `category`: in place of the edited product's first occurrence (an edit whose id is
      not found changes nothing in the list), or at the end for a new product. Then the
      dialog closes.
    */
    method Save(ok: bool, response: AdminProduct)
      modifies this`products, this`isProductModalOpen
      ensures !ok ==> products == old(products) && isProductModalOpen == old(isProductModalOpen)
      ensures ok ==> !isProductModalOpen
      ensures ok ==> products == OM.Set(old(products), KeyOf(response.category),
                                        Updated(currentProduct, ListAt(old(products), KeyOf(response.category)), response))
    {
      if !ok {
        return;
      }
      var key := KeyOf(response.category);
      var list := ListAt(products, key);
      ghost var expected := Updated(currentProduct, list, response);
      if currentProduct.Some? {
        var index := FindIndex(list, currentProduct.value.id);
        if index != -1 {
          ReplaceAt(list, currentProduct.value.id, response);
          list := list[index := response];
        } else {
          ReplaceMissing(list, currentProduct.value.id, response);
        }
      } else {
        list := list + [response];
      }
      assert list == expected;
      products := OM.Set(products, key, list);
      isProductModalOpen := false;
    }

    /**
      The local-state part of `handleDeleteProduct`: after a successful answer every product
      with that id leaves the given category's list. A category with no list makes the
      filter throw, and nothing changes.
    */
    method DeleteProduct(productId: int, category: string, ok: bool)
      modifies this`products
      ensures !ok || !OM.HasKey(old(products), category) ==> products == old(products)
      ensures ok && OM.HasKey(old(products), category) ==>
                products == OM.Set(old(products), category, Without(ListAt(old(products), category), productId))
    {
      if ok && OM.HasKey(products, category) {
        products := OM.Set(products, category, Without(ListAt(products, category), productId));
      }
    }
  }

  /** After a successful delete the category holds no product with that id, and no other category changed. */
  lemma DeleteScope(m: OM.Entries<string, seq<AdminProduct>>, category: string, id: int, other: string)
    requires OM.HasKey(m, category) && other != category
    ensures var r := OM.Set(m, category, Without(ListAt(m, category), id));
            (forall p :: p in ListAt(r, category) ==> p.id != id) && OM.Get(r, other) == OM.Get(m, other)
  {
  }

  /** The initial size map of a new product: each size set to false in turn, like the `reduce`. */
  function AllUnchecked(sizes: seq<string>): (r: OM.Entries<string, bool>)
    ensures forall e :: e in r ==> !e.1 && e.0 in sizes
  {
    OM.SetAll(sizes, seq(|sizes|, i => false))
  }

  /** A new product's form starts with XS, S, M, L, XL and XXL, all unchecked, in that order. */
  lemma DefaultSizes()
    ensures AllUnchecked(AvailableSizes) ==
            [("XS", false), ("S", false), ("M", false), ("L", false), ("XL", false), ("XXL", false)]
  {
    var s := AvailableSizes;
    var falses := seq(|s|, i => false);
    AvailableSizesDistinct();
    OM.SetAllDistinct(s, falses);
    ZipUnchecked(s);
  }

  /** No size is offered twice. */
  lemma AvailableSizesDistinct()
    ensures forall i, j :: 0 <= i < j < |AvailableSizes| ==> AvailableSizes[i] != AvailableSizes[j]
  {
    var s := AvailableSizes;
    forall i, j | 0 <= i < j < |s| ensures s[i] != s[j] {
      assert |s[i]| != |s[j]| || s[i][0] != s[j][0] || s[i][|s[i]| - 1] != s[j][|s[j]| - 1];
    }
  }

  lemma ZipUnchecked(s: seq<string>)
    requires s == AvailableSizes
    ensures OM.Zip(s, seq(|s|, i => false)) ==
            [("XS", false), ("S", false), ("M", false), ("L", false), ("XL", false), ("XXL", false)]
  {
    var z := OM.Zip(s, seq(|s|, i => false));
    assert |z| == 6;
    forall i | 0 <= i < 6 ensures z[i] == (s[i], false) { }
  }

  /** No category name is listed twice. */
  lemma CategoryNamesDistinct()
    ensures forall a, b :: 0 <= a < b < |CategoryNames| ==> CategoryNames[a] != CategoryNames[b]
  {
    var s := CategoryNames;
    forall a, b | 0 <= a < b < |s| ensures s[a] != s[b] {
      assert s[a][0] != s[b][0];
    }
  }

  /** After a successful load each category name holds its own fetched list. */
  lemma LoadedLists(lists: seq<seq<AdminProduct>>, i: nat)
    requires |lists| == |CategoryNames| && i < |CategoryNames|
    ensures OM.Get(OM.SetAll(CategoryNames, lists), CategoryNames[i]) == Some(lists[i])
    ensures OM.Keys(OM.SetAll(CategoryNames, lists)) == CategoryNames
  {
    var s := CategoryNames;
    CategoryNamesDistinct();
    OM.SetAllDistinct(s, lists);
    var m := OM.Zip(s, lists);
    assert OM.KeysDistinct(m) by {
      forall a, b | 0 <= a < b < |m| ensures m[a].0 != m[b].0 {
        assert m[a].0 == s[a] && m[b].0 == s[b];
      }
    }
    OM.GetEntry(m, s[i], lists[i]);
    var keys := OM.Keys(m);
    forall k | 0 <= k < |s| ensures keys[k] == s[k] {
      assert keys[k] == m[k].0;
    }
  }

  /** `handleSizeChange`'s new map: the size becomes checked exactly when it was not. */
  function Flipped(m: OM.Entries<string, bool>, size: string): (r: OM.Entries<string, bool>)
    ensures OM.Get(r, size) == Some(true) <==> OM.Get(m, size) != Some(true)
    ensures OM.HasKey(r, size)
    ensures forall k :: k != size ==> OM.Get(r, k) == OM.Get(m, k)
  {
    OM.Set(m, size, !(OM.Get(m, size) == Some(true)))
  }

  /** Flipping a listed size twice restores the map, entry order included. */
  lemma FlipTwice(m: OM.Entries<string, bool>, size: string)
    requires OM.HasKey(m, size)
    ensures Flipped(Flipped(m, size), size) == m
    ensures OM.Keys(Flipped(m, size)) == OM.Keys(m)
  {
    var b := OM.Get(m, size).value;
    OM.SetTwice(m, size, !b, b);
    OM.SetSame(m, size, b);
    OM.SetPresentKeepsKeys(m, size, !b);
  }

  /** Flipping a size the map does not list adds it as checked; flipping it again leaves it there, unchecked. */
  lemma FlipAbsent(m: OM.Entries<string, bool>, size: string)
    requires !OM.HasKey(m, size)
    ensures Flipped(m, size) == m + [(size, true)]
    ensures Flipped(Flipped(m, size), size) == m + [(size, false)]
  {
    OM.SetAbsentAppends(m, size, true);
    OM.SetTwice(m, size, true, false);
    OM.SetAbsentAppends(m, size, false);
  }

  /** The size checkboxes of the product form. */
  class ProductForm {
    var sizes: OM.Entries<string, bool>

    /** A product's own size map when it has one, otherwise every available size unchecked. */
    constructor (product: Option<AdminProduct>)
      ensures product.Some? && product.value.sizes.Some? ==> sizes == product.value.sizes.value
      ensures !(product.Some? && product.value.sizes.Some?) ==> sizes == AllUnchecked(AvailableSizes)
    {
      if product.Some? && product.value.sizes.Some? {
        sizes := product.value.sizes.value;
      } else {
        sizes := AllUnchecked(AvailableSizes);
      }
    }

    /** `handleSizeChange`. */
    method HandleSizeChange(size: string)
      modifies this
      ensures sizes == Flipped(old(sizes), size)
    {
      sizes := OM.Set(sizes, size, !(OM.Get(sizes, size) == Some(true)));
    }
  }
}
