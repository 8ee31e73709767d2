/** The course list: every active product, marked with whether the user
    holds active access to it, and the click that opens an owned course or
    the checkout of one not owned. The query results are inputs. */
module CoursesPage {
  import opened Common

  /** The product columns the page uses; `checkout_url` may be null. */
  datatype ProductRow = ProductRow(id: string, slug: string, price: int, checkoutUrl: Option<string>)

  /** A product as listed, with its `has_access` flag. */
  datatype Product = Product(row: ProductRow, hasAccess: bool)

  /** `new Set(accessData?.map(a => a.product_id) || [])`: the product ids
      of the user's active access rows; no rows gives the empty set. */
  function AccessedIds(accessRows: Option<seq<string>>): (ids: set<string>)
    ensures accessRows.None? ==> ids == {}
    ensures accessRows.Some? ==> forall id :: id in ids <==> id in accessRows.value
  {
    if accessRows.None? then {} else set k | 0 <= k < |accessRows.value| :: accessRows.value[k]
  }

  /** productsWithAccess: the products in the order the query returned
      them (`productsData || []`), each flagged by Set membership. */
  function WithAccess(productRows: Option<seq<ProductRow>>, accessRows: Option<seq<string>>): (r: seq<Product>)
    ensures productRows.None? ==> r == []
    ensures productRows.Some? ==> |r| == |productRows.value|
    ensures productRows.Some? ==> forall i :: 0 <= i < |r| ==>
      r[i].row == productRows.value[i] &&
      (r[i].hasAccess <==> accessRows.Some? && productRows.value[i].id in accessRows.value)
  {
    var ids := AccessedIds(accessRows);
    if productRows.None? then []
    else
      seq(|productRows.value|, i requires 0 <= i < |productRows.value| =>
        Product(productRows.value[i], productRows.value[i].id in ids))
  }

  /** Only which products the user holds matters: access rows listed in
      another order or repeated give the same page. */
  lemma AccessIgnoresRowOrder(productRows: Option<seq<ProductRow>>, a: seq<string>, b: seq<string>)
    requires forall id :: id in a <==> id in b
    ensures WithAccess(productRows, Some(a)) == WithAccess(productRows, Some(b))
  {
    assert AccessedIds(Some(a)) == AccessedIds(Some(b));
  }

  /** What loadProducts does. */
  datatype LoadOutcome =
    | RedirectLogin
    /** The product query failed: the error is caught and the list keeps
        what it held. */
    | ProductsFailed
    | Loaded(products: seq<Product>)

  function LoadProducts(signedIn: bool, productsError: bool, productRows: Option<seq<ProductRow>>,
                        accessRows: Option<seq<string>>): (r: LoadOutcome)
    ensures r == RedirectLogin <==> !signedIn
    ensures r == ProductsFailed <==> signedIn && productsError
    ensures r.Loaded? ==> r.products == WithAccess(productRows, accessRows)
  {
    if !signedIn then RedirectLogin
    else if productsError then ProductsFailed
    else Loaded(WithAccess(productRows, accessRows))
  }

  datatype ClickResult = OpenCourse(route: string) | OpenCheckout(url: string) | NoAction

  /** handleProductClick: an owned course opens; otherwise its checkout
      opens when it has a non-empty link; otherwise nothing happens. */
  function ProductClick(p: Product): (r: ClickResult)
    ensures r.OpenCourse? <==> p.hasAccess
    ensures r.OpenCourse? ==> r.route == "/cursos/" + p.row.slug
    ensures r.OpenCheckout? <==> !p.hasAccess && p.row.checkoutUrl.Some? && p.row.checkoutUrl.value != []
    ensures r.OpenCheckout? ==> r.url == p.row.checkoutUrl.value
  {
    if p.hasAccess then OpenCourse("/cursos/" + p.row.slug)
    else if p.row.checkoutUrl.Some? && p.row.checkoutUrl.value != [] then OpenCheckout(p.row.checkoutUrl.value)
    else NoAction
  }

  /** The price shows on products the user does not own. */
  predicate ShowsPrice(p: Product)
    ensures ShowsPrice(p) <==> !ProductClick(p).OpenCourse?
    ensures ShowsPrice(p) ==> ProductClick(p).OpenCheckout? || ProductClick(p).NoAction?
  {
    !p.hasAccess
  }

  /** The empty state shows when there is no product at all. */
  predicate ShowsEmptyState(products: seq<Product>)
  {
    |products| == 0
  }

  /** A listed product opens its course exactly when the user holds an
      access row for it; otherwise its price shows and a click can at most
      open the checkout. */
  lemma ClickFollowsAccess(productRows: seq<ProductRow>, accessRows: seq<string>, i: int)
    requires 0 <= i < |productRows|
    ensures var p := WithAccess(Some(productRows), Some(accessRows))[i];
      (ProductClick(p).OpenCourse? <==> productRows[i].id in accessRows) &&
      (ShowsPrice(p) <==> !ProductClick(p).OpenCourse?)
  {
  }

  /** The list is empty exactly when the query returned no product. */
  lemma EmptyStateIffNoProducts(productRows: Option<seq<ProductRow>>, accessRows: Option<seq<string>>)
    ensures ShowsEmptyState(WithAccess(productRows, accessRows)) <==>
      productRows.None? || productRows.value == []
  {
  }
}
