/** The storefront data the scripts read: cart lines as `/cart.js` returns them and
    product variants as `/products/<handle>.js` returns them. Prices are integer cents. */
module Shop {

  /** A value in a cart line's `properties` object. */
  datatype PropValue = Text(text: string) | Flag(flag: bool) | Number(number: int)

  /** One line of the cart. */
  datatype CartLine = CartLine(
    key: string,
    productId: int,
    variantId: int,
    quantity: nat,
    properties: map<string, PropValue>)

  /** One purchasable variant of a product. */
  datatype Variant = Variant(id: int, available: bool, price: int)

  /** A product as its `/products/<handle>.js` document describes it. */
  datatype Product = Product(id: int, title: string, variants: seq<Variant>)

  /** No two lines of the cart share a key (Shopify's line keys are unique). */
  predicate DistinctKeys(lines: seq<CartLine>) {
    forall i, j :: 0 <= i < j < |lines| ==> lines[i].key != lines[j].key
  }
}
