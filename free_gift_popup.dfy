/** The cart-page free-gift popup: once the cart total reaches a threshold, a popup offers
    products of a gift collection; the shopper picks up to `maxFreeProducts` of them and
    the first pick is added to the cart as a free line. A session flag records that the
    offer was taken or skipped, and a gift line already in the cart settles it too. */
module FreeGiftPopup {
  import opened Wrappers
  import opened Shop

  // ---------------------------------------------------------------------------
  // Configuration

  /** The `CONFIG` object (the polling interval and the debounce delay are timing only). */
  datatype PopupConfig = PopupConfig(cartThreshold: int, maxFreeProducts: nat, collectionHandle: string)

  const DefaultThreshold := 5000
  const DefaultMaxFreeProducts := 1
  const DefaultCollection := "free-gifts-collection"

  /** The session-storage key that records a completed or skipped offer. */
  const SessionKey := "cart_free_products_completed"

  /** The configuration built from the page's settings: a missing or falsy setting (0, the
      empty string) falls back to its default, as `||` does. */
  function ConfigFrom(threshold: Option<int>, maxFree: Option<nat>, handle: Option<string>): (c: PopupConfig)
    ensures c.cartThreshold != 0 && c.maxFreeProducts >= 1 && c.collectionHandle != ""
    ensures threshold.Some? && threshold.value != 0 ==> c.cartThreshold == threshold.value
    ensures maxFree.Some? && maxFree.value != 0 ==> c.maxFreeProducts == maxFree.value
    ensures handle.Some? && handle.value != "" ==> c.collectionHandle == handle.value
    ensures threshold.None? || threshold.value == 0 ==> c.cartThreshold == DefaultThreshold
    ensures maxFree.None? || maxFree.value == 0 ==> c.maxFreeProducts == DefaultMaxFreeProducts
    ensures handle.None? || handle.value == "" ==> c.collectionHandle == DefaultCollection
  {
    PopupConfig(
      if threshold.Some? && threshold.value != 0 then threshold.value else DefaultThreshold,
      if maxFree.Some? && maxFree.value != 0 then maxFree.value else DefaultMaxFreeProducts,
      if handle.Some? && handle.value != "" then handle.value else DefaultCollection)
  }

  /** What `init` reads back: the offer counts as completed when the session record holds
      exactly the text `true`. */
  predicate StoredCompleted(session: map<string, string>) {
    SessionKey in session && session[SessionKey] == "true"
  }

  // ---------------------------------------------------------------------------
  // The threshold gate

  /** A cart line that carries the free-gift marker, as text or as a boolean. */
  predicate IsFreeGiftLine(line: CartLine) {
    && "_free_product" in line.properties
    && (line.properties["_free_product"] == Text("true") || line.properties["_free_product"] == Flag(true))
  }

  /** Whether some line of the cart is a free gift (`items.some(...)`). */
  function HasFreeGift(items: seq<CartLine>): (r: bool)
    ensures r <==> exists i :: 0 <= i < |items| && IsFreeGiftLine(items[i])
  {
    if items == [] then false
    else
      var n := |items| - 1;
      var earlier := HasFreeGift(items[..n]);
      assert forall i :: 0 <= i < n ==> items[..n][i] == items[i];
      earlier || IsFreeGiftLine(items[n])
  }

  /** The cart document as `getCartData` yields it. */
  datatype CartSnapshot = CartSnapshot(totalPrice: int, items: seq<CartLine>)

  /** How `checkCartThreshold` ends: busy (loading, showing or done), the cart could not
      be read, a gift is already in the cart, the total is below the threshold, or the
      popup is to be shown. */
  datatype Gate = Busy | Unreadable | GiftInCart | BelowThreshold | ShowPopup

  /** The decision of `checkCartThreshold`; `cart` is `None` when reading the cart failed. */
  function ThresholdGate(isLoading: bool, isActive: bool, hasShownPopup: bool,
                         cart: Option<CartSnapshot>, threshold: int): (g: Gate)
    ensures isLoading || isActive || hasShownPopup ==> g == Busy
    ensures g == ShowPopup ==>
      && cart.Some? && cart.value.totalPrice >= threshold && !HasFreeGift(cart.value.items)
      && !isLoading && !isActive && !hasShownPopup
    ensures cart.Some? && HasFreeGift(cart.value.items) ==> g == Busy || g == GiftInCart
    ensures (&& !isLoading && !isActive && !hasShownPopup && cart.Some?
             && !HasFreeGift(cart.value.items) && cart.value.totalPrice >= threshold) ==> g == ShowPopup
    ensures g == BelowThreshold ==> cart.Some? && cart.value.totalPrice < threshold
  {
    if isLoading || isActive || hasShownPopup then Busy
    else if cart.None? then Unreadable
    else if HasFreeGift(cart.value.items) then GiftInCart
    else if cart.value.totalPrice >= threshold then ShowPopup
    else BelowThreshold
  }

  // ---------------------------------------------------------------------------
  // Selection

  /** The indices of a JavaScript `Set`, in insertion order, each at most once. */
  predicate Distinct(s: seq<nat>) {
    forall i, j :: 0 <= i < j < |s| ==> s[i] != s[j]
  }

  /** `set.delete(x)`: `x` leaves, every other index keeps its place. */
  function Without(s: seq<nat>, x: nat): (r: seq<nat>)
    ensures forall y :: y in r <==> y in s && y != x
    ensures Distinct(s) ==> Distinct(r)
    ensures Distinct(s) && x in s ==> |r| == |s| - 1
    ensures x !in s ==> r == s
  {
    if s == [] then []
    else if s[0] == x then Without(s[1..], x)
    else
      var rest := Without(s[1..], x);
      assert Distinct(s) ==> Distinct(s[1..]) && s[0] !in s[1..] by {
        if Distinct(s) {
          forall i, j | 0 <= i < j < |s[1..]| ensures s[1..][i] != s[1..][j] {
            assert s[1..][i] == s[i + 1] && s[1..][j] == s[j + 1];
          }
        }
      }
      [s[0]] + rest
  }

  /** On a set, deleting the index at position `k` cuts exactly that position out: every
      other index keeps its place in the insertion order. */
  lemma {:induction false} WithoutSplices(s: seq<nat>, x: nat, k: nat)
    requires Distinct(s) && k < |s| && s[k] == x
    ensures Without(s, x) == s[..k] + s[k + 1..]
    decreases |s|
  {
    var rest := s[1..];
    assert Distinct(rest) by {
      forall i, j | 0 <= i < j < |rest| ensures rest[i] != rest[j] {
        assert rest[i] == s[i + 1] && rest[j] == s[j + 1];
      }
    }
    if k == 0 {
      assert x !in rest by {
        forall i | 0 <= i < |rest| ensures rest[i] != x {
          assert rest[i] == s[i + 1];
        }
      }
    } else {
      assert s[0] != x;
      assert rest[k - 1] == s[k];
      WithoutSplices(rest, x, k - 1);
      assert s[..k] == [s[0]] + rest[..k - 1];
      assert s[k + 1..] == rest[k..];
    }
  }

  /** Deleting an index that was just appended gives back the set before the append. */
  lemma {:induction false} WithoutAppended(s: seq<nat>, x: nat)
    requires x !in s
    ensures Without(s + [x], x) == s
  {
    if s != [] {
      assert (s + [x])[1..] == s[1..] + [x];
      WithoutAppended(s[1..], x);
    }
  }

  /** What a click on a product card did. */
  datatype ToggleResult = Deselected | LimitReached | Selected

  /** `toggleProductSelection` on the selection `sel` with capacity `max`. */
  function Toggled(sel: seq<nat>, index: nat, max: nat): (r: (seq<nat>, ToggleResult))
    ensures index in sel ==> r.1 == Deselected && index !in r.0
    ensures index in sel ==> forall y :: y != index ==> (y in r.0 <==> y in sel)
    ensures index in sel ==> r.0 == Without(sel, index)
    ensures index !in sel && |sel| >= max ==> r == (sel, LimitReached)
    ensures index !in sel && |sel| < max ==> r.1 == Selected && r.0 == sel + [index]
    ensures Distinct(sel) && |sel| <= max ==> Distinct(r.0) && |r.0| <= max
  {
    if index in sel then (Without(sel, index), Deselected)
    else if |sel| >= max then (sel, LimitReached)
    else (sel + [index], Selected)
  }

  /** Picking an index and clicking it again restores the selection. */
  lemma ToggleTwiceRestores(sel: seq<nat>, index: nat, max: nat)
    requires index !in sel && |sel| < max
    ensures Toggled(Toggled(sel, index, max).0, index, max) == (sel, Deselected)
  {
    WithoutAppended(sel, index);
  }

  // ---------------------------------------------------------------------------
  // Products and the gift line

  /** What `extractProductDataFromAPI` keeps of a product (the image is presentation). */
  datatype GiftProduct = GiftProduct(handle: string, title: string)

  /** `productData` after `renderProducts`: each product that could be read is stored under
      its position in the collection, over whatever was stored before. */
  function Rendered(data: map<nat, GiftProduct>, products: seq<Option<GiftProduct>>): (r: map<nat, GiftProduct>)
    ensures forall i: nat :: i in r <==> i in data || (i < |products| && products[i].Some?)
    ensures forall i: nat :: i < |products| && products[i].Some? ==> i in r && r[i] == products[i].value
    ensures forall i: nat :: i in data && !(i < |products| && products[i].Some?) ==> i in r && r[i] == data[i]
  {
    if products == [] then data
    else
      var n := |products| - 1;
      var before := Rendered(data, products[..n]);
      assert forall i :: 0 <= i < n ==> products[..n][i] == products[i];
      if products[n].Some? then before[n := products[n].value] else before
  }

  /** One more product rendered on top of the first `k`. */
  lemma {:induction false} RenderedSnoc(data: map<nat, GiftProduct>, products: seq<Option<GiftProduct>>, k: nat)
    requires k < |products|
    ensures Rendered(data, products[..k + 1]) ==
      if products[k].Some? then Rendered(data, products[..k])[k := products[k].value] else Rendered(data, products[..k])
  {
    assert products[..k + 1][..k] == products[..k];
  }

  /** The first available variant (`variants.find(v => v.available)`). */
  function FirstAvailable(variants: seq<Variant>): (r: Option<nat>)
    ensures r.Some? ==> r.value < |variants| && variants[r.value].available
    ensures r.Some? ==> forall j :: 0 <= j < r.value ==> !variants[j].available
    ensures r.None? ==> forall j :: 0 <= j < |variants| ==> !variants[j].available
  {
    if variants == [] then None
    else if variants[0].available then Some(0)
    else
      var rest := FirstAvailable(variants[1..]);
      if rest.None? then None else Some(rest.value + 1)
  }

  /** The body posted to `/cart/add.js` for a free gift. */
  datatype GiftRequest = GiftRequest(variantId: int, quantity: nat, properties: map<string, PropValue>)

  /** Why adding the gift failed. */
  datatype AddFailure = ProductNotFound | NoVariants | NoAvailableVariant | CartRejected

  datatype Prepared = Request(request: GiftRequest) | Refused(reason: AddFailure)

  /** `addProductToCart` up to the post: the product document (`None` when the fetch
      failed), its first available variant, and the marked line for it. `date` is the
      ISO time stamp the clock supplies. */
  function PrepareGift(product: Option<Product>, threshold: int, date: string): (r: Prepared)
    ensures product.None? ==> r == Refused(ProductNotFound)
    ensures product.Some? && product.value.variants == [] ==> r == Refused(NoVariants)
    ensures r.Request? <==> product.Some? && FirstAvailable(product.value.variants).Some?
    ensures r.Request? ==>
      var v := product.value.variants[FirstAvailable(product.value.variants).value];
      && r.request.variantId == v.id && v.available
      && r.request.quantity == 1
      && "_free_product" in r.request.properties
      && r.request.properties["_free_product"] == Text("true")
      && "_free_offer_cart_threshold" in r.request.properties
      && r.request.properties["_free_offer_cart_threshold"] == Number(threshold)
  {
    if product.None? then Refused(ProductNotFound)
    else if product.value.variants == [] then Refused(NoVariants)
    else
      var k := FirstAvailable(product.value.variants);
      if k.None? then Refused(NoAvailableVariant)
      else
        Request(GiftRequest(product.value.variants[k.value].id, 1,
          map["_free_product" := Text("true"),
              "_free_offer_cart_threshold" := Number(threshold),
              "_free_offer_date" := Text(date)]))
  }

  /** The line a posted gift becomes is recognised by the gate as a gift already in the
      cart, so the popup does not return once the gift is in. */
  lemma AddedGiftIsRecognised(items: seq<CartLine>, total: int, threshold: int, request: GiftRequest,
                              key: string, productId: int)
    requires "_free_product" in request.properties && request.properties["_free_product"] == Text("true")
    ensures var line := CartLine(key, productId, request.variantId, request.quantity, request.properties);
            && HasFreeGift(items + [line])
            && ThresholdGate(false, false, false, Some(CartSnapshot(total, items + [line])), threshold) == GiftInCart
  {
    var line := CartLine(key, productId, request.variantId, request.quantity, request.properties);
    assert (items + [line])[|items|] == line;
  }

  /** How `addSelectedProducts` ended. */
  datatype AddOutcome = NotReady | GiftAlreadyInCart | AddFailed(reason: AddFailure) | GiftAdded(request: GiftRequest)

  // ---------------------------------------------------------------------------
  // The popup

  /** The popup's `state`, its add button and the session storage it writes. */
  class GiftPopup {
    const config: PopupConfig
    var session: map<string, string>
    var isActive: bool
    var hasShownPopup: bool
    var isLoading: bool
    var selected: seq<nat>
    var productData: map<nat, GiftProduct>
    var addEnabled: bool
    var currentCartTotal: int

    /** The selection is a set within capacity whose members are rendered products; it is
        empty while the popup is closed; the add button is enabled exactly when the
        selection is full. */
    predicate Valid()
      reads this
    {
      && config.maxFreeProducts >= 1
      && Distinct(selected)
      && |selected| <= config.maxFreeProducts
      && (forall i :: i in selected ==> i in productData)
      && (!isActive ==> selected == [])
      && addEnabled == (|selected| == config.maxFreeProducts)
    }

    /** `init`: the configuration from the page's settings and the completion flag read
        back from session storage. */
    constructor (threshold: Option<int>, maxFree: Option<nat>, handle: Option<string>,
                 session: map<string, string>)
      ensures Valid()
      ensures config == ConfigFrom(threshold, maxFree, handle)
      ensures hasShownPopup == StoredCompleted(session) && this.session == session
      ensures !isActive && !isLoading && selected == [] && productData == map[] && !addEnabled
      ensures currentCartTotal == 0
    {
      config := ConfigFrom(threshold, maxFree, handle);
      this.session := session;
      isActive := false;
      hasShownPopup := StoredCompleted(session);
      isLoading := false;
      selected := [];
      productData := map[];
      addEnabled := false;
      currentCartTotal := 0;
    }

    /** `markAsCompleted`: the offer is settled for this page and for the session. */
    method MarkAsCompleted()
      requires Valid()
      modifies this
      ensures Valid()
      ensures hasShownPopup && session == old(session)[SessionKey := "true"]
      ensures StoredCompleted(session)
      ensures isActive == old(isActive) && isLoading == old(isLoading) && selected == old(selected)
      ensures productData == old(productData) && addEnabled == old(addEnabled)
      ensures currentCartTotal == old(currentCartTotal)
    {
      hasShownPopup := true;
      session := session[SessionKey := "true"];
    }

    /** `closePopup`: nothing when no popup is open; otherwise the popup goes away with its
        selection and product data (the 400 ms fade is collapsed into the call). */
    method ClosePopup()
      requires Valid()
      modifies this
      ensures Valid()
      ensures !old(isActive) ==> selected == old(selected) && productData == old(productData)
      ensures old(isActive) ==> selected == [] && productData == map[]
      ensures !isActive && !addEnabled
      ensures hasShownPopup == old(hasShownPopup) && session == old(session)
      ensures isLoading == old(isLoading) && currentCartTotal == old(currentCartTotal)
    {
      if !isActive {
        return;
      }
      isActive := false;
      selected := [];
      productData := map[];
      addEnabled := false;
    }

    /** The skip button: the offer is settled and the popup closes. */
    method Skip()
      requires Valid()
      modifies this
      ensures Valid()
      ensures hasShownPopup && StoredCompleted(session) && !isActive && selected == []
      ensures session == old(session)[SessionKey := "true"]
      ensures old(isActive) ==> productData == map[]
      ensures !old(isActive) ==> productData == old(productData)
      ensures !addEnabled && isLoading == old(isLoading) && currentCartTotal == old(currentCartTotal)
    {
      MarkAsCompleted();
      ClosePopup();
    }

    /** `showFreeProductPopup`; `overlayCreated` says whether building the modal worked. */
    method Show(overlayCreated: bool)
      requires Valid()
      modifies this
      ensures Valid()
      ensures old(isActive) || old(hasShownPopup) ==> isActive == old(isActive)
      ensures !old(isActive) && !old(hasShownPopup) ==> isActive == overlayCreated
      ensures selected == old(selected) && productData == old(productData) && addEnabled == old(addEnabled)
      ensures hasShownPopup == old(hasShownPopup) && session == old(session)
      ensures isLoading == old(isLoading) && currentCartTotal == old(currentCartTotal)
    {
      if isActive || hasShownPopup {
        return;
      }
      isActive := true;
      if !overlayCreated {
        isActive := false;
      }
    }

    /** `checkCartThreshold` given the cart it reads (`None` when reading failed). */
    method CheckCartThreshold(cart: Option<CartSnapshot>, overlayCreated: bool) returns (gate: Gate)
      requires Valid()
      modifies this
      ensures Valid()
      ensures gate == ThresholdGate(old(isLoading), old(isActive), old(hasShownPopup), cart, config.cartThreshold)
      ensures gate == Busy || gate == Unreadable ==>
        currentCartTotal == old(currentCartTotal) && hasShownPopup == old(hasShownPopup) && isActive == old(isActive)
      ensures gate != Busy && gate != Unreadable ==> currentCartTotal == cart.value.totalPrice
      ensures gate == GiftInCart ==> hasShownPopup && session == old(session)[SessionKey := "true"] && !isActive
      ensures gate != GiftInCart ==> hasShownPopup == old(hasShownPopup) && session == old(session)
      ensures gate == ShowPopup ==> isActive == overlayCreated
      ensures gate == BelowThreshold ==> !isActive
      ensures selected == old(selected) && productData == old(productData) && isLoading == old(isLoading)
    {
      gate := ThresholdGate(isLoading, isActive, hasShownPopup, cart, config.cartThreshold);
      if gate == Busy || gate == Unreadable {
        return;
      }
      currentCartTotal := cart.value.totalPrice;
      if gate == GiftInCart {
        MarkAsCompleted();
      } else if gate == ShowPopup {
        Show(overlayCreated);
      }
    }

    /** The click on the card at `index` (`toggleProductSelection`, then `updateAddButton`).
        Cards exist only for rendered products of an open popup. */
    method ToggleProductSelection(index: nat) returns (result: ToggleResult)
      requires Valid() && isActive && index in productData
      modifies this
      ensures Valid()
      ensures (selected, result) == Toggled(old(selected), index, config.maxFreeProducts)
      ensures addEnabled <==> |selected| == config.maxFreeProducts
      ensures isActive && hasShownPopup == old(hasShownPopup) && session == old(session)
      ensures productData == old(productData) && isLoading == old(isLoading)
      ensures currentCartTotal == old(currentCartTotal)
    {
      var r := Toggled(selected, index, config.maxFreeProducts);
      selected, result := r.0, r.1;
      addEnabled := |selected| == config.maxFreeProducts;
    }

    /** The start of `loadFreeProducts`: with an open popup, loading begins. */
    method BeginLoad()
      requires Valid()
      modifies this
      ensures Valid()
      ensures isLoading == (old(isLoading) || isActive)
      ensures isActive == old(isActive) && selected == old(selected) && productData == old(productData)
      ensures hasShownPopup == old(hasShownPopup) && session == old(session) && addEnabled == old(addEnabled)
      ensures currentCartTotal == old(currentCartTotal)
    {
      if isActive {
        isLoading := true;
      }
    }

    /** The end of `loadFreeProducts`: the collection's products (`None` when the fetch
        failed, an entry `None` when a product could not be read) are stored by position,
        and loading ends. */
    method CompleteLoad(response: Option<seq<Option<GiftProduct>>>)
      requires Valid()
      modifies this
      ensures Valid()
      ensures response.None? ==> productData == old(productData)
      ensures response.Some? ==> productData == Rendered(old(productData), response.value)
      ensures !isLoading
      ensures isActive == old(isActive) && selected == old(selected)
      ensures hasShownPopup == old(hasShownPopup) && session == old(session) && addEnabled == old(addEnabled)
      ensures currentCartTotal == old(currentCartTotal)
    {
      if response.Some? {
        var products := response.value;
        var k := 0;
        while k < |products|
          invariant 0 <= k <= |products|
          invariant productData == Rendered(old(productData), products[..k])
          invariant Valid()
          invariant isActive == old(isActive) && selected == old(selected) && addEnabled == old(addEnabled)
          invariant hasShownPopup == old(hasShownPopup) && session == old(session)
          invariant currentCartTotal == old(currentCartTotal)
        {
          RenderedSnoc(old(productData), products, k);
          if products[k].Some? {
            productData := productData[k := products[k].value];
          }
          k := k + 1;
        }
        assert products[..k] == products;
      }
      isLoading := false;
    }

    /** `addSelectedProducts` with the cart it re-reads (`None` when that failed), the
        product documents by handle, the clock's time stamp and whether `/cart/add.js`
        accepted the line. Only the first selected product is added. */
    method AddSelectedProducts(cart: Option<CartSnapshot>, catalog: map<string, Product>,
                               date: string, cartAccepted: bool) returns (outcome: AddOutcome)
      requires Valid()
      modifies this
      ensures Valid()
      ensures outcome == NotReady <==> old(|selected|) != config.maxFreeProducts
      ensures old(|selected|) == config.maxFreeProducts && !(cart.Some? && HasFreeGift(cart.value.items)) ==>
        var handle := old(productData)[old(selected)[0]].handle;
        var p := PrepareGift(if handle in catalog then Some(catalog[handle]) else None, config.cartThreshold, date);
        outcome == if p.Refused? then AddFailed(p.reason)
                   else if !cartAccepted then AddFailed(CartRejected)
                   else GiftAdded(p.request)
      ensures outcome == NotReady ==>
        && selected == old(selected) && isActive == old(isActive) && hasShownPopup == old(hasShownPopup)
        && session == old(session)
      ensures outcome == GiftAlreadyInCart <==>
        old(|selected|) == config.maxFreeProducts && cart.Some? && HasFreeGift(cart.value.items)
      ensures outcome.GiftAdded? ==>
        var handle := old(productData)[old(selected)[0]].handle;
        && Request(outcome.request) ==
           PrepareGift(if handle in catalog then Some(catalog[handle]) else None, config.cartThreshold, date)
        && cartAccepted
      ensures outcome == GiftAlreadyInCart || outcome.GiftAdded? ==>
        hasShownPopup && StoredCompleted(session) && !isActive && selected == []
      ensures outcome.AddFailed? ==>
        && selected == old(selected) && isActive == old(isActive) && addEnabled
        && hasShownPopup == old(hasShownPopup) && session == old(session)
      ensures productData == old(productData) || productData == map[]
      ensures outcome == NotReady || outcome.AddFailed? ==> productData == old(productData)
      ensures outcome == NotReady ==> addEnabled == old(addEnabled)
      ensures outcome == GiftAlreadyInCart || outcome.GiftAdded? ==>
        session == old(session)[SessionKey := "true"] && productData == map[] && !addEnabled
      ensures isLoading == old(isLoading) && currentCartTotal == old(currentCartTotal)
    {
      if |selected| != config.maxFreeProducts {
        return NotReady;
      }
      if cart.Some? && HasFreeGift(cart.value.items) {
        MarkAsCompleted();
        ClosePopup();
        return GiftAlreadyInCart;
      }
      var handle := productData[selected[0]].handle;
      var product := if handle in catalog then Some(catalog[handle]) else None;
      var prepared := PrepareGift(product, config.cartThreshold, date);
      if prepared.Refused? {
        return AddFailed(prepared.reason);
      }
      if !cartAccepted {
        return AddFailed(CartRejected);
      }
      MarkAsCompleted();
      ClosePopup();
      outcome := GiftAdded(prepared.request);
    }
  }
}
