/** The per-product quantity limiter: limits per collection, the cart arithmetic behind
    every add, the merge into an existing line, the quantity-input clamp and the
    consolidation of over-limit and duplicate cart lines. */
module QuantityLimiter {
  import opened Wrappers
  import opened Text
  import opened Shop

  // ---------------------------------------------------------------------------
  // Messages

  const EnglishMessages: map<string, string> := map[
      "alreadyMax" := "You have reached the maximum limit for this product!",
      "limitReached" := "Maximum: " + Placeholder("max") + " pieces per customer",
      "addedToCart" := "Added to cart",
      "productLimited" := "Limited to 1 per customer for this special offer!",
      "quantityAdjusted" := "Adjusted \"" + Placeholder("product") + "\" quantity to " + Placeholder("max") + " (maximum limit)",
      "errorAdding" := "Error adding product",
      "maxLimit" := "Max: " + Placeholder("max")]

  const ArabicMessages: map<string, string> := map[
      "alreadyMax" := "\U{0644}\U{0642}\U{062F} \U{0648}\U{0635}\U{0644}\U{062A} \U{0625}\U{0644}\U{0649} \U{0627}\U{0644}\U{062D}\U{062F} \U{0627}\U{0644}\U{0623}\U{0642}\U{0635}\U{0649} \U{0644}\U{0647}\U{0630}\U{0627} \U{0627}\U{0644}\U{0645}\U{0646}\U{062A}\U{062C}!",
      "limitReached" := "\U{0627}\U{0644}\U{062D}\U{062F} \U{0627}\U{0644}\U{0623}\U{0642}\U{0635}\U{0649}: {max} \U{0642}\U{0637}\U{0639}\U{0629} \U{0644}\U{0643}\U{0644} \U{0639}\U{0645}\U{064A}\U{0644}",
      "addedToCart" := "\U{062A}\U{0645}\U{062A} \U{0627}\U{0644}\U{0625}\U{0636}\U{0627}\U{0641}\U{0629} \U{0625}\U{0644}\U{0649} \U{0627}\U{0644}\U{0633}\U{0644}\U{0629}",
      "productLimited" := "\U{0645}\U{062D}\U{062F}\U{0648}\U{062F} \U{0628}\U{0642}\U{0637}\U{0639}\U{0629} \U{0648}\U{0627}\U{062D}\U{062F}\U{0629} \U{0644}\U{0643}\U{0644} \U{0639}\U{0645}\U{064A}\U{0644} \U{0644}\U{0647}\U{0630}\U{0627} \U{0627}\U{0644}\U{0639}\U{0631}\U{0636} \U{0627}\U{0644}\U{062E}\U{0627}\U{0635}!",
      "quantityAdjusted" := "\U{064A}\U{0645}\U{0643}\U{0646}\U{0643} \U{0627}\U{0636}\U{0627}\U{0641}\U{0629} \U{0642}\U{0637}\U{0639}\U{0629} \U{0648}\U{0627}\U{062D}\U{062F}\U{0629} \U{0641}\U{0642}\U{0637} \U{0645}\U{0646} \U{0643}\U{0644} \U{0645}\U{0646}\U{062A}\U{062C} \U{0641}\U{064A} \U{0647}\U{0630}\U{0627} \U{0627}\U{0644}\U{0639}\U{0631}\U{0636}",
      "errorAdding" := "\U{062D}\U{062F}\U{062B} \U{062E}\U{0637}\U{0623} \U{0641}\U{064A} \U{0625}\U{0636}\U{0627}\U{0641}\U{0629} \U{0627}\U{0644}\U{0645}\U{0646}\U{062A}\U{062C}",
      "maxLimit" := "\U{0627}\U{0644}\U{062D}\U{062F} \U{0627}\U{0644}\U{0623}\U{0642}\U{0635}\U{0649}: {max}"]

  /** The page language, `en` when the document declares none. */
  function Locale(lang: string): string {
    if lang == "" then "en" else lang
  }

  /** Arabic messages are used when the language tag contains `ar`. */
  predicate IsArabic(lang: string) {
    Contains(Locale(lang), "ar")
  }

  /** The message table of the page language. */
  function Messages(arabic: bool): map<string, string> {
    if arabic then ArabicMessages else EnglishMessages
  }

  /** The template `getMessage` starts from: the entry of the page language's `table`,
      else the English one, else the key itself (an empty entry counts as missing). */
  function MessageTemplate(table: map<string, string>, key: string): (r: string)
    ensures key in table && table[key] != "" ==> r == table[key]
    ensures (key !in table || table[key] == "") && key in EnglishMessages && EnglishMessages[key] != "" ==>
      r == EnglishMessages[key]
    ensures (key !in table || table[key] == "") && (key !in EnglishMessages || EnglishMessages[key] == "") ==> r == key
  {
    if key in table && table[key] != "" then table[key]
    else if key in EnglishMessages && EnglishMessages[key] != "" then EnglishMessages[key]
    else key
  }

  /** `getMessage`: the template with each replacement filling the first occurrence of its
      placeholder, in order (the loop itself is `Text.Substitute`). */
  function Message(arabic: bool, key: string, replacements: seq<(string, string)>): string {
    SubstituteAll(MessageTemplate(Messages(arabic), key), replacements)
  }

  /** The English `limitReached` message names the limit. */
  lemma {:induction false} LimitReachedMessage(max: nat)
    ensures Message(false, "limitReached", [("max", NatToString(max))])
      == "Maximum: " + NatToString(max) + " pieces per customer"
  {
    var pre, post := "Maximum: ", " pieces per customer";
    assert MessageTemplate(Messages(false), "limitReached") == pre + Placeholder("max") + post;
    SubstituteStep(pre, "max", post, NatToString(max), []);
    assert [("max", NatToString(max))] + [] == [("max", NatToString(max))];
  }

  /** The English `quantityAdjusted` message names the product and the limit, provided the
      product title holds no `{` (a title holding `{max}` would take the limit itself). */
  lemma {:induction false} QuantityAdjustedMessage(product: string, max: nat)
    requires NoBrace(product)
    ensures Message(false, "quantityAdjusted", [("product", product), ("max", NatToString(max))])
      == "Adjusted \"" + product + "\" quantity to " + NatToString(max) + " (maximum limit)"
  {
    var a, mid, post := "Adjusted \"", "\" quantity to ", " (maximum limit)";
    assert MessageTemplate(Messages(false), "quantityAdjusted") == a + Placeholder("product") + mid + Placeholder("max") + post;
    assert a + Placeholder("product") + mid + Placeholder("max") + post
        == a + Placeholder("product") + (mid + Placeholder("max") + post);
    SubstituteTwo(a, "product", mid, "max", post, product, NatToString(max));
  }

  /** A key without a template is its own message. */
  lemma UnknownKeyMessage(arabic: bool, key: string)
    requires key !in EnglishMessages && key !in ArabicMessages
    ensures Message(arabic, key, []) == key
  {
  }

  // ---------------------------------------------------------------------------
  // Limits

  /** One configured collection (`HALA_QUANTITY_CONFIG.collections`). */
  datatype CollectionLimit = CollectionLimit(handle: string, maxQuantity: nat, message: Option<string>)

  /** What the limiter records for a product of a limited collection. */
  datatype LimitInfo = LimitInfo(collectionHandle: string, maxQuantity: nat, message: string)

  /** The configuration used when the page provides none. */
  const DefaultCollections: seq<CollectionLimit> :=
    [CollectionLimit("0-99", 1, Some("Limited to 1 per customer!"))]

  /** The record for a product of collection `c`: its own message, else `limitReached`. */
  function CollectionInfo(arabic: bool, c: CollectionLimit): LimitInfo {
    LimitInfo(c.handle, c.maxQuantity,
              if c.message.Some? && c.message.value != "" then c.message.value
              else Message(arabic, "limitReached", [("max", NatToString(c.maxQuantity))]))
  }

  /** The two product maps agree: every limited product has its limit recorded twice. */
  ghost predicate Consistent(limits: map<int, nat>, infos: map<int, LimitInfo>) {
    && limits.Keys == infos.Keys
    && (forall id :: id in infos ==> limits[id] == infos[id].maxQuantity)
  }

  /** `getProductLimit`: a recorded limit of 0 reads as no limit (`|| null`). */
  function ProductLimit(limits: map<int, nat>, id: int): (r: Option<nat>)
    ensures r.Some? <==> id in limits && limits[id] > 0
    ensures r.Some? ==> r.value == limits[id]
  {
    if id in limits && limits[id] != 0 then Some(limits[id]) else None
  }

  // ---------------------------------------------------------------------------
  // The cart

  /** The `/cart.js` document; `items` is `None` when the document has none. */
  datatype CartDoc = CartDoc(items: Option<seq<CartLine>>)

  function Items(cart: Option<CartDoc>): Option<seq<CartLine>> {
    if cart.Some? then cart.value.items else None
  }

  /** The sum of the quantities of the lines of product `id`. */
  function SumFor(lines: seq<CartLine>, id: int): nat
    decreases |lines|
  {
    if lines == [] then 0
    else
      var last := lines[|lines| - 1];
      SumFor(lines[..|lines| - 1], id) + (if last.productId == id then last.quantity else 0)
  }

  /** The sum over a cart split in two is the sum of the sums. */
  lemma {:induction false} SumForAppend(a: seq<CartLine>, b: seq<CartLine>, id: int)
    ensures SumFor(a + b, id) == SumFor(a, id) + SumFor(b, id)
    decreases |b|
  {
    if b != [] {
      var b' := b[..|b| - 1];
      assert (a + b)[..|a + b| - 1] == a + b';
      SumForAppend(a, b', id);
    } else {
      assert a + b == a;
    }
  }

  /** No line of the product: nothing in the cart. */
  lemma {:induction false} SumForAbsent(lines: seq<CartLine>, id: int)
    requires forall i :: 0 <= i < |lines| ==> lines[i].productId != id
    ensures SumFor(lines, id) == 0
    decreases |lines|
  {
    if lines != [] {
      SumForAbsent(lines[..|lines| - 1], id);
    }
  }

  /** When every line of the product but line `f` is empty, the sum is line `f`'s quantity;
      in particular every line counts towards the sum. */
  lemma {:induction false} SumForSingle(lines: seq<CartLine>, id: int, f: nat)
    requires f < |lines| && lines[f].productId == id
    requires forall j :: 0 <= j < |lines| && j != f && lines[j].productId == id ==> lines[j].quantity == 0
    ensures SumFor(lines, id) == lines[f].quantity
    decreases |lines|
  {
    var n := |lines| - 1;
    if f == n {
      var front := lines[..n];
      forall j | 0 <= j < |front| && front[j].productId == id
        ensures front[j].quantity == 0
      {
        assert lines[j] == front[j];
      }
      SumForZero(front, id);
    } else {
      SumForSingle(lines[..n], id, f);
    }
  }

  /** Lines of the product that are all empty sum to 0. */
  lemma {:induction false} SumForZero(lines: seq<CartLine>, id: int)
    requires forall j :: 0 <= j < |lines| && lines[j].productId == id ==> lines[j].quantity == 0
    ensures SumFor(lines, id) == 0
    decreases |lines|
  {
    if lines != [] {
      SumForZero(lines[..|lines| - 1], id);
    }
  }

  /** Every line of the product is part of its quantity in the cart. */
  lemma {:induction false} SumForAtLeastLine(lines: seq<CartLine>, id: int, i: nat)
    requires i < |lines| && lines[i].productId == id
    ensures lines[i].quantity <= SumFor(lines, id)
    decreases |lines|
  {
    if i < |lines| - 1 {
      SumForAtLeastLine(lines[..|lines| - 1], id, i);
    }
  }

  /** `getProductQuantityInCart`: 0 without a cart or without items. */
  function QuantityInCart(items: Option<seq<CartLine>>, id: int): nat {
    if items.Some? then SumFor(items.value, id) else 0
  }

  /** The line `getExistingCartItem` compares against `variant`. */
  predicate LineMatches(line: CartLine, id: int, variant: Option<int>) {
    line.productId == id && (variant.None? || line.variantId == variant.value)
  }

  /** The first line at or after `from` that matches. */
  function FirstMatch(lines: seq<CartLine>, id: int, variant: Option<int>, from: nat): (r: Option<nat>)
    ensures r.Some? ==> from <= r.value < |lines| && LineMatches(lines[r.value], id, variant)
    ensures r.Some? ==> forall j :: from <= j < r.value ==> !LineMatches(lines[j], id, variant)
    ensures r.None? ==> forall j :: from <= j < |lines| ==> !LineMatches(lines[j], id, variant)
    decreases |lines| - from
  {
    if from >= |lines| then None
    else if LineMatches(lines[from], id, variant) then Some(from)
    else FirstMatch(lines, id, variant, from + 1)
  }

  /** `getExistingCartItem`: the first line of the product, of the exact variant when a
      (non-zero) variant id is given. */
  function ExistingLine(items: Option<seq<CartLine>>, id: int, variantId: Option<int>): (r: Option<nat>)
    ensures r.Some? ==> items.Some? && r.value < |items.value| && items.value[r.value].productId == id
    ensures r.Some? && variantId.Some? && variantId.value != 0 ==> items.value[r.value].variantId == variantId.value
    ensures r.Some? ==> forall j :: 0 <= j < r.value ==> !LineMatches(items.value[j], id, ExactVariant(variantId))
    ensures r.None? && items.Some? ==> forall j :: 0 <= j < |items.value| ==> !LineMatches(items.value[j], id, ExactVariant(variantId))
  {
    if items.None? then None else FirstMatch(items.value, id, ExactVariant(variantId), 0)
  }

  /** A variant id of 0 (or none) asks for any line of the product. */
  function ExactVariant(variantId: Option<int>): Option<int> {
    if variantId.Some? && variantId.value != 0 then variantId else None
  }

  // ---------------------------------------------------------------------------
  // Decisions

  /** The result of `canAddToCart`. */
  datatype Verdict =
    | NoLimit
    | Allowed(currentQuantity: nat, maxQuantity: nat, canAddMore: int)
    | Refused(message: string, currentQuantity: nat, maxQuantity: nat, canAddMore: int)

  /** The message of a refusal: the collection's, else `alreadyMax`. */
  function RefusalMessage(infos: map<int, LimitInfo>, id: int, arabic: bool): string {
    if id in infos && infos[id].message != "" then infos[id].message
    else Message(arabic, "alreadyMax", [])
  }

  function Min(a: int, b: int): int {
    if a <= b then a else b
  }

  /** `canAddToCart`: may `requested` more of product `id` go into the cart? */
  function CanAddToCart(limits: map<int, nat>, infos: map<int, LimitInfo>, items: Option<seq<CartLine>>,
                        id: int, requested: int, arabic: bool): (r: Verdict)
    ensures r.NoLimit? <==> ProductLimit(limits, id).None?
    ensures !r.NoLimit? ==> r.currentQuantity == QuantityInCart(items, id) && r.maxQuantity == limits[id]
    ensures r.Refused? <==> !r.NoLimit? && (r.currentQuantity >= r.maxQuantity || r.currentQuantity + requested > r.maxQuantity)
    ensures r.Allowed? ==> r.currentQuantity + requested <= r.maxQuantity
    ensures r.Allowed? ==> r.canAddMore == r.maxQuantity - r.currentQuantity > 0
    ensures r.Refused? ==> r.canAddMore == if r.currentQuantity >= r.maxQuantity then 0 else r.maxQuantity - r.currentQuantity
    ensures r.Refused? ==> r.message == RefusalMessage(infos, id, arabic)
  {
    match ProductLimit(limits, id)
    case None => NoLimit
    case Some(limit) =>
      var current := QuantityInCart(items, id);
      if current >= limit then Refused(RefusalMessage(infos, id, arabic), current, limit, 0)
      else if current + requested > limit then Refused(RefusalMessage(infos, id, arabic), current, limit, limit - current)
      else Allowed(current, limit, limit - current)
  }

  /** With no limit, or a recorded limit of 0, every add is allowed. */
  lemma CanAddWithoutLimit(limits: map<int, nat>, infos: map<int, LimitInfo>, items: Option<seq<CartLine>>,
                           id: int, requested: int, arabic: bool)
    requires id !in limits || limits[id] == 0
    ensures CanAddToCart(limits, infos, items, id, requested, arabic) == NoLimit
  {
  }

  /** Adding to an empty cart is allowed exactly up to the limit. */
  lemma {:induction false} CanAddToEmptyCart(limits: map<int, nat>, infos: map<int, LimitInfo>,
                                             id: int, requested: int, arabic: bool)
    requires ProductLimit(limits, id).Some?
    ensures CanAddToCart(limits, infos, None, id, requested, arabic).Allowed? <==> requested <= limits[id]
    ensures CanAddToCart(limits, infos, Some([]), id, requested, arabic).Allowed? <==> requested <= limits[id]
  {
  }

  /** What `handleFormSubmit` does with a product form. */
  datatype Submission =
    | SubmitForm                          // no limit: the form goes through unchanged
    | Blocked(message: string)            // refused, with the notification shown
    | UpdateLine(key: string, quantity: int)  // merge into the existing line
    | AddLine                             // `/cart/add.js` with the form's data
    | NoAction                            // neither branch applies

  /** The message shown when the submit is blocked. */
  function BlockMessage(info: LimitInfo, arabic: bool): string {
    if info.message != "" then info.message else Message(arabic, "alreadyMax", [])
  }

  /** `handleFormSubmit` once the product id is known and the cart has been fetched. */
  function SubmitDecision(limits: map<int, nat>, infos: map<int, LimitInfo>, items: Option<seq<CartLine>>,
                          id: int, variantId: Option<int>, requested: int, arabic: bool): (r: Submission)
    ensures r.SubmitForm? <==> id !in infos
    ensures r.AddLine? ==> ExistingLine(items, id, variantId).None?
    ensures r.AddLine? && Consistent(limits, infos) ==> QuantityInCart(items, id) + requested <= infos[id].maxQuantity
    ensures r.UpdateLine? ==> ExistingLine(items, id, variantId).Some? && id in limits
    ensures r.UpdateLine? ==>
      var line := items.value[ExistingLine(items, id, variantId).value];
      && r.key == line.key
      && r.quantity == Min(line.quantity + requested, limits[id])
      && r.quantity != line.quantity
      && line.quantity < limits[id]
      && QuantityInCart(items, id) - line.quantity + r.quantity <= limits[id]
    ensures r.UpdateLine? && requested > 0 ==> r.quantity > items.value[ExistingLine(items, id, variantId).value].quantity
    ensures id in infos && QuantityInCart(items, id) >= infos[id].maxQuantity ==> r.Blocked?
    ensures Consistent(limits, infos) ==> !r.NoAction?
    ensures Consistent(limits, infos) && id in infos ==>
      var v := CanAddToCart(limits, infos, items, id, requested, arabic);
      && (!v.Allowed? ==> r.Blocked?)
      && (v.Allowed? && ExistingLine(items, id, variantId).None? ==> r == AddLine)
      && (v.Allowed? && ExistingLine(items, id, variantId).Some? ==>
            var line := items.value[ExistingLine(items, id, variantId).value];
            var merged := Min(line.quantity + requested, limits[id]);
            r == if line.quantity < limits[id] && merged != line.quantity then UpdateLine(line.key, merged)
                 else Blocked(BlockMessage(infos[id], arabic)))
  {
    if id !in infos then SubmitForm
    else
      var info := infos[id];
      var current := QuantityInCart(items, id);
      if current >= info.maxQuantity then Blocked(BlockMessage(info, arabic))
      else
        var check := CanAddToCart(limits, infos, items, id, requested, arabic);
        if check.Refused? then
          Blocked(if check.message != "" then check.message else Message(arabic, "alreadyMax", []))
        else
          match ExistingLine(items, id, variantId)
          case None => AddLine
          case Some(k) =>
            var line := items.value[k];
            if line.quantity >= info.maxQuantity then Blocked(BlockMessage(info, arabic))
            else if check.Allowed? && check.canAddMore > 0 then
              var merged := Min(line.quantity + requested, check.maxQuantity);
              if merged == line.quantity then Blocked(BlockMessage(info, arabic))
              else
                SumForAtLeastLine(items.value, id, k);
                UpdateLine(line.key, merged)
            else NoAction
  }

  /** A request that does not change the line's quantity is blocked rather than sent. */
  lemma {:induction false} MergeWithoutChangeBlocked(limits: map<int, nat>, infos: map<int, LimitInfo>,
                                                     items: Option<seq<CartLine>>, id: int, variantId: Option<int>,
                                                     arabic: bool)
    requires Consistent(limits, infos) && id in infos
    requires ExistingLine(items, id, variantId).Some?
    ensures SubmitDecision(limits, infos, items, id, variantId, 0, arabic).Blocked?
  {
    var line := items.value[ExistingLine(items, id, variantId).value];
    SumForAtLeastLine(items.value, id, ExistingLine(items, id, variantId).value);
  }

  // ---------------------------------------------------------------------------
  // The quantity input

  /** `handleQuantityInputChange`: the value the input is reset to, if any. The limit and
      the value are `None` where `parseInt` gives `NaN`; a limit of 0 disables the clamp. */
  function ClampInput(limitAttr: Option<int>, value: Option<int>): (r: Option<int>)
    ensures r.Some? <==> limitAttr.Some? && limitAttr.value != 0 && value.Some? && value.value > limitAttr.value
    ensures r.Some? ==> r.value == limitAttr.value
  {
    if limitAttr.None? || limitAttr.value == 0 then None
    else if value.Some? && value.value > limitAttr.value then Some(limitAttr.value)
    else None
  }

  /** The input's value after the handler ran. */
  function InputAfter(limitAttr: Option<int>, value: Option<int>): Option<int> {
    match ClampInput(limitAttr, value)
    case Some(v) => Some(v)
    case None => value
  }

  /** After the handler the value is within the limit, and a second change event leaves it
      as it is. */
  lemma ClampInputSettles(limitAttr: Option<int>, value: Option<int>)
    ensures limitAttr.Some? && limitAttr.value != 0 && value.Some? ==> InputAfter(limitAttr, value).value <= limitAttr.value
    ensures ClampInput(limitAttr, InputAfter(limitAttr, value)).None?
    ensures InputAfter(limitAttr, InputAfter(limitAttr, value)) == InputAfter(limitAttr, value)
  {
  }

  // ---------------------------------------------------------------------------
  // Enforcing the limits on the cart

  /** A line holding more than its product's limit. */
  predicate OverLimit(line: CartLine, infos: map<int, LimitInfo>) {
    line.productId in infos && line.quantity > infos[line.productId].maxQuantity
  }

  /** The first loop of `enforceCartLimits`: every line above its product's limit is set
      to the limit. */
  function Clamps(items: seq<CartLine>, infos: map<int, LimitInfo>): (r: map<string, nat>)
    ensures forall k :: k in r ==> exists i :: 0 <= i < |items| && items[i].key == k
    decreases |items|
  {
    if items == [] then map[]
    else
      var front := items[..|items| - 1];
      var prev := Clamps(front, infos);
      var line := items[|items| - 1];
      assert forall k :: k in prev ==> exists i :: 0 <= i < |items| && items[i].key == k by {
        forall k | k in prev
          ensures exists i :: 0 <= i < |items| && items[i].key == k
        {
          var i :| 0 <= i < |front| && front[i].key == k;
          assert items[i] == front[i];
        }
      }
      if OverLimit(line, infos) then prev[line.key := infos[line.productId].maxQuantity] else prev
  }

  /** The lines of product `id`, in cart order. */
  function LinesOf(items: seq<CartLine>, id: int): seq<CartLine>
    decreases |items|
  {
    if items == [] then []
    else
      var last := items[|items| - 1];
      if last.productId == id then LinesOf(items[..|items| - 1], id) + [last] else LinesOf(items[..|items| - 1], id)
  }

  /** The group of a product holds exactly the cart's lines of that product. */
  lemma {:induction false} LinesOfMembers(items: seq<CartLine>, id: int)
    ensures forall l :: l in LinesOf(items, id) ==> l in items && l.productId == id
    ensures forall i :: 0 <= i < |items| && items[i].productId == id ==> items[i] in LinesOf(items, id)
    decreases |items|
  {
    if items != [] {
      var front := items[..|items| - 1];
      LinesOfMembers(front, id);
      assert forall i :: 0 <= i < |front| ==> front[i] == items[i];
    }
  }

  /** The products of the cart in the order of their first line (the `productMap` keys). */
  function ProductOrder(items: seq<CartLine>): (r: seq<int>)
    ensures forall a, b :: 0 <= a < b < |r| ==> r[a] != r[b]
    ensures forall i :: 0 <= i < |items| ==> items[i].productId in r
    decreases |items|
  {
    if items == [] then []
    else
      var front := items[..|items| - 1];
      var prev := ProductOrder(front);
      var id := items[|items| - 1].productId;
      assert forall i :: 0 <= i < |front| ==> front[i] == items[i];
      if id in prev then prev else prev + [id]
  }

  /** The sum of the quantities of some lines. */
  function TotalQuantity(lines: seq<CartLine>): nat
    decreases |lines|
  {
    if lines == [] then 0 else TotalQuantity(lines[..|lines| - 1]) + lines[|lines| - 1].quantity
  }

  /** The quantity the first line of a duplicated product keeps: the total, capped by the
      product's limit when it has one. */
  function GroupQuantity(group: seq<CartLine>, infos: map<int, LimitInfo>, id: int): nat {
    var total := TotalQuantity(group);
    var cap := if id in infos then infos[id].maxQuantity else total;
    if total <= cap then total else cap
  }

  /** Every listed line is set to 0. */
  function ZeroRest(updates: map<string, nat>, lines: seq<CartLine>): map<string, nat>
    decreases |lines|
  {
    if lines == [] then updates
    else ZeroRest(updates, lines[..|lines| - 1])[lines[|lines| - 1].key := 0]
  }

  /** The listed keys hold 0; every other key keeps its entry. */
  lemma {:induction false} ZeroRestLookup(updates: map<string, nat>, lines: seq<CartLine>)
    ensures var r := ZeroRest(updates, lines);
      && (forall k :: k in r <==> k in updates || exists j :: 0 <= j < |lines| && lines[j].key == k)
      && (forall j :: 0 <= j < |lines| ==> r[lines[j].key] == 0)
      && (forall k :: k in updates && (forall j :: 0 <= j < |lines| ==> lines[j].key != k) ==> r[k] == updates[k])
    decreases |lines|
  {
    if lines != [] {
      var front := lines[..|lines| - 1];
      ZeroRestLookup(updates, front);
      assert forall j :: 0 <= j < |front| ==> front[j] == lines[j];
    }
  }

  /** The second loop of `enforceCartLimits` over the products in `order`: a product with
      several lines keeps the capped total on its first line and 0 on the others. */
  function Consolidate(updates: map<string, nat>, items: seq<CartLine>, infos: map<int, LimitInfo>,
                       order: seq<int>): map<string, nat>
    decreases |order|
  {
    if order == [] then updates
    else ConsolidateOne(Consolidate(updates, items, infos, order[..|order| - 1]), items, infos, order[|order| - 1])
  }

  /** One more product in the order is one more consolidation step. */
  lemma {:induction false} ConsolidateSnoc(updates: map<string, nat>, items: seq<CartLine>,
                                           infos: map<int, LimitInfo>, order: seq<int>, g: nat)
    requires g < |order|
    ensures Consolidate(updates, items, infos, order[..g + 1])
      == ConsolidateOne(Consolidate(updates, items, infos, order[..g]), items, infos, order[g])
  {
    assert order[..g + 1][..g] == order[..g];
  }

  /** One iteration of the consolidation loop, for product `id`. */
  function ConsolidateOne(updates: map<string, nat>, items: seq<CartLine>, infos: map<int, LimitInfo>,
                          id: int): map<string, nat> {
    var group := LinesOf(items, id);
    if |group| > 1 then ZeroRest(updates[group[0].key := GroupQuantity(group, infos, id)], group[1..])
    else updates
  }

  /** The `updates` object `enforceCartLimits` sends to `/cart/update.js`. */
  function Plan(items: seq<CartLine>, infos: map<int, LimitInfo>): map<string, nat> {
    Consolidate(Clamps(items, infos), items, infos, ProductOrder(items))
  }

  /** The cart once `/cart/update.js` has applied `updates`. */
  function Applied(items: seq<CartLine>, updates: map<string, nat>): (r: seq<CartLine>)
    ensures |r| == |items|
  {
    seq(|items|, i requires 0 <= i < |items| =>
      if items[i].key in updates then items[i].(quantity := updates[items[i].key]) else items[i])
  }

  /** Line `i` is the first line of its product. */
  predicate FirstOfProduct(items: seq<CartLine>, i: nat)
    requires i < |items|
  {
    forall j :: 0 <= j < i ==> items[j].productId != items[i].productId
  }

  /** The product has more than one line. */
  predicate Duplicated(items: seq<CartLine>, id: int) {
    |LinesOf(items, id)| > 1
  }

  /** No two lines of one product both hold something. */
  predicate AtMostOneLinePerProduct(lines: seq<CartLine>) {
    forall i, j :: 0 <= i < j < |lines| && lines[i].productId == lines[j].productId ==>
      lines[i].quantity == 0 || lines[j].quantity == 0
  }

  /** Every limited product is within its limit. */
  predicate WithinLimits(lines: seq<CartLine>, infos: map<int, LimitInfo>) {
    forall id :: id in infos ==> SumFor(lines, id) <= infos[id].maxQuantity
  }

  lemma {:induction false} ClampsAt(items: seq<CartLine>, infos: map<int, LimitInfo>, i: nat)
    requires DistinctKeys(items) && i < |items|
    ensures items[i].key in Clamps(items, infos) <==> OverLimit(items[i], infos)
    ensures OverLimit(items[i], infos) ==> Clamps(items, infos)[items[i].key] == infos[items[i].productId].maxQuantity
    decreases |items|
  {
    var n := |items| - 1;
    ClampsSnoc(items, infos);
    if i < n {
      DistinctKeysFront(items);
      ClampsAt(items[..n], infos, i);
    }
  }

  /** One unfolding of `Clamps`: the last line is clamped on top of the others. */
  lemma {:induction false} ClampsSnoc(items: seq<CartLine>, infos: map<int, LimitInfo>)
    requires items != []
    ensures var n := |items| - 1; var prev := Clamps(items[..n], infos);
      Clamps(items, infos) == if OverLimit(items[n], infos) then prev[items[n].key := infos[items[n].productId].maxQuantity] else prev
  {
  }

  /** Dropping the last line keeps the keys distinct. */
  lemma {:induction false} DistinctKeysFront(items: seq<CartLine>)
    requires DistinctKeys(items) && items != []
    ensures DistinctKeys(items[..|items| - 1])
  {
    var front := items[..|items| - 1];
    forall a, b | 0 <= a < b < |front|
      ensures front[a].key != front[b].key
    {
      assert front[a] == items[a] && front[b] == items[b];
    }
  }

  lemma {:induction false} LinesOfEmpty(items: seq<CartLine>, id: int)
    requires forall j :: 0 <= j < |items| ==> items[j].productId != id
    ensures LinesOf(items, id) == []
    decreases |items|
  {
    if items != [] {
      var front := items[..|items| - 1];
      assert forall j :: 0 <= j < |front| ==> front[j] == items[j];
      LinesOfEmpty(front, id);
    }
  }

  lemma {:induction false} LinesOfAppend(a: seq<CartLine>, b: seq<CartLine>, id: int)
    ensures LinesOf(a + b, id) == LinesOf(a, id) + LinesOf(b, id)
    decreases |b|
  {
    if b == [] {
      assert a + b == a;
    } else {
      var b' := b[..|b| - 1];
      assert (a + b)[..|a + b| - 1] == a + b';
      LinesOfAppend(a, b', id);
    }
  }

  /** A group starts with the product's line at `i` when the lines before hold none. */
  lemma {:induction false} LinesOfSplit(items: seq<CartLine>, i: nat)
    requires i < |items|
    ensures var id := items[i].productId;
      LinesOf(items, id) == LinesOf(items[..i], id) + [items[i]] + LinesOf(items[i + 1..], id)
  {
    var id := items[i].productId;
    assert items == items[..i] + ([items[i]] + items[i + 1..]);
    LinesOfAppend(items[..i], [items[i]] + items[i + 1..], id);
    LinesOfAppend([items[i]], items[i + 1..], id);
    assert [items[i]][..0] == [];
  }

  /** The first line of a product heads its group; any later line sits behind the head. */
  lemma {:induction false} LinesOfFirst(items: seq<CartLine>, i: nat)
    requires i < |items|
    ensures |LinesOf(items, items[i].productId)| > 0
    ensures FirstOfProduct(items, i) ==> LinesOf(items, items[i].productId)[0] == items[i]
    ensures !FirstOfProduct(items, i) ==> items[i] in LinesOf(items, items[i].productId)[1..]
  {
    var id := items[i].productId;
    LinesOfSplit(items, i);
    var pre := LinesOf(items[..i], id);
    if FirstOfProduct(items, i) {
      LinesOfEmpty(items[..i], id);
    } else {
      var j :| 0 <= j < i && items[j].productId == id;
      assert items[..i][j] == items[j];
      LinesOfMembers(items[..i], id);
      assert items[j] in pre;
      assert LinesOf(items, id)[|pre|] == items[i];
    }
  }

  lemma {:induction false} LinesOfDistinctKeys(items: seq<CartLine>, id: int)
    requires DistinctKeys(items)
    ensures DistinctKeys(LinesOf(items, id))
    decreases |items|
  {
    if items != [] {
      var n := |items| - 1;
      var front := items[..n];
      var last := items[n];
      assert forall j :: 0 <= j < n ==> front[j] == items[j];
      LinesOfDistinctKeys(front, id);
      LinesOfMembers(front, id);
      var g := LinesOf(front, id);
      if last.productId == id {
        forall a | 0 <= a < |g|
          ensures g[a].key != last.key
        {
          assert g[a] in g;
          var j :| 0 <= j < n && front[j] == g[a];
        }
      }
    }
  }

  lemma {:induction false} TotalOfLines(items: seq<CartLine>, id: int)
    ensures TotalQuantity(LinesOf(items, id)) == SumFor(items, id)
    decreases |items|
  {
    if items != [] {
      var n := |items| - 1;
      TotalOfLines(items[..n], id);
      var g := LinesOf(items[..n], id);
      if items[n].productId == id {
        assert (g + [items[n]])[..|g|] == g;
      }
    }
  }

  /** Lines of another product never carry the key of line `i`. */
  lemma {:induction false} OtherGroupKeys(items: seq<CartLine>, q: int, i: nat)
    requires DistinctKeys(items) && i < |items| && items[i].productId != q
    ensures forall j :: 0 <= j < |LinesOf(items, q)| ==> LinesOf(items, q)[j].key != items[i].key
  {
    var g := LinesOf(items, q);
    LinesOfMembers(items, q);
    forall j | 0 <= j < |g|
      ensures g[j].key != items[i].key
    {
      assert g[j] in g;
      var m :| 0 <= m < |items| && items[m] == g[j];
    }
  }

  /** The iteration for another product leaves the key of line `i` alone. */
  lemma {:induction false} ConsolidateOneOther(updates: map<string, nat>, items: seq<CartLine>,
                                               infos: map<int, LimitInfo>, q: int, i: nat)
    requires DistinctKeys(items) && i < |items| && items[i].productId != q
    ensures var k, r := items[i].key, ConsolidateOne(updates, items, infos, q);
      (k in r <==> k in updates) && (k in updates ==> r[k] == updates[k])
  {
    var g := LinesOf(items, q);
    if |g| > 1 {
      ZeroRestLookup(updates[g[0].key := GroupQuantity(g, infos, q)], g[1..]);
      OtherGroupKeys(items, q, i);
      assert g[0].key != items[i].key;
      assert forall j :: 0 <= j < |g[1..]| ==> g[1..][j].key != items[i].key;
    }
  }

  /** The iteration for line `i`'s own product sets its key. */
  lemma {:induction false} ConsolidateOneOwn(updates: map<string, nat>, items: seq<CartLine>,
                                             infos: map<int, LimitInfo>, i: nat)
    requires DistinctKeys(items) && i < |items| && Duplicated(items, items[i].productId)
    ensures var id, k := items[i].productId, items[i].key;
      var r := ConsolidateOne(updates, items, infos, id);
      k in r && r[k] == if FirstOfProduct(items, i) then GroupQuantity(LinesOf(items, id), infos, id) else 0
  {
    var id := items[i].productId;
    var g := LinesOf(items, id);
    LinesOfFirst(items, i);
    ZeroRestLookup(updates[g[0].key := GroupQuantity(g, infos, id)], g[1..]);
    if FirstOfProduct(items, i) {
      LinesOfDistinctKeys(items, id);
      assert forall j :: 0 <= j < |g[1..]| ==> g[1..][j] == g[j + 1];
    } else {
      var j :| 0 <= j < |g[1..]| && g[1..][j] == items[i];
    }
  }

  /** What the consolidation loop leaves at the key of line `i`. */
  lemma {:induction false} ConsolidateAt(updates: map<string, nat>, items: seq<CartLine>, infos: map<int, LimitInfo>,
                                         order: seq<int>, i: nat)
    requires DistinctKeys(items) && i < |items|
    requires forall a, b :: 0 <= a < b < |order| ==> order[a] != order[b]
    ensures var id, k := items[i].productId, items[i].key;
      var r := Consolidate(updates, items, infos, order);
      if id in order && Duplicated(items, id) then
        k in r && r[k] == if FirstOfProduct(items, i) then GroupQuantity(LinesOf(items, id), infos, id) else 0
      else
        (k in r <==> k in updates) && (k in updates ==> r[k] == updates[k])
    decreases |order|
  {
    if order != [] {
      var id := items[i].productId;
      var front := order[..|order| - 1];
      var q := order[|order| - 1];
      ConsolidateAt(updates, items, infos, front, i);
      var prev := Consolidate(updates, items, infos, front);
      assert id in order <==> id in front || id == q;
      if q != id {
        ConsolidateOneOther(prev, items, infos, q, i);
      } else {
        assert id !in front;
        if Duplicated(items, id) {
          ConsolidateOneOwn(prev, items, infos, i);
        }
      }
    }
  }

  /** What the update object holds for line `i`. */
  lemma {:induction false} PlanAt(items: seq<CartLine>, infos: map<int, LimitInfo>, i: nat)
    requires DistinctKeys(items) && i < |items|
    ensures var id, k := items[i].productId, items[i].key;
      var r := Plan(items, infos);
      if Duplicated(items, id) then
        k in r && r[k] == if FirstOfProduct(items, i) then GroupQuantity(LinesOf(items, id), infos, id) else 0
      else
        (k in r <==> OverLimit(items[i], infos))
        && (OverLimit(items[i], infos) ==> r[k] == infos[id].maxQuantity)
  {
    ClampsAt(items, infos, i);
    ConsolidateAt(Clamps(items, infos), items, infos, ProductOrder(items), i);
  }

  /** The line a lemma needs: the quantity of line `i` once the updates are applied. */
  lemma {:induction false} AppliedAt(items: seq<CartLine>, infos: map<int, LimitInfo>, i: nat)
    requires DistinctKeys(items) && i < |items|
    ensures var a, id := Applied(items, Plan(items, infos)), items[i].productId;
      && a[i].productId == id && a[i].key == items[i].key
      && a[i].quantity == if Duplicated(items, id) then (if FirstOfProduct(items, i) then GroupQuantity(LinesOf(items, id), infos, id) else 0)
                          else if OverLimit(items[i], infos) then infos[id].maxQuantity
                          else items[i].quantity
  {
    PlanAt(items, infos, i);
  }

  /** After `enforceCartLimits` has been applied, every product has at most one line that
      holds something, every limited product is within its limit, the totals of products
      without a limit are unchanged, and a lone line within its limit is untouched. */
  lemma {:induction false} EnforcedCartWithinLimits(items: seq<CartLine>, infos: map<int, LimitInfo>)
    requires DistinctKeys(items)
    ensures AtMostOneLinePerProduct(Applied(items, Plan(items, infos)))
    ensures WithinLimits(Applied(items, Plan(items, infos)), infos)
    ensures forall id :: id !in infos ==> SumFor(Applied(items, Plan(items, infos)), id) == SumFor(items, id)
    ensures forall i :: 0 <= i < |items| && !OverLimit(items[i], infos) && !Duplicated(items, items[i].productId) ==>
      items[i].key !in Plan(items, infos)
  {
    var a := Applied(items, Plan(items, infos));
    forall i, j | 0 <= i < j < |a| && a[i].productId == a[j].productId
      ensures a[i].quantity == 0 || a[j].quantity == 0
    {
      AppliedAt(items, infos, i);
      AppliedAt(items, infos, j);
      LinesOfFirst(items, j);
    }
    forall id | id in infos
      ensures SumFor(a, id) <= infos[id].maxQuantity
    {
      TotalsAfter(items, infos, id);
    }
    forall id | id !in infos
      ensures SumFor(a, id) == SumFor(items, id)
    {
      TotalsAfter(items, infos, id);
    }
    forall i | 0 <= i < |items| && !OverLimit(items[i], infos) && !Duplicated(items, items[i].productId)
      ensures items[i].key !in Plan(items, infos)
    {
      PlanAt(items, infos, i);
    }
  }

  /** A limited product's quantity after the updates: at most its limit. */
  function Capped(items: seq<CartLine>, infos: map<int, LimitInfo>, id: int): (r: nat)
    requires id in infos
    ensures r <= infos[id].maxQuantity
  {
    var total := SumFor(items, id);
    if total <= infos[id].maxQuantity then total else infos[id].maxQuantity
  }

  /** The product's total after the updates: capped when it has a limit, unchanged otherwise. */
  lemma {:induction false} TotalsAfter(items: seq<CartLine>, infos: map<int, LimitInfo>, id: int)
    requires DistinctKeys(items)
    ensures SumFor(Applied(items, Plan(items, infos)), id) == if id in infos then Capped(items, infos, id) else SumFor(items, id)
  {
    match FirstMatch(items, id, None, 0)
    case None => TotalsAfterAbsent(items, infos, id);
    case Some(k) =>
      assert FirstOfProduct(items, k);
      TotalsAfterPresent(items, infos, id, k);
  }

  /** A product without lines keeps its total of 0. */
  lemma {:induction false} TotalsAfterAbsent(items: seq<CartLine>, infos: map<int, LimitInfo>, id: int)
    requires DistinctKeys(items) && FirstMatch(items, id, None, 0).None?
    ensures SumFor(items, id) == 0
    ensures SumFor(Applied(items, Plan(items, infos)), id) == 0
  {
    var a := Applied(items, Plan(items, infos));
    SumForAbsent(items, id);
    forall j | 0 <= j < |a|
      ensures a[j].productId != id
    {
      AppliedAt(items, infos, j);
    }
    SumForAbsent(a, id);
  }

  /** A product whose first line is `k` keeps its whole (capped) total on that line. */
  lemma {:induction false} TotalsAfterPresent(items: seq<CartLine>, infos: map<int, LimitInfo>, id: int, k: nat)
    requires DistinctKeys(items) && k < |items| && items[k].productId == id && FirstOfProduct(items, k)
    ensures SumFor(Applied(items, Plan(items, infos)), id) == if id in infos then Capped(items, infos, id) else SumFor(items, id)
  {
    var a := Applied(items, Plan(items, infos));
    AppliedAt(items, infos, k);
    AppliedFirstLine(items, infos, k);
    forall j | 0 <= j < |a| && j != k && a[j].productId == id
      ensures a[j].quantity == 0
    {
      AppliedAt(items, infos, j);
      AppliedLaterLine(items, infos, j);
    }
    SumForSingle(a, id, k);
  }

  /** The first line of a product carries the product's whole (capped) total. */
  lemma {:induction false} AppliedFirstLine(items: seq<CartLine>, infos: map<int, LimitInfo>, k: nat)
    requires DistinctKeys(items) && k < |items| && FirstOfProduct(items, k)
    ensures var id := items[k].productId;
      Applied(items, Plan(items, infos))[k].quantity == if id in infos then Capped(items, infos, id) else SumFor(items, id)
  {
    var id := items[k].productId;
    AppliedAt(items, infos, k);
    LinesOfFirst(items, k);
    TotalOfLines(items, id);
    if !Duplicated(items, id) {
      var g := LinesOf(items, id);
      assert g == [items[k]];
      assert TotalQuantity(g) == TotalQuantity(g[..0]) + items[k].quantity;
    }
  }

  /** A later line of a product is emptied. */
  lemma {:induction false} AppliedLaterLine(items: seq<CartLine>, infos: map<int, LimitInfo>, j: nat)
    requires DistinctKeys(items) && j < |items| && !FirstOfProduct(items, j)
    ensures Applied(items, Plan(items, infos))[j].quantity == 0
  {
    AppliedAt(items, infos, j);
    LinesOfFirst(items, j);
  }

  // ---------------------------------------------------------------------------
  // Loading the limited collections

  /** Every product of `ids` gets `info`. */
  function Assign(infos: map<int, LimitInfo>, info: LimitInfo, ids: seq<int>): (r: map<int, LimitInfo>)
    ensures forall id :: id in r <==> id in infos || id in ids
    ensures forall id :: id in ids ==> r[id] == info
    ensures forall id :: id in infos && id !in ids ==> r[id] == infos[id]
    decreases |ids|
  {
    if ids == [] then infos
    else
      var front := ids[..|ids| - 1];
      assert forall id :: id in ids <==> id in front || id == ids[|ids| - 1];
      Assign(infos, info, front)[ids[|ids| - 1] := info]
  }

  /** The records after the product lists of `batches` were read in order. */
  function InfosFrom(arabic: bool, batches: seq<(CollectionLimit, seq<int>)>): map<int, LimitInfo>
    decreases |batches|
  {
    if batches == [] then map[]
    else
      var last := batches[|batches| - 1];
      Assign(InfosFrom(arabic, batches[..|batches| - 1]), CollectionInfo(arabic, last.0), last.1)
  }

  /** One more product id in the list is one more assignment. */
  lemma {:induction false} AssignSnoc(infos: map<int, LimitInfo>, info: LimitInfo, ids: seq<int>, j: nat)
    requires j < |ids|
    ensures Assign(infos, info, ids[..j + 1]) == Assign(infos, info, ids[..j])[ids[j] := info]
  {
    assert ids[..j + 1][..j] == ids[..j];
  }

  /** One more product list read is one more collection assigned. */
  lemma {:induction false} InfosFromSnoc(arabic: bool, batches: seq<(CollectionLimit, seq<int>)>, i: nat)
    requires i < |batches|
    ensures InfosFrom(arabic, batches[..i + 1])
      == Assign(InfosFrom(arabic, batches[..i]), CollectionInfo(arabic, batches[i].0), batches[i].1)
  {
    assert batches[..i + 1][..i] == batches[..i];
  }

  /** The limits recorded beside the records. */
  function LimitsOf(infos: map<int, LimitInfo>): (r: map<int, nat>)
    ensures Consistent(r, infos)
  {
    map id | id in infos :: infos[id].maxQuantity
  }

  /** The product lists read from the page: each configured collection in order, with no
      products when the page lists none for it. */
  function PreloadedBatches(collections: seq<CollectionLimit>, preloaded: map<string, seq<int>>)
    : seq<(CollectionLimit, seq<int>)>
  {
    seq(|collections|, i requires 0 <= i < |collections| =>
      (collections[i], if collections[i].handle in preloaded then preloaded[collections[i].handle] else []))
  }

  /** The product lists fetched from `/collections/<handle>/products.json`, in the order the
      responses arrived; a failed request contributes nothing. */
  function FetchedBatches(collections: seq<CollectionLimit>, arrivals: seq<(nat, Option<seq<int>>)>)
    : seq<(CollectionLimit, seq<int>)>
    requires forall a :: a in arrivals ==> a.0 < |collections|
  {
    seq(|arrivals|, i requires 0 <= i < |arrivals| =>
      (collections[arrivals[i].0], arrivals[i].1.GetOr([])))
  }

  /** Recording one product's limit keeps the limits beside the records. */
  lemma LimitsOfUpdate(infos: map<int, LimitInfo>, id: int, info: LimitInfo)
    ensures LimitsOf(infos[id := info]) == LimitsOf(infos)[id := info.maxQuantity]
  {
  }

  /** A product listed by several collections gets the record of the last one read. */
  lemma {:induction false} LastCollectionWins(arabic: bool, batches: seq<(CollectionLimit, seq<int>)>, id: int, k: nat)
    requires k < |batches| && id in batches[k].1
    requires forall m :: k < m < |batches| ==> id !in batches[m].1
    ensures id in InfosFrom(arabic, batches)
    ensures InfosFrom(arabic, batches)[id] == CollectionInfo(arabic, batches[k].0)
    decreases |batches|
  {
    var n := |batches| - 1;
    if k < n {
      var front := batches[..n];
      assert forall m :: k < m < |front| ==> front[m] == batches[m];
      LastCollectionWins(arabic, front, id, k);
    }
  }

  /** A product no collection lists has no limit. */
  lemma {:induction false} UnlistedHasNoLimit(arabic: bool, batches: seq<(CollectionLimit, seq<int>)>, id: int)
    requires forall m :: 0 <= m < |batches| ==> id !in batches[m].1
    ensures id !in InfosFrom(arabic, batches)
    decreases |batches|
  {
    if batches != [] {
      var front := batches[..|batches| - 1];
      assert forall m :: 0 <= m < |front| ==> front[m] == batches[m];
      UnlistedHasNoLimit(arabic, front, id);
    }
  }

  // ---------------------------------------------------------------------------
  // The limiter's state

  /** The cart interval of the cache, in milliseconds. */
  const CartUpdateInterval := 300

  /** The limiter of one page: the configuration, the cached cart and the product records
      (`state.collectionProducts` and `cache.productLimits`). */
  class Limiter {
    const collections: seq<CollectionLimit>
    const arabic: bool
    var cart: Option<CartDoc>
    var lastCartUpdate: int
    var collectionProducts: map<int, LimitInfo>
    var productLimits: map<int, nat>

    /** The two product maps always agree. */
    predicate Valid()
      reads this
    {
      productLimits == LimitsOf(collectionProducts)
    }

    /** The script's start-up state for a page in language `lang`. */
    constructor (collections: seq<CollectionLimit>, lang: string)
      ensures Valid()
      ensures this.collections == collections && arabic == IsArabic(lang)
      ensures cart == None && lastCartUpdate == 0 && collectionProducts == map[]
    {
      this.collections := collections;
      arabic := IsArabic(lang);
      cart := None;
      lastCartUpdate := 0;
      collectionProducts := map[];
      productLimits := map[];
    }

    /** `fetchCartData` would answer from its cache at time `now`. */
    predicate ServesCached(force: bool, now: int)
      reads this
    {
      !force && cart.Some? && now - lastCartUpdate < CartUpdateInterval
    }

    /** `fetchCartData` at time `now`; `response` is the `/cart.js` document, `None` when the
        request failed. */
    method FetchCartData(force: bool, now: int, response: Option<CartDoc>) returns (r: Option<CartDoc>)
      requires Valid()
      modifies this
      ensures Valid()
      ensures old(ServesCached(force, now)) ==> r == old(cart) && cart == old(cart) && lastCartUpdate == old(lastCartUpdate)
      ensures !old(ServesCached(force, now)) && response.Some? ==> r == response && cart == response && lastCartUpdate == now
      ensures !old(ServesCached(force, now)) && response.None? ==> r.None? && cart == old(cart) && lastCartUpdate == old(lastCartUpdate)
      ensures r.Some? ==> forall t :: lastCartUpdate <= t < lastCartUpdate + CartUpdateInterval ==> ServesCached(false, t)
      ensures collectionProducts == old(collectionProducts) && productLimits == old(productLimits)
    {
      if ServesCached(force, now) {
        return cart;
      }
      if response.Some? {
        cart := response;
        lastCartUpdate := now;
      }
      r := response;
    }

    /** Record the products `ids` of collection `c` (the inner `forEach`). */
    method AddCollection(c: CollectionLimit, ids: seq<int>)
      requires Valid()
      modifies this
      ensures Valid()
      ensures collectionProducts == Assign(old(collectionProducts), CollectionInfo(arabic, c), ids)
      ensures cart == old(cart) && lastCartUpdate == old(lastCartUpdate)
    {
      var info := CollectionInfo(arabic, c);
      var j := 0;
      while j < |ids|
        invariant 0 <= j <= |ids|
        invariant collectionProducts == Assign(old(collectionProducts), info, ids[..j])
        invariant Valid()
        invariant cart == old(cart) && lastCartUpdate == old(lastCartUpdate)
      {
        AssignSnoc(old(collectionProducts), info, ids, j);
        LimitsOfUpdate(collectionProducts, ids[j], info);
        collectionProducts := collectionProducts[ids[j] := info];
        productLimits := productLimits[ids[j] := info.maxQuantity];
        j := j + 1;
      }
      assert ids[..|ids|] == ids;
    }

    /** `loadCollectionProducts`: clear the records, then read the page's product lists when
        it has them, else the fetched ones in the order they arrived. */
    method LoadCollectionProducts(preloaded: Option<map<string, seq<int>>>, arrivals: seq<(nat, Option<seq<int>>)>)
      requires forall a :: a in arrivals ==> a.0 < |collections|
      modifies this
      ensures Valid()
      ensures preloaded.Some? ==> collectionProducts == InfosFrom(arabic, PreloadedBatches(collections, preloaded.value))
      ensures preloaded.None? ==> collectionProducts == InfosFrom(arabic, FetchedBatches(collections, arrivals))
      ensures cart == old(cart) && lastCartUpdate == old(lastCartUpdate)
    {
      collectionProducts := map[];
      productLimits := map[];
      if preloaded.Some? {
        LoadPreloaded(preloaded.value);
      } else {
        LoadFetched(arrivals);
      }
    }

    /** The branch of `loadCollectionProducts` that reads the page's own product lists. */
    method LoadPreloaded(preloaded: map<string, seq<int>>)
      requires collectionProducts == map[] && Valid()
      modifies this
      ensures Valid()
      ensures collectionProducts == InfosFrom(arabic, PreloadedBatches(collections, preloaded))
      ensures cart == old(cart) && lastCartUpdate == old(lastCartUpdate)
    {
      ghost var batches := PreloadedBatches(collections, preloaded);
      var i := 0;
      while i < |collections|
        invariant 0 <= i <= |collections|
        invariant collectionProducts == InfosFrom(arabic, batches[..i])
        invariant Valid()
        invariant cart == old(cart) && lastCartUpdate == old(lastCartUpdate)
      {
        InfosFromSnoc(arabic, batches, i);
        var c := collections[i];
        var ids := if c.handle in preloaded then preloaded[c.handle] else [];
        AddCollection(c, ids);
        i := i + 1;
      }
      assert batches[..|collections|] == batches;
    }

    /** The branch of `loadCollectionProducts` that reads the fetched lists as they arrive. */
    method LoadFetched(arrivals: seq<(nat, Option<seq<int>>)>)
      requires forall a :: a in arrivals ==> a.0 < |collections|
      requires collectionProducts == map[] && Valid()
      modifies this
      ensures Valid()
      ensures collectionProducts == InfosFrom(arabic, FetchedBatches(collections, arrivals))
      ensures cart == old(cart) && lastCartUpdate == old(lastCartUpdate)
    {
      ghost var batches := FetchedBatches(collections, arrivals);
      var i := 0;
      while i < |arrivals|
        invariant 0 <= i <= |arrivals|
        invariant collectionProducts == InfosFrom(arabic, batches[..i])
        invariant Valid()
        invariant cart == old(cart) && lastCartUpdate == old(lastCartUpdate)
      {
        InfosFromSnoc(arabic, batches, i);
        assert arrivals[i] in arrivals;
        var c := collections[arrivals[i].0];
        AddCollection(c, arrivals[i].1.GetOr([]));
        i := i + 1;
      }
      assert batches[..|arrivals|] == batches;
    }

    /** `enforceCartLimits`: the update object for the cached cart and whether it is sent. */
    method EnforceCartLimits() returns (updates: map<string, nat>, hasChanges: bool)
      ensures Items(cart).None? ==> updates == map[] && !hasChanges
      ensures Items(cart).Some? ==> updates == Plan(Items(cart).value, collectionProducts)
      ensures hasChanges <==> updates != map[]
    {
      if cart.None? || cart.value.items.None? {
        return map[], false;
      }
      var items := cart.value.items.value;
      var infos := collectionProducts;
      updates, hasChanges := ClampLines(items, infos);
      var productMap, order := GroupByProduct(items);
      updates, hasChanges := ConsolidateAll(updates, hasChanges, items, infos, productMap, order);
    }
  }

  /** The first loop of `enforceCartLimits`. */
  method ClampLines(items: seq<CartLine>, infos: map<int, LimitInfo>) returns (updates: map<string, nat>, hasChanges: bool)
    ensures updates == Clamps(items, infos)
    ensures hasChanges <==> updates != map[]
  {
    updates := map[];
    hasChanges := false;
    var i := 0;
    while i < |items|
      invariant 0 <= i <= |items|
      invariant updates == Clamps(items[..i], infos)
      invariant hasChanges <==> updates != map[]
    {
      assert items[..i + 1][..i] == items[..i];
      var line := items[i];
      if line.productId in infos && line.quantity > infos[line.productId].maxQuantity {
        updates := updates[line.key := infos[line.productId].maxQuantity];
        assert line.key in updates;
        hasChanges := true;
      }
      i := i + 1;
    }
    assert items[..|items|] == items;
  }

  /** One pass of the second loop of `enforceCartLimits`, for a product with several lines:
      the total, capped by the limit, on the first line and 0 on the others. */
  method ConsolidateProduct(updates: map<string, nat>, items: seq<CartLine>, infos: map<int, LimitInfo>,
                            id: int, group: seq<CartLine>) returns (r: map<string, nat>)
    requires group == LinesOf(items, id) && |group| > 1
    ensures r == ConsolidateOne(updates, items, infos, id)
    ensures r != map[]
  {
    var total := GroupTotal(group);
    var cap := if id in infos then infos[id].maxQuantity else total;
    var base := updates[group[0].key := if total <= cap then total else cap];
    r := ZeroTail(base, group);
    ZeroRestLookup(base, group[1..]);
    assert group[0].key in base;
  }

  /** The summing loop: the total quantity of a group. */
  method GroupTotal(group: seq<CartLine>) returns (total: nat)
    ensures total == TotalQuantity(group)
  {
    total := 0;
    var j := 0;
    while j < |group|
      invariant 0 <= j <= |group|
      invariant total == TotalQuantity(group[..j])
    {
      assert group[..j + 1][..j] == group[..j];
      total := total + group[j].quantity;
      j := j + 1;
    }
    assert group[..|group|] == group;
  }

  /** The zeroing loop: every line of the group after the first is set to 0. */
  method ZeroTail(base: map<string, nat>, group: seq<CartLine>) returns (r: map<string, nat>)
    requires |group| > 0
    ensures r == ZeroRest(base, group[1..])
  {
    r := base;
    var j := 1;
    while j < |group|
      invariant 1 <= j <= |group|
      invariant r == ZeroRest(base, group[1..j])
    {
      assert group[1..j + 1][..j - 1] == group[1..j];
      r := r[group[j].key := 0];
      j := j + 1;
    }
    assert group[1..|group|] == group[1..];
  }

  /** The second loop of `enforceCartLimits`: each product with several lines, in the
      order of the product map, is consolidated. */
  method ConsolidateAll(clamps: map<string, nat>, clamped: bool, items: seq<CartLine>, infos: map<int, LimitInfo>,
                        productMap: map<int, seq<CartLine>>, order: seq<int>)
    returns (updates: map<string, nat>, hasChanges: bool)
    requires clamped <==> clamps != map[]
    requires forall id :: id in productMap <==> id in order
    requires forall id :: id in productMap ==> productMap[id] == LinesOf(items, id)
    ensures updates == Consolidate(clamps, items, infos, order)
    ensures hasChanges <==> updates != map[]
  {
    updates, hasChanges := clamps, clamped;
    var g := 0;
    while g < |order|
      invariant 0 <= g <= |order|
      invariant updates == Consolidate(clamps, items, infos, order[..g])
      invariant hasChanges <==> updates != map[]
    {
      ConsolidateSnoc(clamps, items, infos, order, g);
      var id := order[g];
      assert id in order;
      var group := productMap[id];
      if |group| > 1 {
        updates := ConsolidateProduct(updates, items, infos, id, group);
        hasChanges := true;
      }
      g := g + 1;
    }
    assert order[..|order|] == order;
  }

  /** One more line extends the group of its own product only. */
  lemma {:induction false} LinesOfSnoc(items: seq<CartLine>, i: nat, id: int)
    requires i < |items|
    ensures LinesOf(items[..i + 1], id) == LinesOf(items[..i], id) + (if items[i].productId == id then [items[i]] else [])
  {
    assert items[..i + 1][..i] == items[..i];
  }

  /** One more line adds its product to the order unless it is there already. */
  lemma {:induction false} ProductOrderSnoc(items: seq<CartLine>, i: nat)
    requires i < |items|
    ensures var prev := ProductOrder(items[..i]);
      ProductOrder(items[..i + 1]) == if items[i].productId in prev then prev else prev + [items[i].productId]
  {
    assert items[..i + 1][..i] == items[..i];
  }

  /** The `productMap` once the lines of `lines` have been read, one after the other. */
  function GroupMap(lines: seq<CartLine>): map<int, seq<CartLine>>
    decreases |lines|
  {
    if lines == [] then map[]
    else
      var m := GroupMap(lines[..|lines| - 1]);
      var last := lines[|lines| - 1];
      m[last.productId := (if last.productId in m then m[last.productId] else []) + [last]]
  }

  /** Reading one more line appends it to the group of its product. */
  lemma {:induction false} GroupMapSnoc(items: seq<CartLine>, i: nat)
    requires i < |items|
    ensures var m, id := GroupMap(items[..i]), items[i].productId;
      GroupMap(items[..i + 1]) == m[id := (if id in m then m[id] else []) + [items[i]]]
  {
    assert items[..i + 1][..i] == items[..i];
  }

  /** The product map is keyed by the products of the order. */
  lemma {:induction false} GroupMapKeys(lines: seq<CartLine>)
    ensures forall id :: id in GroupMap(lines) <==> id in ProductOrder(lines)
    decreases |lines|
  {
    if lines != [] {
      var n := |lines| - 1;
      GroupMapKeys(lines[..n]);
      assert lines[..n + 1] == lines;
      ProductOrderSnoc(lines, n);
    }
  }

  /** The product map holds the products of the order, each with its lines in cart order. */
  lemma {:induction false} GroupMapLines(lines: seq<CartLine>)
    ensures forall id :: id in GroupMap(lines) <==> id in ProductOrder(lines)
    ensures forall id :: LinesOf(lines, id) == if id in GroupMap(lines) then GroupMap(lines)[id] else []
    decreases |lines|
  {
    GroupMapKeys(lines);
    if lines != [] {
      var n := |lines| - 1;
      var front := lines[..n];
      GroupMapLines(front);
      assert lines[..n + 1] == lines;
      var m, id := GroupMap(front), lines[n].productId;
      var g := GroupMap(lines);
      assert g == m[id := (if id in m then m[id] else []) + [lines[n]]];
      forall x
        ensures LinesOf(lines, x) == if x in g then g[x] else []
      {
        LinesOfSnoc(lines, n, x);
        if x != id {
          assert (x in g) == (x in m);
        }
      }
    }
  }

  /** The `productMap` of `enforceCartLimits`: the lines of each product, keyed by product,
      with the products in the order of their first line. */
  method GroupByProduct(items: seq<CartLine>) returns (productMap: map<int, seq<CartLine>>, order: seq<int>)
    ensures order == ProductOrder(items)
    ensures forall id :: id in productMap <==> id in order
    ensures forall id :: id in productMap ==> productMap[id] == LinesOf(items, id)
  {
    productMap := map[];
    order := [];
    var i := 0;
    while i < |items|
      invariant 0 <= i <= |items|
      invariant order == ProductOrder(items[..i])
      invariant productMap == GroupMap(items[..i])
    {
      GroupMapKeys(items[..i]);
      ProductOrderSnoc(items, i);
      GroupMapSnoc(items, i);
      var id := items[i].productId;
      assert (id in productMap) == (id in order);
      var lines := if id in productMap then productMap[id] else [];
      if id !in productMap {
        order := order + [id];
      }
      productMap := productMap[id := lines + [items[i]]];
      i := i + 1;
    }
    assert items[..|items|] == items;
    GroupMapLines(items);
  }
}
