/** The pure helpers of the bundle collection page: which bundle a collection path
    belongs to, the product handle named by a product link, the variant a product
    contributes to a bundle, and the translation helper `t`. */
module BundleCatalog {
  import opened Wrappers
  import opened Text
  import opened Shop

  /** One entry of the bundle table. `bundlePrice` is kept as the text it is shown as. */
  datatype BundleConfig = BundleConfig(
    handle: string,
    maxProducts: nat,
    bundlePrice: string,
    maxVariantPrice: nat,
    bundleProductHandle: string,
    bundleType: string)

  const Bundle1 := BundleConfig("bundle-1", 10, "17.99", 260, "spice-bundle-choose-any-10", "spice_bundle_10")
  const Bundle5 := BundleConfig("bundle-5", 5, "9.99", 260, "spice-bundle-choose-any-5", "spice_bundle_5")
  const Bundle15 := BundleConfig("bundle-15", 15, "24.99", 260, "spice-bundle-choose-any-15", "spice_bundle_15")

  /** The bundle table in the order its entries are tried. */
  const Configs: seq<BundleConfig> := [Bundle1, Bundle5, Bundle15]

  function CollectionPath(handle: string): string {
    "/collections/" + handle
  }

  // ---------------------------------------------------------------------------
  // Choosing the bundle for a path

  /** The index of the first config whose handle `matches` the path. */
  function FirstConfigIndex(path: string, configs: seq<BundleConfig>, matches: (string, string) -> bool,
                            from: nat): (r: Option<nat>)
    ensures r.Some? ==> from <= r.value < |configs| && matches(path, configs[r.value].handle)
    ensures r.Some? ==> forall j :: from <= j < r.value ==> !matches(path, configs[j].handle)
    ensures r.None? ==> forall j :: from <= j < |configs| ==> !matches(path, configs[j].handle)
    decreases |configs| - from
  {
    if from >= |configs| then None
    else if matches(path, configs[from].handle) then Some(from)
    else FirstConfigIndex(path, configs, matches, from + 1)
  }

  /** The lookup as the page script writes it: the first config whose collection path
      occurs anywhere in the location path. */
  function ConfigAsWritten(path: string): (r: Option<BundleConfig>)
  {
    match FirstConfigIndex(path, Configs, (p, h) => Contains(p, CollectionPath(h)), 0)
    case None => None
    case Some(k) => Some(Configs[k])
  }

  /** The path has the collection path of `handle` as a whole segment: the occurrence ends
      the path or is followed by `/`. */
  predicate SegmentAt(path: string, handle: string, i: nat) {
    var c := CollectionPath(handle);
    OccursAt(path, c, i) && (i + |c| == |path| || path[i + |c|] == '/')
  }

  predicate HasCollectionSegment(path: string, handle: string) {
    exists i | 0 <= i <= |path| :: SegmentAt(path, handle, i)
  }

  /** The corrected lookup: the first config whose collection path is a whole segment of
      the location path. */
  function CurrentBundleConfig(path: string): (r: Option<BundleConfig>)
    ensures r.Some? ==> r.value in Configs && HasCollectionSegment(path, r.value.handle)
    ensures r.None? ==> forall c :: c in Configs ==> !HasCollectionSegment(path, c.handle)
  {
    match FirstConfigIndex(path, Configs, HasCollectionSegment, 0)
    case None => None
    case Some(k) => Some(Configs[k])
  }

  /** The lookup as written sends the fifteen-product collection to the ten-product
      bundle, because `/collections/bundle-1` is a prefix of `/collections/bundle-15`. */
  lemma {:induction false} AsWrittenPicksWrongBundle()
    ensures ConfigAsWritten(CollectionPath("bundle-15")) == Some(Bundle1)
    ensures ConfigAsWritten(CollectionPath("bundle-15")) != Some(Bundle15)
  {
    var path := CollectionPath("bundle-15");
    assert path[0..|CollectionPath("bundle-1")|] == CollectionPath("bundle-1");
    OccursContains(path, CollectionPath("bundle-1"), 0);
  }

  /** Every config's own collection page gets that config from the corrected lookup. */
  lemma {:induction false} CurrentBundleConfigOwnPage(c: BundleConfig)
    requires c in Configs
    ensures CurrentBundleConfig(CollectionPath(c.handle)) == Some(c)
  {
    var path := CollectionPath(c.handle);
    assert path[0..|path|] == path;
    assert SegmentAt(path, c.handle, 0);
    if c == Bundle5 {
      NoSegment(path, "bundle-1");
    } else if c == Bundle15 {
      NoSegment(path, "bundle-1");
      NoSegment(path, "bundle-5");
    }
  }

  /** A collection path of length 21 or 22 made of `/collections/bundle-` and one or two
      more characters has no segment for a table handle whose last character differs from
      the path's 21st character, nor for one followed by a non-boundary character. */
  lemma {:induction false} NoSegment(path: string, h: string)
    requires h == "bundle-1" || h == "bundle-5"
    requires 21 <= |path| <= 22
    requires path[..20] == "/collections/bundle-"
    requires path[20] != h[7] || (|path| == 22 && path[21] != '/')
    ensures !HasCollectionSegment(path, h)
  {
    var c := CollectionPath(h);
    assert |c| == 21 && c[0] == '/' && c[20] == h[7];
    assert path[1] == path[..20][1] == 'c';
    forall i | 0 <= i <= |path|
      ensures !SegmentAt(path, h, i)
    {
      if OccursAt(path, c, i) {
        assert path[i..i + 21][0] == path[i];
        if i == 0 {
          assert path[0..21][20] == path[20];
        }
      }
    }
  }

  // ---------------------------------------------------------------------------
  // The product handle of a product link

  /** The part of `s` before the first `sep` (`s.split(sep)[0]`). */
  function Before(s: string, sep: string): (r: string)
    requires |sep| > 0
    ensures r <= s
    ensures !Contains(r, sep)
    ensures r == s || OccursAt(s, sep, |r|)
  {
    match IndexOf(s, sep)
    case None => s
    case Some(j) =>
      NoEarlierOccurrence(s, sep, j);
      s[..j]
  }

  lemma {:induction false} NoEarlierOccurrence(s: string, sep: string, j: nat)
    requires |sep| > 0 && IndexOf(s, sep) == Some(j)
    ensures !Contains(s[..j], sep)
  {
    if Contains(s[..j], sep) {
      var k := IndexOf(s[..j], sep).value;
      OccursInSlice(s, 0, j, sep, k);
    }
  }

  /** A prefix of a string that does not contain `sep` does not contain it either. */
  lemma {:induction false} PrefixKeepsAbsent(x: string, y: string, sep: string)
    requires y <= x && !Contains(x, sep)
    ensures !Contains(y, sep)
  {
    if Contains(y, sep) {
      var k := IndexOf(y, sep).value;
      assert x[0..|y|] == y;
      OccursInSlice(x, 0, |y|, sep, k);
      OccursContains(x, sep, k);
    }
  }

  const ProductsMarker := "/products/"

  /** `href.split('/products/')[1].split('?')[0].split('#')[0]`; `None` when the link has
      no `/products/` (the script then skips the element). */
  function HandleFromHref(href: string): (r: Option<string>)
    ensures r.None? <==> !Contains(href, ProductsMarker)
  {
    match IndexOf(href, ProductsMarker)
    case None => None
    case Some(i) =>
      var rest := href[i + |ProductsMarker|..];
      Some(Before(Before(Before(rest, ProductsMarker), "?"), "#"))
  }

  /** An extracted handle is free of query, fragment and further `/products/` parts, and
      the link it came from is found again by the handle fallback of the re-marking step,
      which looks for links containing `/products/<handle>`. */
  lemma {:induction false} HandleFromHrefRoundTrip(href: string)
    requires HandleFromHref(href).Some?
    ensures var h := HandleFromHref(href).value;
      && !Contains(h, "?") && !Contains(h, "#") && !Contains(h, ProductsMarker)
      && Contains(href, ProductsMarker + h)
  {
    var i := IndexOf(href, ProductsMarker).value;
    var rest := href[i + |ProductsMarker|..];
    var a := Before(rest, ProductsMarker);
    var b := Before(a, "?");
    var h := Before(b, "#");
    assert HandleFromHref(href) == Some(h);
    PrefixKeepsAbsent(a, b, ProductsMarker);
    PrefixKeepsAbsent(b, h, ProductsMarker);
    PrefixKeepsAbsent(b, h, "?");
    PrefixTrans(h, b, a);
    PrefixTrans(h, a, rest);
    MarkerThenPrefix(href, ProductsMarker, i, h);
    OccursContains(href, ProductsMarker + h, i);
  }

  lemma PrefixTrans(x: string, y: string, z: string)
    requires x <= y && y <= z
    ensures x <= z
  {
  }

  /** A marker followed by a prefix of what comes after it is an occurrence of both. */
  lemma {:induction false} MarkerThenPrefix(s: string, m: string, i: nat, h: string)
    requires OccursAt(s, m, i) && h <= s[i + |m|..]
    ensures OccursAt(s, m + h, i)
  {
    assert s[i + |m|..i + |m| + |h|] == s[i + |m|..][..|h|];
    assert s[i..i + |m| + |h|] == s[i..i + |m|] + s[i + |m|..i + |m| + |h|];
  }

  // ---------------------------------------------------------------------------
  // The variant a product contributes to a bundle

  /** A variant may go into a bundle when it is available and costs at most
      `maxVariantPrice` euros (prices are in cents). */
  predicate Eligible(v: Variant, maxVariantPrice: nat) {
    v.available && v.price <= maxVariantPrice * 100
  }

  /** The index of the cheapest eligible variant at or after `from`; among equally cheap
      ones the earliest, as the stable ascending sort of the eligible list puts first. */
  function CheapestEligibleFrom(vs: seq<Variant>, maxVariantPrice: nat, from: nat): (r: Option<nat>)
    ensures r.Some? ==> from <= r.value < |vs| && Eligible(vs[r.value], maxVariantPrice)
    ensures r.Some? ==> forall j :: from <= j < |vs| && Eligible(vs[j], maxVariantPrice) ==>
      vs[r.value].price <= vs[j].price
    ensures r.Some? ==> forall j :: from <= j < r.value && Eligible(vs[j], maxVariantPrice) ==>
      vs[r.value].price < vs[j].price
    ensures r.None? ==> forall j :: from <= j < |vs| ==> !Eligible(vs[j], maxVariantPrice)
    decreases |vs| - from
  {
    if from >= |vs| then None
    else
      var rest := CheapestEligibleFrom(vs, maxVariantPrice, from + 1);
      if !Eligible(vs[from], maxVariantPrice) then rest
      else if rest.None? || vs[from].price <= vs[rest.value].price then Some(from)
      else rest
  }

  function CheapestEligible(vs: seq<Variant>, maxVariantPrice: nat): Option<nat> {
    CheapestEligibleFrom(vs, maxVariantPrice, 0)
  }

  /** The choice exists exactly when some variant is eligible. */
  lemma CheapestEligibleExists(vs: seq<Variant>, maxVariantPrice: nat)
    ensures CheapestEligible(vs, maxVariantPrice).Some? <==>
      exists j :: 0 <= j < |vs| && Eligible(vs[j], maxVariantPrice)
  {
  }

  // ---------------------------------------------------------------------------
  // Translation

  /** The English texts, keyed as the script keys them. */
  const English: map<string, string> := map[
    "selected" := "{count}/{max} Selected",
    "selectProducts" := "Select {max} Products",
    "addToCart" := "Add Bundle to Cart - \U{20AC}{price}",
    "complete" := "Bundle Complete! Click to Add to Cart",
    "added" := "Bundle added to cart successfully! \U{1F389}",
    "error" := "Error adding bundle to cart",
    "maxReached" := "You already selected {max} products! \U{1F6D1}",
    "productAdded" := "\U{2705} Product added to bundle",
    "productRemoved" := "\U{274C} Product removed from bundle",
    "almostThere" := "Almost there! Select {remaining} more products",
    "goToCart" := "Going to cart...",
    "chooseProducts" := "\U{1F381} Choose Any {max} Products for \U{20AC}{price}",
    "clickToSelect" := "\U{1F447} Click on products below to select them for your bundle"
  ]

  /** `translations[lang][key] || translations.en[key]`: the text of the page language
      unless it is missing or empty. */
  function TemplateFor(table: map<string, string>, key: string): string
    requires key in English
  {
    if key in table && table[key] != "" then table[key] else English[key]
  }

  /** The first position of a replacement named `name`. */
  function KeyIndex(replacements: seq<(string, string)>, name: string): (r: Option<nat>)
    ensures r.Some? ==> r.value < |replacements| && replacements[r.value].0 == name
    ensures r.None? ==> forall k :: 0 <= k < |replacements| ==> replacements[k].0 != name
  {
    if replacements == [] then None
    else if replacements[0].0 == name then Some(0)
    else match KeyIndex(replacements[1..], name)
      case None => None
      case Some(k) => Some(k + 1)
  }

  /** `replacements[name] = replacements[name] || value`: a missing key is appended (so it
      is substituted last), an empty one is filled in place. */
  function WithDefault(replacements: seq<(string, string)>, name: string, value: string): seq<(string, string)> {
    match KeyIndex(replacements, name)
    case None => replacements + [(name, value)]
    case Some(k) => if replacements[k].1 == "" then replacements[k := (name, value)] else replacements
  }

  /** The replacements `t` substitutes: the caller's, then `max` and `price` from the
      bundle in force. */
  function TranslationArgs(replacements: seq<(string, string)>, config: Option<BundleConfig>): seq<(string, string)> {
    match config
    case None => replacements
    case Some(c) =>
      WithDefault(WithDefault(replacements, "max", NatToString(c.maxProducts)), "price", c.bundlePrice)
  }

  /** `t(key, replacements)` once the template is chosen: the substitution loop over the
      replacement keys. */
  method Translate(template: string, replacements: seq<(string, string)>, config: Option<BundleConfig>)
    returns (text: string)
    ensures text == SubstituteAll(template, TranslationArgs(replacements, config))
  {
    var args := TranslationArgs(replacements, config);
    text := Substitute(template, args);
  }

  /** With one caller replacement, `t` appends `max` and then `price` from the bundle. */
  lemma {:induction false} ArgsWithOne(name: string, value: string, c: BundleConfig)
    requires name != "max" && name != "price"
    ensures TranslationArgs([(name, value)], Some(c))
      == [(name, value), ("max", NatToString(c.maxProducts)), ("price", c.bundlePrice)]
  {
    var one := [(name, value)];
    assert KeyIndex(one, "max") == None;
    var two := one + [("max", NatToString(c.maxProducts))];
    assert KeyIndex(two[1..], "price") == None;
    assert KeyIndex(two, "price") == None;
  }

  /** A template with one caller slot, such as `almostThere`, is filled with the
      caller's value; the appended `max` and `price` find nothing left to fill. */
  lemma {:induction false} TranslateOneSlot(pre: string, name: string, post: string, value: string,
                                            c: BundleConfig)
    requires NoBrace(pre) && NoBrace(post) && NoBrace(value)
    requires name != "max" && name != "price"
    ensures SubstituteAll(pre + Placeholder(name) + post, TranslationArgs([(name, value)], Some(c)))
      == pre + value + post
  {
    ArgsWithOne(name, value, c);
    var rest := [("max", NatToString(c.maxProducts)), ("price", c.bundlePrice)];
    assert [(name, value)] + rest == [(name, value), ("max", NatToString(c.maxProducts)), ("price", c.bundlePrice)];
    SubstituteStep(pre, name, post, value, rest);
    assert NoBrace(pre + value + post);
    SubstituteRestAbsent(pre + value + post, rest);
  }

  /** The progress label, `{count}/{max} Selected` in English, shows the count and then
      the bundle's size. */
  lemma {:induction false} TranslateSelected(pre: string, mid: string, post: string, count: nat,
                                             c: BundleConfig)
    requires NoBrace(pre) && NoBrace(mid) && NoBrace(post)
    ensures SubstituteAll(pre + Placeholder("count") + mid + Placeholder("max") + post,
                          TranslationArgs([("count", NatToString(count))], Some(c)))
      == pre + NatToString(count) + mid + NatToString(c.maxProducts) + post
  {
    var cnt, mx := NatToString(count), NatToString(c.maxProducts);
    ArgsWithOne("count", cnt, c);
    DigitsNoBrace(count);
    DigitsNoBrace(c.maxProducts);
    var price := [("price", c.bundlePrice)];
    assert [("count", cnt)] + ([("max", mx)] + price) == [("count", cnt), ("max", mx), ("price", c.bundlePrice)];
    var tail := mid + Placeholder("max") + post;
    assert pre + Placeholder("count") + mid + Placeholder("max") + post == pre + Placeholder("count") + tail;
    SubstituteStep(pre, "count", tail, cnt, [("max", mx)] + price);
    var head := pre + cnt + mid;
    assert pre + cnt + tail == head + Placeholder("max") + post;
    NoBraceConcat(pre, cnt);
    NoBraceConcat(pre + cnt, mid);
    SubstituteStep(head, "max", post, mx, price);
    var done := head + mx + post;
    NoBraceConcat(head, mx);
    NoBraceConcat(head + mx, post);
    SubstituteRestAbsent(done, price);
  }

  /** A template naming only the bundle, such as `chooseProducts`, shows its size and
      its price. */
  lemma {:induction false} TranslateBundleOnly(pre: string, mid: string, post: string, c: BundleConfig)
    requires NoBrace(pre) && NoBrace(mid)
    ensures SubstituteAll(pre + Placeholder("max") + mid + Placeholder("price") + post,
                          TranslationArgs([], Some(c)))
      == pre + NatToString(c.maxProducts) + mid + c.bundlePrice + post
  {
    var mx := NatToString(c.maxProducts);
    DigitsNoBrace(c.maxProducts);
    ArgsWithNone(c);
    assert pre + Placeholder("max") + mid + Placeholder("price") + post
      == pre + Placeholder("max") + (mid + Placeholder("price") + post);
    SubstituteTwo(pre, "max", mid, "price", post, mx, c.bundlePrice);
  }

  /** Without caller replacements, `t` substitutes `max` and then `price`. */
  lemma {:induction false} ArgsWithNone(c: BundleConfig)
    ensures TranslationArgs([], Some(c)) == [("max", NatToString(c.maxProducts)), ("price", c.bundlePrice)]
  {
    var one := [("max", NatToString(c.maxProducts))];
    assert KeyIndex(one[1..], "price") == None;
    assert KeyIndex(one, "price") == None;
  }

  /** The bundle prices of the table contain no brace. */
  lemma PricesNoBrace(c: BundleConfig)
    requires c in Configs
    ensures NoBrace(c.bundlePrice)
  {
  }
}
