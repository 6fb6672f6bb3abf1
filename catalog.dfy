/** The product catalog view: the search filter over the fetched products,
    the description shown on each card (tags stripped, cut to 100
    characters), the price and image fallbacks, and the product handed to the
    cart's `addToCart`. */
module Catalog {
  import opened Common
  import opened Text
  import Cart

  datatype Variant = Variant(price: string)
  datatype Image = Image(src: string)

  /** A product as the Shopify proxy returns it; the optional fields are the
      ones the view tests before use. */
  datatype CatalogProduct = CatalogProduct(id: string, title: string, bodyHtml: Option<string>,
                                           variants: Option<seq<Variant>>, image: Option<Image>)

  const NoDescription := "No description"
  const DefaultPrice := "0.00"
  /** The package emoji shown when a product has no image. */
  const Placeholder := "\U{1F4E6}"
  const DescriptionLength := 100

  /** JavaScript truthiness of an optional string: present and not ''. */
  predicate Truthy(s: Option<string>) {
    s.Some? && s.value != ""
  }

  // ------------------------------------------------------------------ search

  /** The filter callback: the lower-cased title contains the lower-cased
      term, or a non-empty `body_html` does. */
  predicate Matches(p: CatalogProduct, term: string) {
    Contains(ToLower(p.title), ToLower(term)) ||
    (Truthy(p.bodyHtml) && Contains(ToLower(p.bodyHtml.value), ToLower(term)))
  }

  /** `filteredProducts`: the matching products, in their original order. */
  function FilteredProducts(products: seq<CatalogProduct>, term: string): (r: seq<CatalogProduct>)
    ensures |r| <= |products|
    ensures forall i :: 0 <= i < |r| ==> r[i] in products && Matches(r[i], term)
    ensures forall i :: 0 <= i < |products| && Matches(products[i], term) ==> products[i] in r
  {
    Filter(products, (p: CatalogProduct) => Matches(p, term))
  }

  /** Filtering a concatenation filters each part, so the result keeps the
      input's order. */
  lemma FilteredConcat(a: seq<CatalogProduct>, b: seq<CatalogProduct>, term: string)
    ensures FilteredProducts(a + b, term) == FilteredProducts(a, term) + FilteredProducts(b, term)
  {
    FilterConcat(a, b, (p: CatalogProduct) => Matches(p, term));
  }

  /** An empty search keeps every product, so the "No products found"
      message then shows exactly when nothing was fetched. */
  lemma EmptyTermKeepsAll(products: seq<CatalogProduct>)
    ensures FilteredProducts(products, "") == products
    ensures |FilteredProducts(products, "")| == 0 <==> products == []
  {
    forall i | 0 <= i < |products| ensures Matches(products[i], "") {
      ContainsEmpty(ToLower(products[i].title));
    }
    FilterKeepsAll(products, (p: CatalogProduct) => Matches(p, ""));
  }

  /** Terms that differ only in letter case select the same products. */
  lemma SearchIgnoresCase(products: seq<CatalogProduct>, t1: string, t2: string)
    requires ToLower(t1) == ToLower(t2)
    ensures FilteredProducts(products, t1) == FilteredProducts(products, t2)
  {
    FilterCongruent(products, (p: CatalogProduct) => Matches(p, t1), (p: CatalogProduct) => Matches(p, t2));
  }

  /** Without a usable description only the title is searched. */
  lemma MissingBodySearchesTitle(p: CatalogProduct, term: string)
    requires !Truthy(p.bodyHtml)
    ensures Matches(p, term) <==> Contains(ToLower(p.title), ToLower(term))
  {
  }

  // ------------------------------------------------------------- description

  /** The first index at or after `i` holding '>', or `|s|` when there is none. */
  function CloseAt(s: string, i: nat): (r: nat)
    requires i <= |s|
    ensures i <= r <= |s|
    ensures r < |s| ==> s[r] == '>'
    ensures forall k :: i <= k < r ==> s[k] != '>'
    decreases |s| - i
  {
    if i == |s| || s[i] == '>' then i else CloseAt(s, i + 1)
  }

  /** `s.replace(/<[^>]*>/g, '')`: scanning left to right, a '<' with a '>'
      somewhere after it is removed together with everything up to the first
      such '>'; any other character is kept. */
  function StripTags(s: string): (r: string)
    ensures |r| <= |s|
    decreases |s|
  {
    if s == [] then []
    else if s[0] == '<' && CloseAt(s, 1) < |s| then StripTags(s[CloseAt(s, 1) + 1..])
    else [s[0]] + StripTags(s[1..])
  }

  /** No '<' is followed anywhere later by '>'. */
  predicate NoTag(s: string) {
    forall i, j :: 0 <= i < j < |s| && s[i] == '<' ==> s[j] != '>'
  }

  /** Text without any '>' contains no tag to remove. */
  lemma {:induction false} NoCloseUnchanged(s: string)
    requires forall k :: 0 <= k < |s| ==> s[k] != '>'
    ensures StripTags(s) == s
  {
    if s != [] {
      NoCloseUnchanged(s[1..]);
    }
  }

  /** Stripping leaves no tag behind. */
  lemma {:induction false} StripLeavesNoTag(s: string)
    ensures NoTag(StripTags(s))
  {
    if s == [] {
    } else if s[0] == '<' && CloseAt(s, 1) < |s| {
      StripLeavesNoTag(s[CloseAt(s, 1) + 1..]);
    } else if s[0] == '<' {
      NoCloseUnchanged(s[1..]);
      assert StripTags(s) == s;
    } else {
      StripLeavesNoTag(s[1..]);
      var r := StripTags(s);
      assert r == [s[0]] + StripTags(s[1..]);
      forall i, j | 0 <= i < j < |r| && r[i] == '<' ensures r[j] != '>' {
        assert i > 0;
        assert r[i] == StripTags(s[1..])[i - 1];
        assert r[j] == StripTags(s[1..])[j - 1];
      }
    }
  }

  /** Text without tags is left as it is. */
  lemma {:induction false} NoTagUnchanged(s: string)
    requires NoTag(s)
    ensures StripTags(s) == s
  {
    if s != [] {
      if s[0] == '<' {
        assert CloseAt(s, 1) == |s|;
      }
      assert NoTag(s[1..]) by {
        forall i, j | 0 <= i < j < |s[1..]| && s[1..][i] == '<' ensures s[1..][j] != '>' {
          assert s[i + 1] == '<';
        }
      }
      NoTagUnchanged(s[1..]);
    }
  }

  /** Stripping twice is stripping once, and text with no '<' is unchanged. */
  lemma StripTagsIdempotent(s: string)
    ensures StripTags(StripTags(s)) == StripTags(s)
    ensures (forall k :: 0 <= k < |s| ==> s[k] != '<') ==> StripTags(s) == s
  {
    StripLeavesNoTag(s);
    NoTagUnchanged(StripTags(s));
    if forall k :: 0 <= k < |s| ==> s[k] != '<' {
      NoTagUnchanged(s);
    }
  }

  /** `.substring(0, n)`. */
  function Take(s: string, n: nat): (r: string)
    ensures |r| == if |s| <= n then |s| else n
    ensures r == s[..|r|]
  {
    if |s| <= n then s else s[..n]
  }

  /** The card's description text. */
  function Description(bodyHtml: Option<string>): string {
    if Truthy(bodyHtml) then Take(StripTags(bodyHtml.value), DescriptionLength) else NoDescription
  }

  /** A present description is the start of the stripped text, at most 100
      characters and whole when the stripped text is that short, and holds no
      tag; a missing or empty one reads "No description". */
  lemma DescriptionShape(bodyHtml: Option<string>)
    ensures !Truthy(bodyHtml) ==> Description(bodyHtml) == NoDescription
    ensures Truthy(bodyHtml) ==>
      var stripped := StripTags(bodyHtml.value);
      var d := Description(bodyHtml);
      && |d| <= DescriptionLength
      && d == stripped[..|d|]
      && (|stripped| <= DescriptionLength ==> d == stripped)
      && NoTag(d)
  {
    if Truthy(bodyHtml) {
      var stripped := StripTags(bodyHtml.value);
      StripLeavesNoTag(bodyHtml.value);
      var d := Description(bodyHtml);
      forall i, j | 0 <= i < j < |d| && d[i] == '<' ensures d[j] != '>' {
        assert d[i] == stripped[i] && d[j] == stripped[j];
      }
    }
  }

  // ------------------------------------------------------- price and image

  /** The first variant's price text, or "0.00". */
  function PriceText(p: CatalogProduct): string {
    if p.variants.Some? && |p.variants.value| > 0 then p.variants.value[0].price else DefaultPrice
  }

  /** `product.image.src`, or the placeholder. */
  function ImageOf(p: CatalogProduct): string {
    if p.image.Some? then p.image.value.src else Placeholder
  }

  /** The card shows an `<img>` exactly when the image text starts with "http". */
  predicate ShowsImg(image: string) {
    StartsWith(image, "http")
  }

  /** The object passed to `onAddToCart`: id, title as name, the price read
      as a number, and the image text. */
  function CartProductOf(p: CatalogProduct): Cart.Product {
    Cart.Product(p.id, p.title, ParseCents(PriceText(p)), ImageOf(p))
  }

  /** The "0.00" fallback reads as zero cents. */
  lemma DefaultPriceIsZero()
    ensures ParseCents(DefaultPrice) == 0
  {
    assert "0" + "." + "00" == DefaultPrice;
    ParseCentsOfParts("0", "00");
  }

  /** What the add-to-cart button hands on: the id and title unchanged, the
      price as printed with two decimals read back exactly, 0 without
      variants, and the placeholder (never an `<img>`) without an image. */
  lemma CartProductFields(p: CatalogProduct, cents: nat)
    ensures CartProductOf(p).id == p.id && CartProductOf(p).name == p.title
    ensures PriceText(p) == FormatCents(cents) ==> CartProductOf(p).price == cents
    ensures (p.variants.None? || p.variants == Some([])) ==> CartProductOf(p).price == 0
    ensures p.image.None? ==> CartProductOf(p).image == Placeholder && !ShowsImg(CartProductOf(p).image)
    ensures p.image.Some? ==> (ShowsImg(CartProductOf(p).image) <==> StartsWith(p.image.value.src, "http"))
  {
    ParseCentsFormat(cents);
    DefaultPriceIsZero();
  }
}
