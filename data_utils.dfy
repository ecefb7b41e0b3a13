/** The domain rules of `src/lib/EXAMPLE_DATA/utils.ts`: order totals,
    editability, stock checks, slugs, product validation and status labels. */
module DataUtils {
  import opened Wrappers
  import opened Json
  import opened Text
  import opened DataTypes

  // ------------------------------------------------------------ order total

  /** EUTIL_calculate_order_total: `reduce` from the left, starting at 0. */
  function CalculateOrderTotal(items: seq<OrderItem>): (total: int)
    ensures items == [] ==> total == 0
  {
    if items == [] then 0
    else CalculateOrderTotal(items[..|items| - 1]) + items[|items| - 1].unitPrice * items[|items| - 1].quantity
  }

  /** The total is additive over concatenation, and one line contributes
      its price times its quantity. */
  lemma {:induction false} OrderTotalAppend(a: seq<OrderItem>, b: seq<OrderItem>)
    ensures CalculateOrderTotal(a + b) == CalculateOrderTotal(a) + CalculateOrderTotal(b)
    ensures |b| == 1 ==> CalculateOrderTotal(b) == b[0].unitPrice * b[0].quantity
    decreases |b|
  {
    if b == [] {
      assert a + b == a;
    } else {
      var init := b[..|b| - 1];
      var last := b[|b| - 1];
      OrderTotalAppend(a, init);
      var ab := a + b;
      assert ab[..|ab| - 1] == a + init && ab[|ab| - 1] == last;
      if |b| == 1 {
        assert init == [];
      }
    }
  }

  // ------------------------------------------------------ order and stock

  /** EUTIL_is_order_editable. */
  predicate IsOrderEditable(order: Order) {
    order.status == "pending" || order.status == "processing"
  }

  /** EUTIL_is_product_in_stock; `requested` defaults to 1 at the call site. */
  predicate IsProductInStock(product: Product, requested: int) {
    product.stockQuantity.None? || product.stockQuantity.value >= requested
  }

  // ---------------------------------------------------------------- slugify

  /** `\w`: ASCII letters, digits and `_`. */
  predicate IsWordChar(c: char) {
    IsAsciiLower(c) || IsAsciiUpper(c) || IsDigit(c) || c == '_'
  }

  /** The characters `[\s_-]` collapses. */
  predicate IsSeparator(c: char) {
    IsWhitespace(c) || c == '_' || c == '-'
  }

  /** Characters that survive `[^\w\s-]` and are not upper-case. */
  predicate Kept(c: char) {
    (IsWordChar(c) || IsWhitespace(c) || c == '-') && !IsAsciiUpper(c)
  }

  predicate SlugChar(c: char) {
    IsAsciiLower(c) || IsDigit(c) || c == '-'
  }

  predicate NoUpper(s: string) {
    forall i :: 0 <= i < |s| ==> !IsAsciiUpper(s[i])
  }

  predicate AllKept(s: string) {
    forall i :: 0 <= i < |s| ==> Kept(s[i])
  }

  predicate AllSlugChars(s: string) {
    forall i :: 0 <= i < |s| ==> SlugChar(s[i])
  }

  predicate NoDoubleDash(s: string) {
    forall i :: 0 <= i < |s| - 1 ==> !(s[i] == '-' && s[i + 1] == '-')
  }

  /** `replace(/[^\w\s-]/g, '')`. */
  function KeepSlugChars(s: string): (r: string)
    ensures |r| <= |s|
    ensures NoUpper(s) ==> AllKept(r)
  {
    if s == [] then []
    else if IsWordChar(s[0]) || IsWhitespace(s[0]) || s[0] == '-' then
      assert NoUpper(s) ==> NoUpper(s[1..]) by {
        if NoUpper(s) {
          forall i | 0 <= i < |s[1..]| ensures !IsAsciiUpper(s[1..][i]) {
            assert s[1..][i] == s[i + 1];
          }
        }
      }
      [s[0]] + KeepSlugChars(s[1..])
    else
      assert NoUpper(s) ==> NoUpper(s[1..]) by {
        if NoUpper(s) {
          forall i | 0 <= i < |s[1..]| ensures !IsAsciiUpper(s[1..][i]) {
            assert s[1..][i] == s[i + 1];
          }
        }
      }
      KeepSlugChars(s[1..])
  }

  /** The rest of `s` after its leading separators. */
  function SkipSeparators(s: string): (r: string)
    ensures |r| <= |s|
    ensures r == [] || !IsSeparator(r[0])
    ensures AllKept(s) ==> AllKept(r)
  {
    if s != [] && IsSeparator(s[0]) then
      assert AllKept(s) ==> AllKept(s[1..]) by {
        if AllKept(s) {
          forall i | 0 <= i < |s[1..]| ensures Kept(s[1..][i]) {
            assert s[1..][i] == s[i + 1];
          }
        }
      }
      SkipSeparators(s[1..])
    else s
  }

  /** `replace(/[\s_-]+/g, '-')`: every maximal run of separators becomes
      one `-`. The result starts with a dash exactly when the input starts
      with a separator. */
  function CollapseSeparators(s: string): (r: string)
    ensures |r| <= |s|
    ensures s == [] <==> r == []
    ensures r != [] ==> (r[0] == '-' <==> IsSeparator(s[0]))
    ensures AllKept(s) ==> AllSlugChars(r)
    ensures NoDoubleDash(r)
    decreases |s|
  {
    if s == [] then []
    else
      assert AllKept(s) ==> AllKept(s[1..]) by {
        if AllKept(s) {
          forall i | 0 <= i < |s[1..]| ensures Kept(s[1..][i]) {
            assert s[1..][i] == s[i + 1];
          }
        }
      }
      if IsSeparator(s[0]) then
        var tail := CollapseSeparators(SkipSeparators(s[1..]));
        assert tail != [] ==> tail[0] != '-';
        ['-'] + tail
      else
        [s[0]] + CollapseSeparators(s[1..])
  }

  function TrimLeadingDashes(s: string): (r: string)
    ensures |r| <= |s|
    ensures r == [] || r[0] != '-'
    ensures AllSlugChars(s) ==> AllSlugChars(r)
    ensures NoDoubleDash(s) ==> NoDoubleDash(r)
    ensures r != [] ==> r[|r| - 1] == s[|s| - 1]
  {
    if s != [] && s[0] == '-' then
      assert forall i :: 0 <= i < |s[1..]| ==> s[1..][i] == s[i + 1];
      TrimLeadingDashes(s[1..])
    else s
  }

  function TrimTrailingDashes(s: string): (r: string)
    ensures |r| <= |s|
    ensures r == [] || r[|r| - 1] != '-'
    ensures AllSlugChars(s) ==> AllSlugChars(r)
    ensures NoDoubleDash(s) ==> NoDoubleDash(r)
    ensures r != [] ==> r[0] == s[0]
  {
    if s != [] && s[|s| - 1] == '-' then
      assert forall i :: 0 <= i < |s| - 1 ==> s[..|s| - 1][i] == s[i];
      TrimTrailingDashes(s[..|s| - 1])
    else s
  }

  /** EUTIL_slugify. */
  function Slugify(text: string): string {
    TrimTrailingDashes(TrimLeadingDashes(CollapseSeparators(KeepSlugChars(Trim(ToLower(text))))))
  }

  /** What a slug looks like: lower-case ASCII letters, digits and single
      dashes, never at either end. */
  predicate IsSlug(s: string) {
    && AllSlugChars(s)
    && (s == [] || (s[0] != '-' && s[|s| - 1] != '-'))
    && NoDoubleDash(s)
  }

  lemma NoUpperSlice(s: string, lo: int, hi: int)
    requires NoUpper(s) && 0 <= lo <= hi <= |s|
    ensures NoUpper(s[lo..hi])
  {
    assert forall i :: 0 <= i < hi - lo ==> s[lo..hi][i] == s[lo + i];
  }

  lemma TrimKeepsNoUpper(s: string)
    requires NoUpper(s)
    ensures NoUpper(Trim(s))
  {
    var t := TrimStart(s);
    assert t == s[|s| - |t|..|s|];
    NoUpperSlice(s, |s| - |t|, |s|);
    var u := TrimEnd(t);
    assert u == t[0..|u|];
    NoUpperSlice(t, 0, |u|);
  }

  /** Every slug has the slug shape. */
  lemma SlugifyShape(text: string)
    ensures IsSlug(Slugify(text))
  {
    var lowered := ToLower(text);
    assert NoUpper(lowered);
    TrimKeepsNoUpper(lowered);
  }

  lemma SlugIsFixedByToLower(s: string)
    requires AllSlugChars(s)
    ensures ToLower(s) == s
  {
    assert forall i :: 0 <= i < |s| ==> ToLower(s)[i] == s[i];
  }

  lemma SlugCharIsNotWhitespace(c: char)
    requires SlugChar(c)
    ensures !IsWhitespace(c)
  {
  }

  lemma SlugIsFixedByTrim(s: string)
    requires IsSlug(s)
    ensures Trim(s) == s
  {
    if s != [] {
      SlugCharIsNotWhitespace(s[0]);
      SlugCharIsNotWhitespace(s[|s| - 1]);
      TrimUnpadded(s);
    }
  }

  lemma {:induction false} KeepSlugCharsFixes(s: string)
    requires AllSlugChars(s)
    ensures KeepSlugChars(s) == s
  {
    if s != [] {
      assert forall i :: 0 <= i < |s[1..]| ==> s[1..][i] == s[i + 1];
      KeepSlugCharsFixes(s[1..]);
    }
  }

  lemma {:induction false} CollapseFixes(s: string)
    requires AllSlugChars(s) && NoDoubleDash(s)
    requires s == [] || s[|s| - 1] != '-'
    ensures CollapseSeparators(s) == s
    decreases |s|
  {
    if s != [] {
      var t := s[1..];
      assert forall i :: 0 <= i < |t| ==> t[i] == s[i + 1];
      CollapseFixes(t);
      if s[0] == '-' {
        assert |s| > 1 && s[1] != '-' && SlugChar(s[1]);
        assert !IsSeparator(t[0]);
        assert SkipSeparators(t) == t;
        assert CollapseSeparators(s) == ['-'] + CollapseSeparators(t);
      } else {
        assert !IsSeparator(s[0]);
        assert CollapseSeparators(s) == [s[0]] + CollapseSeparators(t);
      }
      assert s == [s[0]] + t;
    }
  }

  /** Slugifying a slug changes nothing. */
  lemma SlugifyIdempotent(text: string)
    ensures Slugify(Slugify(text)) == Slugify(text)
  {
    var s := Slugify(text);
    SlugifyShape(text);
    SlugIsFixedByToLower(s);
    SlugIsFixedByTrim(s);
    KeepSlugCharsFixes(s);
    CollapseFixes(s);
  }

  // ------------------------------------------------- product validation

  const NameRequired := "Product name is required"
  const SkuRequired := "Product SKU is required"
  const PriceNotPositive := "Product price must be a positive number"
  const CategoryRequired := "Product category is required"
  const StockNegative := "Stock quantity cannot be negative"

  /** `!s || s.trim().length === 0` for an optional string. */
  predicate Blank(s: Option<string>) {
    s.None? || |Trim(s.value)| == 0
  }

  predicate PriceInvalid(p: ProductDraft) { p.price.None? || p.price.value < 0 }
  predicate CategoryMissing(p: ProductDraft) { p.categoryId.None? || p.categoryId.value == 0 }
  predicate StockInvalid(p: ProductDraft) { p.stockQuantity.Some? && p.stockQuantity.value < 0 }

  function Msg<T>(cond: bool, message: T): seq<T> {
    if cond then [message] else []
  }

  /** The messages EUTIL_validate_product_data collects, in its order. */
  function ProductErrors(p: ProductDraft): seq<string> {
    Msg(Blank(p.name), NameRequired) + Msg(Blank(p.sku), SkuRequired) + Msg(PriceInvalid(p), PriceNotPositive)
      + Msg(CategoryMissing(p), CategoryRequired) + Msg(StockInvalid(p), StockNegative)
  }

  /** `if (failed) errors.push(message)`. */
  method PushIf(errors: seq<string>, failed: bool, message: string) returns (r: seq<string>)
    ensures r == errors + Msg(failed, message)
  {
    r := errors;
    if failed {
      r := r + [message];
    }
  }

  /** EUTIL_validate_product_data. */
  method ValidateProductData(product: ProductDraft) returns (valid: bool, errors: seq<string>)
    ensures errors == ProductErrors(product)
    ensures valid <==> errors == []
  {
    errors := [];
    errors := PushIf(errors, product.name.None? || |Trim(product.name.value)| == 0, NameRequired);
    assert errors == Msg(Blank(product.name), NameRequired);
    errors := PushIf(errors, product.sku.None? || |Trim(product.sku.value)| == 0, SkuRequired);
    errors := PushIf(errors, product.price.None? || product.price.value < 0, PriceNotPositive);
    errors := PushIf(errors, product.categoryId.None? || product.categoryId.value == 0, CategoryRequired);
    errors := PushIf(errors, product.stockQuantity.Some? && product.stockQuantity.value < 0, StockNegative);
    valid := |errors| == 0;
  }

  /** Five optional messages with pairwise different texts: each is in the
      concatenation exactly when its condition holds. */
  lemma MsgsMembership<T>(c1: bool, m1: T, c2: bool, m2: T, c3: bool, m3: T, c4: bool, m4: T, c5: bool, m5: T)
    requires m1 != m2 && m1 != m3 && m1 != m4 && m1 != m5
    requires m2 != m3 && m2 != m4 && m2 != m5 && m3 != m4 && m3 != m5 && m4 != m5
    ensures (m1 in Msg(c1, m1) + Msg(c2, m2) + Msg(c3, m3) + Msg(c4, m4) + Msg(c5, m5) <==> c1)
    ensures (m2 in Msg(c1, m1) + Msg(c2, m2) + Msg(c3, m3) + Msg(c4, m4) + Msg(c5, m5) <==> c2)
    ensures (m3 in Msg(c1, m1) + Msg(c2, m2) + Msg(c3, m3) + Msg(c4, m4) + Msg(c5, m5) <==> c3)
    ensures (m4 in Msg(c1, m1) + Msg(c2, m2) + Msg(c3, m3) + Msg(c4, m4) + Msg(c5, m5) <==> c4)
    ensures (m5 in Msg(c1, m1) + Msg(c2, m2) + Msg(c3, m3) + Msg(c4, m4) + Msg(c5, m5) <==> c5)
  {
  }

  /** Each message is reported exactly when its rule fails, so the data is
      valid exactly when every rule holds; at most five messages. */
  lemma ProductErrorsMeaning(p: ProductDraft)
    ensures NameRequired in ProductErrors(p) <==> Blank(p.name)
    ensures SkuRequired in ProductErrors(p) <==> Blank(p.sku)
    ensures PriceNotPositive in ProductErrors(p) <==> PriceInvalid(p)
    ensures CategoryRequired in ProductErrors(p) <==> CategoryMissing(p)
    ensures StockNegative in ProductErrors(p) <==> StockInvalid(p)
    ensures ProductErrors(p) == [] <==>
      !Blank(p.name) && !Blank(p.sku) && !PriceInvalid(p) && !CategoryMissing(p) && !StockInvalid(p)
    ensures |ProductErrors(p)| <= 5
  {
    assert |NameRequired| == 24 && |SkuRequired| == 23 && |PriceNotPositive| == 39;
    assert |CategoryRequired| == 28 && |StockNegative| == 33;
    MsgsMembership(Blank(p.name), NameRequired, Blank(p.sku), SkuRequired, PriceInvalid(p), PriceNotPositive,
                   CategoryMissing(p), CategoryRequired, StockInvalid(p), StockNegative);
  }

  // -------------------------------------------------- order status labels

  /** The five `Order_Status` names. */
  const OrderStatuses: set<string> := {"pending", "processing", "shipped", "delivered", "cancelled"}

  /** EUTIL_get_order_status_display with an own-property lookup: the five
      statuses get their labels, anything else is returned unchanged. */
  function GetOrderStatusDisplay(status: string): (shown: string)
    ensures status == "pending" ==> shown == "Pending"
    ensures status == "processing" ==> shown == "Processing"
    ensures status == "shipped" ==> shown == "Shipped"
    ensures status == "delivered" ==> shown == "Delivered"
    ensures status == "cancelled" ==> shown == "Cancelled"
    ensures status !in OrderStatuses ==> shown == status
  {
    match status
    case "pending" => "Pending"
    case "processing" => "Processing"
    case "shipped" => "Shipped"
    case "delivered" => "Delivered"
    case "cancelled" => "Cancelled"
    case _ => status
  }

  /** What `status_map[status] || status` yields: a string, or the member
      an object literal inherits under that name (a function or
      `Object.prototype`), which is truthy and so returned. */
  datatype Displayed = Label(text: string) | InheritedMember(name: string)

  /** EUTIL_get_order_status_display as written, over a plain object literal. */
  function GetOrderStatusDisplayAsWritten(status: string): Displayed {
    if status in OrderStatuses then Label(GetOrderStatusDisplay(status))
    else if status in ObjectPrototypeMembers then InheritedMember(status)
    else Label(status)
  }

  /** The discrepancy: the status "toString" is displayed as a function. */
  lemma StatusDisplayAsWrittenLeaksPrototype()
    ensures GetOrderStatusDisplayAsWritten("toString") == InheritedMember("toString")
    ensures GetOrderStatusDisplay("toString") == "toString"
  {
  }

  /** Away from inherited names the source's lookup and the corrected one agree. */
  lemma StatusDisplayAgreesOnOwnKeys(status: string)
    requires status !in ObjectPrototypeMembers
    ensures GetOrderStatusDisplayAsWritten(status) == Label(GetOrderStatusDisplay(status))
  {
  }
}
