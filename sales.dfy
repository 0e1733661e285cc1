/**
 * The staff sale screen (static/shop/manage_sales.js): the in-memory sale cart that product
 * cards are added to and that the cart buttons edit, the money-text normalisation behind
 * parseMoney, the quantity stepper, and the state of the Pix status poller.
 */
module Sales {
  import opened Wrappers
  import opened Text

  // ---------------------------------------------------------------------------
  // Money text

  /** A JavaScript number as far as parseMoney cares: finite, or NaN/Infinity. */
  datatype Float = Finite(value: real) | NonFinite

  /** What parseMoney may be handed: a number, a string, or a missing value (null/undefined). */
  datatype MoneyValue = Number(x: Float) | Text(s: string) | Missing

  predicate NotJsSpace(c: char) { !JsIsSpace(c) }

  predicate NotDot(c: char) { c != '.' }

  /**
   * The text parseMoney hands to Number(): trimmed, with every whitespace run removed, and,
   * when a comma is present, Brazilian grouping undone: every '.' dropped and the first ','
   * turned into the decimal point.
   */
  function NormalizeMoney(s: string): string
  {
    var compact := Filter(Strip(s, JsIsSpace), NotJsSpace);
    if ',' in compact then ReplaceFirst(Filter(compact, NotDot), ',', '.') else compact
  }

  /** Trimming first changes nothing: the whitespace-free text is that of the whole input. */
  lemma CompactIgnoresTrim(s: string)
    ensures Filter(Strip(s, JsIsSpace), NotJsSpace) == Filter(s, NotJsSpace)
  {
    StripThenFilter(s, JsIsSpace, NotJsSpace);
  }

  /** The normalised text holds no whitespace at all. */
  lemma NormalizeMoneyHasNoSpace(s: string)
    ensures forall c :: c in NormalizeMoney(s) ==> !JsIsSpace(c)
  {
    var compact := Filter(Strip(s, JsIsSpace), NotJsSpace);
    FilterMembers(Strip(s, JsIsSpace), NotJsSpace);
    if ',' in compact {
      var dotless := Filter(compact, NotDot);
      FilterMembers(compact, NotDot);
      ReplaceFirstMembers(dotless, ',', '.');
    }
  }

  /** Without a comma the text only loses its whitespace: dots stay decimal points. */
  lemma NormalizeMoneyWithoutComma(s: string)
    requires ',' !in Filter(s, NotJsSpace)
    ensures NormalizeMoney(s) == Filter(s, NotJsSpace)
  {
    CompactIgnoresTrim(s);
  }

  /**
   * With a comma the result holds exactly one '.', the former first comma, and one comma
   * fewer; every other character is kept, in order: with d the text stripped of whitespace
   * and dots, the first comma of d becomes the point.
   */
  lemma NormalizeMoneyWithComma(s: string)
    requires ',' in Filter(s, NotJsSpace)
    ensures var d := Filter(Filter(s, NotJsSpace), NotDot);
      var p := |BeforeFirst(d, ',')|;
      && p < |d| && d[p] == ',' && ',' !in d[..p] && '.' !in d
      && NormalizeMoney(s) == d[..p] + ['.'] + d[p + 1..]
    ensures Count(NormalizeMoney(s), '.') == 1
    ensures Count(NormalizeMoney(s), ',') == Count(Filter(s, NotJsSpace), ',') - 1
    ensures |NormalizeMoney(s)| == |Filter(s, NotJsSpace)| - Count(Filter(s, NotJsSpace), '.')
  {
    CompactIgnoresTrim(s);
    var compact := Filter(s, NotJsSpace);
    var dotless := Filter(compact, NotDot);
    FilterMembers(compact, NotDot);
    assert ',' in dotless;
    CountAbsent(dotless, '.');
    CountFilterKept(compact, NotDot, ',');
    ReplaceFirstCounts(dotless, ',', '.');
    FilterLengthDots(compact);
  }

  /** Dropping the dots shortens a text by its number of dots. */
  lemma {:induction false} FilterLengthDots(s: string)
    ensures |Filter(s, NotDot)| == |s| - Count(s, '.')
  {
    if s != [] {
      FilterLengthDots(s[1..]);
      if s[0] == '.' {
        assert Filter(s, NotDot) == Filter(s[1..], NotDot);
      } else {
        assert Filter(s, NotDot) == [s[0]] + Filter(s[1..], NotDot);
      }
    }
  }

  /**
   * parseMoney. toNumber stands for JavaScript's Number() on a string. A finite number is
   * returned as it is, anything else as 0.
   */
  function ParseMoney(v: MoneyValue, toNumber: string -> Float): (r: real)
    ensures v.Number? && v.x.Finite? ==> r == v.x.value
    ensures v.Number? && v.x.NonFinite? ==> r == 0.0
    ensures v.Text? ==> r == (if toNumber(NormalizeMoney(v.s)).Finite? then toNumber(NormalizeMoney(v.s)).value else 0.0)
  {
    match v
    case Number(x) => if x.Finite? then x.value else 0.0
    case Text(s) => FiniteOrZero(toNumber(NormalizeMoney(s)))
    case Missing => FiniteOrZero(toNumber(NormalizeMoney("")))
  }

  function FiniteOrZero(x: Float): real
  {
    if x.Finite? then x.value else 0.0
  }

  /** A parsed amount parses to itself, so formatting an already parsed price is faithful. */
  lemma ParseMoneyFixedPoint(v: MoneyValue, toNumber: string -> Float)
    ensures ParseMoney(Number(Finite(ParseMoney(v, toNumber))), toNumber) == ParseMoney(v, toNumber)
  {
  }

  // ---------------------------------------------------------------------------
  // Sale items

  /** The merge key of a sale item: the product and the chosen variant, if any. */
  datatype ItemKey = ItemKey(productId: int, variantId: Option<int>)

  datatype SaleItem = SaleItem(productId: int, variantId: Option<int>, name: string, price: real, quantity: real)

  function KeyOf(it: SaleItem): ItemKey
  {
    ItemKey(it.productId, it.variantId)
  }

  /** The variant picked in a card's select: its id, its name and its price text. */
  datatype Variant = Variant(id: int, name: string, priceText: string)

  /**
   * What addItemFromCard reads from a product card: the product id and name, the base price
   * text ('' when absent), Number() of the quantity input ('' read as '1'), and the selected
   * variant (None when there is no select or its value is empty).
   */
  datatype Card = Card(productId: int, productName: string, basePriceText: string, enteredQuantity: real, variant: Option<Variant>)

  /** The display name of an item: "<product> - <variant>", or the product alone. */
  function ItemName(productName: string, variantName: string): (r: string)
    ensures variantName == "" ==> r == productName
    ensures variantName != "" ==>
      && |r| == |productName| + 3 + |variantName|
      && r[..|productName|] == productName
      && r[|productName|..|productName| + 3] == " - "
      && r[|productName| + 3..] == variantName
  {
    if variantName != "" then productName + " - " + variantName else productName
  }

  function MaxReal(a: real, b: real): real
  {
    if a >= b then a else b
  }

  /** The unit price: the variant's price when it has one, else the card's base price. */
  function CardPrice(card: Card, toNumber: string -> Float): real
  {
    var base := ParseMoney(Text(if card.basePriceText == "" then "0" else card.basePriceText), toNumber);
    if card.variant.Some? && card.variant.value.priceText != "" then
      ParseMoney(Text(card.variant.value.priceText), toNumber)
    else if card.variant.Some? then ParseMoney(Number(Finite(base)), toNumber)
    else base
  }

  /**
   * A selected variant's own price text decides the price; a variant without one, like no
   * variant at all, keeps the card's base price, which parseMoney returns unchanged.
   */
  lemma CardPriceChoice(card: Card, toNumber: string -> Float)
    ensures var base := ParseMoney(Text(if card.basePriceText == "" then "0" else card.basePriceText), toNumber);
      && (card.variant.Some? && card.variant.value.priceText != "" ==>
            CardPrice(card, toNumber) == ParseMoney(Text(card.variant.value.priceText), toNumber))
      && (card.variant.None? || card.variant.value.priceText == "" ==> CardPrice(card, toNumber) == base)
  {
  }

  /** The item addItemFromCard would push for this card. */
  function NewItem(card: Card, toNumber: string -> Float): (it: SaleItem)
    ensures it.quantity >= 1.0
    ensures it.quantity >= card.enteredQuantity
    ensures card.enteredQuantity >= 1.0 ==> it.quantity == card.enteredQuantity
    ensures KeyOf(it) == ItemKey(card.productId, if card.variant.Some? then Some(card.variant.value.id) else None)
  {
    var variantName := if card.variant.Some? then card.variant.value.name else "";
    SaleItem(
      productId := card.productId,
      variantId := if card.variant.Some? then Some(card.variant.value.id) else None,
      name := ItemName(card.productName, variantName),
      price := CardPrice(card, toNumber),
      quantity := MaxReal(1.0, card.enteredQuantity))
  }

  /** The first index holding key k (saleCart.find). */
  function FindIndex(c: seq<SaleItem>, k: ItemKey): (r: Option<nat>)
    ensures r.Some? ==> r.value < |c| && KeyOf(c[r.value]) == k
  {
    if c == [] then None
    else if KeyOf(c[0]) == k then Some(0)
    else match FindIndex(c[1..], k)
      case Some(i) => Some(i + 1)
      case None => None
  }

  lemma {:induction false} FindIndexNone(c: seq<SaleItem>, k: ItemKey)
    requires FindIndex(c, k).None?
    ensures forall i :: 0 <= i < |c| ==> KeyOf(c[i]) != k
  {
    if c != [] {
      FindIndexNone(c[1..], k);
      assert forall i :: 1 <= i < |c| ==> c[i] == c[1..][i - 1];
    }
  }

  lemma {:induction false} FindIndexPresent(c: seq<SaleItem>, k: ItemKey, i: nat)
    requires i < |c| && KeyOf(c[i]) == k
    ensures FindIndex(c, k).Some?
  {
    if KeyOf(c[0]) != k {
      FindIndexPresent(c[1..], k, i - 1);
    }
  }

  /** addItemFromCard's effect: a matching entry grows by the quantity, else e is pushed. */
  function Merged(c: seq<SaleItem>, e: SaleItem): seq<SaleItem>
  {
    match FindIndex(c, KeyOf(e))
    case Some(i) => c[i := c[i].(quantity := c[i].quantity + e.quantity)]
    case None => c + [e]
  }

  /** Index-based removal (splice(index, 1)). */
  function RemoveAt(c: seq<SaleItem>, i: nat): (r: seq<SaleItem>)
    requires i < |c|
    ensures |r| == |c| - 1
  {
    c[..i] + c[i + 1..]
  }

  /** The cart buttons, by their data-cart-action attribute. */
  datatype CartButton = Inc | Dec | Remove | OtherButton

  function ButtonOf(action: string): CartButton
  {
    if action == "inc" then Inc
    else if action == "dec" then Dec
    else if action == "remove" then Remove
    else OtherButton
  }

  /** The effect of a click on a cart button for the entry at index. */
  function AfterAction(c: seq<SaleItem>, index: int, button: CartButton): seq<SaleItem>
  {
    if !(0 <= index < |c|) then c
    else if button == Inc then c[index := c[index].(quantity := c[index].quantity + 1.0)]
    else if button == Dec then
      if c[index].quantity - 1.0 <= 0.0 then RemoveAt(c, index)
      else c[index := c[index].(quantity := c[index].quantity - 1.0)]
    else if button == Remove then RemoveAt(c, index)
    else c
  }

  // ---------------------------------------------------------------------------
  // What the cart holds

  /** No two entries share a merge key, and every quantity is positive. */
  predicate CartValid(c: seq<SaleItem>)
  {
    && (forall i, j :: 0 <= i < j < |c| ==> KeyOf(c[i]) != KeyOf(c[j]))
    && (forall i :: 0 <= i < |c| ==> c[i].quantity > 0.0)
  }

  /** The total quantity held under key k. */
  function QuantityOf(c: seq<SaleItem>, k: ItemKey): real
  {
    if c == [] then 0.0
    else QuantityOf(c[..|c| - 1], k) + (if KeyOf(c[|c| - 1]) == k then c[|c| - 1].quantity else 0.0)
  }

  function KeyIsNot(k: ItemKey): SaleItem -> bool
  {
    it => KeyOf(it) != k
  }

  /** The entries of c under other keys than k, in order. */
  function Others(c: seq<SaleItem>, k: ItemKey): seq<SaleItem>
  {
    Filter(c, KeyIsNot(k))
  }

  lemma {:induction false} QuantityOfAppend(a: seq<SaleItem>, b: seq<SaleItem>, k: ItemKey)
    ensures QuantityOf(a + b, k) == QuantityOf(a, k) + QuantityOf(b, k)
    decreases |b|
  {
    if b == [] {
      assert a + b == a;
    } else {
      var init := b[..|b| - 1];
      assert (a + b)[..|a + b| - 1] == a + init;
      QuantityOfAppend(a, init, k);
    }
  }

  lemma QuantityOfSingle(x: SaleItem, k: ItemKey)
    ensures QuantityOf([x], k) == if KeyOf(x) == k then x.quantity else 0.0
  {
    assert [x][..0] == [];
  }

  /** A sequence split around position i. */
  lemma Around<T>(c: seq<T>, i: nat, x: T)
    requires i < |c|
    ensures c == c[..i] + [c[i]] + c[i + 1..]
    ensures c[i := x] == c[..i] + [x] + c[i + 1..]
  {
  }

  /** Replacing the entry at i by one with the same key changes only that key's quantity. */
  lemma ReplaceSameKey(c: seq<SaleItem>, i: nat, x: SaleItem)
    requires i < |c| && KeyOf(x) == KeyOf(c[i])
    ensures QuantityOf(c[i := x], KeyOf(x)) == QuantityOf(c, KeyOf(x)) - c[i].quantity + x.quantity
    ensures Others(c[i := x], KeyOf(x)) == Others(c, KeyOf(x))
  {
    var k := KeyOf(x);
    Around(c, i, x);
    QuantityOfAppend(c[..i] + [c[i]], c[i + 1..], k);
    QuantityOfAppend(c[..i], [c[i]], k);
    QuantityOfAppend(c[..i] + [x], c[i + 1..], k);
    QuantityOfAppend(c[..i], [x], k);
    QuantityOfSingle(c[i], k);
    QuantityOfSingle(x, k);
    FilterIgnoresDropped(c, i, x, KeyIsNot(k));
  }

  /** Removing the entry at i takes away its quantity and leaves the other keys alone. */
  lemma RemoveAtKey(c: seq<SaleItem>, i: nat)
    requires i < |c|
    ensures QuantityOf(RemoveAt(c, i), KeyOf(c[i])) == QuantityOf(c, KeyOf(c[i])) - c[i].quantity
    ensures Others(RemoveAt(c, i), KeyOf(c[i])) == Others(c, KeyOf(c[i]))
  {
    var k := KeyOf(c[i]);
    Around(c, i, c[i]);
    QuantityOfAppend(c[..i] + [c[i]], c[i + 1..], k);
    QuantityOfAppend(c[..i], [c[i]], k);
    QuantityOfAppend(c[..i], c[i + 1..], k);
    QuantityOfSingle(c[i], k);
    FilterSkipsAt(c, i, KeyIsNot(k));
  }

  /** Under unique keys, the quantity held under an entry's key is that entry's quantity. */
  lemma {:induction false} QuantityOfUnique(c: seq<SaleItem>, i: nat)
    requires CartValid(c) && i < |c|
    ensures QuantityOf(c, KeyOf(c[i])) == c[i].quantity
    decreases |c|
  {
    var init := c[..|c| - 1];
    if i < |c| - 1 {
      assert CartValid(init);
      assert init[i] == c[i];
      QuantityOfUnique(init, i);
    } else {
      QuantityOfAbsent(init, KeyOf(c[i]));
    }
  }

  lemma {:induction false} QuantityOfAbsent(c: seq<SaleItem>, k: ItemKey)
    requires forall j :: 0 <= j < |c| ==> KeyOf(c[j]) != k
    ensures QuantityOf(c, k) == 0.0
    decreases |c|
  {
    if c != [] {
      QuantityOfAbsent(c[..|c| - 1], k);
    }
  }

  /**
   * Adding an item raises the quantity held under its key by exactly its quantity, and the
   * entries under every other key stay as they were, in order.
   */
  lemma MergedQuantities(c: seq<SaleItem>, e: SaleItem)
    ensures QuantityOf(Merged(c, e), KeyOf(e)) == QuantityOf(c, KeyOf(e)) + e.quantity
    ensures Others(Merged(c, e), KeyOf(e)) == Others(c, KeyOf(e))
  {
    var k := KeyOf(e);
    match FindIndex(c, k)
    case Some(i) =>
      ReplaceSameKey(c, i, c[i].(quantity := c[i].quantity + e.quantity));
    case None =>
      QuantityOfAppend(c, [e], k);
      QuantityOfSingle(e, k);
      FilterAppend(c, [e], KeyIsNot(k));
      FilterDropsAll([e], KeyIsNot(k));
  }

  /** The cart grows by one entry exactly when no entry has the item's key. */
  lemma MergedLength(c: seq<SaleItem>, e: SaleItem)
    ensures (forall i :: 0 <= i < |c| ==> KeyOf(c[i]) != KeyOf(e)) ==> Merged(c, e) == c + [e]
    ensures (exists i :: 0 <= i < |c| && KeyOf(c[i]) == KeyOf(e)) ==> |Merged(c, e)| == |c|
  {
    if FindIndex(c, KeyOf(e)).None? {
      FindIndexNone(c, KeyOf(e));
    }
  }

  /** Adding an item with a positive quantity keeps the keys unique and the quantities positive. */
  lemma MergedValid(c: seq<SaleItem>, e: SaleItem)
    requires CartValid(c) && e.quantity > 0.0
    ensures CartValid(Merged(c, e))
  {
    var r := Merged(c, e);
    match FindIndex(c, KeyOf(e))
    case Some(i) =>
      assert forall j :: 0 <= j < |r| ==> KeyOf(r[j]) == KeyOf(c[j]);
    case None =>
      FindIndexNone(c, KeyOf(e));
      assert forall j :: 0 <= j < |c| ==> r[j] == c[j];
  }

  /**
   * A button click on entry index: "inc" adds 1 to its key's quantity, "dec" takes 1 away or
   * the whole entry when that would leave nothing, "remove" takes the whole entry; whatever
   * the action, the entries under other keys are kept, in order.
   */
  lemma AfterActionQuantities(c: seq<SaleItem>, index: nat, button: CartButton)
    requires index < |c|
    ensures Others(AfterAction(c, index, button), KeyOf(c[index])) == Others(c, KeyOf(c[index]))
    ensures button == Inc ==>
      QuantityOf(AfterAction(c, index, button), KeyOf(c[index])) == QuantityOf(c, KeyOf(c[index])) + 1.0
    ensures button == Dec && c[index].quantity > 1.0 ==>
      QuantityOf(AfterAction(c, index, button), KeyOf(c[index])) == QuantityOf(c, KeyOf(c[index])) - 1.0
    ensures button == Remove || (button == Dec && c[index].quantity <= 1.0) ==>
      QuantityOf(AfterAction(c, index, button), KeyOf(c[index])) == QuantityOf(c, KeyOf(c[index])) - c[index].quantity
    ensures button == OtherButton ==> AfterAction(c, index, button) == c
  {
    match button
    case Inc => AfterIncQuantity(c, index);
    case Dec =>
      if c[index].quantity > 1.0 {
        AfterDecQuantity(c, index);
      } else {
        AfterDropQuantity(c, index, button);
      }
    case Remove => AfterDropQuantity(c, index, button);
    case OtherButton =>
  }

  lemma AfterIncQuantity(c: seq<SaleItem>, index: nat)
    requires index < |c|
    ensures Others(AfterAction(c, index, Inc), KeyOf(c[index])) == Others(c, KeyOf(c[index]))
    ensures QuantityOf(AfterAction(c, index, Inc), KeyOf(c[index])) == QuantityOf(c, KeyOf(c[index])) + 1.0
  {
    var x := c[index].(quantity := c[index].quantity + 1.0);
    assert AfterAction(c, index, Inc) == c[index := x];
    ReplaceSameKey(c, index, x);
  }

  lemma AfterDecQuantity(c: seq<SaleItem>, index: nat)
    requires index < |c| && c[index].quantity > 1.0
    ensures Others(AfterAction(c, index, Dec), KeyOf(c[index])) == Others(c, KeyOf(c[index]))
    ensures QuantityOf(AfterAction(c, index, Dec), KeyOf(c[index])) == QuantityOf(c, KeyOf(c[index])) - 1.0
  {
    var x := c[index].(quantity := c[index].quantity - 1.0);
    assert AfterAction(c, index, Dec) == c[index := x];
    ReplaceSameKey(c, index, x);
  }

  lemma AfterDropQuantity(c: seq<SaleItem>, index: nat, button: CartButton)
    requires index < |c| && (button == Remove || (button == Dec && c[index].quantity <= 1.0))
    ensures Others(AfterAction(c, index, button), KeyOf(c[index])) == Others(c, KeyOf(c[index]))
    ensures QuantityOf(AfterAction(c, index, button), KeyOf(c[index])) == QuantityOf(c, KeyOf(c[index])) - c[index].quantity
  {
    AfterDropIsRemoveAt(c, index, button);
    RemoveAtKey(c, index);
  }

  lemma AfterDropIsRemoveAt(c: seq<SaleItem>, index: nat, button: CartButton)
    requires index < |c| && (button == Remove || (button == Dec && c[index].quantity <= 1.0))
    ensures AfterAction(c, index, button) == RemoveAt(c, index)
  {
  }

  /** In a valid cart, "remove", and "dec" on a quantity of 1 or less, leave nothing under the key. */
  lemma AfterActionRemovesKey(c: seq<SaleItem>, index: nat, button: CartButton)
    requires CartValid(c) && index < |c|
    requires button == Remove || (button == Dec && c[index].quantity <= 1.0)
    ensures forall j :: 0 <= j < |AfterAction(c, index, button)| ==>
      KeyOf(AfterAction(c, index, button)[j]) != KeyOf(c[index])
    ensures QuantityOf(AfterAction(c, index, button), KeyOf(c[index])) == 0.0
  {
    var r := AfterAction(c, index, button);
    assert r == RemoveAt(c, index);
    RemoveAtIndex(c, index);
    QuantityOfAbsent(r, KeyOf(c[index]));
  }

  lemma RemoveAtIndex(c: seq<SaleItem>, i: nat)
    requires i < |c|
    ensures forall j :: 0 <= j < |c| - 1 ==> RemoveAt(c, i)[j] == if j < i then c[j] else c[j + 1]
  {
    var r := RemoveAt(c, i);
    forall j | 0 <= j < |c| - 1
      ensures r[j] == if j < i then c[j] else c[j + 1]
    {
      if j < i {
        assert r[j] == c[..i][j];
      } else {
        assert r[j] == c[i + 1..][j - i];
      }
    }
  }

  /** An index outside the cart, or an unknown action, changes nothing. */
  lemma AfterActionNoop(c: seq<SaleItem>, index: int, button: CartButton)
    requires !(0 <= index < |c|) || button == OtherButton
    ensures AfterAction(c, index, button) == c
  {
  }

  /** Every button click keeps the keys unique and the quantities positive. */
  lemma AfterActionValid(c: seq<SaleItem>, index: int, button: CartButton)
    requires CartValid(c)
    ensures CartValid(AfterAction(c, index, button))
  {
    if 0 <= index < |c| && (button == Remove || (button == Dec && c[index].quantity - 1.0 <= 0.0)) {
      RemoveAtIndex(c, index);
    } else if 0 <= index < |c| && (button == Inc || button == Dec) {
      var r := AfterAction(c, index, button);
      assert forall j :: 0 <= j < |r| ==> KeyOf(r[j]) == KeyOf(c[j]);
    }
  }

  /**
   * A cart built from whole quantities stays whole, so a positive quantity is then at least
   * 1; fractional quantities typed into a card can leave an entry below 1 after "dec".
   */
  predicate WholeQuantities(c: seq<SaleItem>)
  {
    forall i :: 0 <= i < |c| ==> c[i].quantity == c[i].quantity.Floor as real
  }

  lemma WholePositiveAtLeastOne(c: seq<SaleItem>, i: nat)
    requires CartValid(c) && WholeQuantities(c) && i < |c|
    ensures c[i].quantity >= 1.0
  {
  }

  lemma AfterActionWhole(c: seq<SaleItem>, index: int, button: CartButton)
    requires WholeQuantities(c)
    ensures WholeQuantities(AfterAction(c, index, button))
  {
    if 0 <= index < |c| && (button == Remove || (button == Dec && c[index].quantity - 1.0 <= 0.0)) {
      RemoveAtIndex(c, index);
    } else if 0 <= index < |c| && (button == Inc || button == Dec) {
      var q := c[index].quantity;
      assert (q + 1.0).Floor == q.Floor + 1;
      assert (q - 1.0).Floor == q.Floor - 1;
    }
  }

  lemma MergedWhole(c: seq<SaleItem>, e: SaleItem)
    requires WholeQuantities(c) && e.quantity == e.quantity.Floor as real
    ensures WholeQuantities(Merged(c, e))
  {
    match FindIndex(c, KeyOf(e))
    case Some(i) =>
      var q := c[i].quantity + e.quantity;
      assert q.Floor == c[i].quantity.Floor + e.quantity.Floor;
    case None =>
  }

  // ---------------------------------------------------------------------------
  // The quantity stepper

  /** The value a card's plus/minus button writes back: one step, never below 1. */
  function StepperNext(current: real, plus: bool): (r: real)
    ensures r >= 1.0
    ensures plus && current >= 0.0 ==> r == current + 1.0
    ensures !plus && current >= 2.0 ==> r == current - 1.0
    ensures !plus && current < 2.0 ==> r == 1.0
  {
    MaxReal(1.0, if plus then current + 1.0 else current - 1.0)
  }

  // ---------------------------------------------------------------------------
  // Submitting a sale

  /** One element of the items_json list posted to the server. */
  datatype OrderLine = OrderLine(productId: int, variantId: Option<int>, quantity: real)

  function OrderLines(c: seq<SaleItem>): (r: seq<OrderLine>)
    ensures |r| == |c|
    ensures forall i :: 0 <= i < |c| ==> r[i] == OrderLine(c[i].productId, c[i].variantId, c[i].quantity)
  {
    seq(|c|, i requires 0 <= i < |c| => OrderLine(c[i].productId, c[i].variantId, c[i].quantity))
  }

  /** The server's answer to the sale request. */
  datatype SaleOutcome =
    | Rejected
    | Created(orderId: Option<int>, pixCode: string, hasQrCode: bool)

  /** What a status poll reports: paid, not yet paid, or a failed request. */
  datatype PollOutcome = Paid | Pending | PollFailed

  /**
   * A handle setInterval returns. Browsers hand out positive handles only, which is what
   * lets `if (statusPoller)` read a stored handle as a running poller.
   */
  type TimerHandle = n: nat | n > 0 witness 1

  /** The sale screen's state: the sale cart and the Pix order being watched. */
  class SaleScreen {
    var saleCart: seq<SaleItem>
    var currentPixCode: string
    /** The order being watched; None and Some(0) are both "no order" to the poller. */
    var currentOrderId: Option<int>
    /** The handle of the running status interval, if any. */
    var statusPoller: Option<TimerHandle>

    ghost predicate Valid()
      reads this
    {
      CartValid(saleCart)
    }

    constructor()
      ensures Valid()
      ensures saleCart == [] && currentPixCode == "" && currentOrderId == None && statusPoller == None
    {
      saleCart := [];
      currentPixCode := "";
      currentOrderId := None;
      statusPoller := None;
    }

    /** addItemFromCard: merge on (product, variant) or push a new entry. */
    method AddItemFromCard(card: Card, toNumber: string -> Float)
      requires Valid()
      modifies this
      ensures Valid()
      ensures saleCart == Merged(old(saleCart), NewItem(card, toNumber))
      ensures currentPixCode == old(currentPixCode) && currentOrderId == old(currentOrderId)
      ensures statusPoller == old(statusPoller)
    {
      var item := NewItem(card, toNumber);
      var existing := FindIndex(saleCart, KeyOf(item));
      MergedValid(saleCart, item);
      if existing.Some? {
        var i := existing.value;
        saleCart := saleCart[i := saleCart[i].(quantity := saleCart[i].quantity + item.quantity)];
      } else {
        saleCart := saleCart + [item];
      }
    }

    /** The click handler of the cart buttons. */
    method CartAction(index: int, action: string)
      requires Valid()
      modifies this
      ensures Valid()
      ensures saleCart == AfterAction(old(saleCart), index, ButtonOf(action))
      ensures currentPixCode == old(currentPixCode) && currentOrderId == old(currentOrderId)
      ensures statusPoller == old(statusPoller)
    {
      AfterActionValid(saleCart, index, ButtonOf(action));
      if !(0 <= index < |saleCart|) {
        return;
      }
      var item := saleCart[index];
      if action == "inc" {
        saleCart := saleCart[index := item.(quantity := item.quantity + 1.0)];
      } else if action == "dec" {
        var q := item.quantity - 1.0;
        if q <= 0.0 {
          saleCart := saleCart[..index] + saleCart[index + 1..];
        } else {
          saleCart := saleCart[index := item.(quantity := q)];
        }
      } else if action == "remove" {
        saleCart := saleCart[..index] + saleCart[index + 1..];
      }
    }

    method StopPixStatusPolling()
      modifies this
      ensures statusPoller == None
      ensures saleCart == old(saleCart) && currentPixCode == old(currentPixCode)
      ensures currentOrderId == old(currentOrderId)
    {
      if statusPoller.Some? {
        statusPoller := None;
      }
    }

    /**
     * The part of pollPixStatus before its await: with an order being watched, the status of
     * that order is requested; otherwise nothing is. Nothing changes yet.
     */
    method BeginPoll() returns (polled: Option<int>)
      ensures polled.Some? <==> WatchingOrder(currentOrderId)
      ensures polled.Some? ==> polled == currentOrderId
    {
      if !WatchingOrder(currentOrderId) {
        return None;
      }
      polled := currentOrderId;
    }

    /**
     * The part of pollPixStatus after its await: a paid order or a failed request stops the
     * poller that is running NOW, whichever order it was started for; a pending one keeps it.
     */
    method CompletePoll(outcome: PollOutcome)
      modifies this
      ensures statusPoller == (if outcome == Pending then old(statusPoller) else None)
      ensures saleCart == old(saleCart) && currentPixCode == old(currentPixCode)
      ensures currentOrderId == old(currentOrderId)
    {
      if outcome == Paid || outcome == PollFailed {
        StopPixStatusPolling();
      }
    }

    /**
     * One status poll whose request completes before anything else happens: polling stops
     * once paid or on failure.
     */
    method PollPixStatus(outcome: PollOutcome)
      modifies this
      ensures !WatchingOrder(old(currentOrderId)) ==> statusPoller == old(statusPoller)
      ensures WatchingOrder(old(currentOrderId)) ==>
        statusPoller == (if outcome == Pending then old(statusPoller) else None)
      ensures saleCart == old(saleCart) && currentPixCode == old(currentPixCode)
      ensures currentOrderId == old(currentOrderId)
    {
      var polled := BeginPoll();
      if polled.Some? {
        CompletePoll(outcome);
      }
    }

    /**
     * The part of onSubmitSale before its await: an empty cart posts nothing (the error is
     * shown); otherwise the cart's order lines, as they are at the click, are posted.
     * Nothing changes yet.
     */
    method BeginSubmit() returns (posted: Option<seq<OrderLine>>)
      ensures saleCart == [] ==> posted == None
      ensures saleCart != [] ==> posted == Some(OrderLines(saleCart))
    {
      if saleCart == [] {
        return None;
      }
      posted := Some(OrderLines(saleCart));
    }

    /**
     * The part of onSubmitSale after its await. A rejected sale changes nothing. A created one
     * records the order and Pix code, restarts the poller when a QR code is shown, and
     * empties the cart as it is NOW, dropping items added while the request was in flight.
     */
    method CompleteSubmit(outcome: SaleOutcome, newPoller: TimerHandle)
      requires Valid()
      modifies this
      ensures Valid()
      ensures outcome.Rejected? ==>
        && saleCart == old(saleCart) && currentPixCode == old(currentPixCode)
        && currentOrderId == old(currentOrderId) && statusPoller == old(statusPoller)
      ensures outcome.Created? ==>
        && saleCart == []
        && currentOrderId == outcome.orderId
        && currentPixCode == outcome.pixCode
        && statusPoller == (if outcome.hasQrCode then Some(newPoller) else old(statusPoller))
    {
      match outcome
      case Rejected =>
      case Created(orderId, pixCode, hasQrCode) =>
        currentOrderId := orderId;
        currentPixCode := pixCode;
        if hasQrCode {
          StopPixStatusPolling();
          statusPoller := Some(newPoller);
        }
        saleCart := [];
    }

    /**
     * onSubmitSale whose request completes before anything else happens, with the server's
     * answer and the handle a new interval would get. An empty cart posts nothing; otherwise
     * the lines posted are returned, and a created sale empties the cart and, when it shows
     * a QR code, restarts the poller.
     */
    method OnSubmitSale(outcome: SaleOutcome, newPoller: TimerHandle) returns (posted: Option<seq<OrderLine>>)
      requires Valid()
      modifies this
      ensures Valid()
      ensures old(saleCart) == [] ==> posted == None
      ensures old(saleCart) != [] ==> posted == Some(OrderLines(old(saleCart)))
      ensures old(saleCart) == [] || outcome.Rejected? ==>
        && saleCart == old(saleCart) && currentPixCode == old(currentPixCode)
        && currentOrderId == old(currentOrderId) && statusPoller == old(statusPoller)
      ensures old(saleCart) != [] && outcome.Created? ==>
        && saleCart == []
        && currentOrderId == outcome.orderId
        && currentPixCode == outcome.pixCode
        && statusPoller == (if outcome.hasQrCode then Some(newPoller) else old(statusPoller))
    {
      posted := BeginSubmit();
      if posted.Some? {
        CompleteSubmit(outcome, newPoller);
      }
    }
  }

  /** `if (!currentOrderId)`: null and 0 mean no order is being watched. */
  predicate WatchingOrder(orderId: Option<int>)
  {
    orderId.Some? && orderId.value != 0
  }
}
