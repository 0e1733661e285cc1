/**
 * The session cart of the storefront (shop/views.py): a dictionary from product-id string
 * to quantity kept in the visitor's session, the views that add to it and update it, and
 * the aggregator that resolves it against the active catalogue into priced line items, a
 * total and a count.
 */
module CartViews {
  import opened Wrappers
  import opened Text
  import opened Models

  // ---------------------------------------------------------------------------
  // The cart dictionary

  /** A Python dict from key to quantity: its keys in insertion order, and their values. */
  datatype Dict = Dict(keys: seq<string>, qty: map<string, int>)
  {
    ghost predicate Valid()
    {
      && Distinct(keys)
      && (forall k :: k in qty <==> k in keys)
    }
  }

  type Cart = d: Dict | d.Valid() witness Dict([], map[])

  const EmptyCart: Cart := Dict([], map[])

  /** cart.get(k, default). */
  function Get(c: Cart, k: string, default: int): int
  {
    if k in c.qty then c.qty[k] else default
  }

  /** cart[k] = v: an existing key keeps its place, a new one goes last. */
  function Put(c: Cart, k: string, v: int): (r: Cart)
    ensures r.qty == c.qty[k := v]
    ensures r.keys == if k in c.qty then c.keys else c.keys + [k]
  {
    if k in c.qty then Dict(c.keys, c.qty[k := v]) else Dict(c.keys + [k], c.qty[k := v])
  }

  /** No key occurs twice: each one is new when it is appended. */
  ghost predicate Distinct(keys: seq<string>)
  {
    keys != [] ==> keys[|keys| - 1] !in keys[..|keys| - 1] && Distinct(keys[..|keys| - 1])
  }

  /** keys without k, the others in their order. */
  function RemoveKey(keys: seq<string>, k: string): (r: seq<string>)
    ensures forall x :: x in r <==> x in keys && x != k
  {
    if keys == [] then []
    else
      var init := keys[..|keys| - 1];
      var last := keys[|keys| - 1];
      assert keys == init + [last];
      RemoveKey(init, k) + (if last == k then [] else [last])
  }

  lemma {:induction false} RemoveKeyDistinct(keys: seq<string>, k: string)
    requires Distinct(keys)
    ensures Distinct(RemoveKey(keys, k))
  {
    if keys != [] {
      var init := keys[..|keys| - 1];
      RemoveKeyDistinct(init, k);
      var r := RemoveKey(keys, k);
      var last := keys[|keys| - 1];
      if last != k {
        assert r == RemoveKey(init, k) + [last];
        assert r[..|r| - 1] == RemoveKey(init, k);
        assert last !in init;
        assert last !in RemoveKey(init, k);
      } else {
        assert r == RemoveKey(init, k) + [];
        assert r == RemoveKey(init, k);
      }
    }
  }

  /** cart.pop(k, None): k is gone, everything else stays as it was. */
  function Pop(c: Cart, k: string): (r: Cart)
    ensures r.qty == c.qty - {k}
    ensures r.keys == RemoveKey(c.keys, k)
  {
    RemoveKeyDistinct(c.keys, k);
    Dict(RemoveKey(c.keys, k), c.qty - {k})
  }

  /** Every stored quantity is at least 1: what the two cart views maintain. */
  ghost predicate AllPositive(c: Cart)
  {
    forall k :: k in c.qty ==> c.qty[k] >= 1
  }

  // ---------------------------------------------------------------------------
  // The session

  /** What the session holds under "cart": nothing, a dict (the cart), or a value of another shape. */
  datatype SessionValue = Missing | CartValue(cart: Cart) | OtherValue

  /** The visitor's session store; only its "cart" entry is read or written by the views. */
  class Session {
    var cart: SessionValue

    constructor (cart0: SessionValue)
      ensures cart == cart0
    {
      cart := cart0;
    }
  }

  /** The cart _get_cart returns for a session holding v under "cart". */
  function CurrentCart(v: SessionValue): Cart
  {
    if v.CartValue? then v.cart else EmptyCart
  }

  /**
   * _get_cart: the session's cart when it holds a dict, and the session is left as it
   * was; otherwise a new empty dict, which is also stored in the session.
   */
  method GetCart(session: Session) returns (cart: Cart)
    modifies session
    ensures old(session.cart).CartValue? ==> cart == old(session.cart).cart && session.cart == old(session.cart)
    ensures !old(session.cart).CartValue? ==> cart == EmptyCart && session.cart == CartValue(EmptyCart)
  {
    if session.cart.CartValue? {
      cart := session.cart.cart;
    } else {
      cart := EmptyCart;
      session.cart := CartValue(cart);
    }
  }

  // ---------------------------------------------------------------------------
  // Money

  function Abs(x: int): nat { if x < 0 then -x else x }

  /** f'{d:.2f}' of a two-place Decimal holding c cents. */
  function FormatCents(c: int): string
  {
    var a := Abs(c);
    (if c < 0 then "-" else "") + NatToString(a / 100) + "." + TwoDigits(a % 100)
  }

  /**
   * The formatted amount is an optional minus sign, exactly when c is negative, the integer
   * part, a dot and exactly two digits, which read together as a number give |c|.
   */
  lemma FormatCentsSpelling(c: int)
    ensures var r := FormatCents(c);
      && |r| >= 4 && r[|r| - 3] == '.'
      && (r[0] == '-' <==> c < 0)
      && var s := if c < 0 then 1 else 0;
      && s <= |r| - 3 && AllDigits(r[s..|r| - 3]) && AllDigits(r[|r| - 2..])
      && DigitsValue(r[s..|r| - 3]) * 100 + DigitsValue(r[|r| - 2..]) == Abs(c)
  {
    var a := Abs(c);
    var sign := if c < 0 then "-" else "";
    var whole := NatToString(a / 100);
    NatToStringSpelling(a / 100);
    var frac := TwoDigits(a % 100);
    var r := FormatCents(c);
    assert r == sign + whole + "." + frac;
    assert r[|sign|..|r| - 3] == whole;
    assert r[|r| - 2..] == frac;
  }

  /** The two-digit spelling of a number below 100, with a leading zero when it is below 10. */
  function TwoDigits(n: nat): (r: string)
    requires n < 100
    ensures |r| == 2 && AllDigits(r) && DigitsValue(r) == n
  {
    var r := [DigitChar(n / 10), DigitChar(n % 10)];
    assert r[..1] == [r[0]] && r[..1][..0] == [];
    assert DigitsValue(r[..1]) == n / 10;
    r
  }

  // ---------------------------------------------------------------------------
  // Resolving the cart against the catalogue

  /**
   * The id of the active product a cart key names, or None: the catalogue is queried for
   * the active products among int(key), and the key must then equal str(id) exactly.
   */
  function ActiveProductFor(cat: Catalogue, key: string): (r: Option<nat>)
    ensures r.Some? ==> r.value in cat && cat[r.value].active && NatToString(r.value) == key
  {
    match ParseInt(key)
    case Some(n) =>
      if n >= 0 && n in cat && cat[n].active && NatToString(n) == key then Some(n) else None
    case None => None
  }

  /** The converse: the key str(id) of an active product always resolves to that product. */
  lemma ActiveProductForIdKey(cat: Catalogue, id: nat)
    requires id in cat && cat[id].active
    ensures ActiveProductFor(cat, NatToString(id)) == Some(id)
  {
    ParseIntOfNatToString(id);
  }

  /** One resolved cart entry: its key, the product it names, and the stored quantity. */
  datatype Line = Line(key: string, id: nat, product: Product, quantity: int)

  ghost predicate KeysStored(keys: seq<string>, qty: map<string, int>)
  {
    forall i :: 0 <= i < |keys| ==> keys[i] in qty
  }

  /** The line one key contributes: one when it names an active product, none otherwise. */
  function LineOf(cat: Catalogue, key: string, qty: map<string, int>): seq<Line>
    requires key in qty
  {
    match ActiveProductFor(cat, key)
    case Some(id) => [Line(key, id, cat[id], qty[key])]
    case None => []
  }

  /** The cart entries, in key order, whose key names an active product; the rest are dropped. */
  function Lines(cat: Catalogue, keys: seq<string>, qty: map<string, int>): seq<Line>
    requires KeysStored(keys, qty)
  {
    if keys == [] then []
    else Lines(cat, keys[..|keys| - 1], qty) + LineOf(cat, keys[|keys| - 1], qty)
  }

  lemma KeysStoredPrefix(keys: seq<string>, qty: map<string, int>, n: nat)
    requires KeysStored(keys, qty) && n <= |keys|
    ensures KeysStored(keys[..n], qty)
  {
    forall i | 0 <= i < n ensures keys[..n][i] in qty { assert keys[..n][i] == keys[i]; }
  }

  /** product.price * quantity of one line. */
  function Subtotal(l: Line): int
  {
    l.product.priceCents * l.quantity
  }

  /** The subtotals summed over the lines. */
  function SubtotalSum(ls: seq<Line>): int
  {
    if ls == [] then 0
    else SubtotalSum(ls[..|ls| - 1]) + Subtotal(ls[|ls| - 1])
  }

  /** One element of the payload's item list. */
  datatype Item = Item(id: nat, name: string, price: string, quantity: int, imageUrl: string, subtotal: string)

  /** What _build_cart_payload returns. */
  datatype Payload = Payload(items: seq<Item>, total: string, count: int)

  /** The error _build_cart_payload raises: int() of a cart key failed. */
  datatype PayloadError = KeyNotAnInteger(key: string)

  /**
   * f'{product.price * quantity:.2f}'. A Decimal product is negative exactly when one factor
   * is, even when it is zero, so a zero price times a negative quantity, or a negative price
   * times 0, prints '-0.00'.
   */
  function SubtotalText(l: Line): string
  {
    if Subtotal(l) == 0 && ((l.product.priceCents < 0) != (l.quantity < 0)) then "-0.00"
    else FormatCents(Subtotal(l))
  }

  /** The sign of a product of integers. */
  lemma ProductSign(a: int, b: int)
    ensures a * b < 0 <==> (a < 0 && b > 0) || (a > 0 && b < 0)
    ensures a * b == 0 <==> a == 0 || b == 0
  {
  }

  /**
   * A subtotal is spelled like any amount, with a minus sign exactly when one of price and
   * quantity is negative, digits, a point and two digits that read as |price * quantity|.
   */
  lemma SubtotalTextSpelling(l: Line)
    ensures var r := SubtotalText(l);
      && |r| >= 4 && r[|r| - 3] == '.'
      && (r[0] == '-' <==> (l.product.priceCents < 0) != (l.quantity < 0))
      && var s := if r[0] == '-' then 1 else 0;
      && s <= |r| - 3 && AllDigits(r[s..|r| - 3]) && AllDigits(r[|r| - 2..])
      && DigitsValue(r[s..|r| - 3]) * 100 + DigitsValue(r[|r| - 2..]) == Abs(Subtotal(l))
  {
    var r := SubtotalText(l);
    ProductSign(l.product.priceCents, l.quantity);
    FormatCentsSpelling(Subtotal(l));
    if r == "-0.00" {
      assert r[1..|r| - 3] == "0" && r[|r| - 2..] == "00";
      assert DigitsValue("0") == 0;
      assert "00"[..1] == "0";
      assert DigitsValue("00") == 0;
    }
  }

  function Render(l: Line): Item
  {
    Item(l.id, l.product.name, FormatCents(l.product.priceCents), l.quantity, l.product.imageUrl,
         SubtotalText(l))
  }

  function RenderAll(ls: seq<Line>): seq<Item>
  {
    seq(|ls|, i requires 0 <= i < |ls| => Render(ls[i]))
  }

  /** sum(item['quantity'] for item in items). */
  function QuantitySum(items: seq<Item>): int
  {
    if items == [] then 0 else QuantitySum(items[..|items| - 1]) + items[|items| - 1].quantity
  }

  /** The first of keys that ok rejects, in iteration order. */
  function FirstRejected(keys: seq<string>, ok: string -> bool): (r: Option<string>)
    ensures r.Some? ==> r.value in keys && !ok(r.value)
  {
    if keys == [] then None
    else if !ok(keys[0]) then Some(keys[0])
    else FirstRejected(keys[1..], ok)
  }

  /** int(key) does not raise. */
  predicate KeyParses(key: string)
  {
    ParseInt(key).Some?
  }

  /** Nothing is rejected exactly when ok accepts every key. */
  lemma {:induction false} FirstRejectedNone(keys: seq<string>, ok: string -> bool)
    ensures FirstRejected(keys, ok).None? <==> forall i :: 0 <= i < |keys| ==> ok(keys[i])
  {
    if keys != [] {
      FirstRejectedNone(keys[1..], ok);
      assert forall i :: 1 <= i < |keys| ==> keys[i] == keys[1..][i - 1];
    }
  }

  /** The payload built from resolved lines. */
  function PayloadOf(ls: seq<Line>): Payload
  {
    Payload(RenderAll(ls), FormatCents(SubtotalSum(ls)), QuantitySum(RenderAll(ls)))
  }

  /** What _build_cart_payload(cart) returns, or the error it raises. */
  function CartPayload(cat: Catalogue, c: Cart): Result<Payload, PayloadError>
  {
    match FirstRejected(c.keys, KeyParses)
    case Some(k) => Err(KeyNotAnInteger(k))
    case None => Ok(PayloadOf(Lines(cat, c.keys, c.qty)))
  }

  // ---------------------------------------------------------------------------
  // Properties of the resolution

  lemma {:induction false} LinesAppend(cat: Catalogue, a: seq<string>, b: seq<string>, qty: map<string, int>)
    requires KeysStored(a, qty) && KeysStored(b, qty)
    ensures KeysStored(a + b, qty)
    ensures Lines(cat, a + b, qty) == Lines(cat, a, qty) + Lines(cat, b, qty)
  {
    assert KeysStored(a + b, qty) by {
      forall i | 0 <= i < |a + b| ensures (a + b)[i] in qty {
        if i < |a| { assert (a + b)[i] == a[i]; } else { assert (a + b)[i] == b[i - |a|]; }
      }
    }
    if b == [] {
      assert a + b == a;
    } else {
      var init := b[..|b| - 1];
      assert (a + b)[..|a + b| - 1] == a + init;
      assert KeysStored(init, qty) by {
        forall i | 0 <= i < |init| ensures init[i] in qty { assert init[i] == b[i]; }
      }
      LinesAppend(cat, a, init, qty);
    }
  }

  /**
   * Every line comes from a cart key whose product is active, and carries that product and
   * the quantity stored under the key.
   */
  lemma {:induction false} LinesSound(cat: Catalogue, keys: seq<string>, qty: map<string, int>)
    requires KeysStored(keys, qty)
    ensures forall l :: l in Lines(cat, keys, qty) ==>
      && l.key in keys && l.key in qty
      && ActiveProductFor(cat, l.key) == Some(l.id)
      && l.product == cat[l.id]
      && l.quantity == qty[l.key]
  {
    if keys != [] {
      var init := keys[..|keys| - 1];
      KeysStoredPrefix(keys, qty, |keys| - 1);
      LinesSound(cat, init, qty);
      assert Lines(cat, keys, qty) == Lines(cat, init, qty) + LineOf(cat, keys[|keys| - 1], qty);
      assert forall x :: x in init ==> x in keys;
    }
  }

  /** Every key naming an active product produces a line. */
  lemma {:induction false} LinesComplete(cat: Catalogue, keys: seq<string>, qty: map<string, int>)
    requires KeysStored(keys, qty)
    ensures forall p :: 0 <= p < |keys| && ActiveProductFor(cat, keys[p]).Some? ==>
      exists i :: 0 <= i < |Lines(cat, keys, qty)| && Lines(cat, keys, qty)[i].key == keys[p]
  {
    if keys != [] {
      var init := keys[..|keys| - 1];
      KeysStoredPrefix(keys, qty, |keys| - 1);
      LinesComplete(cat, init, qty);
      var prev := Lines(cat, init, qty);
      var ls := Lines(cat, keys, qty);
      assert ls == prev + LineOf(cat, keys[|keys| - 1], qty);
      forall p | 0 <= p < |keys| && ActiveProductFor(cat, keys[p]).Some?
        ensures exists i :: 0 <= i < |ls| && ls[i].key == keys[p]
      {
        if p < |init| {
          assert keys[p] == init[p];
          var i :| 0 <= i < |prev| && prev[i].key == init[p];
          assert ls[i] == prev[i];
        } else {
          var id := ActiveProductFor(cat, keys[p]).value;
          assert LineOf(cat, keys[p], qty) == [Line(keys[p], id, cat[id], qty[keys[p]])];
          assert ls[|prev|] == Line(keys[p], id, cat[id], qty[keys[p]]);
        }
      }
      assert ls == Lines(cat, keys, qty);
    }
  }

  /** The key of each line. */
  function LineKeys(ls: seq<Line>): (r: seq<string>)
    ensures |r| == |ls|
  {
    if ls == [] then [] else LineKeys(ls[..|ls| - 1]) + [ls[|ls| - 1].key]
  }

  lemma {:induction false} LineKeysAppend(a: seq<Line>, b: seq<Line>)
    ensures LineKeys(a + b) == LineKeys(a) + LineKeys(b)
    decreases |b|
  {
    if b == [] {
      assert a + b == a;
    } else {
      assert (a + b)[..|a + b| - 1] == a + b[..|b| - 1];
      LineKeysAppend(a, b[..|b| - 1]);
    }
  }

  /** The test of whether a key names an active product of cat. */
  function Resolves(cat: Catalogue): string -> bool
  {
    key => ActiveProductFor(cat, key).Some?
  }

  /**
   * The lines' keys are the cart's keys that name an active product, in the cart's order:
   * no line is out of order, and no such key is skipped.
   */
  lemma {:induction false} LinesKeys(cat: Catalogue, keys: seq<string>, qty: map<string, int>)
    requires KeysStored(keys, qty)
    ensures LineKeys(Lines(cat, keys, qty)) == Filter(keys, Resolves(cat))
  {
    if keys != [] {
      var init := keys[..|keys| - 1];
      var last := keys[|keys| - 1];
      KeysStoredPrefix(keys, qty, |keys| - 1);
      LinesKeys(cat, init, qty);
      LineKeysAppend(Lines(cat, init, qty), LineOf(cat, last, qty));
      LineKeysOf(cat, last, qty);
      assert keys == init + [last];
      FilterAppend(init, [last], Resolves(cat));
    }
  }

  /** One key's line has that key, exactly when the key resolves. */
  lemma LineKeysOf(cat: Catalogue, key: string, qty: map<string, int>)
    requires key in qty
    ensures LineKeys(LineOf(cat, key, qty)) == Filter([key], Resolves(cat))
  {
    assert [key][1..] == [];
  }

  /** A key whose product is missing or inactive contributes nothing: removing it changes no line. */
  lemma {:induction false} LinesSkipInactive(cat: Catalogue, keys: seq<string>, qty: map<string, int>, k: string)
    requires KeysStored(keys, qty)
    requires ActiveProductFor(cat, k).None?
    ensures KeysStored(RemoveKey(keys, k), qty - {k})
    ensures Lines(cat, RemoveKey(keys, k), qty - {k}) == Lines(cat, keys, qty)
  {
    if keys != [] {
      var init := keys[..|keys| - 1];
      var last := keys[|keys| - 1];
      KeysStoredPrefix(keys, qty, |keys| - 1);
      LinesSkipInactive(cat, init, qty, k);
      var tail := if last == k then [] else [last];
      assert RemoveKey(keys, k) == RemoveKey(init, k) + tail;
      assert KeysStored(tail, qty - {k});
      LinesAppend(cat, RemoveKey(init, k), tail, qty - {k});
      if last != k {
        assert tail[..0] == [];
        assert LineOf(cat, last, qty - {k}) == LineOf(cat, last, qty);
      }
    }
  }

  /**
   * A missing or inactive product's entry changes neither the items, nor the total, nor the
   * count: the cart with that entry popped gives the same payload.
   */
  lemma InactiveEntryIgnored(cat: Catalogue, c: Cart, k: string)
    requires k in c.qty && KeyParses(k) && ActiveProductFor(cat, k).None?
    ensures CartPayload(cat, Pop(c, k)) == CartPayload(cat, c)
  {
    assert KeysStored(c.keys, c.qty);
    LinesSkipInactive(cat, c.keys, c.qty, k);
    FirstRejectedRemove(c.keys, KeyParses, k);
  }

  /** Removing a key ok accepts does not change which key is rejected first. */
  lemma {:induction false} FirstRejectedRemove(keys: seq<string>, ok: string -> bool, k: string)
    requires ok(k)
    ensures FirstRejected(RemoveKey(keys, k), ok) == FirstRejected(keys, ok)
  {
    if keys != [] {
      var init := keys[..|keys| - 1];
      var last := keys[|keys| - 1];
      var tail := if last == k then [] else [last];
      assert keys == init + [last];
      assert RemoveKey(keys, k) == RemoveKey(init, k) + tail;
      FirstRejectedRemove(init, ok, k);
      FirstRejectedSnoc(init, ok, last);
      if last == k {
        assert RemoveKey(keys, k) == RemoveKey(init, k);
      } else {
        FirstRejectedSnoc(RemoveKey(init, k), ok, last);
      }
    }
  }

  /** Appending a key only matters when no earlier key was rejected. */
  lemma {:induction false} FirstRejectedSnoc(keys: seq<string>, ok: string -> bool, k: string)
    ensures FirstRejected(keys + [k], ok) ==
      if FirstRejected(keys, ok).Some? then FirstRejected(keys, ok)
      else if !ok(k) then Some(k) else None
  {
    if keys == [] {
      assert keys + [k] == [k];
    } else {
      assert (keys + [k])[1..] == keys[1..] + [k];
      FirstRejectedSnoc(keys[1..], ok, k);
    }
  }

  /** The aggregator's step: the key at position i adds its line, if any, after the lines before it. */
  lemma LinesStep(cat: Catalogue, keys: seq<string>, qty: map<string, int>, i: nat)
    requires KeysStored(keys, qty) && i < |keys|
    ensures KeysStored(keys[..i], qty) && KeysStored(keys[..i + 1], qty)
    ensures Lines(cat, keys[..i + 1], qty) == Lines(cat, keys[..i], qty) + LineOf(cat, keys[i], qty)
  {
    KeysStoredPrefix(keys, qty, i);
    KeysStoredPrefix(keys, qty, i + 1);
    assert keys[..i + 1][..i] == keys[..i];
  }

  /** One turn of the loop over the keys: a kept key adds its item and subtotal, a skipped one nothing. */
  lemma CollectStep(cat: Catalogue, keys: seq<string>, qty: map<string, int>, i: nat, product: Option<nat>)
    requires KeysStored(keys, qty) && i < |keys| && product == ActiveProductFor(cat, keys[i])
    ensures KeysStored(keys[..i], qty) && KeysStored(keys[..i + 1], qty)
    ensures product.Some? ==>
      var line := Line(keys[i], product.value, cat[product.value], qty[keys[i]]);
      && RenderAll(Lines(cat, keys[..i + 1], qty)) == RenderAll(Lines(cat, keys[..i], qty)) + [Render(line)]
      && SubtotalSum(Lines(cat, keys[..i + 1], qty)) == SubtotalSum(Lines(cat, keys[..i], qty)) + Subtotal(line)
    ensures product.None? ==> Lines(cat, keys[..i + 1], qty) == Lines(cat, keys[..i], qty)
  {
    LinesStep(cat, keys, qty, i);
    var before := Lines(cat, keys[..i], qty);
    if product.Some? {
      var line := Line(keys[i], product.value, cat[product.value], qty[keys[i]]);
      assert LineOf(cat, keys[i], qty) == [line];
      LinesSnocSums(before, line);
    } else {
      assert LineOf(cat, keys[i], qty) == [];
      assert before + [] == before;
    }
  }

  /** Appending a line appends its rendering to the items and its subtotal to the total. */
  lemma LinesSnocSums(ls: seq<Line>, l: Line)
    ensures RenderAll(ls + [l]) == RenderAll(ls) + [Render(l)]
    ensures SubtotalSum(ls + [l]) == SubtotalSum(ls) + Subtotal(l)
  {
    assert (ls + [l])[..|ls|] == ls;
  }

  /** A key rejected in a prefix is the first rejected key of the whole. */
  lemma {:induction false} FirstRejectedPrefix(a: seq<string>, b: seq<string>, ok: string -> bool)
    requires FirstRejected(a, ok).Some?
    ensures FirstRejected(a + b, ok) == FirstRejected(a, ok)
  {
    if ok(a[0]) {
      assert (a + b)[1..] == a[1..] + b;
      FirstRejectedPrefix(a[1..], b, ok);
    }
  }

  /** The total is the sum of price * quantity over the emitted lines, and each line's subtotal is its share. */
  lemma PayloadTotals(cat: Catalogue, c: Cart)
    requires CartPayload(cat, c).Ok?
    ensures var ls := Lines(cat, c.keys, c.qty);
      var p := CartPayload(cat, c).value;
      && |p.items| == |ls|
      && p.total == FormatCents(SubtotalSum(ls))
      && p.count == QuantitySum(p.items)
      && (forall i :: 0 <= i < |ls| ==>
            p.items[i].quantity == ls[i].quantity
            && p.items[i].price == FormatCents(ls[i].product.priceCents)
            && p.items[i].subtotal == SubtotalText(ls[i]))
  {
  }

  // ---------------------------------------------------------------------------
  // The aggregator, as the loop the source runs

  /**
   * _build_cart_payload: raises on the first key int() rejects; otherwise walks the cart in
   * order, skips keys without an active product, and accumulates items and the total.
   */
  method BuildCartPayload(cat: Catalogue, c: Cart) returns (r: Result<Payload, PayloadError>)
    ensures r == CartPayload(cat, c)
  {
    var bad := FirstUnparsableKey(c.keys);
    if bad.Some? {
      return Err(KeyNotAnInteger(bad.value));
    }
    assert KeysStored(c.keys, c.qty);
    var items, total := CollectItems(cat, c.keys, c.qty);
    r := Ok(Payload(items, FormatCents(total), QuantitySum(items)));
  }

  /** [int(pid) for pid in cart.keys()]: stops at the first key int() rejects. */
  method FirstUnparsableKey(keys: seq<string>) returns (bad: Option<string>)
    ensures bad == FirstRejected(keys, KeyParses)
  {
    var i := 0;
    while i < |keys|
      invariant 0 <= i <= |keys|
      invariant FirstRejected(keys[..i], KeyParses).None?
    {
      assert keys[..i + 1] == keys[..i] + [keys[i]];
      FirstRejectedSnoc(keys[..i], KeyParses, keys[i]);
      if ParseInt(keys[i]).None? {
        assert keys == keys[..i + 1] + keys[i + 1..];
        FirstRejectedPrefix(keys[..i + 1], keys[i + 1..], KeyParses);
        return Some(keys[i]);
      }
      i := i + 1;
    }
    assert keys[..i] == keys;
    return None;
  }

  /**
   * The loop over cart.items(): keys without an active product are skipped; every other
   * key appends its item and adds price * quantity to the running total.
   */
  method CollectItems(cat: Catalogue, keys: seq<string>, qty: map<string, int>) returns (items: seq<Item>, total: int)
    requires KeysStored(keys, qty)
    ensures items == RenderAll(Lines(cat, keys, qty))
    ensures total == SubtotalSum(Lines(cat, keys, qty))
  {
    items := [];
    total := 0;
    var i := 0;
    while i < |keys|
      invariant 0 <= i <= |keys|
      invariant KeysStored(keys[..i], qty)
      invariant items == RenderAll(Lines(cat, keys[..i], qty))
      invariant total == SubtotalSum(Lines(cat, keys[..i], qty))
    {
      var pid := keys[i];
      var product := ActiveProductFor(cat, pid);
      CollectStep(cat, keys, qty, i, product);
      if product.Some? {
        var id := product.value;
        var quantity := qty[pid];
        var line := Line(pid, id, cat[id], quantity);
        var subtotal := Subtotal(line);
        total := total + subtotal;
        items := items + [Render(line)];
      }
      i := i + 1;
    }
    assert keys[..i] == keys;
  }

  // ---------------------------------------------------------------------------
  // The views

  /** What a cart view answers: 404 for a missing or inactive product, 500 when building the payload raises. */
  datatype Response = NotFound | ServerError | Json(payload: Payload)

  function ResponseOf(payload: Result<Payload, PayloadError>): Response
  {
    match payload
    case Ok(p) => Json(p)
    case Err(_) => ServerError
  }

  function ResponseFor(cat: Catalogue, c: Cart): Response
  {
    ResponseOf(CartPayload(cat, c))
  }

  predicate IsActiveProduct(cat: Catalogue, id: nat)
  {
    id in cat && cat[id].active
  }

  /** int(request.POST.get('quantity', 1)), with 1 where int() raises. */
  function ParsedQuantity(param: Option<string>): (q: int)
    ensures param.None? ==> q == 1
    ensures param.Some? && ParseInt(param.value).None? ==> q == 1
    ensures param.Some? && ParseInt(param.value).Some? ==> q == ParseInt(param.value).value
  {
    match param
    case None => 1
    case Some(s) => match ParseInt(s) case Some(n) => n case None => 1
  }

  /** The amount cart_add adds: the parsed quantity, but never less than 1. */
  function AddQuantity(param: Option<string>): (q: int)
    ensures q >= 1
    ensures ParsedQuantity(param) >= 1 ==> q == ParsedQuantity(param)
  {
    if ParsedQuantity(param) < 1 then 1 else ParsedQuantity(param)
  }

  /** The cart after cart_add puts q more of key into it. */
  function AddToCart(c: Cart, key: string, q: int): Cart
  {
    Put(c, key, Get(c, key, 0) + q)
  }

  /**
   * cart_add raises key's quantity by exactly q, starting from 0 when it is absent; a new key
   * goes last; every other key keeps its quantity; all quantities stay positive.
   */
  lemma AddToCartSpec(c: Cart, key: string, q: int)
    ensures var r := AddToCart(c, key, q);
      && r.qty.Keys == c.qty.Keys + {key}
      && r.qty[key] == Get(c, key, 0) + q
      && (forall k :: k in c.qty && k != key ==> r.qty[k] == c.qty[k])
      && (key in c.qty ==> r.keys == c.keys)
      && (key !in c.qty ==> r.keys == c.keys + [key])
      && (AllPositive(c) && q >= 1 ==> AllPositive(r))
  {
    AddToCartQuantities(c, key, q);
    if AllPositive(c) && q >= 1 {
      AddToCartPositive(c, key, q);
    }
  }

  lemma AddToCartQuantities(c: Cart, key: string, q: int)
    ensures var r := AddToCart(c, key, q);
      && r.qty.Keys == c.qty.Keys + {key}
      && r.qty[key] == Get(c, key, 0) + q
      && (forall k :: k in c.qty && k != key ==> r.qty[k] == c.qty[k])
  {
    var r := AddToCart(c, key, q);
    assert r.qty == c.qty[key := Get(c, key, 0) + q];
  }

  lemma AddToCartPositive(c: Cart, key: string, q: int)
    requires AllPositive(c) && q >= 1
    ensures AllPositive(AddToCart(c, key, q))
  {
    var r := AddToCart(c, key, q);
    assert r.qty == c.qty[key := Get(c, key, 0) + q];
    forall k | k in r.qty
      ensures r.qty[k] >= 1
    {
      if k != key {
        assert k in c.qty;
      }
    }
  }

  /**
   * cart_add: 404 unless the product exists and is active (and then the session is not
   * touched); otherwise adds AddQuantity to the product's entry and answers with the payload.
   */
  method CartAdd(session: Session, cat: Catalogue, productId: nat, quantity: Option<string>)
    returns (resp: Response)
    modifies session
    ensures !IsActiveProduct(cat, productId) ==> resp == NotFound && session.cart == old(session.cart)
    ensures IsActiveProduct(cat, productId) ==>
      var c := AddToCart(CurrentCart(old(session.cart)), NatToString(productId), AddQuantity(quantity));
      && session.cart == CartValue(c)
      && resp == ResponseFor(cat, c)
  {
    if !IsActiveProduct(cat, productId) {
      return NotFound;
    }
    var q := AddQuantity(quantity);
    var cart := GetCart(session);
    var key := NatToString(productId);
    cart := AddToCart(cart, key, q);
    session.cart := CartValue(cart);
    var payload := BuildCartPayload(cat, cart);
    resp := ResponseOf(payload);
  }

  /** The quantity cart_update computes: inc and dec step from the current one, any other action sets it. */
  function UpdatedQuantity(current: int, action: string, quantity: Option<string>): (n: int)
    ensures action == "inc" ==> n == current + 1
    ensures action == "dec" ==> n == current - 1
    ensures action != "inc" && action != "dec" ==> n == ParsedQuantity(quantity)
  {
    if action == "inc" then current + 1
    else if action == "dec" then current - 1
    else ParsedQuantity(quantity)
  }

  /** The cart after cart_update stores n under key: a value of 0 or less removes the entry. */
  function UpdateCart(c: Cart, key: string, n: int): Cart
  {
    if n <= 0 then Pop(c, key) else Put(c, key, n)
  }

  /**
   * After cart_update a key whose new value is 0 or less is gone and the other keys keep
   * their order; otherwise the key holds the new value, in its old place or last; every
   * other key keeps its presence and its quantity; all quantities stay positive.
   */
  lemma UpdateCartSpec(c: Cart, key: string, n: int)
    ensures var r := UpdateCart(c, key, n);
      && (n <= 0 ==> key !in r.qty && r.keys == RemoveKey(c.keys, key))
      && (n > 0 ==> key in r.qty && r.qty[key] == n)
      && (n > 0 && key in c.qty ==> r.keys == c.keys)
      && (n > 0 && key !in c.qty ==> r.keys == c.keys + [key])
      && (forall k :: k != key ==> (k in r.qty <==> k in c.qty))
      && (forall k :: k != key && k in c.qty ==> r.qty[k] == c.qty[k])
      && (AllPositive(c) ==> AllPositive(r))
  {
  }

  /** The action parameter, "set" when absent. */
  function ActionOf(action: Option<string>): string
  {
    match action case Some(a) => a case None => "set"
  }

  /**
   * cart_update: 404 unless the product exists and is active (session untouched); otherwise
   * stores UpdatedQuantity under the product's key, removing the entry when it is 0 or less.
   */
  method CartUpdate(session: Session, cat: Catalogue, productId: nat, action: Option<string>, quantity: Option<string>)
    returns (resp: Response)
    modifies session
    ensures !IsActiveProduct(cat, productId) ==> resp == NotFound && session.cart == old(session.cart)
    ensures IsActiveProduct(cat, productId) ==>
      var old_cart := CurrentCart(old(session.cart));
      var key := NatToString(productId);
      var c := UpdateCart(old_cart, key, UpdatedQuantity(Get(old_cart, key, 0), ActionOf(action), quantity));
      && session.cart == CartValue(c)
      && resp == ResponseFor(cat, c)
  {
    if !IsActiveProduct(cat, productId) {
      return NotFound;
    }
    var act := ActionOf(action);
    var cart := GetCart(session);
    var key := NatToString(productId);
    var current := Get(cart, key, 0);
    ghost var updated := UpdatedQuantity(current, act, quantity);
    if act == "inc" {
      current := current + 1;
    } else if act == "dec" {
      current := current - 1;
    } else {
      current := ParsedQuantity(quantity);
    }
    assert current == updated;
    ghost var expected := UpdateCart(cart, key, current);
    if current <= 0 {
      cart := Pop(cart, key);
    } else {
      cart := Put(cart, key, current);
    }
    assert cart == expected;
    session.cart := CartValue(cart);
    var payload := BuildCartPayload(cat, cart);
    resp := match payload case Ok(p) => Json(p) case Err(_) => ServerError;
  }

  // ---------------------------------------------------------------------------
  // Properties of the views together

  /** int() accepts every key of c. */
  ghost predicate KeysAreIds(c: Cart)
  {
    forall k :: k in c.qty ==> KeyParses(k)
  }

  /**
   * The views only ever write the key str(id), which int() accepts: starting from an empty
   * cart, adding and updating keep every key parsable.
   */
  lemma ViewsKeepKeysParsable(c: Cart, id: nat, q: int, n: int)
    requires KeysAreIds(c)
    ensures KeysAreIds(EmptyCart)
    ensures KeysAreIds(AddToCart(c, NatToString(id), q))
    ensures KeysAreIds(UpdateCart(c, NatToString(id), n))
  {
    ParseIntOfNatToString(id);
    AddToCartSpec(c, NatToString(id), q);
    UpdateCartSpec(c, NatToString(id), n);
  }

  /** So a cart the views built never makes the aggregator raise. */
  lemma KeysAreIdsNeverRaise(cat: Catalogue, c: Cart)
    requires KeysAreIds(c)
    ensures CartPayload(cat, c).Ok?
  {
    FirstRejectedNone(c.keys, KeyParses);
    assert forall i :: 0 <= i < |c.keys| ==> c.keys[i] in c.qty;
  }

  /** Setting a quantity of 0, the client's "remove", deletes the entry. */
  lemma SetZeroRemoves(c: Cart, id: nat)
    ensures var key := NatToString(id);
      var r := UpdateCart(c, key, UpdatedQuantity(Get(c, key, 0), "set", Some("0")));
      key !in r.qty && r.keys == RemoveKey(c.keys, key)
  {
    var key := NatToString(id);
    assert ParseInt("0") == Some(0) by {
      assert "0" == NatToString(0);
      ParseIntOfNatToString(0);
    }
    assert "set" != "inc" && "set" != "dec";
    assert UpdatedQuantity(Get(c, key, 0), "set", Some("0")) == 0;
    UpdateCartSpec(c, key, 0);
  }

  /** The example of an inactive product: cart {"5": 2} gives no items, total "0.00" and count 0. */
  lemma InactiveProductExample(cat: Catalogue)
    requires 5 in cat && !cat[5].active
    ensures CartPayload(cat, Dict(["5"], map["5" := 2])) == Ok(Payload([], "0.00", 0))
  {
    var c: Cart := Dict(["5"], map["5" := 2]);
    assert "5" == NatToString(5);
    ParseIntOfNatToString(5);
    assert FirstRejected(c.keys, KeyParses) == None by {
      assert c.keys[1..] == [];
    }
    assert ActiveProductFor(cat, "5").None?;
    assert c.keys[..0] == [];
    assert Lines(cat, c.keys, c.qty) == [];
    assert RenderAll([]) == [];
    assert NatToString(0) == "0" && TwoDigits(0) == "00";
    assert FormatCents(0) == "0.00";
  }
}
