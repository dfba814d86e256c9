/**
  The meal-list cart: the `Cart` and `CartItem` models (defaults, display
  strings, the line price, cascade deletion) and the item and cart
  serializers (field surfaces, quantity validation, item creation).
 */
module Cart {
  import opened Strings
  import opened Values

  // ---------------------------------------------------------------------
  // Models.
  // ---------------------------------------------------------------------

  const DefaultCartName: string := "My Meal List"
  const DefaultQuantity: nat := 1

  /** A row of the cart table; `user` is the owner's primary key. */
  datatype CartRow = CartRow(id: nat, user: nat, name: string)

  /** A row of the cart item table; `cart` and `product` are primary keys. */
  datatype CartItemRow = CartItemRow(id: nat, cart: nat, product: nat, quantity: nat, notes: Option<string>)

  /** A cart created without a name gets the default name. */
  function NewCart(id: nat, user: nat, name: Option<string>): (c: CartRow)
    ensures c.id == id && c.user == user
    ensures name.None? ==> c.name == DefaultCartName
    ensures name.Some? ==> c.name == name.value
  {
    CartRow(id, user, if name.Some? then name.value else DefaultCartName)
  }

  /** An item created without a quantity holds one unit. */
  function NewItem(id: nat, cart: nat, product: nat, quantity: Option<nat>, notes: Option<string>): (x: CartItemRow)
    ensures x.id == id && x.cart == cart && x.product == product && x.notes == notes
    ensures quantity.None? ==> x.quantity == DefaultQuantity
    ensures quantity.Some? ==> x.quantity == quantity.value
  {
    CartItemRow(id, cart, product, if quantity.Some? then quantity.value else DefaultQuantity, notes)
  }

  /** `CartItem.estimated_price`: the quantity times the product's price. */
  function EstimatedPrice(quantity: nat, price: real): real
  {
    quantity as real * price
  }

  /** A default item costs exactly the product's price. */
  lemma DefaultItemPrice(price: real)
    ensures EstimatedPrice(DefaultQuantity, price) == price
  {
  }

  /** Splitting a quantity over two lines splits the estimated price the same way. */
  lemma EstimatedPriceAdditive(q1: nat, q2: nat, price: real)
    ensures EstimatedPrice(q1 + q2, price) == EstimatedPrice(q1, price) + EstimatedPrice(q2, price)
  {
    assert (q1 + q2) as real == q1 as real + q2 as real;
  }

  /** For a non-negative price a larger quantity never costs less. */
  lemma EstimatedPriceMonotone(q1: nat, q2: nat, price: real)
    requires q1 <= q2 && price >= 0.0
    ensures 0.0 <= EstimatedPrice(q1, price) <= EstimatedPrice(q2, price)
  {
    EstimatedPriceAdditive(q1, q2 - q1, price);
    assert (q2 - q1) as real * price >= 0.0;
    assert q1 as real * price >= 0.0;
  }

  /** `Cart.__str__`; the owner's username is nullable and then renders as "None". */
  function CartStr(username: Option<string>, name: string): string
  {
    "Cart of " + Formatted(username) + " - " + name
  }

  /** The display string names the owner after the fixed prefix and ends with the cart name. */
  lemma CartStrParts(username: Option<string>, name: string)
    ensures StartsWith(CartStr(username, name), "Cart of " + Formatted(username))
    ensures EndsWith(CartStr(username, name), " - " + name)
  {
    var s := CartStr(username, name);
    assert s == ("Cart of " + Formatted(username)) + (" - " + name);
    assert s[..|"Cart of " + Formatted(username)|] == "Cart of " + Formatted(username);
    assert s[|s| - |" - " + name|..] == " - " + name;
  }

  /** `CartItem.__str__`: the product title followed by `(x<quantity>)`. */
  function CartItemStr(title: string, quantity: nat): string
  {
    title + " (x" + NatToString(quantity) + ")"
  }

  /** The quantity can be read back from the display string: it is the decimal between `(x` and the closing parenthesis. */
  lemma CartItemStrQuantity(title: string, quantity: nat)
    ensures var s := CartItemStr(title, quantity);
      && StartsWith(s, title + " (x") && EndsWith(s, ")")
      && ParseNat(s[|title| + 3..|s| - 1]) == quantity
  {
    var s := CartItemStr(title, quantity);
    var digits := NatToString(quantity);
    assert s == (title + " (x") + digits + ")";
    assert s[..|title + " (x"|] == title + " (x";
    assert s[|title| + 3..|s| - 1] == digits;
    ParseNatToString(quantity);
  }

  /** The items of `items` that survive the deletion of cart `cartId`, in order. */
  function RemainingItems(items: seq<CartItemRow>, cartId: nat): (r: seq<CartItemRow>)
    ensures forall x :: x in r <==> x in items && x.cart != cartId
    ensures |r| <= |items|
    decreases |items|
  {
    if |items| == 0 then []
    else (if items[0].cart == cartId then [] else [items[0]]) + RemainingItems(items[1..], cartId)
  }

  /** The carts other than `cartId`, in order. */
  function RemainingCarts(carts: seq<CartRow>, cartId: nat): (r: seq<CartRow>)
    ensures forall c :: c in r <==> c in carts && c.id != cartId
    decreases |carts|
  {
    if |carts| == 0 then []
    else (if carts[0].id == cartId then [] else [carts[0]]) + RemainingCarts(carts[1..], cartId)
  }

  /** Every item belongs to a cart that exists. */
  predicate NoOrphans(carts: seq<CartRow>, items: seq<CartItemRow>)
  {
    forall x :: x in items ==> exists c :: c in carts && c.id == x.cart
  }

  /**
    Deleting a cart cascades to its items (`on_delete=CASCADE` on `CartItem.cart`):
    no item of the deleted cart survives, every other item and cart does, and
    no item is left without its cart.
   */
  lemma DeleteCartCascades(carts: seq<CartRow>, items: seq<CartItemRow>, cartId: nat)
    requires NoOrphans(carts, items)
    ensures var (cs, xs) := (RemainingCarts(carts, cartId), RemainingItems(items, cartId));
      && (forall x :: x in xs ==> x.cart != cartId)
      && (forall x :: x in items && x.cart != cartId ==> x in xs)
      && NoOrphans(cs, xs)
  {
    var cs, xs := RemainingCarts(carts, cartId), RemainingItems(items, cartId);
    forall x | x in xs
      ensures exists c :: c in cs && c.id == x.cart
    {
      var c :| c in carts && c.id == x.cart;
      assert c in cs;
    }
  }

  // ---------------------------------------------------------------------
  // Serializers.
  // ---------------------------------------------------------------------

  /** How a serializer field takes part: in both directions, output only, or input only. */
  datatype Access = ReadWrite | ReadOnly | WriteOnly

  /**
    `CartItemSerializer`'s fields in declaration order: `id` and the
    `estimated_price` property are read-only as a model serializer makes them,
    `product` is declared read-only and `product_id` write-only.
   */
  function ItemSurface(): seq<(string, Access)>
  {
    [("id", ReadOnly), ("product", ReadOnly), ("quantity", ReadWrite), ("notes", ReadWrite),
     ("estimated_price", ReadOnly), ("product_id", WriteOnly)]
  }

  /** `CartSerializer`'s fields: `id` and the auto-filled `created_at` are read-only, `items` is declared read-only. */
  function CartSurface(): seq<(string, Access)>
  {
    [("id", ReadOnly), ("user", ReadWrite), ("name", ReadWrite), ("created_at", ReadOnly), ("items", ReadOnly)]
  }

  /** The names of the fields of `surface` whose access is not `excluded`, in order. */
  function NamesExcept(surface: seq<(string, Access)>, excluded: Access): (r: seq<string>)
    ensures |r| <= |surface|
    ensures forall n :: n in r <==> exists i :: 0 <= i < |surface| && surface[i].0 == n && surface[i].1 != excluded
    decreases |surface|
  {
    if |surface| == 0 then []
    else
      var rest := NamesExcept(surface[1..], excluded);
      assert forall i :: 1 <= i < |surface| ==> surface[i] == surface[1..][i - 1];
      (if surface[0].1 == excluded then [] else [surface[0].0]) + rest
  }

  /** The keys a serialized object carries. */
  function OutputNames(surface: seq<(string, Access)>): seq<string>
  {
    NamesExcept(surface, WriteOnly)
  }

  /** The keys a payload is read from. */
  function InputNames(surface: seq<(string, Access)>): seq<string>
  {
    NamesExcept(surface, ReadOnly)
  }

  /** An item is shown with its product nested and without `product_id`; it is written through `product_id`, `quantity` and `notes`. */
  lemma ItemSurfaceKeys()
    ensures OutputNames(ItemSurface()) == ["id", "product", "quantity", "notes", "estimated_price"]
    ensures InputNames(ItemSurface()) == ["quantity", "notes", "product_id"]
  {
  }

  /** A cart is shown with all five keys, its items nested; only `user` and `name` are written. */
  lemma CartSurfaceKeys()
    ensures OutputNames(CartSurface()) == ["id", "user", "name", "created_at", "items"]
    ensures InputNames(CartSurface()) == ["user", "name"]
  {
  }

  const QuantityMessage: string := "Quantity must be greater than zero!"
  /** The field-level message for a value below a positive integer column's minimum of 0. */
  const MinimumMessage: string := "Ensure this value is greater than or equal to 0."

  /** `CartItemSerializer.validate_quantity`: zero and negatives are refused, positives pass unchanged. */
  function ValidateQuantity(value: int): (r: Result<nat, string>)
    ensures r.Err? <==> value <= 0
    ensures r.Err? ==> r.error == QuantityMessage
    ensures r.Ok? ==> r.value == value && r.value > 0
  {
    if value <= 0 then Err(QuantityMessage) else Ok(value)
  }

  /**
    The whole check a `quantity` goes through: the field's own minimum of 0
    (taken from the positive integer column) first, then `validate_quantity`.
   */
  function CheckQuantity(value: int): (r: Result<nat, string>)
    ensures r.Err? <==> value <= 0
    ensures r.Ok? ==> r.value == value
    ensures value == 0 ==> r == Err(QuantityMessage)
    ensures value < 0 ==> r == Err(MinimumMessage)
  {
    if value < 0 then Err(MinimumMessage) else ValidateQuantity(value)
  }

  /** The cases the cart tests post: 0 and -3 are refused, 2 is kept. */
  lemma QuantityExamples()
    ensures CheckQuantity(0).Err? && CheckQuantity(-3).Err? && CheckQuantity(2) == Ok(2)
  {
  }

  /**
    The keyword arguments `CartItemSerializer.create` passes to
    `CartItem.objects.create`: the validated data without `product_id`, plus
    `product` bound to the product `product_id` resolved to.
   */
  function CreateKwargs(validated: map<string, Value>): (kw: map<string, Value>)
    requires "product_id" in validated && "product" !in validated
    ensures "product" in kw && kw["product"] == validated["product_id"]
    ensures "product_id" !in kw
    ensures forall k :: k in validated && k != "product_id" ==> k in kw && kw[k] == validated[k]
    ensures forall k :: k in kw ==> k == "product" || k in validated
    ensures |kw| == |validated|
  {
    var rest := validated - {"product_id"};
    assert validated.Keys == rest.Keys + {"product_id"};
    rest["product" := validated["product_id"]]
  }

  /** The validated data of one request; `create` pops from it in place. */
  class Payload {
    var entries: map<string, Value>

    constructor (entries: map<string, Value>)
      ensures this.entries == entries
    {
      this.entries := entries;
    }
  }

  /** The cart item table, each row as the column values it was created with. */
  class ItemTable {
    var rows: seq<map<string, Value>>

    constructor ()
      ensures rows == []
    {
      rows := [];
    }
  }

  /**
    `CartItemSerializer.create`: pops `product_id` out of the caller's
    validated data and inserts one row created from the rest plus `product`.
   */
  method Create(table: ItemTable, validated: Payload) returns (row: map<string, Value>)
    requires "product_id" in validated.entries && "product" !in validated.entries
    modifies table, validated
    ensures validated.entries == old(validated.entries) - {"product_id"}
    ensures row == CreateKwargs(old(validated.entries))
    ensures table.rows == old(table.rows) + [row]
  {
    var product := validated.entries["product_id"];
    validated.entries := validated.entries - {"product_id"};
    row := validated.entries["product" := product];
    table.rows := table.rows + [row];
  }
}
