/** The shopping cart of one user session.

    The bot keeps, per user, a dict from product name to quantity. Python
    dicts remember insertion order, and the cart is listed, summed and
    priced in that order, so the cart is modelled as the sequence of its
    product names in insertion order together with a map from name to
    quantity. The handlers change the cart in place (`+=`, insertion,
    `del`, `clear()`); that is the class `Cart`, whose methods are proved
    against the functions on `Lines` below. */
module ShoppingCart {
  import opened Wrappers
  import opened Text

  /** The cart as a value: names in insertion order and the quantity of each. */
  datatype Lines = Lines(order: seq<string>, qty: map<string, int>)

  predicate Distinct(s: seq<string>)
  {
    forall i, j :: 0 <= i < j < |s| ==> s[i] != s[j]
  }

  /** What every reachable cart satisfies: each name listed once, the listed
      names are exactly the keys, and every quantity is positive. */
  ghost predicate WellFormed(c: Lines)
  {
    && Distinct(c.order)
    && (forall n :: n in c.qty <==> n in c.order)
    && (forall n :: n in c.qty ==> c.qty[n] > 0)
  }

  const Empty: Lines := Lines([], map[])

  /** `s` with every occurrence of `x` taken out, the others kept in order. */
  function Without(s: seq<string>, x: string): (r: seq<string>)
    ensures forall y :: y in r <==> y in s && y != x
    ensures x !in s ==> r == s
    ensures Distinct(s) ==> Distinct(r)
  {
    if s == [] then []
    else if s[0] == x then Without(s[1..], x)
    else
      var rest := Without(s[1..], x);
      assert Distinct(s) ==> s[0] !in s[1..];
      [s[0]] + rest
  }

  /** On a list without repetitions, taking out `s[i]` is deleting position `i`. */
  lemma {:induction false} WithoutDeletesPosition(s: seq<string>, i: int)
    requires Distinct(s) && 0 <= i < |s|
    ensures Without(s, s[i]) == s[..i] + s[i + 1..]
  {
    if i == 0 {
      assert s[0] !in s[1..];
    } else {
      WithoutDeletesPosition(s[1..], i - 1);
      assert s[1..][..i - 1] == s[1..i];
      assert s[1..][i..] == s[i + 1..];
      assert s[..i] == [s[0]] + s[1..i];
    }
  }

  /** `session.cart[name]['quantity'] += q` for a listed product, insertion at
      the end for a new one (handlers.py:265-270). */
  function WithAdded(c: Lines, name: string, q: int): (r: Lines)
    ensures name in r.qty && r.qty[name] == (if name in c.qty then c.qty[name] else 0) + q
    ensures forall n :: n != name ==> (n in r.qty <==> n in c.qty)
    ensures forall n :: n != name && n in c.qty ==> r.qty[n] == c.qty[n]
    ensures WellFormed(c) ==> r.order == if name in c.order then c.order else c.order + [name]
    ensures WellFormed(c) && q > 0 ==> WellFormed(r)
  {
    if name in c.qty then Lines(c.order, c.qty[name := c.qty[name] + q])
    else Lines(c.order + [name], c.qty[name := q])
  }

  /** `del session.cart[name]` when the name is in the cart, nothing otherwise
      (handlers.py:549-550). */
  function WithRemoved(c: Lines, name: string): (r: Lines)
    ensures name !in r.qty && name !in r.order
    ensures forall n :: n != name ==> (n in r.qty <==> n in c.qty)
    ensures forall n :: n != name && n in c.qty ==> r.qty[n] == c.qty[n]
    ensures forall n :: n != name ==> (n in r.order <==> n in c.order)
    ensures WellFormed(c) ==> WellFormed(r)
    ensures WellFormed(c) && name !in c.qty ==> r == c
  {
    var r := Lines(Without(c.order, name), c.qty - {name});
    assert name !in c.qty ==> c.qty - {name} == c.qty;
    r
  }

  /** The sum of the quantities of the listed names, in list order. */
  function QuantitySum(order: seq<string>, qty: map<string, int>): (t: int)
    requires forall n :: n in order ==> n in qty
    ensures (forall n :: n in order ==> qty[n] > 0) ==> t >= |order|
  {
    if order == [] then 0 else qty[order[0]] + QuantitySum(order[1..], qty)
  }

  /** `total_items` of `cmd_cart` (handlers.py:284-287): the sum of all quantities. */
  function Total(c: Lines): (t: int)
    requires WellFormed(c)
    ensures t >= |c.order|
    ensures t == 0 <==> c.order == []
  {
    QuantitySum(c.order, c.qty)
  }

  lemma {:induction false} SumAppend(order: seq<string>, qty: map<string, int>, name: string)
    requires forall n :: n in order ==> n in qty
    requires name in qty
    ensures QuantitySum(order + [name], qty) == QuantitySum(order, qty) + qty[name]
  {
    if order != [] {
      assert (order + [name])[1..] == order[1..] + [name];
      SumAppend(order[1..], qty, name);
    }
  }

  /** Changing the quantity of one listed name changes the sum by the difference. */
  lemma {:induction false} SumUpdate(order: seq<string>, qty: map<string, int>, name: string, v: int)
    requires Distinct(order)
    requires forall n :: n in order ==> n in qty
    ensures QuantitySum(order, qty[name := v]) ==
            QuantitySum(order, qty) + (if name in order then v - qty[name] else 0)
  {
    if order != [] {
      assert Distinct(order[1..]);
      SumUpdate(order[1..], qty, name, v);
      assert order[0] == name ==> name !in order[1..];
    }
  }

  /** Taking one name out of the list and the map lowers the sum by its quantity. */
  lemma {:induction false} SumWithout(order: seq<string>, qty: map<string, int>, name: string)
    requires Distinct(order)
    requires forall n :: n in order ==> n in qty
    ensures forall n :: n in Without(order, name) ==> n in qty - {name}
    ensures QuantitySum(Without(order, name), qty - {name}) ==
            QuantitySum(order, qty) - (if name in order then qty[name] else 0)
  {
    if order != [] {
      assert Distinct(order[1..]);
      SumWithout(order[1..], qty, name);
      if order[0] == name {
        assert name !in order[1..];
      }
    }
  }

  /** Adding `q` of a product raises the cart's total by exactly `q`. */
  lemma TotalAdded(c: Lines, name: string, q: int)
    requires WellFormed(c) && q > 0
    ensures WellFormed(WithAdded(c, name, q))
    ensures Total(WithAdded(c, name, q)) == Total(c) + q
  {
    if name in c.qty {
      SumUpdate(c.order, c.qty, name, c.qty[name] + q);
    } else {
      SumUpdate(c.order, c.qty, name, q);
      SumAppend(c.order, c.qty[name := q], name);
    }
  }

  /** Removing a product lowers the total by its quantity, and by nothing when
      it is not in the cart. */
  lemma TotalRemoved(c: Lines, name: string)
    requires WellFormed(c)
    ensures WellFormed(WithRemoved(c, name))
    ensures Total(WithRemoved(c, name)) == Total(c) - (if name in c.qty then c.qty[name] else 0)
  {
    SumWithout(c.order, c.qty, name);
  }

  /** Removing a product that is in the cart deletes its position and keeps
      the order of the others. */
  lemma RemovedKeepsOrder(c: Lines, i: int)
    requires WellFormed(c) && 0 <= i < |c.order|
    ensures WithRemoved(c, c.order[i]).order == c.order[..i] + c.order[i + 1..]
  {
    WithoutDeletesPosition(c.order, i);
  }

  /** Adding a product and then removing it restores a cart that did not hold it. */
  lemma RemoveUndoesAddOfNew(c: Lines, name: string, q: int)
    requires WellFormed(c) && name !in c.qty && q > 0
    ensures WithRemoved(WithAdded(c, name, q), name) == c
  {
    var a := WithAdded(c, name, q);
    assert a.order == c.order + [name];
    assert Without(a.order, name) == c.order by {
      WithoutDeletesPosition(a.order, |c.order|);
      assert a.order[..|c.order|] == c.order;
    }
    assert a.qty - {name} == c.qty;
  }

  // ---------------------------------------------------------------------
  // Reading a quantity: int(text) (handlers.py:246-247)
  // ---------------------------------------------------------------------

  /** The digit part Python's `int()` accepts: ASCII digits, single
      underscores allowed between two digits. */
  predicate DigitGroups(s: string)
  {
    && s != [] && IsDigit(s[0]) && IsDigit(s[|s| - 1])
    && (forall i :: 0 <= i < |s| ==> IsDigit(s[i]) || s[i] == '_')
    && (forall i :: 0 <= i < |s| - 1 ==> !(s[i] == '_' && s[i + 1] == '_'))
  }

  function DigitValue(c: char): (d: int)
    requires IsDigit(c)
    ensures 0 <= d <= 9
  {
    c as int - '0' as int
  }

  /** The number the digits of `s` spell, underscores skipped. */
  function DecimalValue(s: string): (v: int)
    requires forall i :: 0 <= i < |s| ==> IsDigit(s[i]) || s[i] == '_'
    ensures v >= 0
  {
    if s == [] then 0
    else if s[|s| - 1] == '_' then DecimalValue(s[..|s| - 1])
    else 10 * DecimalValue(s[..|s| - 1]) + DigitValue(s[|s| - 1])
  }

  /** Python's `int(text)`: surrounding whitespace, an optional sign, then
      digit groups; `None` where Python raises `ValueError`. */
  function ParseInt(text: string): Option<int>
  {
    ParseSigned(Strip(text))
  }

  /** An optional sign followed by digit groups. */
  function ParseSigned(t: string): Option<int>
  {
    if t != [] && (t[0] == '-' || t[0] == '+') then
      if !DigitGroups(t[1..]) then None
      else if t[0] == '-' then Some(-DecimalValue(t[1..]))
      else Some(DecimalValue(t[1..]))
    else if !DigitGroups(t) then None
    else Some(DecimalValue(t))
  }

  function DigitChar(d: int): (c: char)
    requires 0 <= d <= 9
    ensures IsDigit(c) && DigitValue(c) == d
  {
    ('0' as int + d) as char
  }

  /** The decimal digits of a natural number, as Python's `str` writes them. */
  function NatToString(n: nat): (s: string)
    ensures s != [] && forall i :: 0 <= i < |s| ==> IsDigit(s[i])
  {
    if n < 10 then [DigitChar(n)] else NatToString(n / 10) + [DigitChar(n % 10)]
  }

  /** Python's `str(n)` on an integer. */
  function IntToString(n: int): (s: string)
  {
    if n < 0 then "-" + NatToString(-n) else NatToString(n)
  }

  lemma {:induction false} DecimalOfNatToString(n: nat)
    ensures DigitGroups(NatToString(n))
    ensures DecimalValue(NatToString(n)) == n
  {
    var s := NatToString(n);
    if n >= 10 {
      DecimalOfNatToString(n / 10);
      assert s[..|s| - 1] == NatToString(n / 10);
    }
  }

  /** Reading back what `str` writes gives the number again. */
  lemma ParseIntToString(n: int)
    ensures ParseInt(IntToString(n)) == Some(n)
  {
    var s := IntToString(n);
    assert Strip(s) == s by {
      StripUnpadded(s);
    }
    SignedToString(n);
  }

  lemma SignedToString(n: int)
    ensures ParseSigned(IntToString(n)) == Some(n)
  {
    var m: nat := if n < 0 then -n else n;
    var s := IntToString(n);
    assert DigitGroups(NatToString(m)) && DecimalValue(NatToString(m)) == m by {
      DecimalOfNatToString(m);
    }
    if n < 0 {
      assert s[1..] == NatToString(m);
    }
  }

  // ---------------------------------------------------------------------
  // The handlers' replies
  // ---------------------------------------------------------------------

  /** What `process_quantity` answers (handlers.py:244-273). The float path
      for text containing '.' is not modelled: its reply is `Fractional`. */
  datatype QuantityReply =
    | NotANumber
    | NotPositive
    | NoProduct
    | AddedToCart(name: string, quantity: int)
    | Fractional

  /** The reply of `process_quantity` for the product stored by the previous
      step and the text the user typed: parse errors first, then a
      non-positive number, then a missing product. */
  function QuantityReplyOf(productName: Option<string>, text: string): (r: QuantityReply)
    ensures r == Fractional <==> '.' in text
    ensures r == NotANumber <==> '.' !in text && ParseInt(text).None?
    ensures r == NotPositive <==> '.' !in text && ParseInt(text).Some? && ParseInt(text).value <= 0
    ensures r.AddedToCart? <==>
              '.' !in text && ParseInt(text).Some? && ParseInt(text).value > 0 &&
              productName.Some? && productName.value != []
    ensures r.AddedToCart? ==>
              r.quantity == ParseInt(text).value && r.quantity > 0 && productName == Some(r.name) && r.name != []
  {
    if '.' in text then Fractional
    else match ParseInt(text)
      case None => NotANumber
      case Some(q) =>
        if q <= 0 then NotPositive
        else if productName.None? || productName.value == [] then NoProduct
        else AddedToCart(productName.value, q)
  }

  /** `str` of an integer never contains a '.', so `int()` reads it. */
  lemma NoDotInIntToString(n: int)
    ensures '.' !in IntToString(n)
  {
    var s := IntToString(n);
    var d := NatToString(if n < 0 then -n else n);
    assert forall i :: 0 <= i < |d| ==> d[i] != '.';
    if n < 0 {
      assert forall i :: 1 <= i < |s| ==> s[i] == d[i - 1];
    }
  }

  /** Typing a positive number adds exactly that number of the stored product. */
  lemma TypedPositiveIsAdded(name: string, n: int)
    requires name != [] && n > 0
    ensures QuantityReplyOf(Some(name), IntToString(n)) == AddedToCart(name, n)
  {
    NoDotInIntToString(n);
    ParseIntToString(n);
  }

  /** `int()` ignores whitespace around the number, so a padded positive
      number adds that quantity too. */
  lemma PaddedPositiveIsAdded(name: string, n: int, pre: string, post: string)
    requires name != [] && n > 0
    requires forall i :: 0 <= i < |pre| ==> IsSpace(pre[i])
    requires forall i :: 0 <= i < |post| ==> IsSpace(post[i])
    ensures QuantityReplyOf(Some(name), pre + IntToString(n) + post) == AddedToCart(name, n)
  {
    var x := IntToString(n);
    var text := pre + x + post;
    assert IsDigit(x[0]) && IsDigit(x[|x| - 1]) by {
      assert x == NatToString(n);
    }
    assert Strip(text) == x by {
      StripPadded(pre, x, post);
    }
    assert ParseSigned(x) == Some(n) by {
      StripUnpadded(x);
      ParseIntToString(n);
    }
    assert '.' !in text by {
      NoDotInIntToString(n);
      assert forall i :: 0 <= i < |text| ==> text[i] != '.' by {
        assert forall i :: 0 <= i < |x| ==> x[i] != '.';
      }
    }
  }

  /** A number that is zero or negative is refused whatever product is stored. */
  lemma TypedNonPositiveRefused(p: Option<string>, n: int)
    requires n <= 0
    ensures QuantityReplyOf(p, IntToString(n)) == NotPositive
  {
    NoDotInIntToString(n);
    ParseIntToString(n);
  }

  /** Text without a digit is never a number. */
  lemma NoDigitIsNotANumber(p: Option<string>, text: string)
    requires NoDigit(text) && '.' !in text
    ensures QuantityReplyOf(p, text) == NotANumber
  {
    var t := Strip(text);
    var body := if t != [] && (t[0] == '-' || t[0] == '+') then t[1..] else t;
    StripIsInside(text);
    if body != [] {
      assert body[0] in text;
    }
  }

  lemma StripIsInside(s: string)
    ensures forall c :: c in Strip(s) ==> c in s
  {
    var r := RStrip(s);
    assert forall c :: c in r ==> c in s;
    var l := LStrip(r);
    assert forall c :: c in l ==> c in r;
  }

  /** What `process_remove_product` answers (handlers.py:539-557). */
  datatype RemoveReply = RemoveCancelled | Removed(name: string) | NotInCart

  /** The cancel button of the remove keyboard (handlers.py:529, 541). */
  const Cancel: string := "Отмена"

  // ---------------------------------------------------------------------
  // The session's cart, changed in place
  // ---------------------------------------------------------------------

  class Cart {
    var order: seq<string>
    var qty: map<string, int>

    function State(): Lines
      reads this
    {
      Lines(order, qty)
    }

    ghost predicate Valid()
      reads this
    {
      WellFormed(State())
    }

    /** `self.cart = {}` of a new session (handlers.py:29). */
    constructor ()
      ensures Valid() && State() == Empty
    {
      order := [];
      qty := map[];
    }

    /** The cart update of `process_quantity` (handlers.py:265-270). */
    method Add(name: string, q: int)
      requires Valid() && q > 0
      modifies this
      ensures Valid()
      ensures State() == WithAdded(old(State()), name, q)
    {
      if name in qty {
        qty := qty[name := qty[name] + q];
      } else {
        order := order + [name];
        qty := qty[name := q];
      }
    }

    /** `process_quantity` (handlers.py:244-273): reads the typed quantity and
        adds it to the stored product, or answers why it did not. */
    method ProcessQuantity(productName: Option<string>, text: string) returns (reply: QuantityReply)
      requires Valid()
      modifies this
      ensures Valid()
      ensures reply == QuantityReplyOf(productName, text)
      ensures State() == if reply.AddedToCart? then WithAdded(old(State()), reply.name, reply.quantity) else old(State())
    {
      reply := QuantityReplyOf(productName, text);
      if reply.AddedToCart? {
        Add(reply.name, reply.quantity);
      }
    }

    /** `process_remove_product` (handlers.py:539-557): the cancel button
        leaves the cart alone; otherwise the stripped text is deleted from
        the cart when it is there. */
    method ProcessRemove(text: string) returns (reply: RemoveReply)
      requires Valid()
      modifies this
      ensures Valid()
      ensures text == Cancel ==> reply == RemoveCancelled && State() == old(State())
      ensures text != Cancel && Strip(text) in old(qty) ==>
                reply == Removed(Strip(text)) && State() == WithRemoved(old(State()), Strip(text))
      ensures text != Cancel && Strip(text) !in old(qty) ==> reply == NotInCart && State() == old(State())
    {
      if text == Cancel {
        return RemoveCancelled;
      }
      var name := Strip(text);
      if name in qty {
        order := Without(order, name);
        qty := qty - {name};
        reply := Removed(name);
      } else {
        reply := NotInCart;
      }
    }

    /** `cmd_clear` (handlers.py:560-563). */
    method Clear()
      requires Valid()
      modifies this
      ensures Valid() && State() == Empty
    {
      order := [];
      qty := map[];
    }

    /** The item count `cmd_cart` reports (handlers.py:284-287). */
    method ItemCount() returns (total: int)
      requires Valid()
      ensures total == Total(State())
    {
      total := 0;
      var i := 0;
      while i < |order|
        invariant 0 <= i <= |order|
        invariant total + QuantitySum(order[i..], qty) == QuantitySum(order, qty)
      {
        assert order[i..][1..] == order[i + 1..];
        total := total + qty[order[i]];
        i := i + 1;
      }
    }
  }
}
