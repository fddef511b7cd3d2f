/**
  The confirmation step of the restaurant's order page: the items ticked on the order form are
  priced one by one into a running total and a list of ordered lines, and the confirmation page
  shows that list, the toppings and the total.
 */
module Restaurant {
  import opened Wrappers
  import opened Text
  import opened Seqs

  /** The body of a POST request: each field name to the values submitted under it, in order. */
  type PostData = map<string, seq<string>>

  /** request.POST.getlist(name): every value submitted under name, none when it is absent. */
  function GetList(data: PostData, name: string): seq<string> {
    if name in data then data[name] else []
  }

  /** request.POST.get(name, ""): the last value submitted under name, or "" when it is absent. */
  function Get(data: PostData, name: string): string {
    if name in data && data[name] != [] then data[name][|data[name]| - 1] else ""
  }

  /**
    The daily special as the form sends it back: its name, its price text, and that text with
    "$" removed read as a number, in cents (None when float() raises on it).
   */
  datatype Special = Special(name: string, cost: string, price: Option<int>)

  /**
    The state of the pricing loop: the total in cents, whether a parsed special price (a Python
    float) has been added to it, and the lines ordered so far.
   */
  datatype Bill = Bill(cents: int, isFloat: bool, ordered: seq<string>)

  /** What the special adds: its parsed price, or 0 when the price text does not parse. */
  function SpecialCents(special: Special): int {
    if special.price.Some? then special.price.value else 0
  }

  /** The line of the special: its name and its price text as submitted. */
  function SpecialLine(special: Special): string {
    special.name + " (" + special.cost + ")"
  }

  /** The item names the loop recognises. */
  predicate Known(item: string) {
    item == "pizza" || item == "burger" || item == "salad" || item == "drink" || item == "special"
  }

  /** The line a recognised item appends. */
  function Line(item: string, special: Special): string {
    if item == "pizza" then "Pizza ($12.00)"
    else if item == "burger" then "Burger ($9.00)"
    else if item == "salad" then "Salad ($7.00)"
    else if item == "drink" then "Drink ($2.00)"
    else SpecialLine(special)
  }

  /** One turn of the loop: the branch whose name matches adds its price and its line. */
  function AddItem(b: Bill, item: string, special: Special): Bill {
    if item == "pizza" then Bill(b.cents + 1200, b.isFloat, b.ordered + ["Pizza ($12.00)"])
    else if item == "burger" then Bill(b.cents + 900, b.isFloat, b.ordered + ["Burger ($9.00)"])
    else if item == "salad" then Bill(b.cents + 700, b.isFloat, b.ordered + ["Salad ($7.00)"])
    else if item == "drink" then Bill(b.cents + 200, b.isFloat, b.ordered + ["Drink ($2.00)"])
    else if item == "special" then
      Bill(b.cents + SpecialCents(special), b.isFloat || special.price.Some?, b.ordered + [SpecialLine(special)])
    else b
  }

  /** The bill after the loop has gone over items, in order, starting from 0 and []. */
  function Priced(items: seq<string>, special: Special): Bill
    decreases |items|
  {
    if items == [] then Bill(0, false, [])
    else AddItem(Priced(items[..|items| - 1], special), items[|items| - 1], special)
  }

  /** "$" + str(total) for a total that is still a Python int; None once it has become a float. */
  function TotalText(b: Bill): Option<string> {
    if b.isFloat then None else Some("$" + IntToString(b.cents / 100))
  }

  /** The lines of a run of recognised items. */
  function Lines(items: seq<string>, special: Special): (r: seq<string>)
    ensures |r| == |items|
    ensures forall k :: 0 <= k < |items| ==> r[k] == Line(items[k], special)
  {
    seq(|items|, k requires 0 <= k < |items| => Line(items[k], special))
  }

  /** The context of the confirmation page. */
  datatype Confirmation = Confirmation(
    customerName: string,
    customerPhone: string,
    customerEmail: string,
    selectedItems: seq<string>,
    pizzaToppings: seq<string>,
    instructions: string,
    total: Option<string>)

  /** The special the form describes, with price the reading of its price text. */
  function SpecialOf(data: PostData, price: Option<int>): Special {
    Special(Get(data, "special_name"), Get(data, "special_cost"), price)
  }

  /**
    The POST branch of order_page: the fields are read, then the loop prices every submitted item
    in order; specialPrice is float(special_cost.replace("$", "")) in cents, None when it raises.
   */
  method ConfirmOrder(data: PostData, specialPrice: Option<int>) returns (c: Confirmation)
    ensures c.selectedItems == Priced(GetList(data, "items"), SpecialOf(data, specialPrice)).ordered
    ensures c.total == TotalText(Priced(GetList(data, "items"), SpecialOf(data, specialPrice)))
    ensures c.pizzaToppings == GetList(data, "pizza_toppings")
    ensures c.customerName == Get(data, "customer_name") && c.customerPhone == Get(data, "customer_phone")
    ensures c.customerEmail == Get(data, "customer_email") && c.instructions == Get(data, "instructions")
  {
    var items := GetList(data, "items");
    var special := SpecialOf(data, specialPrice);
    var total, isFloat, ordered := 0, false, [];
    for i := 0 to |items|
      invariant Bill(total, isFloat, ordered) == Priced(items[..i], special)
    {
      assert items[..i + 1][..i] == items[..i];
      var item := items[i];
      if item == "pizza" {
        total, ordered := total + 1200, ordered + ["Pizza ($12.00)"];
      } else if item == "burger" {
        total, ordered := total + 900, ordered + ["Burger ($9.00)"];
      } else if item == "salad" {
        total, ordered := total + 700, ordered + ["Salad ($7.00)"];
      } else if item == "drink" {
        total, ordered := total + 200, ordered + ["Drink ($2.00)"];
      } else if item == "special" {
        var price := 0;
        if specialPrice.Some? {
          price := specialPrice.value;
          isFloat := true;
        }
        total, ordered := total + price, ordered + [SpecialLine(special)];
      }
    }
    assert items[..|items|] == items;
    c := Confirmation(Get(data, "customer_name"), Get(data, "customer_phone"), Get(data, "customer_email"),
                      ordered, GetList(data, "pizza_toppings"), Get(data, "instructions"),
                      TotalText(Bill(total, isFloat, ordered)));
  }

  /**
    The total, stated without the loop: every occurrence of an item adds its price (12, 9, 7 and 2
    dollars, and for the special its parsed price or nothing).
   */
  lemma {:induction false} PricedCents(items: seq<string>, special: Special)
    ensures var m := multiset(items);
            Priced(items, special).cents ==
              1200 * m["pizza"] + 900 * m["burger"] + 700 * m["salad"] + 200 * m["drink"]
              + m["special"] * SpecialCents(special)
  {
    if items != [] {
      var init, last := items[..|items| - 1], items[|items| - 1];
      assert items == init + [last];
      PricedCents(init, special);
      var sc := SpecialCents(special);
      var n := multiset(init)["special"];
      assert multiset(items) == multiset(init) + multiset{last};
      if last == "special" {
        assert multiset(items)["special"] == n + 1;
        OneMore(n, sc);
      }
    }
  }

  /** Arithmetic steps kept apart from the sequence facts, where the solver handles them quickly. */
  lemma OneMore(n: int, c: int)
    ensures (n + 1) * c == n * c + c
  {
  }

  lemma Distribute(a: int, b: int, c: int)
    ensures (a + b) * c == a * c + b * c
  {
  }

  /**
    The total becomes a float exactly when a special whose price parses was ordered; otherwise it
    stays a whole number of dollars.
   */
  lemma {:induction false} PricedFloat(items: seq<string>, special: Special)
    ensures Priced(items, special).isFloat <==> "special" in items && special.price.Some?
    ensures !Priced(items, special).isFloat ==> Priced(items, special).cents % 100 == 0
  {
    if items != [] {
      var init := items[..|items| - 1];
      assert items == init + [items[|items| - 1]];
      PricedFloat(init, special);
    }
  }

  /** The lines are those of the recognised items, one per occurrence, in submission order. */
  lemma {:induction false} PricedLines(items: seq<string>, special: Special)
    ensures Priced(items, special).ordered == Lines(Keep(items, Known), special)
  {
    if items != [] {
      var init, last := items[..|items| - 1], items[|items| - 1];
      assert items == init + [last];
      PricedLines(init, special);
      KeepAppend(init, [last], Known);
      var kept := Keep(init, Known);
      if Known(last) {
        assert Keep([last], Known) == [last];
        assert Lines(kept + [last], special) == Lines(kept, special) + [Line(last, special)];
      } else {
        assert Keep([last], Known) == [];
        assert kept + [] == kept;
      }
    }
  }

  /** Pricing two orders one after the other adds their totals and joins their lines. */
  lemma PricedAppend(a: seq<string>, b: seq<string>, special: Special)
    ensures Priced(a + b, special).cents == Priced(a, special).cents + Priced(b, special).cents
    ensures Priced(a + b, special).isFloat == (Priced(a, special).isFloat || Priced(b, special).isFloat)
    ensures Priced(a + b, special).ordered == Priced(a, special).ordered + Priced(b, special).ordered
  {
    assert Priced(a + b, special).cents == Priced(a, special).cents + Priced(b, special).cents by {
      PricedCents(a, special);
      PricedCents(b, special);
      PricedCents(a + b, special);
      assert multiset(a + b) == multiset(a) + multiset(b);
      Distribute(multiset(a)["special"], multiset(b)["special"], SpecialCents(special));
    }
    assert Priced(a + b, special).isFloat == (Priced(a, special).isFloat || Priced(b, special).isFloat) by {
      PricedFloat(a, special);
      PricedFloat(b, special);
      PricedFloat(a + b, special);
      assert "special" in a + b <==> "special" in a || "special" in b;
    }
    assert Priced(a + b, special).ordered == Priced(a, special).ordered + Priced(b, special).ordered by {
      PricedLines(a, special);
      PricedLines(b, special);
      PricedLines(a + b, special);
      KeepAppend(a, b, Known);
      LinesAppend(Keep(a, Known), Keep(b, Known), special);
    }
  }

  lemma LinesAppend(a: seq<string>, b: seq<string>, special: Special)
    ensures Lines(a + b, special) == Lines(a, special) + Lines(b, special)
  {
    assert forall k :: 0 <= k < |a| + |b| ==> (a + b)[k] == if k < |a| then a[k] else b[k - |a|];
  }

  /** Names the loop does not recognise change neither the total nor the lines. */
  lemma UnknownIgnored(items: seq<string>, special: Special)
    ensures Priced(Keep(items, Known), special) == Priced(items, special)
  {
    var kept := Keep(items, Known);
    assert Priced(kept, special).cents == Priced(items, special).cents by {
      PricedCents(items, special);
      PricedCents(kept, special);
      KeepMultiset(items, Known);
      var m, mk := multiset(items), multiset(kept);
      assert Known("pizza") && Known("burger") && Known("salad") && Known("drink") && Known("special");
      assert mk["pizza"] == m["pizza"] && mk["burger"] == m["burger"] && mk["salad"] == m["salad"];
      assert mk["drink"] == m["drink"] && mk["special"] == m["special"];
    }
    assert Priced(kept, special).isFloat == Priced(items, special).isFloat by {
      PricedFloat(items, special);
      PricedFloat(kept, special);
      assert "special" in kept <==> "special" in items;
    }
    assert Priced(kept, special).ordered == Priced(items, special).ordered by {
      PricedLines(items, special);
      PricedLines(kept, special);
      KeepAll(kept, Known);
    }
  }

  /** A pizza and a drink come to "$14", whatever the special is. */
  lemma PizzaAndDrink(special: Special)
    ensures Priced(["pizza", "drink"], special).ordered == ["Pizza ($12.00)", "Drink ($2.00)"]
    ensures TotalText(Priced(["pizza", "drink"], special)) == Some("$14")
  {
    var items := ["pizza", "drink"];
    assert items[..1] == ["pizza"] && items[..1][..0] == [];
    assert Priced(["pizza"], special) == Bill(1200, false, ["Pizza ($12.00)"]);
    assert Priced(items, special) == Bill(1400, false, ["Pizza ($12.00)", "Drink ($2.00)"]);
    assert 1400 / 100 == 14;
    assert IntToString(14) == "14";
    assert "$" + "14" == "$14";
  }
}
