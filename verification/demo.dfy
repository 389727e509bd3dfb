/**
 The demonstration run of inventory_system.py's `main`, replayed on ledger
 values, and the low-stock example on a two-item ledger.
 */
module Demo {
  import opened Stock
  import opened Inventory

  /* Start empty, add 10 apples and 2 bananas, remove 3 apples and one
     orange that was never stocked: 7 apples remain and only the bananas
     are low at the default threshold. */
  lemma MainScenario()
    ensures var l1 := AddItem(Empty(), "apple", 10, []).ledger;
            var l2 := AddItem(l1, "banana", 2, []).ledger;
            var l3 := RemoveItem(l2, "apple", 3);
            var l4 := RemoveItem(l3, "orange", 1);
            && l4 == l3
            && GetQty(l4, "apple") == 7
            && LowItems(l4, DefaultThreshold) == ["banana"]
  {
    var l2 := AddItem(AddItem(Empty(), "apple", 10, []).ledger, "banana", 2, []).ledger;
    AppleThenBanana();
    var l3 := RemoveItem(l2, "apple", 3);
    RemoveSomeApples(l2);
    LowOfApplesAndBananas(l3);
  }

  /* The two additions of the run: 10 apples, then 2 bananas after them. */
  lemma AppleThenBanana()
    ensures var l := AddItem(AddItem(Empty(), "apple", 10, []).ledger, "banana", 2, []).ledger;
            && Valid(l)
            && l.stock.Keys == {"apple", "banana"} && l.order == ["apple", "banana"]
            && GetQty(l, "apple") == 10 && GetQty(l, "banana") == 2
  {
  }

  /* Removing 3 of 10 apples keeps both items and their order. */
  lemma RemoveSomeApples(l: Ledger)
    requires Valid(l)
    requires l.stock.Keys == {"apple", "banana"} && l.order == ["apple", "banana"]
    requires GetQty(l, "apple") == 10 && GetQty(l, "banana") == 2
    ensures var r := RemoveItem(l, "apple", 3);
            && Valid(r)
            && r.stock.Keys == {"apple", "banana"} && r.order == ["apple", "banana"]
            && GetQty(r, "apple") == 7 && GetQty(r, "banana") == 2
            && "orange" !in r.stock
  {
  }

  /* With 7 apples and 2 bananas in that order, only the bananas are low. */
  lemma LowOfApplesAndBananas(l: Ledger)
    requires Valid(l)
    requires l.order == ["apple", "banana"]
    requires GetQty(l, "apple") == 7 && GetQty(l, "banana") == 2
    ensures LowItems(l, DefaultThreshold) == ["banana"]
  {
  }

  /* Adding a negative quantity can take a positive ledger to one that
     stores a quantity at or below zero, which `removeItem` would never do. */
  lemma NegativeAddBreaksPositivity()
    ensures var l := AddItem(Empty(), "apple", 10, []).ledger;
            && AllPositive(l)
            && !AllPositive(AddItem(l, "apple", -10, []).ledger)
            && GetQty(AddItem(l, "apple", -10, []).ledger, "apple") == 0
            && AddItem(l, "apple", -10, []).ledger.order == ["apple"]
            && AllPositive(RemoveItem(l, "apple", 10))
  {
  }
}
