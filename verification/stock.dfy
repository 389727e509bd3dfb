/**
 The stock ledger as a value: a map from item name to quantity together with
 the order in which a Python dict iterates its keys. It stands for the
 module-global `stock_data` dict of inventory_system.py; the two dict
 primitives the inventory uses, assignment `d[k] = v` and `del d[k]`, are
 defined here with their insertion-order behaviour.
 */
module Stock {
  import opened Seqs

  /* `stock` holds the quantities; `order` lists the keys in iteration order. */
  datatype Ledger = Ledger(stock: map<string, int>, order: seq<string>)

  /* What every dict satisfies: each key listed once, and the listed keys are
     exactly the keys of the map. */
  predicate Valid(l: Ledger)
  {
    && NoDuplicates(l.order)
    && (forall k :: k in l.stock ==> k in l.order)
    && (forall k :: k in l.order ==> k in l.stock)
  }

  /* The ledger at process start. */
  function Empty(): (l: Ledger)
    ensures Valid(l)
    ensures l.stock == map[] && l.order == []
  {
    Ledger(map[], [])
  }

  /* The intended invariant of the inventory: no key maps to a quantity at or
     below zero. */
  predicate AllPositive(l: Ledger)
  {
    forall k :: k in l.stock ==> l.stock[k] > 0
  }

  /* `d[k] = v`: an existing key keeps its position, a new key goes last. */
  function Put(l: Ledger, k: string, v: int): (r: Ledger)
    requires Valid(l)
    ensures Valid(r)
    ensures r.stock == l.stock[k := v]
    ensures k in l.stock ==> r.order == l.order
    ensures k !in l.stock ==> r.order == l.order + [k]
  {
    if k in l.stock then Ledger(l.stock[k := v], l.order)
    else
      assert NoDuplicates(l.order + [k]) by {
        forall i, j | 0 <= i < j < |l.order + [k]|
          ensures (l.order + [k])[i] != (l.order + [k])[j]
        {
          if j == |l.order| {
            assert (l.order + [k])[i] == l.order[i];
          }
        }
      }
      Ledger(l.stock[k := v], l.order + [k])
  }

  /* `del d[k]`: the key leaves the map and the order, the other keys keep
     their relative order. Python raises KeyError on an absent key; the
     inventory only deletes a key it has just looked up. */
  function Delete(l: Ledger, k: string): (r: Ledger)
    requires Valid(l)
    requires k in l.stock
    ensures Valid(r)
    ensures r.stock == l.stock - {k}
    ensures r.order == Without(l.order, k)
  {
    Ledger(l.stock - {k}, Without(l.order, k))
  }
}
