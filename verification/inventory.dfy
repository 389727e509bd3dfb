/**
 The stock operations of inventory_system.py over an explicit ledger value:
 `addItem`, `removeItem`, `getQty`, `checkLowItems` and the state-replacement
 rule of `loadData`. Each takes the ledger it works on and returns the ledger
 it leaves behind, in place of reading and writing the global `stock_data`.
 */
module Inventory {
  import opened Seqs
  import opened Stock

  /* The default `threshold` of `checkLowItems`. */
  const DefaultThreshold: int := 5

  /* One line of the optional operation log of `addItem`; the timestamp the
     source writes in front of it is not modelled. */
  datatype LogEntry = Added(item: string, qty: int)

  /* What `addItem` leaves behind: the ledger and the caller's log list. */
  datatype AddResult = AddResult(ledger: Ledger, log: seq<LogEntry>)

  /* `getQty`: the stored quantity, or the sentinel 0 for an unknown item.
     Under the positive-quantity invariant the sentinel is unambiguous. */
  function GetQty(l: Ledger, item: string): (q: int)
    ensures item in l.stock ==> q == l.stock[item]
    ensures item !in l.stock ==> q == 0
    ensures AllPositive(l) ==> (q > 0 <==> item in l.stock)
  {
    if item in l.stock then l.stock[item] else 0
  }

  /* `addItem`: a blank name is ignored; otherwise the item's quantity grows
     by `qty` (from 0 for a new item) and one entry is appended to the log. */
  function AddItem(l: Ledger, item: string, qty: int, log: seq<LogEntry>): (r: AddResult)
    requires Valid(l)
    ensures Valid(r.ledger)
    ensures item == "" ==> r.ledger == l && r.log == log
    ensures item != "" ==>
              && r.ledger.stock.Keys == l.stock.Keys + {item}
              && GetQty(r.ledger, item) == GetQty(l, item) + qty
              && (forall k :: k != item ==> GetQty(r.ledger, k) == GetQty(l, k))
    ensures item != "" && item in l.stock ==> r.ledger.order == l.order
    ensures item != "" && item !in l.stock ==> r.ledger.order == l.order + [item]
    ensures item != "" ==> |r.log| == |log| + 1 && r.log[..|log|] == log
                           && r.log[|log|] == Added(item, qty)
    ensures AllPositive(l) ==>
              (AllPositive(r.ledger) <==> item == "" || GetQty(l, item) + qty > 0)
    ensures AllPositive(l) && qty > 0 ==> AllPositive(r.ledger)
  {
    if item == "" then AddResult(l, log)
    else AddResult(Put(l, item, GetQty(l, item) + qty), log + [Added(item, qty)])
  }

  /* `removeItem`: an unknown item changes nothing; otherwise the quantity
     drops by `qty` and an item left at or below zero is deleted. */
  function RemoveItem(l: Ledger, item: string, qty: int): (r: Ledger)
    requires Valid(l)
    ensures Valid(r)
    ensures item !in l.stock ==> r == l
    ensures item in l.stock && l.stock[item] - qty <= 0 ==>
              && r.stock.Keys == l.stock.Keys - {item}
              && r.order == Without(l.order, item)
    ensures item in l.stock && l.stock[item] - qty > 0 ==>
              && r.stock.Keys == l.stock.Keys
              && GetQty(r, item) == l.stock[item] - qty
              && r.order == l.order
    ensures forall k :: k != item ==> GetQty(r, k) == GetQty(l, k)
    ensures item in r.stock ==> r.stock[item] > 0
    ensures AllPositive(l) ==> AllPositive(r)
    ensures InOrder(r.order, l.order)
  {
    if item !in l.stock then l
    else
      var decremented := Put(l, item, l.stock[item] - qty);
      if decremented.stock[item] <= 0 then Delete(decremented, item) else decremented
  }

  /* The test `checkLowItems` applies to each key. */
  function IsLow(l: Ledger, threshold: int): string -> bool
  {
    k => k in l.stock && l.stock[k] < threshold
  }

  /* The items `checkLowItems` reports: exactly those strictly below the
     threshold, once each, in the ledger's key order. */
  function LowItems(l: Ledger, threshold: int): (r: seq<string>)
    requires Valid(l)
    ensures forall k :: k in r <==> k in l.stock && l.stock[k] < threshold
    ensures NoDuplicates(r)
    ensures InOrder(r, l.order)
    ensures l.stock == map[] ==> r == []
  {
    FilterMembers(l.order, IsLow(l, threshold));
    FilterOrdered(l.order, IsLow(l, threshold));
    Filter(l.order, IsLow(l, threshold))
  }

  /* `checkLowItems`: one pass over the keys in order, collecting the low ones. */
  method CheckLowItems(l: Ledger, threshold: int) returns (result: seq<string>)
    requires Valid(l)
    ensures result == LowItems(l, threshold)
    ensures forall k :: k in result <==> k in l.stock && l.stock[k] < threshold
    ensures NoDuplicates(result) && InOrder(result, l.order)
  {
    ghost var low := IsLow(l, threshold);
    result := [];
    var i := 0;
    assert l.order[0..] == l.order;
    while i < |l.order|
      invariant 0 <= i <= |l.order|
      invariant result + Filter(l.order[i..], low) == Filter(l.order, low)
    {
      var item := l.order[i];
      FilterStep(l.order, i, low);
      ghost var rest := Filter(l.order[i + 1..], low);
      if l.stock[item] < threshold {
        assert (result + [item]) + rest == result + ([item] + rest);
        result := result + [item];
      } else {
        assert [] + rest == rest;
      }
      i := i + 1;
    }
    assert l.order[i..] == [];
    assert result == LowItems(l, threshold);
  }

  /* What reading the inventory file produced: a decoded object (its keys in
     order of first occurrence, a repeated key holding its last value), no
     file, or text that is not JSON. */
  datatype LoadOutcome = Parsed(contents: Ledger) | FileNotFound | InvalidJson

  /* `loadData`: a successful parse replaces the whole ledger; both failures
     keep the ledger as it was rather than clearing it. */
  function LoadData(l: Ledger, outcome: LoadOutcome): (r: Ledger)
    requires outcome.Parsed? ==> Valid(outcome.contents)
    ensures Valid(l) ==> Valid(r)
    ensures outcome.Parsed? ==> r == outcome.contents
    ensures !outcome.Parsed? ==> r == l
  {
    match outcome
    case Parsed(contents) => contents
    case FileNotFound => l
    case InvalidJson => l
  }

  /* A run of `addItem` calls, each with its own fresh log. */
  function AddAll(l: Ledger, adds: seq<(string, int)>): (r: Ledger)
    requires Valid(l)
    ensures Valid(r)
    decreases |adds|
  {
    if adds == [] then l
    else AddAll(AddItem(l, adds[0].0, adds[0].1, []).ledger, adds[1..])
  }

  /* The total quantity `adds` contributes to `item`. */
  function SumFor(adds: seq<(string, int)>, item: string): int
  {
    if adds == [] then 0
    else (if adds[0].0 == item then adds[0].1 else 0) + SumFor(adds[1..], item)
  }

  /* After a run of additions an item holds what it held before plus
     everything added to it. */
  lemma {:induction false} AddAllSums(l: Ledger, adds: seq<(string, int)>, item: string)
    requires Valid(l)
    requires item != ""
    ensures GetQty(AddAll(l, adds), item) == GetQty(l, item) + SumFor(adds, item)
    decreases |adds|
  {
    if adds != [] {
      var next := AddItem(l, adds[0].0, adds[0].1, []).ledger;
      AddAllSums(next, adds[1..], item);
    }
  }
}
