# Inventory stock ledger

A Dafny model of the stock ledger of `inventory_system.py`: the map from item
name to integer quantity (`stock_data`) and the rules that change or query it —
`addItem`, `removeItem`, `getQty`, `checkLowItems`, and what `loadData` does to
the ledger when reading the inventory file succeeds, finds no file, or finds
text that is not JSON (the two failures it catches).

The module-global dict becomes an explicit value, `Stock.Ledger`: a
`map<string, int>` plus the sequence of its keys in Python's dict iteration
order. `Stock.Valid` is the dict's own invariant: every key is listed once, and
the listed keys are exactly the map's keys. `Stock.Put` and `Stock.Delete` give
`d[k] = v` and `del d[k]` their dict semantics: an updated key keeps its
position, a new key goes last, and a deleted key leaves the order. Each
operation takes a ledger and returns the ledger it leaves behind.

Files:

- `seqs.dfy` (module `Seqs`): distinctness, first-occurrence index, the
  order-preserving sub-list relation `InOrder`, and the order-preserving
  `Filter` behind both `del` and the low-stock loop.
- `stock.dfy` (module `Stock`): the ledger value, its invariant, the intended
  "every stored quantity is positive" invariant `AllPositive`, and the two
  dict primitives.
- `inventory.dfy` (module `Inventory`): the inventory operations and the
  properties they keep.
- `demo.dfy` (module `Demo`): the run of `main` and two concrete cases.

`addItem`'s `logs` list is passed in and returned. A call without a log is the
same call on an empty list, with the result thrown away. A log entry records
the item and the quantity. `loadData` is modelled as a function of the outcome
of reading the file: `Parsed(contents)`, `FileNotFound` or `InvalidJson`.

## Model

| member | source | states |
|---|---|---|
| Inventory.GetQty | inventory_system.py:49-63 | the stored quantity for a known item and 0 for an unknown one; under the positive-quantity invariant, a positive answer means exactly that the item is known |
| Inventory.AddItem | inventory_system.py:19-30 | an empty name changes neither ledger nor log; otherwise the key set gains the item, the item's quantity becomes old-or-0 plus `qty`, every other item's quantity is unchanged, an existing key keeps its place and a new key goes last, and exactly one entry `Added(item, qty)` is appended after the untouched earlier log; a positive ledger stays positive exactly when the new quantity is above 0, so always when `qty > 0` |
| Inventory.RemoveItem | inventory_system.py:33-46 | an unknown item leaves the ledger unchanged; a known item whose quantity minus `qty` is at most 0 is deleted from the map and the key order; otherwise its quantity becomes the difference and the order is unchanged; no other item's quantity changes, the surviving keys keep their relative order, the item is never left at or below 0, and the positive-quantity invariant is preserved |
| Inventory.LowItems | inventory_system.py:101-115 | the reported items are exactly the keys whose quantity is strictly below the threshold, with no duplicates, in the ledger's key order; an empty ledger reports nothing |
| Inventory.CheckLowItems | inventory_system.py:101-115 | the loop over the keys in order returns the same list as `LowItems`, hence exactly the low keys, once each, in key order |
| Inventory.LoadData | inventory_system.py:66-80 | a successful parse replaces the whole ledger by the parsed contents, so the old contents play no part; a missing file or invalid JSON leaves the prior ledger as it was, not cleared |
| Inventory.AddAllSums | inventory_system.py:29 | after a run of `addItem` calls, a non-empty item holds its earlier quantity plus the sum of every quantity added to it |
| Demo.MainScenario | inventory_system.py:118-126 | the demonstration run ends with 7 apples, removing the unstocked orange changes nothing, and the low-stock report at the default threshold 5 is exactly `["banana"]` |
| Demo.LowOfApplesAndBananas | inventory_system.py:101-115 | on a ledger of 7 apples then 2 bananas, the report at threshold 5 is exactly `["banana"]` |
| Demo.NegativeAddBreaksPositivity | inventory_system.py:29 | adding -10 to a ledger holding 10 apples leaves apple stored with quantity 0 and still in the key order, breaking the positive-quantity invariant, while removing 10 apples keeps it |
| Stock.Empty | inventory_system.py:7 | the empty dict the process starts with: no keys, an empty iteration order, and the dict invariant holds |
| Stock.Put | inventory_system.py:29 | dict assignment `d[k] = v`: the map gets `v` at `k`, an existing key keeps its place in the iteration order, a new key goes last, and the dict invariant is kept |
| Stock.Delete | inventory_system.py:44 | `del d[k]` on a present key: the key leaves the map and the iteration order, the other keys keep their relative order, and the dict invariant is kept |

## Left out

- File I/O and JSON in `loadData` and `saveData` (inventory_system.py:75-76, 83-91): opening files and JSON decoding and encoding are library calls. `loadData` is modelled on the outcome of the read. `saveData` is not modelled, and neither is a save/load round trip.
- Inventory.LoadData: only the two failures the source catches are outcomes. Other read failures propagate to the caller as exceptions with the ledger untouched: `PermissionError` or `IsADirectoryError` from `open` (inventory_system.py:75), and `UnicodeDecodeError` on a file that is not UTF-8 (inventory_system.py:76, not a `JSONDecodeError`). Exceptions are not modelled.
- Inventory.LoadData: a decoded file whose top level is not an object, or whose values are not integers, would still be installed by the source; the model's `Parsed` outcome only carries a string-to-integer ledger.
- Inventory.RemoveItem: `qty` is an integer. The source does no type check and only catches `KeyError` (inventory_system.py:41-45). A float `qty` is subtracted as such (`removeItem("apple", 2.5)` stores 7.5). On a stocked item, a non-numeric `qty` raises `TypeError` to the caller; on an unstocked item the lookup's `KeyError` comes first and is caught (inventory_system.py:42, 45). An unhashable item raises `TypeError` to the caller. Neither dynamic typing nor exceptions are modelled.
- Inventory.GetQty: the item is a string. An unhashable item raises `TypeError` from the lookup at inventory_system.py:60, which only `KeyError` is caught around. Exceptions are not modelled.
- The `isinstance` checks that raise `TypeError` in `addItem` (inventory_system.py:22-25): Dafny's static types rule out the arguments they reject.
- The timestamp from `datetime.now()` in log entries (inventory_system.py:30): it comes from the clock. An entry carries only the item and the quantity.
- The printed diagnostics of `removeItem`, `getQty` and `loadData`, and `printData` (inventory_system.py:46, 62, 78, 80, 94-98): these are console output only.
- `main` (inventory_system.py:118-135), except its stock operations, which `Demo.MainScenario` replays. Its save, load and print steps are I/O.
- The default arguments of `addItem` (`item="default"`, `qty=0`): a call with them is `AddItem(l, "default", 0, [])`.
- The module-global mutability of `stock_data`: the ledger is passed in and returned.
