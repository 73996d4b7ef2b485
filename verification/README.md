# State-pattern examples: traffic signal and vending machine

This project models the two State-pattern examples of the repository as Dafny
state machines and proves their behaviour.

- **Traffic signal** (`traffic.ts`): a context holding one of the states red,
  yellow or green. It has a single operation, `changeSignal`. The handler of
  the current state logs its own line and installs its successor: red goes to
  yellow, yellow to green, green to yellow. So no call of `changeSignal`
  enters red.
- **Vending machine** (`vending_machine.ts`): a context holding a balance, a
  read-only product catalog (id to name and price), an optional selected
  product, and one of the states no-money, money-inserted or
  product-selected. It has three operations: `insertMoney`, `selectProduct`
  and `dispenseProduct`. Each either updates the fields and switches state, or
  logs a refusal and changes nothing.

Each handler object becomes a pure function. It takes the context before the
call and returns the context after it, together with a tag for the line the
handler logs. The handler instances and their back-references to the context
are replaced by a state tag (`Traffic.Signal`, `Vending.State`).

Files:

- `traffic.dfy`: module `Traffic`, the signal context and `ChangeSignal`.
- `traffic_lemmas.dfy`: module `TrafficLemmas`, the closed form of iterated
  calls and the log of a fresh signal.
- `vending.dfy`: module `Vending`, the machine context, the three handler
  operations, and a run of successive calls.
- `vending_lemmas.dfy`: module `VendingLemmas`, the invariants, refusals and
  purchase scenarios.

Two facts about the code worth stating up front; the model follows the code:

- Deposits are not checked for sign (`vending_machine.ts:15`, `37`, `65`), so
  the balance can go below zero. `VendingLemmas.NegativeDepositOverdraws`
  shows a run that ends with a negative balance.
- The usage example at `traffic.ts:89` says the fifth call logs the red line.
  The code logs the green one, and `TrafficLemmas.UsageExampleLog` states this.

## Model

| member | source | states |
|---|---|---|
| Traffic.Init | traffic.ts:49-56 | a freshly constructed signal is red |
| Traffic.SetState | traffic.ts:59-61 | the new state is the argument, whatever the state was before; nothing else is kept |
| Traffic.ChangeSignal | traffic.ts:13-38 | one call logs the line of the state being left, never lands on red, and lands on green exactly when it leaves yellow |
| Traffic.Run | traffic.ts:77-79 | n calls log exactly n lines, and after at least one call the state is not red |
| TrafficLemmas.RunClosedForm | traffic.ts:13-38 | from a yellow start, after n >= 1 calls the state is green for odd n and yellow for even n; from a red or green start it is yellow for odd n and green for even n |
| TrafficLemmas.FreshSignalClosedForm | traffic.ts:13-56 | from a fresh signal, after n calls the state is red for n = 0, yellow for odd n and green for even n >= 2, so never red after the first call |
| TrafficLemmas.RunLog | traffic.ts:13-38 | the k-th logged line is the line of the state reached after k calls |
| TrafficLemmas.FreshSignalLog | traffic.ts:13-56 | the log of a fresh signal is red, then yellow and green alternating; red is logged only by the first call |
| TrafficLemmas.UsageExampleLog | traffic.ts:84-89 | five calls on a fresh signal log red, yellow, green, yellow, green; the fifth line is not red |
| Vending.InsertMoney | vending_machine.ts:13-66 | in every state the balance grows by exactly the amount, whatever its sign; selection and catalog are untouched; no-money moves to money-inserted, the other states stay |
| Vending.SelectProduct | vending_machine.ts:20-71 | the call moves to product-selected exactly when it is made in money-inserted on a catalog id whose price the balance covers; then the selection is that catalog entry and the balance is unchanged; every other call changes nothing and is refused with "insert money first" in no-money, "select a valid product or insert more money" in money-inserted, "already selected a product" in product-selected |
| Vending.DispenseProduct | vending_machine.ts:25-79 | in product-selected with a selection, the balance drops by exactly the selected price, the selection is cleared and the state is no-money; in the other states it changes nothing and is refused with "insert money first" in no-money and "select a product first" in money-inserted; with no selection it throws and changes nothing |
| Vending.Apply | vending_machine.ts:2-6 | no call changes the catalog; a refused or throwing call changes nothing |
| Vending.Run | vending_machine.ts:74-96 | a run logs at most one line per call and leaves the catalog as it was; it stops early only at a dispense in product-selected with no selection, which throws (line 75) and logs nothing |
| VendingLemmas.ThrowEndsRun | vending_machine.ts:74-79 | a dispense in product-selected with no selection logs nothing, leaves the machine as it was and ends the run |
| VendingLemmas.ApplyKeepsSelectionMatchesState | vending_machine.ts:41-79 | every call keeps "a product is selected iff the state is product-selected", so dispensing never throws |
| VendingLemmas.RunKeepsSelectionMatchesState | vending_machine.ts:41-79 | the selection invariant holds after any run that starts in it, and no call in the run throws, so every call logs one line |
| VendingLemmas.ApplyKeepsSolvent | vending_machine.ts:41-79 | with a non-negative deposit, every call keeps the balance non-negative and a selected product a catalog entry whose price the balance covers |
| VendingLemmas.RunKeepsSolvent | vending_machine.ts:41-79 | solvency holds after any run whose deposits are all non-negative |
| VendingLemmas.DispenseNeverOverdraws | vending_machine.ts:74-79 | in a solvent machine in product-selected, a dispense succeeds and leaves a non-negative balance |
| VendingLemmas.NegativeDepositOverdraws | vending_machine.ts:63-79 | a negative deposit after a selection, then a dispense, leaves a negative balance: solvency needs non-negative deposits |
| VendingLemmas.BalanceFallsOnlyOnDispense | vending_machine.ts:15-76 | with a non-negative deposit, the balance falls only on a dispense in product-selected, and by exactly the selected price |
| VendingLemmas.RejectionCases | vending_machine.ts:20-71 | a call is refused exactly when it selects outside money-inserted or selects an absent or unaffordable product, or when it dispenses outside product-selected |
| VendingLemmas.RejectionIsIdempotent | vending_machine.ts:20-71 | a refused call leaves the machine unchanged, so repeating it gives the same outcome |
| VendingLemmas.RepeatedRejection | vending_machine.ts:20-71 | repeating a refused call any number of times leaves the machine unchanged and logs that refusal each time |
| VendingLemmas.PurchaseScenario | vending_machine.ts:13-79 | on a catalog with Coke at 1.50 under id 1, an idle machine with balance 0 that gets insert 2, select 1, dispense passes through money-inserted (2) and product-selected (Coke), and ends idle with 0.50 and no selection |
| VendingLemmas.SelectBeforeInsertScenario | vending_machine.ts:20-22 | selecting on an idle machine with balance 0 is refused with "insert money first" and changes nothing |

## Left out

- Console output: each logged line is a tag (`Traffic.Message`, `Vending.Reply`) carrying the amount or product name. The text and the `$` formatting are not modelled.
- Floating-point money: amounts and prices are exact reals. IEEE rounding of JavaScript numbers (for example 2 - 1.5) is not modelled.
- Product ids are integers. JavaScript object keys are strings, so looking up a non-integer number or an inherited property is not modelled. Catalog entries are objects and always truthy, so the `product &&` test reads as "the id is in the catalog".
- Handler objects, their back-references to the context, the pre-built handler fields and the getters (`traffic.ts:43-74`, `vending_machine.ts:10`, `vending_machine.ts:85-87`): replaced by the state tag.
- The vending machine's constructor, `setState`, its forwarding methods and the rest of its catalog come after `vending_machine.ts:96` and are not part of this model. There is no initial machine. The properties hold over any machine that satisfies the stated invariants. `Vending.Apply` stands in for the forwarding to the current state's handler, and the scenarios take "idle, balance 0, no selection" as their starting point.
- The catalog is a public field, so outside code could replace it. Only the three operations are modelled, and none of them writes it.
- The usage driver at `traffic.ts:84-89` is top-level code. Only its output is stated, as `TrafficLemmas.UsageExampleLog`.
- The TypeError thrown by a dispense with no selection is modelled only as the end of the run, with the machine unchanged; the error value, and a caller that catches it and carries on, are not modelled.
