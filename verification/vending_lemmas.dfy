/**
  Properties of the vending machine over arbitrary contexts and call
  sequences: the selection invariant, solvency under non-negative deposits,
  the read-only catalog, and refusals that change nothing however often they
  are repeated.
 */
module VendingLemmas {
  import opened Vending

  /** A product is selected exactly while the machine is in product-selected. */
  predicate SelectionMatchesState(m: Machine)
  {
    m.selected.Some? <==> m.state == ProductSelected
  }

  /**
    The selection invariant, plus: the balance is non-negative, and a selected
    product is a catalog entry the balance covers.
   */
  predicate Solvent(m: Machine)
  {
    && SelectionMatchesState(m)
    && m.money >= 0.0
    && (m.selected.Some? ==> m.selected.value.price <= m.money && m.selected.value in m.products.Values)
  }

  predicate NonNegativeDeposit(op: Op)
  {
    op.Insert? ==> op.amount >= 0.0
  }

  /** Every operation keeps the selection invariant, and never hits the missing-selection throw. */
  lemma ApplyKeepsSelectionMatchesState(m: Machine, op: Op)
    requires SelectionMatchesState(m)
    ensures SelectionMatchesState(Apply(m, op).machine)
    ensures Apply(m, op).reply != NoSelection
  {
  }

  /**
    The selection invariant holds after any sequence of calls that starts in
    it, and no call throws, so every call is made and logs its line.
   */
  lemma {:induction false} RunKeepsSelectionMatchesState(m: Machine, ops: seq<Op>)
    requires SelectionMatchesState(m)
    ensures SelectionMatchesState(Run(m, ops).0)
    ensures |Run(m, ops).1| == |ops|
    decreases |ops|
  {
    if ops != [] {
      ApplyKeepsSelectionMatchesState(m, ops[0]);
      RunKeepsSelectionMatchesState(Apply(m, ops[0]).machine, ops[1..]);
    }
  }

  /**
    A dispense with no selection throws: nothing is logged, the machine is
    left as it was, and none of the later calls is made.
   */
  lemma ThrowEndsRun(m: Machine, ops: seq<Op>)
    requires m.state == ProductSelected && m.selected == None
    requires |ops| > 0 && ops[0] == Dispense
    ensures Run(m, ops) == (m, [])
  {
  }

  /**
    With a non-negative deposit, every operation keeps the machine solvent:
    selecting checks the price against the balance, deposits only raise it,
    and dispensing charges at most what is there.
   */
  lemma ApplyKeepsSolvent(m: Machine, op: Op)
    requires Solvent(m) && NonNegativeDeposit(op)
    ensures Solvent(Apply(m, op).machine)
  {
  }

  /** Solvency holds after any sequence of calls whose deposits are all non-negative. */
  lemma {:induction false} RunKeepsSolvent(m: Machine, ops: seq<Op>)
    requires Solvent(m)
    requires forall i :: 0 <= i < |ops| ==> NonNegativeDeposit(ops[i])
    ensures Solvent(Run(m, ops).0)
    decreases |ops|
  {
    if ops != [] {
      ApplyKeepsSolvent(m, ops[0]);
      RunKeepsSolvent(Apply(m, ops[0]).machine, ops[1..]);
    }
  }

  /** In a solvent machine, a dispense succeeds and leaves a non-negative balance. */
  lemma DispenseNeverOverdraws(m: Machine)
    requires Solvent(m) && m.state == ProductSelected
    ensures DispenseProduct(m).reply.Dispensing?
    ensures DispenseProduct(m).machine.money >= 0.0
  {
  }

  /**
    Deposits are not checked for sign, so the non-negative-deposit premise of
    solvency cannot be dropped: a negative deposit after a selection lets the
    dispense drive the balance below zero.
   */
  lemma NegativeDepositOverdraws()
    ensures var coke := Product("Coke", 1.5);
            var m := Machine(ProductSelected, 1.5, map[1 := coke], Some(coke));
            && Solvent(m)
            && Run(m, [Insert(-1.0), Dispense]).0.money == -1.0
  {
    var coke := Product("Coke", 1.5);
    assert coke == map[1 := coke][1];
  }

  /**
    The balance only falls on a successful dispense, and then by exactly the
    selected product's price, as long as deposits are non-negative.
   */
  lemma BalanceFallsOnlyOnDispense(m: Machine, op: Op)
    requires NonNegativeDeposit(op)
    ensures Apply(m, op).machine.money < m.money ==>
              && op.Dispense?
              && m.state == ProductSelected
              && m.selected.Some?
              && Apply(m, op).machine.money == m.money - m.selected.value.price
  {
  }

  /** The calls that are refused: which state refuses which operation. */
  lemma RejectionCases(m: Machine, op: Op)
    ensures IsRejection(Apply(m, op).reply) <==>
              || (op.Select? && !(m.state == MoneyInserted && CanBuy(m, op.id)))
              || (op.Dispense? && m.state != ProductSelected)
  {
  }

  /** A refused call changes nothing, so repeating it once more gives the same outcome. */
  lemma RejectionIsIdempotent(m: Machine, op: Op)
    requires IsRejection(Apply(m, op).reply)
    ensures Apply(m, op).machine == m
    ensures Apply(Apply(m, op).machine, op) == Apply(m, op)
  {
  }

  /**
    Repeating a refused call any number of times leaves the machine exactly as
    it was and logs the same refusal each time.
   */
  lemma {:induction false} RepeatedRejection(m: Machine, op: Op, ops: seq<Op>)
    requires IsRejection(Apply(m, op).reply)
    requires forall i :: 0 <= i < |ops| ==> ops[i] == op
    ensures Run(m, ops).0 == m
    ensures forall i :: 0 <= i < |ops| ==> Run(m, ops).1[i] == Apply(m, op).reply
    decreases |ops|
  {
    if ops != [] {
      RepeatedRejection(m, op, ops[1..]);
    }
  }

  /**
    A purchase from an idle machine whose catalog lists a 1.50 Coke under id 1:
    inserting 2, selecting 1 and dispensing leaves 0.50 and an idle machine.
   */
  lemma PurchaseScenario(products: map<int, Product>)
    requires 1 in products && products[1] == Product("Coke", 1.5)
    ensures var m0 := Machine(NoMoney, 0.0, products, None);
            var m1 := Apply(m0, Insert(2.0)).machine;
            var m2 := Apply(m1, Select(1)).machine;
            && m1 == Machine(MoneyInserted, 2.0, products, None)
            && m2 == Machine(ProductSelected, 2.0, products, Some(Product("Coke", 1.5)))
            && Run(m0, [Insert(2.0), Select(1), Dispense])
               == (Machine(NoMoney, 0.5, products, None), [Inserted(2.0), Selected("Coke"), Dispensing("Coke")])
  {
    var coke := Product("Coke", 1.5);
    var m0 := Machine(NoMoney, 0.0, products, None);
    var m1 := Machine(MoneyInserted, 2.0, products, None);
    var m2 := Machine(ProductSelected, 2.0, products, Some(coke));
    var m3 := Machine(NoMoney, 0.5, products, None);
    assert Apply(m0, Insert(2.0)) == Step(m1, Inserted(2.0));
    assert Apply(m1, Select(1)) == Step(m2, Selected("Coke"));
    assert Apply(m2, Dispense) == Step(m3, Dispensing("Coke"));
    // unfold the run call by call, from the last one back
    var ops := [Insert(2.0), Select(1), Dispense];
    assert ops[1..] == [Select(1), Dispense] && ops[1..][1..] == [Dispense] && [Dispense][1..] == [];
    assert Run(m2, [Dispense]).1 == [Dispensing("Coke")];
    assert Run(m1, ops[1..]).1 == [Selected("Coke"), Dispensing("Coke")];
    assert Run(m0, ops).1 == [Inserted(2.0), Selected("Coke"), Dispensing("Coke")];
  }

  /** Selecting before any money is inserted is refused and changes nothing. */
  lemma SelectBeforeInsertScenario(products: map<int, Product>)
    ensures var m0 := Machine(NoMoney, 0.0, products, None);
            Apply(m0, Select(1)) == Step(m0, InsertMoneyFirst)
  {
  }
}
