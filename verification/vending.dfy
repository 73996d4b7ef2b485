/**
  The vending machine of the State-pattern example: a context holding a
  balance, a read-only product catalog and an optional selected product, and
  three operations whose effect is decided by the handler of the current
  state.

  Each handler method becomes a pure function from the context before the
  call to the context after it, paired with the line the handler logs. The
  handler objects and their back-references are replaced by the `State` tag.
  Amounts and prices are exact `real`s.
 */
module Vending {

  datatype Option<T> = None | Some(value: T)

  /** A catalog entry. */
  datatype Product = Product(name: string, price: real)

  /** The three concrete states. */
  datatype State = NoMoney | MoneyInserted | ProductSelected

  /** The context: current state, balance, catalog and selection. */
  datatype Machine = Machine(
    state: State,
    money: real,
    products: map<int, Product>,
    selected: Option<Product>)

  /** The line a handler logs, or `NoSelection` for a dispense that throws. */
  datatype Reply =
    | Inserted(amount: real)
    | Selected(name: string)
    | Dispensing(name: string)
    | InsertMoneyFirst
    | SelectValidOrInsertMore
    | SelectProductFirst
    | AlreadySelected
      /** Dispensing with no selection: reading the name of the missing
          product throws before anything is changed. */
    | NoSelection

  /** The four refusals a handler reports instead of acting. */
  predicate IsRejection(r: Reply)
  {
    r.InsertMoneyFirst? || r.SelectValidOrInsertMore? || r.SelectProductFirst? || r.AlreadySelected?
  }

  /** The outcome of one call: the new context and the line that was logged. */
  datatype Step = Step(machine: Machine, reply: Reply)

  /**
    `insertMoney`: every state adds the amount to the balance, whatever its
    sign; only the no-money state moves on, to money-inserted.
   */
  function InsertMoney(m: Machine, amount: real): (r: Step)
    ensures r.machine.money == m.money + amount
    ensures r.machine.selected == m.selected && r.machine.products == m.products
    ensures m.state == NoMoney ==> r.machine.state == MoneyInserted
    ensures m.state != NoMoney ==> r.machine.state == m.state
    ensures r.reply == Inserted(amount)
  {
    match m.state
    case NoMoney =>
      Step(m.(money := m.money + amount, state := MoneyInserted), Inserted(amount))
    case MoneyInserted =>
      Step(m.(money := m.money + amount), Inserted(amount))
    case ProductSelected =>
      Step(m.(money := m.money + amount), Inserted(amount))
  }

  /** The product `id` names, when it is in the catalog and affordable. */
  predicate CanBuy(m: Machine, id: int)
  {
    id in m.products && m.products[id].price <= m.money
  }

  /**
    `selectProduct`: only the money-inserted state acts, and only on a
    catalog product the balance covers; it then records that product and moves
    to product-selected without touching the balance. Every other call is
    refused and changes nothing.
   */
  function SelectProduct(m: Machine, id: int): (r: Step)
    ensures r.machine.state == ProductSelected && m.state != ProductSelected
            <==> m.state == MoneyInserted && CanBuy(m, id)
    ensures m.state == MoneyInserted && CanBuy(m, id) ==>
              && r.machine == m.(state := ProductSelected, selected := Some(m.products[id]))
              && r.reply == Selected(m.products[id].name)
    ensures !(m.state == MoneyInserted && CanBuy(m, id)) ==> r.machine == m && IsRejection(r.reply)
    ensures m.state == NoMoney ==> r.reply == InsertMoneyFirst
    ensures m.state == MoneyInserted && !CanBuy(m, id) ==> r.reply == SelectValidOrInsertMore
    ensures m.state == ProductSelected ==> r.reply == AlreadySelected
  {
    match m.state
    case NoMoney => Step(m, InsertMoneyFirst)
    case MoneyInserted =>
      if id in m.products && m.products[id].price <= m.money then
        var product := m.products[id];
        Step(m.(selected := Some(product), state := ProductSelected), Selected(product.name))
      else
        Step(m, SelectValidOrInsertMore)
    case ProductSelected => Step(m, AlreadySelected)
  }

  /**
    `dispenseProduct`: only the product-selected state acts; it charges the
    selected product's price, clears the selection and returns to no-money.
    Every other call changes nothing.
   */
  function DispenseProduct(m: Machine): (r: Step)
    ensures m.state == ProductSelected && m.selected.Some? ==>
              && r.machine.money == m.money - m.selected.value.price
              && r.machine.selected == None
              && r.machine.state == NoMoney
              && r.machine.products == m.products
              && r.reply == Dispensing(m.selected.value.name)
    ensures m.state != ProductSelected ==> r.machine == m && IsRejection(r.reply)
    ensures m.state == NoMoney ==> r.reply == InsertMoneyFirst
    ensures m.state == MoneyInserted ==> r.reply == SelectProductFirst
    ensures m.state == ProductSelected && m.selected.None? ==> r == Step(m, NoSelection)
  {
    match m.state
    case NoMoney => Step(m, InsertMoneyFirst)
    case MoneyInserted => Step(m, SelectProductFirst)
    case ProductSelected =>
      match m.selected
      case None => Step(m, NoSelection)
      case Some(product) =>
        Step(m.(money := m.money - product.price, selected := None, state := NoMoney),
             Dispensing(product.name))
  }

  /** A call on the context, forwarded to the handler of the current state. */
  datatype Op = Insert(amount: real) | Select(id: int) | Dispense

  function Apply(m: Machine, op: Op): (r: Step)
    ensures r.machine.products == m.products
    ensures IsRejection(r.reply) || r.reply == NoSelection ==> r.machine == m
  {
    match op
    case Insert(amount) => InsertMoney(m, amount)
    case Select(id) => SelectProduct(m, id)
    case Dispense => DispenseProduct(m)
  }

  /**
    Successive calls: the final context and the lines logged, in call order.
    A call that throws logs nothing and ends the run, since the error reaches
    the caller before any later call is made.
   */
  function Run(m: Machine, ops: seq<Op>): (r: (Machine, seq<Reply>))
    ensures |r.1| <= |ops|
    ensures NoSelection !in r.1
    ensures |r.1| < |ops| ==>
              && ops[|r.1|] == Dispense
              && r.0.state == ProductSelected
              && r.0.selected == None
    ensures r.0.products == m.products
    decreases |ops|
  {
    if ops == [] then (m, [])
    else
      var s := Apply(m, ops[0]);
      if s.reply == NoSelection then (m, [])
      else
        var rest := Run(s.machine, ops[1..]);
        (rest.0, [s.reply] + rest.1)
  }
}
