/**
 * The balances a group page shows. A record keyed by user id is created,
 * every member is set to 0, then each expense credits its payer with the
 * full amount and debits every member (the payer included) an equal share
 * of `amount / members.length`; the splits stored with an expense are not
 * consulted. Each settlement then credits its sender and debits its
 * receiver, each side only if its id is already a key. A row is shown for
 * each key that belongs to a member, labelled by the sign of its balance.
 */
module GroupDetails {
  import opened Wrappers
  import opened Schema
  import opened Sums
  import opened JsNumber


  /** An expense as the fold reads it: who paid and `Number(exp.amount)` */
  datatype Expense = Expense(paidBy: UserId, amount: real)

  /** A recorded repayment from `fromUserId` to `toUserId` */
  datatype Settlement = Settlement(fromUserId: UserId, toUserId: UserId, amount: real)

  /** The `balances` record: user id to net amount (positive: is owed money) */
  type Balances = map<UserId, real>

  /** `!balances[id]`: the key is missing or its value is 0 */
  predicate Falsy(b: Balances, id: UserId) {
    id !in b || b[id] == 0.0
  }

  /** `if (!balances[id]) balances[id] = 0` */
  function EnsureKey(b: Balances, id: UserId): (r: Balances)
    ensures r.Keys == b.Keys + {id}
    ensures r[id] == (if Falsy(b, id) then 0.0 else b[id])
    ensures forall k :: k in b && k != id ==> r[k] == b[k]
  {
    if Falsy(b, id) then b[id := 0.0] else b
  }

  /** The balance of `id`, reading a missing key as 0 */
  function Get0(b: Balances, id: UserId): real {
    if id in b then b[id] else 0.0
  }

  /** The user ids listed in `ids` */
  function Ids(ids: seq<UserId>): set<UserId> {
    set k | k in ids
  }

  /** `group.members.forEach(m => { balances[m.userId] = 0; })` on an empty record */
  function InitialBalances(members: seq<UserId>): (r: Balances)
    ensures r.Keys == Ids(members)
    ensures forall k :: k in r ==> r[k] == 0.0
  {
    if members == [] then map[]
    else InitialBalances(members[..|members| - 1])[members[|members| - 1] := 0.0]
  }

  /** The per-member share `amount / group.members.length`; with no members it is never applied */
  function SplitAmount(amount: real, count: nat): real {
    if count == 0 then 0.0 else amount / count as real
  }

  /** How many times `u` is listed in `ids` */
  function Count(ids: seq<UserId>, u: UserId): nat {
    if ids == [] then 0
    else Count(ids[..|ids| - 1], u) + (if ids[|ids| - 1] == u then 1 else 0)
  }

  /** The inner `group.members.forEach`: each listed member is debited `share`, once per listing */
  function DebitMembers(b: Balances, members: seq<UserId>, share: real): Balances
  {
    if members == [] then b
    else
      var ensured := EnsureKey(DebitMembers(b, members[..|members| - 1], share), members[|members| - 1]);
      ensured[members[|members| - 1] := ensured[members[|members| - 1]] - share]
  }

  /** The member loop adds every member as a key and no one else. */
  lemma {:induction false} DebitMembersKeys(b: Balances, members: seq<UserId>, share: real)
    ensures DebitMembers(b, members, share).Keys == b.Keys + Ids(members)
    decreases |members|
  {
    if members != [] {
      var prev, m := members[..|members| - 1], members[|members| - 1];
      DebitMembersKeys(b, prev, share);
      assert members == prev + [m];
      assert Ids(members) == Ids(prev) + {m};
    }
  }

  /** One pass of `expenses.forEach`: credit the payer, debit every member an equal share */
  function ExpenseStep(b: Balances, members: seq<UserId>, e: Expense): Balances
  {
    var ensured := EnsureKey(b, e.paidBy);
    var credited := ensured[e.paidBy := ensured[e.paidBy] + e.amount];
    DebitMembers(credited, members, SplitAmount(e.amount, |members|))
  }

  /** An expense adds its payer and every member as keys, and no one else. */
  lemma ExpenseStepKeys(b: Balances, members: seq<UserId>, e: Expense)
    ensures ExpenseStep(b, members, e).Keys == b.Keys + {e.paidBy} + Ids(members)
  {
    var ensured := EnsureKey(b, e.paidBy);
    DebitMembersKeys(ensured[e.paidBy := ensured[e.paidBy] + e.amount], members, SplitAmount(e.amount, |members|));
  }

  /** One pass of `settlements.forEach`: each side moves only if it is already a key */
  function SettlementStep(b: Balances, s: Settlement): (r: Balances)
    ensures r.Keys == b.Keys
  {
    var paid := if s.fromUserId in b then b[s.fromUserId := b[s.fromUserId] + s.amount] else b;
    if s.toUserId in paid then paid[s.toUserId := paid[s.toUserId] - s.amount] else paid
  }

  /** The member loop takes `share` from `u` once for each time `u` is listed. */
  lemma {:induction false} DebitMembersAt(b: Balances, members: seq<UserId>, share: real, u: UserId)
    ensures Get0(DebitMembers(b, members, share), u) == Get0(b, u) - Times(Count(members, u), share)
    decreases |members|
  {
    if members != [] {
      DebitMembersAt(b, members[..|members| - 1], share, u);
    }
  }

  /** An expense adds its amount to the payer and takes one share per listing from each member. */
  lemma ExpenseStepAt(b: Balances, members: seq<UserId>, e: Expense, u: UserId)
    ensures Get0(ExpenseStep(b, members, e), u)
      == Get0(b, u) + (if u == e.paidBy then e.amount else 0.0)
         - Times(Count(members, u), SplitAmount(e.amount, |members|))
  {
    var ensured := EnsureKey(b, e.paidBy);
    var credited := ensured[e.paidBy := ensured[e.paidBy] + e.amount];
    DebitMembersAt(credited, members, SplitAmount(e.amount, |members|), u);
  }

  /** A settlement adds to the sender and takes from the receiver, among existing keys only. */
  lemma SettlementStepAt(b: Balances, s: Settlement, u: UserId)
    requires u in b
    ensures SettlementStep(b, s)[u]
      == b[u] + (if u == s.fromUserId then s.amount else 0.0) - (if u == s.toUserId then s.amount else 0.0)
  {
  }

  function ExpenseStepper(members: seq<UserId>): (Balances, Expense) -> Balances {
    (b, e) => ExpenseStep(b, members, e)
  }

  /** The record after the member and expense loops */
  function AfterExpenses(members: seq<UserId>, expenses: seq<Expense>): Balances {
    FoldLeft(ExpenseStepper(members), InitialBalances(members), expenses)
  }

  /** The record after all three loops */
  function BalancesOf(members: seq<UserId>, expenses: seq<Expense>, settlements: seq<Settlement>): (r: Balances)
    ensures r.Keys == Ids(members) + Payers(expenses)
  {
    AfterExpensesKeys(members, expenses);
    SettlementsKeepKeys(AfterExpenses(members, expenses), settlements);
    FoldLeft(SettlementStep, AfterExpenses(members, expenses), settlements)
  }

  /** The payers of a list of expenses */
  function Payers(expenses: seq<Expense>): set<UserId> {
    set e | e in expenses :: e.paidBy
  }

  /**
   * The three `forEach` loops that build `balances`, run on a local record;
   * the body of each pass is one of the methods below.
   */
  method ComputeBalances(members: seq<UserId>, expenses: seq<Expense>, settlements: seq<Settlement>)
    returns (balances: Balances)
    ensures balances == BalancesOf(members, expenses, settlements)
  {
    balances := map[];
    for i := 0 to |members|
      invariant balances == InitialBalances(members[..i])
    {
      assert members[..i + 1][..i] == members[..i];
      balances := balances[members[i] := 0.0];
    }
    assert members[..|members|] == members;

    for j := 0 to |expenses|
      invariant balances == FoldLeft(ExpenseStepper(members), InitialBalances(members), expenses[..j])
    {
      balances := ApplyExpense(balances, members, expenses[j]);
      FoldLeftSnoc(ExpenseStepper(members), InitialBalances(members), expenses[..j], expenses[j]);
      assert expenses[..j + 1] == expenses[..j] + [expenses[j]];
    }
    assert expenses[..|expenses|] == expenses;

    for j := 0 to |settlements|
      invariant balances == FoldLeft(SettlementStep, AfterExpenses(members, expenses), settlements[..j])
    {
      balances := ApplySettlement(balances, settlements[j]);
      FoldLeftSnoc(SettlementStep, AfterExpenses(members, expenses), settlements[..j], settlements[j]);
      assert settlements[..j + 1] == settlements[..j] + [settlements[j]];
    }
    assert settlements[..|settlements|] == settlements;
  }

  /** One pass of the expense loop: credit the payer, then the inner member loop */
  method ApplyExpense(b: Balances, members: seq<UserId>, exp: Expense) returns (balances: Balances)
    ensures balances == ExpenseStep(b, members, exp)
  {
    var amount := exp.amount;
    balances := b;
    if Falsy(balances, exp.paidBy) {
      balances := balances[exp.paidBy := 0.0];
    }
    balances := balances[exp.paidBy := balances[exp.paidBy] + amount];
    var splitAmount := SplitAmount(amount, |members|);
    balances := ChargeMembers(balances, members, splitAmount);
  }

  /** The inner `group.members.forEach`, debiting `splitAmount` from each member */
  method ChargeMembers(b: Balances, members: seq<UserId>, splitAmount: real) returns (balances: Balances)
    ensures balances == DebitMembers(b, members, splitAmount)
  {
    balances := b;
    for k := 0 to |members|
      invariant balances == DebitMembers(b, members[..k], splitAmount)
    {
      var m := members[k];
      ghost var ensured := EnsureKey(balances, m);
      if Falsy(balances, m) {
        balances := balances[m := 0.0];
      }
      assert balances == ensured;
      balances := balances[m := balances[m] - splitAmount];
      assert members[..k + 1][..k] == members[..k] && members[..k + 1][k] == m;
    }
    assert members[..|members|] == members;
  }

  /** One pass of the settlement loop */
  method ApplySettlement(b: Balances, s: Settlement) returns (balances: Balances)
    ensures balances == SettlementStep(b, s)
  {
    var amount := s.amount;
    balances := b;
    if s.fromUserId in balances {
      balances := balances[s.fromUserId := balances[s.fromUserId] + amount];
    }
    if s.toUserId in balances {
      balances := balances[s.toUserId := balances[s.toUserId] - amount];
    }
  }

  // ---------------------------------------------------------------------
  // Keys and starting values

  /** The keys after the expense loop: every member and every payer. */
  lemma {:induction false} AfterExpensesKeys(members: seq<UserId>, expenses: seq<Expense>)
    ensures AfterExpenses(members, expenses).Keys == Ids(members) + Payers(expenses)
    decreases |expenses|
  {
    if expenses != [] {
      var prev, e := expenses[..|expenses| - 1], expenses[|expenses| - 1];
      AfterExpensesKeys(members, prev);
      ExpenseStepKeys(AfterExpenses(members, prev), members, e);
      assert expenses == prev + [e];
      assert Payers(expenses) == Payers(prev) + {e.paidBy};
    }
  }

  /** Settlements never add or remove keys. */
  lemma {:induction false} SettlementsKeepKeys(b: Balances, settlements: seq<Settlement>)
    ensures FoldLeft(SettlementStep, b, settlements).Keys == b.Keys
    decreases |settlements|
  {
    if settlements != [] {
      SettlementsKeepKeys(b, settlements[..|settlements| - 1]);
    }
  }

  /** With no activity every member is present with balance 0, and nobody else is. */
  lemma NoActivity(members: seq<UserId>)
    ensures BalancesOf(members, [], []).Keys == Ids(members)
    ensures forall k :: k in BalancesOf(members, [], []) ==> BalancesOf(members, [], [])[k] == 0.0
  {
  }

  // ---------------------------------------------------------------------
  // Order independence

  /** Two expenses give the same record whichever is applied first. */
  lemma ExpenseStepsCommute(b: Balances, members: seq<UserId>, x: Expense, y: Expense)
    ensures ExpenseStep(ExpenseStep(b, members, x), members, y) == ExpenseStep(ExpenseStep(b, members, y), members, x)
  {
    var xy := ExpenseStep(ExpenseStep(b, members, x), members, y);
    var yx := ExpenseStep(ExpenseStep(b, members, y), members, x);
    ExpenseStepKeys(b, members, x);
    ExpenseStepKeys(b, members, y);
    ExpenseStepKeys(ExpenseStep(b, members, x), members, y);
    ExpenseStepKeys(ExpenseStep(b, members, y), members, x);
    forall u | u in xy
      ensures xy[u] == yx[u]
    {
      ExpenseStepAt(b, members, x, u);
      ExpenseStepAt(b, members, y, u);
      ExpenseStepAt(ExpenseStep(b, members, x), members, y, u);
      ExpenseStepAt(ExpenseStep(b, members, y), members, x, u);
    }
  }

  /** Two settlements give the same record whichever is applied first. */
  lemma SettlementStepsCommute(b: Balances, x: Settlement, y: Settlement)
    ensures SettlementStep(SettlementStep(b, x), y) == SettlementStep(SettlementStep(b, y), x)
  {
    var xy := SettlementStep(SettlementStep(b, x), y);
    var yx := SettlementStep(SettlementStep(b, y), x);
    forall u | u in xy
      ensures xy[u] == yx[u]
    {
      SettlementStepAt(b, x, u);
      SettlementStepAt(b, y, u);
      SettlementStepAt(SettlementStep(b, x), y, u);
      SettlementStepAt(SettlementStep(b, y), x, u);
    }
  }

  /** The balances do not depend on the order in which expenses and settlements are listed. */
  lemma OrderIrrelevant(members: seq<UserId>, expenses: seq<Expense>, expenses': seq<Expense>,
                        settlements: seq<Settlement>, settlements': seq<Settlement>)
    requires multiset(expenses) == multiset(expenses')
    requires multiset(settlements) == multiset(settlements')
    ensures BalancesOf(members, expenses, settlements) == BalancesOf(members, expenses', settlements')
  {
    forall a, x, y {
      ExpenseStepsCommute(a, members, x, y);
    }
    assert Commutes(ExpenseStepper(members));
    FoldPermutation(ExpenseStepper(members), InitialBalances(members), expenses, expenses');
    forall a, x, y {
      SettlementStepsCommute(a, x, y);
    }
    FoldPermutation(SettlementStep, AfterExpenses(members, expenses), settlements, settlements');
  }

  // ---------------------------------------------------------------------
  // Conservation: the balances of a group add up to zero

  lemma EnsureKeySum(b: Balances, id: UserId)
    ensures MapSum(EnsureKey(b, id)) == MapSum(b)
  {
    if Falsy(b, id) {
      MapSumUpdate(b, id, 0.0);
    }
  }

  /** The member loop takes `share` out of the total once per listed member. */
  lemma {:induction false} DebitMembersSum(b: Balances, members: seq<UserId>, share: real)
    ensures MapSum(DebitMembers(b, members, share)) == MapSum(b) - Times(|members|, share)
    decreases |members|
  {
    if members != [] {
      var m := members[|members| - 1];
      var prev := DebitMembers(b, members[..|members| - 1], share);
      DebitMembersSum(b, members[..|members| - 1], share);
      EnsureKeySum(prev, m);
      var ensured := EnsureKey(prev, m);
      MapSumUpdate(ensured, m, ensured[m] - share);
    }
  }

  /** With at least one member, an expense credits exactly what it debits. */
  lemma ExpenseStepSum(b: Balances, members: seq<UserId>, e: Expense)
    requires |members| > 0
    ensures MapSum(ExpenseStep(b, members, e)) == MapSum(b)
  {
    var ensured := EnsureKey(b, e.paidBy);
    EnsureKeySum(b, e.paidBy);
    MapSumUpdate(ensured, e.paidBy, ensured[e.paidBy] + e.amount);
    var credited := ensured[e.paidBy := ensured[e.paidBy] + e.amount];
    DebitMembersSum(credited, members, SplitAmount(e.amount, |members|));
    EqualShares(|members|, e.amount);
  }

  /** A settlement moves money between two balances, or changes the total when one side is missing. */
  lemma SettlementStepSum(b: Balances, s: Settlement)
    ensures MapSum(SettlementStep(b, s))
      == MapSum(b) + (if s.fromUserId in b then s.amount else 0.0) - (if s.toUserId in b then s.amount else 0.0)
  {
    var paid := if s.fromUserId in b then b[s.fromUserId := b[s.fromUserId] + s.amount] else b;
    if s.fromUserId in b {
      MapSumUpdate(b, s.fromUserId, b[s.fromUserId] + s.amount);
    }
    if s.toUserId in paid {
      MapSumUpdate(paid, s.toUserId, paid[s.toUserId] - s.amount);
    }
  }

  lemma {:induction false} AfterExpensesSum(members: seq<UserId>, expenses: seq<Expense>)
    requires |members| > 0
    ensures MapSum(AfterExpenses(members, expenses)) == 0.0
    decreases |expenses|
  {
    if expenses == [] {
      var b := InitialBalances(members);
      SumOverFrame(b, map k | k in b.Keys :: 0.0, b.Keys);
      ZeroSum(b.Keys);
    } else {
      var prev := expenses[..|expenses| - 1];
      AfterExpensesSum(members, prev);
      ExpenseStepSum(AfterExpenses(members, prev), members, expenses[|expenses| - 1]);
    }
  }

  lemma {:induction false} ZeroSum(keys: set<UserId>)
    ensures SumOver(map k | k in keys :: 0.0, keys) == 0.0
    decreases keys
  {
    if keys != {} {
      var k :| k in keys;
      var z := map k | k in keys :: 0.0;
      SumOverRemove(z, keys, k);
      SumOverFrame(z, map j | j in keys - {k} :: 0.0, keys - {k});
      ZeroSum(keys - {k});
    }
  }

  /** Settlements between users who both have a balance keep the total. */
  lemma {:induction false} SettlementsSum(b: Balances, settlements: seq<Settlement>)
    requires forall i :: 0 <= i < |settlements| ==> settlements[i].fromUserId in b && settlements[i].toUserId in b
    ensures MapSum(FoldLeft(SettlementStep, b, settlements)) == MapSum(b)
    decreases |settlements|
  {
    if settlements != [] {
      var prev := settlements[..|settlements| - 1];
      SettlementsSum(b, prev);
      SettlementsKeepKeys(b, prev);
      SettlementStepSum(FoldLeft(SettlementStep, b, prev), settlements[|settlements| - 1]);
    }
  }

  /**
   * In a group with members, where every settlement is between users who have
   * a balance, what some are owed is exactly what the others owe.
   */
  lemma BalancesSumToZero(members: seq<UserId>, expenses: seq<Expense>, settlements: seq<Settlement>)
    requires |members| > 0
    requires forall i :: 0 <= i < |settlements| ==>
      settlements[i].fromUserId in Ids(members) + Payers(expenses) && settlements[i].toUserId in Ids(members) + Payers(expenses)
    ensures MapSum(BalancesOf(members, expenses, settlements)) == 0.0
  {
    AfterExpensesSum(members, expenses);
    AfterExpensesKeys(members, expenses);
    SettlementsSum(AfterExpenses(members, expenses), settlements);
  }

  /** A settlement whose receiver has no balance credits the sender and debits nobody. */
  lemma OneSidedSettlement(b: Balances, s: Settlement)
    requires s.fromUserId in b && s.toUserId !in b
    ensures MapSum(SettlementStep(b, s)) == MapSum(b) + s.amount
    ensures SettlementStep(b, s) == b[s.fromUserId := b[s.fromUserId] + s.amount]
  {
    SettlementStepSum(b, s);
  }

  /** Alice pays 30 in a group of Alice and Bob; Bob then pays Alice back 15. */
  lemma TwoMemberExample()
    ensures AfterExpenses(["alice", "bob"], [Expense("alice", 30.0)]) == map["alice" := 15.0, "bob" := -15.0]
    ensures BalancesOf(["alice", "bob"], [Expense("alice", 30.0)], [Settlement("bob", "alice", 15.0)])
      == map["alice" := 0.0, "bob" := 0.0]
  {
    var members := ["alice", "bob"];
    var e := Expense("alice", 30.0);
    assert [e][..0] == [];
    assert members[..1] == ["alice"];
    assert members[..1][..0] == [];
    var start := InitialBalances(members);
    assert start == map["alice" := 0.0, "bob" := 0.0];
    assert "alice" != "bob" by { assert "alice"[0] != "bob"[0]; }
    var credited := map["alice" := 30.0, "bob" := 0.0];
    assert SplitAmount(30.0, |members|) == 15.0;
    assert EnsureKey(start, "alice") == start;
    assert start["alice" := 30.0] == credited;
    assert ExpenseStep(start, members, e) == DebitMembers(credited, members, 15.0);
    assert DebitMembers(credited, members[..1], 15.0) == map["alice" := 15.0, "bob" := 0.0];
    assert DebitMembers(credited, members, 15.0) == map["alice" := 15.0, "bob" := -15.0];
    var st := Settlement("bob", "alice", 15.0);
    assert [st][..0] == [];
    assert SettlementStep(map["alice" := 15.0, "bob" := -15.0], st) == map["alice" := 0.0, "bob" := 0.0];
  }

  // ---------------------------------------------------------------------
  // The balances tab

  /** A row is rendered for a key only if `group.members.find` locates that user. */
  function DisplayedUsers(members: seq<UserId>, b: Balances): (r: set<UserId>)
    ensures forall u :: u in r <==> u in b && u in members
  {
    set u | u in b.Keys && u in members
  }

  /** Every member gets exactly one row and nobody else does, whatever was spent or settled. */
  lemma EveryMemberDisplayed(members: seq<UserId>, expenses: seq<Expense>, settlements: seq<Settlement>)
    ensures DisplayedUsers(members, BalancesOf(members, expenses, settlements)) == Ids(members)
  {
  }

  /** A payer who is no longer a member keeps a balance in the record but gets no row. */
  lemma FormerMemberHidden(members: seq<UserId>, expenses: seq<Expense>, settlements: seq<Settlement>, u: UserId)
    requires u in Payers(expenses) && u !in members
    ensures u in BalancesOf(members, expenses, settlements)
    ensures u !in DisplayedUsers(members, BalancesOf(members, expenses, settlements))
  {
  }

  datatype Status = SettledUp | GetsBack | Owes

  /** `isZero ? "Settled up" : isPositive ? "gets back" : "owes"` as a status */
  function StatusOf(balance: real): (r: Status)
    ensures r == SettledUp <==> -0.01 < balance < 0.01
    ensures r == GetsBack <==> balance >= 0.01
    ensures r == Owes <==> balance <= -0.01
  {
    if Abs(balance) < 0.01 then SettledUp else if balance > 0.0 then GetsBack else Owes
  }

  function Label(st: Status): string {
    match st
    case SettledUp => "Settled up"
    case GetsBack => "gets back"
    case Owes => "owes"
  }

  /** `{isPositive ? "+" : ""}€{balance.toFixed(2)}` */
  function AmountText(balance: real): (r: string)
    ensures balance > 0.0 ==> r == "+\U{20AC}" + ToFixed2(balance)
    ensures balance <= 0.0 ==> r == "\U{20AC}" + ToFixed2(balance)
  {
    (if balance > 0.0 then "+" else "") + "\U{20AC}" + ToFixed2(balance)
  }

  /** One rendered row: whose it is, the amount text and the caption under it */
  datatype Row = Row(userId: UserId, amount: string, caption: string)

  function RowOf(b: Balances, u: UserId): (r: Row)
    requires u in b
    ensures r.userId == u && r.caption == Label(StatusOf(b[u]))
  {
    Row(u, AmountText(b[u]), Label(StatusOf(b[u])))
  }

  /** Anyone not settled up is shown a non-zero number of cents, with the sign of the balance. */
  lemma UnsettledShowsCents(balance: real)
    requires StatusOf(balance) != SettledUp
    ensures RoundCents(balance) != 0
    ensures StatusOf(balance) == GetsBack <==> RoundCents(balance) > 0
    ensures ParseFloat(ToFixed2(balance)) == Some(RoundCents(balance) as real / 100.0)
  {
    ParseToFixed2(balance);
  }

  /** A tiny credit is labelled settled up yet still carries a plus sign. */
  lemma TinyCreditShowsPlus(balance: real)
    requires 0.0 < balance < 0.005
    ensures AmountText(balance) == "+\U{20AC}0.00"
    ensures StatusOf(balance) == SettledUp
  {
    assert CentsOfMagnitude(balance) == 0;
  }

  /** A tiny debt is labelled settled up and printed as a negative zero. */
  lemma TinyDebtShowsMinusZero(balance: real)
    requires -0.005 < balance < 0.0
    ensures AmountText(balance) == "\U{20AC}-0.00"
    ensures StatusOf(balance) == SettledUp
  {
    assert CentsOfMagnitude(balance) == 0;
  }

}
