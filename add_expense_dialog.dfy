/**
 * The split builder of the "add expense" dialog. One `MemberSplit` row per
 * group member records whether the member takes part, a percentage and a
 * typed custom amount. From these rows and the typed total the dialog
 * builds the `{userId, amount}` splits of the chosen mode, and on submit it
 * runs a fixed chain of checks before handing the expense to `mutate`.
 */
module AddExpenseDialog {
  import opened JsText
  import opened JsNumber
  import opened Wrappers
  import opened Schema
  import opened Sums


  datatype SplitMode = Equal | Percentage | Custom

  datatype MemberSplit = MemberSplit(userId: UserId, included: bool, percentage: real, customAmount: string)

  /** One entry of the submitted `splits`: an amount as `toFixed(2)` text */
  datatype Split = Split(userId: UserId, amount: string)

  // ---------------------------------------------------------------------
  // Filters and totals over the rows

  /** `xs.filter(p)`, keeping the order of `xs` */
  function Filter<T(!new)>(xs: seq<T>, p: T -> bool): (r: seq<T>)
    ensures |r| <= |xs|
    ensures forall x :: x in r <==> x in xs && p(x)
  {
    if xs == [] then []
    else
      var prev, x := xs[..|xs| - 1], xs[|xs| - 1];
      assert xs == prev + [x];
      Filter(prev, p) + (if p(x) then [x] else [])
  }

  /** Filtering keeps the order: the kept elements of a front part come before those of the rest. */
  lemma {:induction false} FilterAppend<T(!new)>(xs: seq<T>, ys: seq<T>, p: T -> bool)
    ensures Filter(xs + ys, p) == Filter(xs, p) + Filter(ys, p)
    decreases |ys|
  {
    if ys == [] {
      assert xs + ys == xs;
    } else {
      var prev, y := ys[..|ys| - 1], ys[|ys| - 1];
      var kept := if p(y) then [y] else [];
      FilterAppend(xs, prev, p);
      assert (xs + ys)[..|xs + ys| - 1] == xs + prev;
      assert (xs + ys)[|xs + ys| - 1] == y;
      calc {
        Filter(xs + ys, p);
        Filter(xs + prev, p) + kept;
        (Filter(xs, p) + Filter(prev, p)) + kept;
        Filter(xs, p) + (Filter(prev, p) + kept);
        Filter(xs, p) + Filter(ys, p);
      }
    }
  }

  /** Filtering keeps every passing element as often as it occurs, and nothing else. */
  lemma {:induction false} FilterCounts<T(!new)>(xs: seq<T>, p: T -> bool)
    ensures forall x :: multiset(Filter(xs, p))[x] == if p(x) then multiset(xs)[x] else 0
    decreases |xs|
  {
    if xs != [] {
      var prev, y := xs[..|xs| - 1], xs[|xs| - 1];
      FilterCounts(prev, p);
      assert xs == prev + [y];
      assert multiset(xs) == multiset(prev) + multiset{y};
    }
  }

  /** A one-element list keeps its element exactly when it passes. */
  lemma FilterSingle<T(!new)>(x: T, p: T -> bool)
    ensures Filter([x], p) == if p(x) then [x] else []
  {
    assert [x][..0] == [];
  }

  predicate IsIncluded(s: MemberSplit) {
    s.included
  }

  function Included(rows: seq<MemberSplit>): (r: seq<MemberSplit>)
    ensures forall s :: s in r <==> s in rows && s.included
  {
    Filter(rows, IsIncluded)
  }

  /** `updated.filter(s => s.included).length` */
  function IncludedCount(rows: seq<MemberSplit>): (r: nat)
    ensures r <= |rows|
  {
    |Included(rows)|
  }

  /** The count is 0 exactly when no row is included. */
  lemma NoneIncluded(rows: seq<MemberSplit>)
    ensures IncludedCount(rows) == 0 <==> forall i :: 0 <= i < |rows| ==> !rows[i].included
  {
    var included := Included(rows);
    assert forall i :: 0 <= i < |rows| && rows[i].included ==> rows[i] in included;
    assert included != [] ==> included[0] in included;
  }

  predicate PositivePercentage(s: MemberSplit) {
    s.percentage > 0.0
  }

  /** `parseFloat(s.customAmount) > 0`; a NaN is not positive */
  predicate PositiveCustom(s: MemberSplit) {
    match ParseFloat(s.customAmount)
    case Some(v) => v > 0.0
    case None => false
  }

  /** `memberSplits.reduce((sum, s) => sum + s.percentage, 0)` */
  function TotalPercentage(rows: seq<MemberSplit>): (r: real)
  {
    if rows == [] then 0.0 else TotalPercentage(rows[..|rows| - 1]) + rows[|rows| - 1].percentage
  }

  /** `memberSplits.reduce((sum, s) => sum + (parseFloat(s.customAmount) || 0), 0)` */
  function TotalCustom(rows: seq<MemberSplit>): (r: real)
    ensures (forall i :: 0 <= i < |rows| ==> ParseFloat(rows[i].customAmount).None?) ==> r == 0.0
    ensures (forall i :: 0 <= i < |rows| ==> ParseFloatOrZero(rows[i].customAmount) >= 0.0) ==> r >= 0.0
  {
    if rows == [] then 0.0 else TotalCustom(rows[..|rows| - 1]) + ParseFloatOrZero(rows[|rows| - 1].customAmount)
  }

  /** With no negative percentage the total is at least 0 and at least any one row's percentage. */
  lemma {:induction false} TotalPercentageBounds(rows: seq<MemberSplit>)
    requires forall i :: 0 <= i < |rows| ==> rows[i].percentage >= 0.0
    ensures TotalPercentage(rows) >= 0.0
    ensures forall i :: 0 <= i < |rows| ==> rows[i].percentage <= TotalPercentage(rows)
    decreases |rows|
  {
    if rows != [] {
      TotalPercentageBounds(rows[..|rows| - 1]);
    }
  }

  /** A row that does not parse adds nothing to the custom total. */
  lemma {:induction false} TotalCustomSkipsUnparsed(rows: seq<MemberSplit>, s: MemberSplit)
    requires ParseFloat(s.customAmount).None?
    ensures TotalCustom(rows + [s]) == TotalCustom(rows)
  {
    assert (rows + [s])[..|rows|] == rows;
  }

  // ---------------------------------------------------------------------
  // Row states

  /** The rows set up when the member list arrives, and again after a successful submit */
  function InitialRows(members: seq<UserId>): (r: seq<MemberSplit>)
    ensures |r| == |members|
  {
    seq(|members|, i requires 0 <= i < |members| => MemberSplit(members[i], true, 100.0 / |members| as real, ""))
  }

  /** The `memberSplits.map` step of `toggleMemberIncluded`: flip the flag of the rows with `userId` */
  function Flipped(rows: seq<MemberSplit>, userId: UserId): (r: seq<MemberSplit>)
    ensures |r| == |rows|
  {
    seq(|rows|, i requires 0 <= i < |rows| =>
      if rows[i].userId == userId then rows[i].(included := !rows[i].included) else rows[i])
  }

  /** The `forEach` step: included rows get `share`, the others 0 */
  function Renormalise(s: MemberSplit, share: real): MemberSplit {
    s.(percentage := if s.included then share else 0.0)
  }

  function Renormalised(rows: seq<MemberSplit>, share: real): (r: seq<MemberSplit>)
    ensures |r| == |rows|
  {
    seq(|rows|, i requires 0 <= i < |rows| => Renormalise(rows[i], share))
  }

  /** `toggleMemberIncluded(userId)`: flip, then share 100% equally when someone is still included */
  function ToggledRows(rows: seq<MemberSplit>, userId: UserId): (r: seq<MemberSplit>)
    ensures |r| == |rows|
  {
    var updated := Flipped(rows, userId);
    var includedCount := IncludedCount(updated);
    if includedCount > 0 then Renormalised(updated, 100.0 / includedCount as real) else updated
  }

  /** `parseFloat(value) || 0`: NaN and 0 both give 0 */
  function PercentageInput(value: string): (r: real)
    ensures ParseFloat(value).None? ==> r == 0.0
    ensures ParseFloat(value).Some? ==> r == ParseFloat(value).value
  {
    ParseFloatOrZero(value)
  }

  /** `updatePercentage(userId, value)` as a new row list */
  function WithPercentage(rows: seq<MemberSplit>, userId: UserId, value: string): (r: seq<MemberSplit>)
    ensures |r| == |rows|
  {
    seq(|rows|, i requires 0 <= i < |rows| =>
      if rows[i].userId == userId then rows[i].(percentage := PercentageInput(value)) else rows[i])
  }

  /** `updateCustomAmount(userId, value)` as a new row list */
  function WithCustomAmount(rows: seq<MemberSplit>, userId: UserId, value: string): (r: seq<MemberSplit>)
    ensures |r| == |rows|
  {
    seq(|rows|, i requires 0 <= i < |rows| =>
      if rows[i].userId == userId then rows[i].(customAmount := value) else rows[i])
  }

  // ---------------------------------------------------------------------
  // calculateSplits

  /** Whether a row takes part in a mode's splits */
  predicate Pays(mode: SplitMode, s: MemberSplit) {
    match mode
    case Equal => s.included
    case Percentage => s.percentage > 0.0
    case Custom => PositiveCustom(s)
  }

  /** The rows a mode pays out to */
  function Selected(mode: SplitMode, rows: seq<MemberSplit>): (r: seq<MemberSplit>)
    ensures forall s :: s in r <==> s in rows && Pays(mode, s)
  {
    match mode
    case Equal => Included(rows)
    case Percentage => Filter(rows, PositivePercentage)
    case Custom => Filter(rows, PositiveCustom)
  }

  /** `(totalAmount * s.percentage) / 100` */
  function PercentOf(total: real, percentage: real): (r: real)
    ensures percentage == 100.0 ==> r == total
    ensures percentage == 0.0 || total == 0.0 ==> r == 0.0
    ensures total >= 0.0 && 0.0 <= percentage <= 100.0 ==> 0.0 <= r <= total
  {
    total * percentage / 100.0
  }

  /** The value a selected row is paid, before rounding */
  function ShareOf(mode: SplitMode, total: real, count: nat, s: MemberSplit): (r: real)
    ensures mode == Equal && count > 0 ==> Times(count, r) == total
    ensures mode == Custom && ParseFloat(s.customAmount).Some? ==> r == ParseFloat(s.customAmount).value
  {
    match mode
    case Equal =>
      if count == 0 then 0.0
      else
        EqualShares(count, total);
        total / count as real
    case Percentage => PercentOf(total, s.percentage)
    case Custom => ParseFloatOrZero(s.customAmount)
  }

  /** The split written for one selected row: its share as `toFixed(2)` text */
  function SplitOf(mode: SplitMode, total: real, count: nat, s: MemberSplit): (r: Split)
    ensures r.userId == s.userId
  {
    Split(s.userId, ToFixed2(ShareOf(mode, total, count, s)))
  }

  /** `calculateSplits()`, the typed total read with `parseFloat(amount) || 0` */
  function CalculateSplits(mode: SplitMode, amount: string, rows: seq<MemberSplit>): (r: seq<Split>)
    ensures |r| == |Selected(mode, rows)|
    ensures forall i :: 0 <= i < |r| ==> r[i].userId == Selected(mode, rows)[i].userId
  {
    var chosen := Selected(mode, rows);
    var total := ParseFloatOrZero(amount);
    seq(|chosen|, i requires 0 <= i < |chosen| => SplitOf(mode, total, |chosen|, chosen[i]))
  }

  // ---------------------------------------------------------------------
  // handleSubmit

  /** Why a submit was refused with an error toast */
  datatype Rejection = NoOneSelected | PercentagesOff | CustomAmountsOff | NoSplits

  /** The body handed to `mutate` */
  datatype Payload = Payload(description: string, amount: string, category: string, splits: seq<Split>)

  datatype Outcome = Ignored | Rejected(reason: Rejection) | Submitted(payload: Payload)

  /** `!description || !amount || isNaN(Number(amount))`: the silent early return */
  predicate Incomplete(description: string, amount: string)
    ensures description != [] && amount != [] && (forall k :: 0 <= k < |amount| ==> IsSpace(amount[k]))
      ==> !Incomplete(description, amount)
  {
    description == [] || amount == [] || NumberValue(amount).None?
  }

  /** `Math.abs(totalCustom - totalAmount) > 0.01`; a NaN total never compares greater */
  predicate CustomMismatch(amount: string, rows: seq<MemberSplit>) {
    match ParseFloat(amount)
    case Some(total) => Abs(TotalCustom(rows) - total) > 0.01
    case None => false
  }

  /** The form gets past the silent return and the three mode checks */
  predicate PassesChecks(description: string, amount: string, mode: SplitMode, rows: seq<MemberSplit>) {
    && !Incomplete(description, amount)
    && !(mode == Equal && IncludedCount(rows) == 0)
    && !(mode == Percentage && Abs(TotalPercentage(rows) - 100.0) > 0.5)
    && !(mode == Custom && CustomMismatch(amount, rows))
  }

  /**
   * The outcome of `handleSubmit` on the current form state: the silent
   * return, then each refusal exactly when its own check fails and every
   * earlier check passed, and otherwise the expense with the mode's splits.
   */
  function SubmitOutcome(description: string, amount: string, category: string, mode: SplitMode,
                         rows: seq<MemberSplit>): (r: Outcome)
    ensures r.Ignored? <==> Incomplete(description, amount)
    ensures r == Rejected(NoOneSelected)
      <==> !Incomplete(description, amount) && mode == Equal && IncludedCount(rows) == 0
    ensures r == Rejected(PercentagesOff)
      <==> !Incomplete(description, amount) && mode == Percentage && Abs(TotalPercentage(rows) - 100.0) > 0.5
    ensures r == Rejected(CustomAmountsOff)
      <==> !Incomplete(description, amount) && mode == Custom && CustomMismatch(amount, rows)
    ensures r == Rejected(NoSplits)
      <==> PassesChecks(description, amount, mode, rows) && CalculateSplits(mode, amount, rows) == []
    ensures r.Submitted?
      <==> PassesChecks(description, amount, mode, rows) && CalculateSplits(mode, amount, rows) != []
    ensures r.Submitted? ==> r.payload == Payload(description, amount, category, CalculateSplits(mode, amount, rows))
  {
    if Incomplete(description, amount) then Ignored
    else if mode == Equal && IncludedCount(rows) == 0 then Rejected(NoOneSelected)
    else if mode == Percentage && Abs(TotalPercentage(rows) - 100.0) > 0.5 then Rejected(PercentagesOff)
    else if mode == Custom && CustomMismatch(amount, rows) then Rejected(CustomAmountsOff)
    else
      var splits := CalculateSplits(mode, amount, rows);
      if splits == [] then Rejected(NoSplits)
      else Submitted(Payload(description, amount, category, splits))
  }

  // ---------------------------------------------------------------------
  // Properties of the rows

  /** Rows that all carry the same percentage add up to that many copies of it. */
  lemma {:induction false} TotalPercentageUniform(rows: seq<MemberSplit>, p: real)
    requires forall i :: 0 <= i < |rows| ==> rows[i].percentage == p
    ensures TotalPercentage(rows) == Times(|rows|, p)
    decreases |rows|
  {
    if rows != [] {
      TotalPercentageUniform(rows[..|rows| - 1], p);
    }
  }

  /** Every member starts included, with an equal share of 100% and no custom amount. */
  lemma InitialRowsState(members: seq<UserId>)
    ensures forall i :: 0 <= i < |members| ==>
      && InitialRows(members)[i].userId == members[i]
      && InitialRows(members)[i].included
      && InitialRows(members)[i].customAmount == ""
      && InitialRows(members)[i].percentage == 100.0 / |members| as real
    ensures |members| > 0 ==> TotalPercentage(InitialRows(members)) == 100.0
    ensures IncludedCount(InitialRows(members)) == |members|
  {
    var rows := InitialRows(members);
    if |members| > 0 {
      TotalPercentageUniform(rows, 100.0 / |members| as real);
      EqualShares(|members|, 100.0);
    }
    AllIncluded(rows);
  }

  lemma {:induction false} AllIncluded(rows: seq<MemberSplit>)
    requires forall i :: 0 <= i < |rows| ==> rows[i].included
    ensures IncludedCount(rows) == |rows|
    decreases |rows|
  {
    if rows != [] {
      AllIncluded(rows[..|rows| - 1]);
    }
  }

  /** Appending a row adds one to the count exactly when it is included. */
  lemma IncludedCountSnoc(prev: seq<MemberSplit>, s: MemberSplit)
    ensures IncludedCount(prev + [s]) == IncludedCount(prev) + (if s.included then 1 else 0)
  {
    assert (prev + [s])[..|prev|] == prev;
    assert (prev + [s])[|prev|] == s;
  }

  /** Two row lists with the same flags, position by position, include as many rows. */
  lemma {:induction false} SameFlagsSameCount(rows: seq<MemberSplit>, rows': seq<MemberSplit>)
    requires |rows| == |rows'|
    requires forall i :: 0 <= i < |rows| ==> rows[i].included == rows'[i].included
    ensures IncludedCount(rows) == IncludedCount(rows')
    decreases |rows|
  {
    if rows != [] {
      var n := |rows|;
      SameFlagsSameCount(rows[..n - 1], rows'[..n - 1]);
      IncludedCountSnoc(rows[..n - 1], rows[n - 1]);
      IncludedCountSnoc(rows'[..n - 1], rows'[n - 1]);
      assert rows == rows[..n - 1] + [rows[n - 1]];
      assert rows' == rows'[..n - 1] + [rows'[n - 1]];
    }
  }

  /** The included percentages after renormalising add up to one share per included row. */
  lemma {:induction false} RenormalisedTotal(rows: seq<MemberSplit>, share: real)
    ensures TotalPercentage(Renormalised(rows, share)) == Times(IncludedCount(rows), share)
    decreases |rows|
  {
    if rows != [] {
      var n := |rows|;
      var prev, last := rows[..n - 1], rows[n - 1];
      var renormalised := Renormalised(rows, share);
      RenormalisedTotal(prev, share);
      assert renormalised[..n - 1] == Renormalised(prev, share);
      assert TotalPercentage(renormalised)
        == TotalPercentage(Renormalised(prev, share)) + (if last.included then share else 0.0);
      IncludedCountSnoc(prev, last);
      assert rows == prev + [last];
    }
  }

  /** A toggle flips the flag of the rows of `userId` and of no other row; ids and custom amounts stay. */
  lemma ToggleFlags(rows: seq<MemberSplit>, userId: UserId)
    ensures forall i :: 0 <= i < |rows| ==>
      && ToggledRows(rows, userId)[i].included == (rows[i].included != (rows[i].userId == userId))
      && ToggledRows(rows, userId)[i].userId == rows[i].userId
      && ToggledRows(rows, userId)[i].customAmount == rows[i].customAmount
  {
  }

  /** Toggling the same member twice restores every flag. */
  lemma ToggleTwiceRestoresFlags(rows: seq<MemberSplit>, userId: UserId)
    ensures forall i :: 0 <= i < |rows| ==> ToggledRows(ToggledRows(rows, userId), userId)[i].included == rows[i].included
  {
    ToggleFlags(rows, userId);
    ToggleFlags(ToggledRows(rows, userId), userId);
  }

  /**
   * After a toggle that leaves k >= 1 rows included, each included row holds
   * 100/k and each excluded row 0.
   */
  lemma ToggleShares(rows: seq<MemberSplit>, userId: UserId)
    requires IncludedCount(ToggledRows(rows, userId)) > 0
    ensures var r := ToggledRows(rows, userId);
      forall i :: 0 <= i < |r| ==> r[i].percentage == if r[i].included then 100.0 / IncludedCount(r) as real else 0.0
  {
    var updated := Flipped(rows, userId);
    if IncludedCount(updated) > 0 {
      SameFlagsSameCount(updated, ToggledRows(rows, userId));
    }
  }

  /** After a toggle that leaves someone included, the percentages add up to 100. */
  lemma ToggleTotalsHundred(rows: seq<MemberSplit>, userId: UserId)
    requires IncludedCount(ToggledRows(rows, userId)) > 0
    ensures TotalPercentage(ToggledRows(rows, userId)) == 100.0
  {
    var updated := Flipped(rows, userId);
    var k := IncludedCount(updated);
    if k > 0 {
      RenormalisedTotal(updated, 100.0 / k as real);
      EqualShares(k, 100.0);
    } else {
      SameFlagsSameCount(updated, ToggledRows(rows, userId));
    }
  }

  /** A toggle that leaves no one included changes no percentage. */
  lemma ToggleNoneIncluded(rows: seq<MemberSplit>, userId: UserId)
    requires IncludedCount(ToggledRows(rows, userId)) == 0
    ensures forall i :: 0 <= i < |rows| ==> ToggledRows(rows, userId)[i].percentage == rows[i].percentage
  {
    var updated := Flipped(rows, userId);
    if IncludedCount(updated) > 0 {
      SameFlagsSameCount(updated, ToggledRows(rows, userId));
    }
  }

  /** Replacing one row changes the percentage total by the difference. */
  lemma {:induction false} TotalPercentageUpdate(rows: seq<MemberSplit>, i: nat, s: MemberSplit)
    requires i < |rows|
    ensures TotalPercentage(rows[i := s]) == TotalPercentage(rows) - rows[i].percentage + s.percentage
    decreases |rows|
  {
    var n := |rows|;
    if i < n - 1 {
      TotalPercentageUpdate(rows[..n - 1], i, s);
      assert rows[i := s][..n - 1] == rows[..n - 1][i := s];
    } else {
      assert rows[i := s][..n - 1] == rows[..n - 1];
    }
  }

  /**
   * Editing a percentage sets every row of that member, however many there
   * are, to the typed value (unreadable input is 0) and touches no other row.
   */
  lemma UpdatePercentageEffect(rows: seq<MemberSplit>, userId: UserId, value: string)
    ensures forall i :: 0 <= i < |rows| ==>
      if rows[i].userId == userId
      then WithPercentage(rows, userId, value)[i] == rows[i].(percentage := PercentageInput(value))
      else WithPercentage(rows, userId, value)[i] == rows[i]
  {
  }

  /** For a member with a single row, editing its percentage moves the total by the difference. */
  lemma UpdatePercentageTotal(rows: seq<MemberSplit>, userId: UserId, value: string, j: nat)
    requires j < |rows| && rows[j].userId == userId
    requires forall i :: 0 <= i < |rows| && i != j ==> rows[i].userId != userId
    ensures WithPercentage(rows, userId, value) == rows[j := rows[j].(percentage := PercentageInput(value))]
    ensures TotalPercentage(WithPercentage(rows, userId, value)) == TotalPercentage(rows) - rows[j].percentage + PercentageInput(value)
  {
    TotalPercentageUpdate(rows, j, rows[j].(percentage := PercentageInput(value)));
  }

  /** Editing a custom amount touches only the rows of that member. */
  lemma UpdateCustomAmountEffect(rows: seq<MemberSplit>, userId: UserId, value: string)
    ensures forall i :: 0 <= i < |rows| ==>
      if rows[i].userId == userId
      then WithCustomAmount(rows, userId, value)[i] == rows[i].(customAmount := value)
      else WithCustomAmount(rows, userId, value)[i] == rows[i]
  {
  }

  // ---------------------------------------------------------------------
  // Properties of calculateSplits and handleSubmit

  /** Equal mode pays every included row, in roster order, the same rounded amount. */
  lemma EqualSplitsSame(amount: string, rows: seq<MemberSplit>)
    ensures var r := CalculateSplits(Equal, amount, rows);
      && |r| == IncludedCount(rows)
      && forall i :: 0 <= i < |r| ==>
        r[i].userId == Included(rows)[i].userId
        && r[i].amount == ToFixed2(ParseFloatOrZero(amount) / IncludedCount(rows) as real)
  {
  }

  /**
   * Percentage mode pays each row with a positive percentage, in roster
   * order, that percentage of the typed total rounded to cents.
   */
  lemma PercentageSplits(amount: string, rows: seq<MemberSplit>)
    ensures var r := CalculateSplits(Percentage, amount, rows);
      var chosen := Selected(Percentage, rows);
      && |r| == |chosen|
      && forall i :: 0 <= i < |r| ==>
        && r[i].userId == chosen[i].userId
        && chosen[i].percentage > 0.0
        && r[i].amount == ToFixed2(PercentOf(ParseFloatOrZero(amount), chosen[i].percentage))
  {
    var chosen := Selected(Percentage, rows);
    forall i | 0 <= i < |chosen|
      ensures chosen[i].percentage > 0.0
    {
      assert chosen[i] in chosen;
    }
  }

  /**
   * Custom mode pays each row whose custom amount parses above 0, in roster
   * order, that amount rounded to cents.
   */
  lemma CustomSplits(amount: string, rows: seq<MemberSplit>)
    ensures var r := CalculateSplits(Custom, amount, rows);
      var chosen := Selected(Custom, rows);
      && |r| == |chosen|
      && forall i :: 0 <= i < |r| ==>
        && r[i].userId == chosen[i].userId
        && ParseFloat(chosen[i].customAmount).Some?
        && ParseFloat(chosen[i].customAmount).value > 0.0
        && r[i].amount == ToFixed2(ParseFloat(chosen[i].customAmount).value)
  {
    var chosen := Selected(Custom, rows);
    forall i | 0 <= i < |chosen|
      ensures PositiveCustom(chosen[i])
    {
      assert chosen[i] in chosen;
    }
  }

  /** Each split amount reads back as its share rounded to the nearest cent. */
  lemma SplitReadsBack(mode: SplitMode, total: real, count: nat, s: MemberSplit)
    ensures ParseFloat(SplitOf(mode, total, count, s).amount) == Some(RoundCents(ShareOf(mode, total, count, s)) as real / 100.0)
  {
    ParseToFixed2(ShareOf(mode, total, count, s));
  }

  /** A positive percentage total has a row with a positive percentage. */
  lemma {:induction false} PositivePercentageRow(rows: seq<MemberSplit>)
    requires TotalPercentage(rows) > 0.0
    ensures exists s :: s in rows && s.percentage > 0.0
    decreases |rows|
  {
    var prev := rows[..|rows| - 1];
    if rows[|rows| - 1].percentage <= 0.0 {
      PositivePercentageRow(prev);
      var s :| s in prev && s.percentage > 0.0;
      assert s in rows;
    } else {
      assert rows[|rows| - 1] in rows;
    }
  }

  /**
   * The empty-splits refusal can only happen in custom mode: equal mode has
   * already required someone included, and a percentage total near 100 needs
   * a positive row.
   */
  lemma NoSplitsOnlyInCustomMode(description: string, amount: string, category: string, mode: SplitMode, rows: seq<MemberSplit>)
    requires SubmitOutcome(description, amount, category, mode, rows) == Rejected(NoSplits)
    ensures mode == Custom
  {
    if mode == Percentage {
      PositivePercentageRow(rows);
    }
  }

  // ---------------------------------------------------------------------
  // Worked cases

  /** With every row included, equal mode pays every row. */
  lemma {:induction false} AllIncludedSelected(rows: seq<MemberSplit>)
    requires forall i :: 0 <= i < |rows| ==> rows[i].included
    ensures Included(rows) == rows
    decreases |rows|
  {
    if rows != [] {
      AllIncludedSelected(rows[..|rows| - 1]);
      assert rows == rows[..|rows| - 1] + [rows[|rows| - 1]];
    }
  }

  lemma TenThirds()
    ensures ToFixed2(10.0 / 3.0) == "3.33"
  {
    assert CentsOfMagnitude(10.0 / 3.0) == 333;
  }

  /**
   * Three people splitting 10 equally are each charged 3.33, and the
   * missing cent is charged to no one.
   */
  lemma EqualSplitKeepsRemainder(amount: string, rows: seq<MemberSplit>)
    requires ParseFloatOrZero(amount) == 10.0 && IncludedCount(rows) == 3
    ensures var r := CalculateSplits(Equal, amount, rows);
      |r| == 3 && forall i :: 0 <= i < 3 ==> r[i].amount == "3.33"
  {
    TenThirds();
  }

  /**
   * A member with more than 100% and another with the negative rest pass
   * the percentage check; the negative row is dropped, so the first member
   * alone is charged more than the whole expense.
   */
  lemma NegativePercentageAccepted(description: string, amount: string, category: string,
                                   a: UserId, b: UserId, p: real)
    requires !Incomplete(description, amount)
    requires p > 100.0
    ensures var rows := [MemberSplit(a, true, p, ""), MemberSplit(b, true, 100.0 - p, "")];
      SubmitOutcome(description, amount, category, Percentage, rows)
        == Submitted(Payload(description, amount, category,
             [Split(a, ToFixed2(PercentOf(ParseFloatOrZero(amount), p)))]))
  {
    var rows := [MemberSplit(a, true, p, ""), MemberSplit(b, true, 100.0 - p, "")];
    NegativeRowsTotal(a, b, p);
    NegativeRowDropped(a, b, p);
    OneSelectedSplit(Percentage, amount, rows);
    assert Abs(TotalPercentage(rows) - 100.0) <= 0.5;
  }

  /** The rows of the lemma above total 100. */
  lemma NegativeRowsTotal(a: UserId, b: UserId, p: real)
    ensures TotalPercentage([MemberSplit(a, true, p, ""), MemberSplit(b, true, 100.0 - p, "")]) == 100.0
  {
    var rows := [MemberSplit(a, true, p, ""), MemberSplit(b, true, 100.0 - p, "")];
    assert rows[..|rows| - 1] == [rows[0]];
    assert TotalPercentage([rows[0]]) == p by {
      assert [rows[0]][..0] == [];
    }
  }

  /** Of those rows only the first, with more than 100%, is selected. */
  lemma NegativeRowDropped(a: UserId, b: UserId, p: real)
    requires p > 100.0
    ensures var rows := [MemberSplit(a, true, p, ""), MemberSplit(b, true, 100.0 - p, "")];
      Selected(Percentage, rows) == [rows[0]]
  {
    var rows := [MemberSplit(a, true, p, ""), MemberSplit(b, true, 100.0 - p, "")];
    assert rows[..1] == [rows[0]];
    FilterSingle(rows[0], PositivePercentage);
    assert !PositivePercentage(rows[1]);
  }

  /** With one row selected, the splits are that row's split alone. */
  lemma OneSelectedSplit(mode: SplitMode, amount: string, rows: seq<MemberSplit>)
    requires |Selected(mode, rows)| == 1
    ensures CalculateSplits(mode, amount, rows)
      == [SplitOf(mode, ParseFloatOrZero(amount), 1, Selected(mode, rows)[0])]
  {
  }

  /**
   * An amount of white space passes `isNaN(Number(amount))`, which reads it
   * as 0, but `parseFloat` reads NaN, so the custom total check never fires
   * whatever the custom amounts add up to.
   */
  lemma BlankAmountSkipsCustomCheck(description: string, amount: string, category: string, rows: seq<MemberSplit>)
    requires description != [] && amount != []
    requires forall k :: 0 <= k < |amount| ==> IsSpace(amount[k])
    ensures !Incomplete(description, amount)
    ensures SubmitOutcome(description, amount, category, Custom, rows) != Rejected(CustomAmountsOff)
  {
    BlankText(amount);
  }

  /** Custom mode with nothing typed and a zero total is refused for having no splits. */
  lemma EmptyCustomHasNoSplits()
    ensures var rows := [MemberSplit("ann", true, 100.0, "")];
      SubmitOutcome("Taxi", "0", "travel", Custom, rows) == Rejected(NoSplits)
  {
    var rows := [MemberSplit("ann", true, 100.0, "")];
    assert NatText(0) == "0";
    ParseNatText(0);
    assert ParseFloat("") == None;
    assert TotalCustom(rows) == 0.0;
    assert !PositiveCustom(rows[0]);
    assert Selected(Custom, rows) == [];
  }

  // ---------------------------------------------------------------------
  // The component state

  /** The dialog's form state; `members` is the roster passed in as a prop */
  class ExpenseForm {
    const members: seq<UserId>
    var description: string
    var amount: string
    var category: string
    var splitMode: SplitMode
    var memberSplits: seq<MemberSplit>

    /** The initial `useState` values, with the rows the `useEffect` sets up for `members` */
    constructor (members: seq<UserId>)
      ensures this.members == members
      ensures description == "" && amount == "" && category == "general" && splitMode == Equal
      ensures memberSplits == InitialRows(members)
    {
      this.members := members;
      description := "";
      amount := "";
      category := "general";
      splitMode := Equal;
      memberSplits := InitialRows(members);
    }

    /** `toggleMemberIncluded(userId)`: the flags are flipped, then percentages rewritten in a loop */
    method ToggleMemberIncluded(userId: UserId)
      modifies this
      ensures memberSplits == ToggledRows(old(memberSplits), userId)
      ensures description == old(description) && amount == old(amount)
      ensures category == old(category) && splitMode == old(splitMode)
    {
      var updated := Flipped(memberSplits, userId);
      var includedCount := IncludedCount(updated);
      if includedCount > 0 {
        var equalPercentage := 100.0 / includedCount as real;
        ghost var flipped := updated;
        for i := 0 to |updated|
          invariant |updated| == |flipped|
          invariant forall k :: 0 <= k < i ==> updated[k] == Renormalise(flipped[k], equalPercentage)
          invariant forall k :: i <= k < |updated| ==> updated[k] == flipped[k]
        {
          var s := updated[i];
          if s.included {
            s := s.(percentage := equalPercentage);
          } else {
            s := s.(percentage := 0.0);
          }
          updated := updated[i := s];
        }
      }
      memberSplits := updated;
    }

    method UpdatePercentage(userId: UserId, value: string)
      modifies this
      ensures memberSplits == WithPercentage(old(memberSplits), userId, value)
      ensures description == old(description) && amount == old(amount)
      ensures category == old(category) && splitMode == old(splitMode)
    {
      memberSplits := WithPercentage(memberSplits, userId, value);
    }

    method UpdateCustomAmount(userId: UserId, value: string)
      modifies this
      ensures memberSplits == WithCustomAmount(old(memberSplits), userId, value)
      ensures description == old(description) && amount == old(amount)
      ensures category == old(category) && splitMode == old(splitMode)
    {
      memberSplits := WithCustomAmount(memberSplits, userId, value);
    }

    /** The checks of `handleSubmit`, in their order; the form is not changed */
    method HandleSubmit() returns (outcome: Outcome)
      ensures outcome == SubmitOutcome(description, amount, category, splitMode, memberSplits)
    {
      if description == [] || amount == [] || NumberValue(amount).None? {
        return Ignored;
      }
      if splitMode == Equal {
        var includedCount := IncludedCount(memberSplits);
        if includedCount == 0 {
          return Rejected(NoOneSelected);
        }
      }
      if splitMode == Percentage {
        var totalPct := TotalPercentage(memberSplits);
        if Abs(totalPct - 100.0) > 0.5 {
          return Rejected(PercentagesOff);
        }
      }
      if splitMode == Custom {
        var totalAmount := ParseFloat(amount);
        var totalCustom := TotalCustom(memberSplits);
        if totalAmount.Some? && Abs(totalCustom - totalAmount.value) > 0.01 {
          return Rejected(CustomAmountsOff);
        }
      }
      var splits := CalculateSplits(splitMode, amount, memberSplits);
      if |splits| == 0 {
        return Rejected(NoSplits);
      }
      outcome := Submitted(Payload(description, amount, category, splits));
    }

    /** The `onSuccess` callback of `mutate`: the form is cleared and the rows rebuilt */
    method OnCreated()
      modifies this
      ensures description == "" && amount == "" && category == "general" && splitMode == Equal
      ensures memberSplits == InitialRows(members)
    {
      description := "";
      amount := "";
      category := "general";
      splitMode := Equal;
      memberSplits := InitialRows(members);
    }
  }
}
