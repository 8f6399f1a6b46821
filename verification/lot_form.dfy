/**
 * The purchase-lot form (`AddPurchaseLotModal` with its `CostAllocationView`
 * step): a four-step wizard gathering the lot's details and figures, then
 * spreading its total cost over the figures by an equal split, by market
 * value or by hand.
 */
module LotForm {
  import opened Wrappers
  import opened Types
  import opened Seqs
  import Strings
  import Finance
  import PriceService
  import PurchaseLots

  datatype Step = Details | Items | Costs | Confirm

  /** `steps.indexOf(step)` in `['details', 'items', 'costs', 'confirm']`. */
  function StepIndex(s: Step): (r: nat)
    ensures r <= 3
  {
    match s
    case Details => 0
    case Items => 1
    case Costs => 2
    case Confirm => 3
  }

  function StepAt(i: nat): (r: Step)
    requires i <= 3
    ensures StepIndex(r) == i
  {
    if i == 0 then Details else if i == 1 then Items else if i == 2 then Costs else Confirm
  }

  datatype SplitMethod = EqualSplit | MarketSplit | ManualSplit

  function AllocatedCost(i: PurchaseLotItem): real { i.allocatedCost }

  /** `items.reduce((s, i) => s + i.allocatedCost, 0)`. */
  function AllocatedTotal(items: seq<PurchaseLotItem>): real
  {
    RealSumOf(items, AllocatedCost)
  }

  function Abs(x: real): real { if x < 0.0 then -x else x }

  /** What is left to allocate, to the cent, as the cost view shows it. */
  function Diff(totalCost: real, items: seq<PurchaseLotItem>): (r: real)
    ensures IsCents(r)
  {
    RoundCents(totalCost - AllocatedTotal(items))
  }

  /** The cost view shows "Balanced": the difference is below a cent. */
  predicate Balanced(totalCost: real, items: seq<PurchaseLotItem>)
  {
    Abs(Diff(totalCost, items)) < 0.01
  }

  /** A whole-cent amount below one cent is zero, so "Balanced" means nothing is left to allocate. */
  lemma BalancedIsZeroDiff(totalCost: real, items: seq<PurchaseLotItem>)
    ensures Balanced(totalCost, items) <==> Diff(totalCost, items) == 0.0
  {
    var d := Diff(totalCost, items);
    var c := (d * 100.0).Floor;
    assert c as real == d * 100.0;
    if Abs(d) < 0.01 {
      assert -1.0 < c as real < 1.0;
      assert c == 0;
    }
  }

  /** The line under the cost table: balanced, or what remains to allocate, or by how much it is over. */
  datatype Balance = IsBalanced | Remaining(amount: real) | Over(amount: real)

  function BalanceOf(totalCost: real, items: seq<PurchaseLotItem>): (r: Balance)
    ensures r.IsBalanced? <==> Diff(totalCost, items) == 0.0
    ensures r.Remaining? ==> r.amount == Diff(totalCost, items) && r.amount >= 0.01
    ensures r.Over? ==> r.amount == -Diff(totalCost, items) && r.amount >= 0.01
  {
    BalancedIsZeroDiff(totalCost, items);
    var d := Diff(totalCost, items);
    if Abs(d) < 0.01 then IsBalanced else if d > 0.0 then Remaining(d) else Over(-d)
  }

  /** The guard on leaving the costs step as the form states it: the unrounded difference is below a cent. */
  predicate CostsCloseAsWritten(totalCost: real, items: seq<PurchaseLotItem>)
  {
    Abs(totalCost - AllocatedTotal(items)) < 0.01
  }

  /** Half a cent short: the form lets the user go on while the cost view still shows a cent to allocate. */
  lemma GuardDisagreesWithView()
    ensures var items := [PurchaseLotItem("sw0001", 9.995)];
      CostsCloseAsWritten(10.0, items) && !Balanced(10.0, items) && Diff(10.0, items) == 0.01
  {
    var items := [PurchaseLotItem("sw0001", 9.995)];
    assert AllocatedTotal(items) == 9.995;
    assert Round(0.5) == 1;
  }

  /** A guard on leaving the costs step that agrees with what the cost view shows. */
  predicate CostsClose(totalCost: real, items: seq<PurchaseLotItem>)
  {
    Balanced(totalCost, items)
  }

  /**
   * That guard lets the user on exactly when the view shows nothing left to
   * allocate, and it is stricter than the form's own guard.
   */
  lemma CanLeaveCostsWhenBalanced(totalCost: real, items: seq<PurchaseLotItem>)
    ensures CostsClose(totalCost, items) <==> Diff(totalCost, items) == 0.0
    ensures CostsClose(totalCost, items) ==> CostsCloseAsWritten(totalCost, items)
  {
    BalancedIsZeroDiff(totalCost, items);
  }

  /** `canNext()`: what each step needs before Next is enabled. */
  predicate CanNext(step: Step, name: string, totalCost: real, items: seq<PurchaseLotItem>)
  {
    match step
    case Details => Strings.Trim(name) != [] && totalCost > 0.0
    case Items => |items| > 0
    case Costs => CostsCloseAsWritten(totalCost, items)
    case Confirm => true
  }

  /** `items.map((item, idx) => ({ ...item, allocatedCost: costs[idx] }))`. */
  function WithCosts(items: seq<PurchaseLotItem>, costs: seq<real>): (r: seq<PurchaseLotItem>)
    requires |costs| == |items|
    ensures |r| == |items|
    ensures forall i :: 0 <= i < |r| ==> r[i] == PurchaseLotItem(items[i].minifigId, costs[i])
  {
    seq(|items|, i requires 0 <= i < |items| => items[i].(allocatedCost := costs[i]))
  }

  lemma {:induction false} WithCostsTotal(items: seq<PurchaseLotItem>, costs: seq<real>)
    requires |costs| == |items|
    ensures AllocatedTotal(WithCosts(items, costs)) == Finance.Sum(costs)
  {
    if items != [] {
      WithCostsTotal(items[1..], costs[1..]);
      assert WithCosts(items, costs)[1..] == WithCosts(items[1..], costs[1..]);
    }
  }

  function MarketValues(items: seq<PurchaseLotItem>, prices: map<string, PriceEntry>): (r: seq<Option<real>>)
    ensures |r| == |items|
    ensures forall i :: 0 <= i < |r| ==> r[i] == PriceService.MarketPrice(prices, items[i].minifigId)
  {
    seq(|items|, i requires 0 <= i < |items| => PriceService.MarketPrice(prices, items[i].minifigId))
  }

  /** The costs `applySplit` assigns, or nothing for the manual method. */
  function SplitCosts(how: SplitMethod, totalCost: real, items: seq<PurchaseLotItem>, prices: map<string, PriceEntry>): (r: Option<seq<real>>)
    ensures r.None? <==> how == ManualSplit
    ensures how == EqualSplit ==> r == Some(Finance.EqualSplit(totalCost, |items|))
    ensures how == MarketSplit ==> r == Some(Finance.MarketSplit(totalCost, MarketValues(items, prices)))
  {
    match how
    case EqualSplit => Some(Finance.EqualSplit(totalCost, |items|))
    case MarketSplit => Some(Finance.MarketSplit(totalCost, MarketValues(items, prices)))
    case ManualSplit => None
  }

  /** Either split of a non-empty lot gives one cost per figure, adding up to the total to the cent. */
  lemma SplitCostsSum(how: SplitMethod, totalCost: real, items: seq<PurchaseLotItem>, prices: map<string, PriceEntry>)
    requires how != ManualSplit && |items| > 0
    ensures var costs := SplitCosts(how, totalCost, items, prices).value;
      |costs| == |items| && Finance.Sum(costs) == RoundCents(totalCost)
  {
    if how == EqualSplit {
      Finance.EqualSplitSum(totalCost, |items|);
    } else {
      Finance.MarketSplitSum(totalCost, MarketValues(items, prices));
    }
  }

  /** A whole-cent total minus its own rounding rounds to zero. */
  lemma RoundingLeftover(x: real)
    ensures RoundCents(x - RoundCents(x)) == 0.0
  {
    var y := x - RoundCents(x);
    assert -0.5 <= y * 100.0 < 0.5;
    var r := Round(y * 100.0);
    assert r == 0;
  }

  /** An equal or by-market split of a non-empty lot leaves the view balanced. */
  lemma SplitBalances(how: SplitMethod, totalCost: real, items: seq<PurchaseLotItem>, prices: map<string, PriceEntry>)
    requires how != ManualSplit && |items| > 0
    ensures var costs := SplitCosts(how, totalCost, items, prices).value;
      Balanced(totalCost, WithCosts(items, costs))
  {
    var costs := SplitCosts(how, totalCost, items, prices).value;
    SplitCostsSum(how, totalCost, items, prices);
    WithCostsTotal(items, costs);
    RoundingLeftover(totalCost);
    BalancedIsZeroDiff(totalCost, WithCosts(items, costs));
  }

  /** After an equal or by-market split of a non-empty lot, Next is enabled on the costs step. */
  lemma SplitLetsCostsPass(how: SplitMethod, name: string, totalCost: real, items: seq<PurchaseLotItem>, prices: map<string, PriceEntry>)
    requires how != ManualSplit && |items| > 0
    ensures CanNext(Costs, name, totalCost, WithCosts(items, SplitCosts(how, totalCost, items, prices).value))
  {
    var split := WithCosts(items, SplitCosts(how, totalCost, items, prices).value);
    SplitBalances(how, totalCost, items, prices);
    CanLeaveCostsWhenBalanced(totalCost, split);
  }

  /** `updateItemCost`: the figure's items take the typed cost; the others stay as they are. */
  function SetItemCost(items: seq<PurchaseLotItem>, minifigId: string, cost: real): (r: seq<PurchaseLotItem>)
    ensures |r| == |items|
    ensures forall i :: 0 <= i < |r| ==> r[i].minifigId == items[i].minifigId
    ensures forall i :: 0 <= i < |r| ==>
      r[i].allocatedCost == (if items[i].minifigId == minifigId then cost else items[i].allocatedCost)
  {
    seq(|items|, i requires 0 <= i < |items| => if items[i].minifigId == minifigId then items[i].(allocatedCost := cost) else items[i])
  }

  /** The form's state. */
  class Form {
    var step: Step
    var name: string
    var source: string
    var totalCost: real
    var notes: string
    var items: seq<PurchaseLotItem>
    var splitMethod: SplitMethod

    /** An empty form on the details step, splitting equally. */
    predicate Empty()
      reads this
    {
      step == Details && name == [] && source == [] && totalCost == 0.0 && notes == [] && items == []
      && splitMethod == EqualSplit
    }

    constructor()
      ensures Empty()
    {
      step, name, source, totalCost, notes, items, splitMethod := Details, [], [], 0.0, [], [], EqualSplit;
    }

    /** The Next button: offered before the last step and enabled by `CanNext`; it moves one step on. */
    method Next()
      modifies this
      ensures old(step) != Confirm && CanNext(old(step), name, totalCost, items) ==>
        StepIndex(step) == StepIndex(old(step)) + 1
      ensures !(old(step) != Confirm && CanNext(old(step), name, totalCost, items)) ==> step == old(step)
      ensures name == old(name) && source == old(source) && totalCost == old(totalCost)
      ensures notes == old(notes) && items == old(items) && splitMethod == old(splitMethod)
    {
      if step != Confirm && CanNext(step, name, totalCost, items) {
        step := StepAt(StepIndex(step) + 1);
      }
    }

    /** The Back button: absent on the first step; it moves one step back. */
    method Back()
      modifies this
      ensures old(step) != Details ==> StepIndex(step) + 1 == StepIndex(old(step))
      ensures old(step) == Details ==> step == Details
      ensures name == old(name) && source == old(source) && totalCost == old(totalCost)
      ensures notes == old(notes) && items == old(items) && splitMethod == old(splitMethod)
    {
      if StepIndex(step) > 0 {
        step := StepAt(StepIndex(step) - 1);
      }
    }

    /** Create Lot, on the last step: hands over the lot and empties the form. */
    method Save() returns (lot: PurchaseLots.LotDraft)
      requires step == Confirm
      modifies this
      ensures lot == PurchaseLots.LotDraft(old(name), old(source), old(totalCost), old(items), old(notes))
      ensures Empty()
    {
      lot := PurchaseLots.LotDraft(name, source, totalCost, items, notes);
      step, name, source, totalCost, notes, items, splitMethod := Details, [], [], 0.0, [], [], EqualSplit;
    }

    /** `applySplit(method)`: records the method and, unless it is manual, assigns the split costs. */
    method ApplySplit(how: SplitMethod, prices: map<string, PriceEntry>)
      modifies this
      ensures splitMethod == how
      ensures how == ManualSplit ==> items == old(items)
      ensures how != ManualSplit ==> items == WithCosts(old(items), SplitCosts(how, totalCost, old(items), prices).value)
      ensures step == old(step) && name == old(name) && totalCost == old(totalCost)
      ensures source == old(source) && notes == old(notes)
    {
      splitMethod := how;
      var costs := SplitCosts(how, totalCost, items, prices);
      if costs.Some? {
        if |items| == 0 {
          assert |costs.value| == 0 by {
            if how == EqualSplit {
            } else {
              assert MarketValues(items, prices) == [];
            }
          }
        }
        items := WithCosts(items, costs.value);
      }
    }

    /** `updateItemCost(minifigId, cost)`: switches to manual and sets that figure's cost. */
    method UpdateItemCost(minifigId: string, cost: real)
      modifies this
      ensures splitMethod == ManualSplit && items == SetItemCost(old(items), minifigId, cost)
      ensures step == old(step) && name == old(name) && totalCost == old(totalCost)
      ensures source == old(source) && notes == old(notes)
    {
      splitMethod := ManualSplit;
      items := SetItemCost(items, minifigId, cost);
    }
  }
}
