/**
 * The tab widget: `Tabs` resolves the selected value (controlled or
 * uncontrolled) and publishes it with its change handler through a
 * context; `TabsTrigger` and `TabsContent` read that context.
 */
module Tabs {
  import opened Wrappers

  /** What `Tabs` publishes; its `onValueChange` is `TabsWidget.HandleValueChange`. */
  datatype TabsContext = TabsContext(value: string)

  datatype TabsError = OutsideProvider

  /** The selected value for a `value` prop (absent: uncontrolled) and the internal state. */
  function SelectedValue(controlledValue: Option<string>, uncontrolledValue: string): (v: string)
    ensures controlledValue.Some? ==> v == controlledValue.value
    ensures controlledValue.None? ==> v == uncontrolledValue
  {
    match controlledValue
    case Some(c) => c
    case None => uncontrolledValue
  }

  /** `useTabs`: the nearest provider's context, an error outside any provider. */
  function UseTabs(provider: Option<TabsContext>): (r: Result<TabsContext, TabsError>)
    ensures r.Success? <==> provider.Some?
    ensures r.Success? ==> r.value == provider.value
    ensures r.Failure? ==> r.error == OutsideProvider
  {
    match provider
    case Some(ctx) => Success(ctx)
    case None => Failure(OutsideProvider)
  }

  const ActiveTriggerClasses: string :=
    "border-primary-500 text-primary-600 dark:border-primary-400 dark:text-primary-400"
  const InactiveTriggerClasses: string :=
    "border-transparent text-gray-600 dark:text-gray-400 hover:text-gray-900 dark:hover:text-gray-200"

  /** A rendered trigger button: its `aria-selected` and its state-dependent classes. */
  datatype TriggerView = TriggerView(ariaSelected: bool, stateClasses: string)

  /** `TabsTrigger` for tab `value`. */
  function RenderTrigger(provider: Option<TabsContext>, value: string): (r: Result<TriggerView, TabsError>)
    ensures r.Failure? <==> provider.None?
    ensures r.Success? ==> (r.value.ariaSelected <==> provider.value.value == value)
    ensures r.Success? ==>
              r.value.stateClasses == (if r.value.ariaSelected then ActiveTriggerClasses else InactiveTriggerClasses)
  {
    match UseTabs(provider)
    case Failure(e) => Failure(e)
    case Success(ctx) =>
      var isActive := ctx.value == value;
      Success(TriggerView(isActive, if isActive then ActiveTriggerClasses else InactiveTriggerClasses))
  }

  /** Clicking the trigger of tab `value`: the value handed to the context's `onValueChange`. */
  function ClickTrigger(provider: Option<TabsContext>, value: string): (r: Result<string, TabsError>)
    ensures r.Failure? <==> provider.None?
    ensures r.Success? ==> r.value == value
  {
    match UseTabs(provider)
    case Failure(e) => Failure(e)
    case Success(_) => Success(value)
  }

  /** `TabsContent` for tab `value`: whether its panel renders (otherwise it returns null). */
  function RendersContent(provider: Option<TabsContext>, value: string): (r: Result<bool, TabsError>)
    ensures r.Failure? <==> provider.None?
    ensures r.Success? ==> (r.value <==> provider.value.value == value)
  {
    match UseTabs(provider)
    case Failure(e) => Failure(e)
    case Success(ctx) => Success(ctx.value == value)
  }

  /**
   * The values, in order, of those `TabsContent` panels among `panels` that
   * render inside a provider whose selected value is `selected`.
   */
  function RenderedPanels(panels: seq<string>, selected: string): (rendered: seq<string>)
    ensures |rendered| <= |panels|
    ensures forall p :: p in rendered ==> p in panels
    decreases |panels|
  {
    if panels == [] then []
    else
      (if RendersContent(Some(TabsContext(selected)), panels[0]) == Success(true) then [panels[0]] else [])
      + RenderedPanels(panels[1..], selected)
  }

  /** A listed panel is in the rendered list exactly when `TabsContent` renders it. */
  lemma {:induction false} RenderedPanelsAreRenderedContent(panels: seq<string>, selected: string)
    ensures forall p :: p in RenderedPanels(panels, selected) ==>
              RendersContent(Some(TabsContext(selected)), p) == Success(true)
    ensures forall p :: p in panels && RendersContent(Some(TabsContext(selected)), p) == Success(true) ==>
              p in RenderedPanels(panels, selected)
    decreases |panels|
  {
    if panels != [] {
      RenderedPanelsAreRenderedContent(panels[1..], selected);
      assert forall p :: p in panels ==> p == panels[0] || p in panels[1..];
    }
  }

  predicate Distinct(xs: seq<string>) {
    forall i, j :: 0 <= i < j < |xs| ==> xs[i] != xs[j]
  }

  /** Every rendered panel is one for the selected value; there is one for each panel listed with it. */
  lemma {:induction false} RenderedPanelsAreSelected(panels: seq<string>, selected: string)
    ensures forall p :: p in RenderedPanels(panels, selected) ==> p == selected
    ensures |RenderedPanels(panels, selected)| == multiset(panels)[selected]
    decreases |panels|
  {
    if panels != [] {
      RenderedPanelsAreSelected(panels[1..], selected);
      assert panels == [panels[0]] + panels[1..];
      assert multiset(panels) == multiset([panels[0]]) + multiset(panels[1..]);
    }
  }

  /** Among panels with distinct values, exactly one renders when one has the selected value, else none. */
  lemma {:induction false} AtMostOnePanelRenders(panels: seq<string>, selected: string)
    requires Distinct(panels)
    ensures selected in panels ==> RenderedPanels(panels, selected) == [selected]
    ensures selected !in panels ==> RenderedPanels(panels, selected) == []
  {
    RenderedPanelsAreSelected(panels, selected);
    var rendered := RenderedPanels(panels, selected);
    DistinctOccursAtMostOnce(panels, selected);
    if selected in panels {
      assert |rendered| == 1;
      assert rendered[0] in rendered;
    } else {
      assert multiset(panels)[selected] == 0;
    }
  }

  lemma {:induction false} DistinctOccursAtMostOnce(xs: seq<string>, x: string)
    requires Distinct(xs)
    ensures multiset(xs)[x] == if x in xs then 1 else 0
    decreases |xs|
  {
    if xs != [] {
      assert xs == [xs[0]] + xs[1..];
      assert multiset(xs) == multiset([xs[0]]) + multiset(xs[1..]);
      assert Distinct(xs[1..]) by {
        forall i, j | 0 <= i < j < |xs[1..]| ensures xs[1..][i] != xs[1..][j] {
          assert xs[1..][i] == xs[i + 1] && xs[1..][j] == xs[j + 1];
        }
      }
      DistinctOccursAtMostOnce(xs[1..], x);
      if xs[0] == x {
        assert x !in xs[1..] by {
          forall k | 0 <= k < |xs[1..]| ensures xs[1..][k] != x {
            assert xs[1..][k] == xs[k + 1];
          }
        }
      }
    }
  }

  /** The state `Tabs` owns. The `value` and `onValueChange` props are passed to each operation. */
  class TabsWidget {
    var uncontrolledValue: string

    /** `useState(defaultValue)`. */
    constructor (defaultValue: string)
      ensures uncontrolledValue == defaultValue
    {
      uncontrolledValue := defaultValue;
    }

    /** The context the provider publishes: the selected value, for triggers and panels. */
    function Context(controlledValue: Option<string>): (ctx: TabsContext)
      reads this
      ensures controlledValue.Some? ==> ctx.value == controlledValue.value
      ensures controlledValue.None? ==> ctx.value == uncontrolledValue
    {
      TabsContext(SelectedValue(controlledValue, uncontrolledValue))
    }

    /**
     * `handleValueChange`. `notified` is the value the `onValueChange` prop
     * receives, `None` when that prop is absent.
     */
    method HandleValueChange(controlledValue: Option<string>, hasOnValueChange: bool, newValue: string)
      returns (notified: Option<string>)
      modifies this
      ensures controlledValue.None? ==> uncontrolledValue == newValue
      ensures controlledValue.Some? ==> uncontrolledValue == old(uncontrolledValue)
      ensures controlledValue.None? ==> Context(controlledValue).value == newValue
      ensures notified == if hasOnValueChange then Some(newValue) else None
    {
      if controlledValue.None? {
        uncontrolledValue := newValue;
      }
      notified := if hasOnValueChange then Some(newValue) else None;
    }
  }
}
