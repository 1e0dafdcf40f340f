/**
 * An animation example card: a tab strip (Preview, JavaScript and,
 * when the example has them, CSS and HTML) over a `Tabs` widget that the
 * card drives in controlled mode through its own `activeTab` state.
 */
module AnimationExample {
  import opened Wrappers
  import Tabs

  const Preview: string := "preview"
  const JavaScript: string := "javascript"
  const Css: string := "css"
  const Html: string := "html"

  /** The `code` prop; `css` and `html` are optional. */
  datatype Code = Code(javascript: string, css: Option<string>, html: Option<string>)

  /** JavaScript truthiness of an optional string: present and not empty. */
  predicate Truthy(s: Option<string>) {
    s.Some? && s.value != ""
  }

  /** The values of the triggers in the tab list, in render order. */
  function TriggerValues(code: Code): (triggers: seq<string>)
    ensures 2 <= |triggers| <= 4
    ensures triggers[..2] == [Preview, JavaScript]
    ensures |triggers| == 4 <==> Truthy(code.css) && Truthy(code.html)
  {
    [Preview, JavaScript]
    + (if Truthy(code.css) then [Css] else [])
    + (if Truthy(code.html) then [Html] else [])
  }

  /** The values of the content panels, in render order. */
  function PanelValues(code: Code): (panels: seq<string>)
    ensures |panels| == 2 + (if Truthy(code.css) then 1 else 0) + (if Truthy(code.html) then 1 else 0)
    ensures panels[0] == Preview && panels[1] == JavaScript
  {
    var panels := [Preview, JavaScript];
    var panels := if Truthy(code.css) then panels + [Css] else panels;
    if Truthy(code.html) then panels + [Html] else panels
  }

  /**
   * Preview and JavaScript are always the first two tabs; CSS is present
   * exactly when `code.css` is truthy and HTML exactly when `code.html` is,
   * CSS before HTML; nothing else is present, and no value appears twice.
   */
  lemma TriggerSet(code: Code)
    ensures |TriggerValues(code)| >= 2
    ensures TriggerValues(code)[0] == Preview && TriggerValues(code)[1] == JavaScript
    ensures Css in TriggerValues(code) <==> Truthy(code.css)
    ensures Html in TriggerValues(code) <==> Truthy(code.html)
    ensures forall v :: v in TriggerValues(code) ==> v in {Preview, JavaScript, Css, Html}
    ensures Truthy(code.css) && Truthy(code.html) ==> TriggerValues(code)[2] == Css && TriggerValues(code)[3] == Html
    ensures Tabs.Distinct(TriggerValues(code))
  {
    var t := TriggerValues(code);
    assert t[0] == Preview && t[1] == JavaScript;
    if Truthy(code.css) { assert t[2] == Css; }
    if Truthy(code.html) { assert t[|t| - 1] == Html; }
  }

  /** Each trigger has its panel and each panel its trigger, in the same order. */
  lemma PanelsMatchTriggers(code: Code)
    ensures PanelValues(code) == TriggerValues(code)
  {
  }

  /** The card's state, with the `Tabs` instance it renders. */
  class ExampleCard {
    const code: Code
    const tabs: Tabs.TabsWidget
    var activeTab: string

    ghost predicate Valid()
      reads this, tabs
    {
      && activeTab in TriggerValues(code)
      && tabs.uncontrolledValue == Preview
    }

    /** The value the inner `Tabs` publishes: the `value` prop is `activeTab`. */
    function Selected(): string
      reads this, tabs
    {
      tabs.Context(Some(activeTab)).value
    }

    constructor (code: Code)
      ensures Valid()
      ensures this.code == code && activeTab == Preview && fresh(tabs)
    {
      this.code := code;
      activeTab := Preview;
      tabs := new Tabs.TabsWidget(Preview);
    }

    /** Clicking the trigger of tab `value`; only rendered triggers can be clicked. */
    method ClickTrigger(value: string)
      requires Valid()
      requires value in TriggerValues(code)
      modifies this, tabs
      ensures Valid()
      ensures activeTab == value
      ensures Selected() == value
      ensures tabs.uncontrolledValue == old(tabs.uncontrolledValue)
    {
      var handed := Tabs.ClickTrigger(Some(tabs.Context(Some(activeTab))), value);
      var notified := tabs.HandleValueChange(Some(activeTab), true, handed.value);
      activeTab := notified.value;
    }

    /** The panel of the selected tab, and only that one, renders. */
    lemma ExactlyOnePanelRenders()
      requires Valid()
      ensures Selected() == activeTab
      ensures Tabs.RenderedPanels(PanelValues(code), Selected()) == [activeTab]
    {
      TriggerSet(code);
      PanelsMatchTriggers(code);
      Tabs.AtMostOnePanelRenders(PanelValues(code), activeTab);
    }
  }
}
