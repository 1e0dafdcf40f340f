# GSAP showcase site: the UI state logic, in Dafny

The site is a one-page showcase of animation techniques built with React and the GSAP
animation library. Nearly all of it is animation configuration. This project models the
discrete state logic in the components and proves properties about it. Animation,
timing and the DOM are left out. There are six pieces, one Dafny module each:

- `Header` (`header.dfy`): the site header's scroll handler.
  - It keeps `lastScrollY`.
  - It adds the "scrolled" classes above 50 px.
  - It slides the header away (`yPercent` −100) when the page moves down and is above 100 px.
  - It also holds the mobile menu flag, with the `document.body.style.overflow` lock that
    follows the flag.
- `Tabs` (`tabs.dfy`): the generic tab widget.
  - It resolves the selected value: the `value` prop when given, otherwise its own state,
    which starts at `defaultValue`.
  - Its change handler updates that state only when uncontrolled, and calls `onValueChange`
    with the new value when that prop is given.
  - Triggers and panels compare their value with the selected one.
  - Using them outside a provider throws.
- `AnimationExample` (`animation_example.dfy`): an example card.
  - Preview and JavaScript tabs are always present.
  - CSS and HTML tabs are present when that code is truthy.
  - The card drives a controlled `Tabs` through its `activeTab` state, starting at `'preview'`.
- `Contact` (`contact.dfy`): the contact form.
  - It has field-wise updates and a submit that marks the form submitting.
  - A completion event stands for the simulated request's timer. It clears the submitting
    flag and shows the success message.
  - "Send Another Message" clears the form.
- `BackToTop` (`back_to_top.dfy`): the button shows when the page is scrolled past 500 px.
  Its display class is `flex` or `hidden`.
- `Hero` (`hero.dfy`): the title split. The heading is emptied and gets one
  `char inline-block` span per UTF-16 code unit of its text, with spaces turned into U+00A0.

`Wrappers` (`wrappers.dfy`) holds `Option` (an optional prop) and `Result` (a hook that can
throw).

Modelling choices:
- Each component whose state is updated in place is a class.
- Where the properties are about event traces, the methods are tied to a pure
  transition function: `Header.OnScroll`, `Contact.Step` and `BackToTop.VisibilityAfter`.
  The lemmas are proved about those functions.
- The title split's loop is proved equal to the pure function `Hero.CharSpans`, and the
  lemmas about the split are proved about that function.
- Scroll positions are `real`, since `window.scrollY` is a floating-point pixel count.
- A React state setter and the effect it triggers form one atomic step. Setting a state
  cell to its current value triggers nothing (`Header.SiteHeader.SetMobileMenuOpen`).
- The mobile menu has no toggle. The open button (`src/components/Header.tsx:146`) sets the
  flag. The close button (`src/components/Header.tsx:166`) and the nav links
  (`src/components/Header.tsx:78-80`) clear it, whatever its prior value.

## Model

| member | source | states |
|---|---|---|
| `Header.OnScroll` | src/components/Header.tsx:31-49 | one scroll event stores the position; whenever the header hides it already has the scrolled styling, and it hides only when moving down and above 100 |
| `Header.Replay` | src/components/Header.tsx:31-49 | a run of scroll events fed to the handler one by one: no event leaves the state as it was, and after a non-empty run `lastScrollY` is the last position |
| `Header.ReplayReflectsLastEvent` | src/components/Header.tsx:31-49 | after any non-empty run of scroll events, `lastScrollY` is the last position, the styling depends on it alone (> 50) and the header is hidden exactly when the last position exceeds the one before it and 100 |
| `Header.SiteHeader.constructor` | src/components/Header.tsx:25-29 | the handler starts from the scroll position at mount, with the base classes, shown, menu closed, overflow unlocked |
| `Header.SiteHeader.HandleScroll` | src/components/Header.tsx:31-49 | the scrolled classes are all present exactly when the position is above 50 and all absent otherwise; no other class changes; `yPercent` is −100 exactly when the position exceeds both the previous one and 100, else 0; `lastScrollY` becomes the position; the menu is untouched |
| `Header.SiteHeader.SetMobileMenuOpen` | src/components/Header.tsx:56-76 | the flag takes the given value and the body overflow follows it (`'hidden'` open, `''` closed); setting the current value changes nothing |
| `Header.SiteHeader.MenuEffect` | src/components/Header.tsx:60-75 | the body overflow is `'hidden'` when the menu is open and `''` when it is closed |
| `Header.SiteHeader.OpenMenu` | src/components/Header.tsx:146 | the menu is open and the body locked; pressing it on an open menu changes nothing |
| `Header.SiteHeader.CloseMenu` | src/components/Header.tsx:166 | the menu is closed and the body unlocked; pressing it on a closed menu changes nothing |
| `Header.SiteHeader.HandleNavClick` | src/components/Header.tsx:78-80 | whatever the prior state, the menu ends closed and the body unlocked, and the scroll state is untouched |
| `Tabs.SelectedValue` | src/components/ui/Tabs.tsx:31-34 | the selected value is the controlled value when the prop is given, otherwise the internal state |
| `Tabs.UseTabs` | src/components/ui/Tabs.tsx:10-16 | outside a provider the hook fails with the provider error; inside, it yields the provider's context |
| `Tabs.RenderTrigger` | src/components/ui/Tabs.tsx:69-88 | a trigger fails outside a provider; inside, `aria-selected` and the active styling hold exactly when its value equals the selected value |
| `Tabs.ClickTrigger` | src/components/ui/Tabs.tsx:78 | clicking a trigger hands its own value to the context's change handler; outside a provider it fails |
| `Tabs.RendersContent` | src/components/ui/Tabs.tsx:96-100 | a panel fails outside a provider; inside, it renders exactly when its value equals the selected value |
| `Tabs.RenderedPanels` | src/components/ui/Tabs.tsx:97-100 | the panels among a list that `TabsContent` renders for a selected value, in order: no more than listed, and only listed ones |
| `Tabs.RenderedPanelsAreRenderedContent` | src/components/ui/Tabs.tsx:96-100 | a listed panel is in the rendered list exactly when `TabsContent` renders it inside a provider with that selected value |
| `Tabs.RenderedPanelsAreSelected` | src/components/ui/Tabs.tsx:97-100 | every rendered panel carries the selected value, and as many render as there are panels with that value |
| `Tabs.AtMostOnePanelRenders` | src/components/ui/Tabs.tsx:97-100 | among panels with distinct values exactly the selected one renders if present, and none otherwise |
| `Tabs.TabsWidget.constructor` | src/components/ui/Tabs.tsx:31 | the internal value starts at `defaultValue` |
| `Tabs.TabsWidget.Context` | src/components/ui/Tabs.tsx:44 | the published value is the controlled value when given, else the internal value |
| `Tabs.TabsWidget.HandleValueChange` | src/components/ui/Tabs.tsx:36-41 | uncontrolled: the internal value becomes the new value and is then selected; controlled: the internal value is untouched; the callback, when supplied, receives the new value in both modes |
| `AnimationExample.TriggerSet` | src/components/AnimationExample.tsx:53-56 | Preview then JavaScript always come first; CSS is present exactly when `code.css` is truthy (so `''` counts as absent), HTML exactly when `code.html` is, CSS before HTML; nothing else is present and no value repeats |
| `AnimationExample.PanelsMatchTriggers` | src/components/AnimationExample.tsx:60-80 | the panels present are those of the triggers present, in the same order |
| `AnimationExample.ExampleCard.constructor` | src/components/AnimationExample.tsx:24 | the active tab starts at `'preview'`, and the inner `Tabs` state starts at its `defaultValue` `'preview'` |
| `AnimationExample.ExampleCard.ClickTrigger` | src/components/AnimationExample.tsx:50 | in controlled mode a click sets `activeTab` to the clicked value, which becomes the selected value, and leaves the inner `Tabs` state untouched |
| `AnimationExample.ExampleCard.ExactlyOnePanelRenders` | src/components/AnimationExample.tsx:60-80 | the selected value is `activeTab`, and exactly its panel renders |
| `AnimationExample.TriggerValues` | src/components/AnimationExample.tsx:53-56 | the tab list has two to four triggers, starting with Preview and JavaScript, and four exactly when both `code.css` and `code.html` are truthy |
| `AnimationExample.PanelValues` | src/components/AnimationExample.tsx:60-80 | two panels, Preview then JavaScript, plus one for each of `code.css` and `code.html` that is truthy |
| `Contact.WithField` | src/components/Contact.tsx:70-73 | the named field takes the new value and the other two fields keep theirs |
| `Contact.Step` | src/components/Contact.tsx:70-101 | a change sets its field and keeps the flags; submit and completion keep the fields, submit marks submitting and completion clears it; success appears only through a completion; "Send Another Message" clears success and the fields (Contact.tsx:195-197) |
| `Contact.Render` | src/components/Contact.tsx:115-217 | the success message shows exactly when `formSuccess` holds, the form otherwise; the form shows the field values, and its button is disabled and labelled "Sending..." exactly while submitting |
| `Contact.Enabled` | src/components/Contact.tsx:115-217 | the events the page can deliver: input changes and a submit only while the form is shown, a submit only through the enabled "Send Message" button with all `required` fields filled in, the reset only on the success message, a completion only when a timer is pending |
| `Contact.InitialState` | src/components/Contact.tsx:8-14 | all three fields start empty, not submitting and not successful, with the enabled "Send Message" button |
| `Contact.StepPreservesInv` | src/components/Contact.tsx:75-101 | every event the page can deliver keeps the invariant: at most one request in flight, in flight exactly while submitting, never success while submitting |
| `Contact.SuccessOnlyAfterSubmitting` | src/components/Contact.tsx:80-82 | the success message appears only when the completion fires on a form that was submitting, and that clears the submitting flag |
| `Contact.SubmitThenComplete` | src/components/Contact.tsx:75-82 | submitting a filled-in form makes it submitting with the button disabled; the completion is then possible and produces success, not submitting, with the fields kept |
| `Contact.RunPreservesInv` | src/components/Contact.tsx:75-101 | every state reached by a trace of deliverable events keeps the invariant |
| `Contact.SuccessIsPrecededBySubmitting` | src/components/Contact.tsx:75-101 | from an idle, unsuccessful form, any trace that ends in success contains a submit |
| `Contact.ContactSection.constructor` | src/components/Contact.tsx:8-14 | the state cells start empty, not submitting and not successful, with no timer pending |
| `Contact.ContactSection.HandleChange` | src/components/Contact.tsx:70-73 | only the named field changes, to the new value; the flags are untouched |
| `Contact.ContactSection.HandleSubmit` | src/components/Contact.tsx:75-78 | the form becomes submitting and one completion timer is scheduled; fields and success flag are untouched |
| `Contact.ContactSection.CompleteSubmission` | src/components/Contact.tsx:80-82 | when a scheduled timer fires, submitting ends and the success flag is set; the fields are kept |
| `Contact.ContactSection.SendAnotherMessage` | src/components/Contact.tsx:195-197 | success is cleared and name, email and message are reset to empty |
| `BackToTop.DisplayClass` | src/components/BackToTop.tsx:43-44 | the button's class is `flex` exactly when visible and `hidden` otherwise |
| `BackToTop.VisibilityAfter` | src/components/BackToTop.tsx:9-15 | the flag after a run of scroll events: unchanged by no event, and after one event the threshold rule applied to its position |
| `BackToTop.VisibilityIsLastPosition` | src/components/BackToTop.tsx:9-15 | after any non-empty run of scroll events the flag is whether the last position exceeds 500, whatever came before |
| `BackToTop.RepeatedPositionIsIdempotent` | src/components/BackToTop.tsx:9-15 | observing the latest position again any number of times leaves the flag unchanged |
| `BackToTop.BackToTopButton.constructor` | src/components/BackToTop.tsx:6 | the button starts invisible |
| `BackToTop.BackToTopButton.HandleScroll` | src/components/BackToTop.tsx:9-15 | after a scroll event the button is visible exactly when the position exceeds 500 |
| `BackToTop.BackToTopButton.ClassName` | src/components/BackToTop.tsx:43-44 | the rendered class is `flex` exactly when the button is visible and `hidden` exactly when it is not |
| `Hero.InnerText` | src/components/Hero.tsx:57 | the heading's text as read: empty for no children, and the node's own text for a heading holding one node, as the rendered title does |
| `Hero.CharSpan` | src/components/Hero.tsx:61-63 | the span created for one code unit has class `char inline-block` and shows exactly one unit, never a plain space, and the unit itself when it is not a space |
| `Hero.DisplayUnit` | src/components/Hero.tsx:63 | a space shows as U+00A0, every other code unit shows as itself, so a span never shows a plain space |
| `Hero.ReplaceSpaces` | src/components/Hero.tsx:63 | reference text: same length, each unit replaced by what its span shows |
| `Hero.CharSpans` | src/components/Hero.tsx:60-64 | the spans appended for a text: one per code unit, each of class `char inline-block` |
| `Hero.CharSpansShape` | src/components/Hero.tsx:60-64 | as many spans as code units, in the same order, each of class `char inline-block` holding its unit with a space shown as U+00A0 |
| `Hero.InnerTextOfCharSpans` | src/components/Hero.tsx:58-64 | the split heading's text is the original text with every space replaced by U+00A0 |
| `Hero.NoSpaceAfterSplit` | src/components/Hero.tsx:63 | no plain space is left in the split heading |
| `Hero.SplitIsIdempotent` | src/components/Hero.tsx:56-66 | splitting the already split heading again yields the same spans |
| `Hero.SurrogatePairSplits` | src/components/Hero.tsx:60 | every surrogate pair (a high surrogate 0xD800-0xDBFF followed by a low surrogate 0xDC00-0xDFFF, i.e. any character outside the Basic Multilingual Plane) becomes two spans, one per surrogate code unit |
| `Hero.TitleElement.constructor` | src/components/Hero.tsx:79-84 | the heading starts as a single text node holding the title |
| `Hero.TitleElement.SplitIntoChars` | src/components/Hero.tsx:56-66 | the heading is emptied first, so afterwards its children are exactly the spans of its former text, one per code unit, in order |

## Left out

- All GSAP tweens and timelines: targets, easings, durations, delays, stagger, repeat and yoyo. They belong to the animation library. The header's slide is recorded only as the `yPercent` target of its latest tween.
- The demo components and their timeline position offsets. IntersectionObserver and ScrollTrigger play/pause wiring is left out too. These are library semantics and asynchronous browser callbacks.
- The 1500 ms delay of the simulated submission. Only the order "submit, then completion" is modelled, and a completion requires a scheduled timer. The success-state tweens run inside the timer callback and are left out.
- Browser form validation beyond `required`. `Contact.Enabled` lets a submit through only with all three fields non-empty. The `type="email"` syntax check is not modelled.
- Scrolling to a nav target (Header.tsx:83-93) and the back-to-top scroll (BackToTop.tsx:33-39). Both are DOM queries and library calls. `Header.SiteHeader.HandleNavClick` models only the menu and ignores its target.
- The theme toggle. Its context is not part of this model.
- Effect cleanup and unmounting: removing listeners and reverting GSAP contexts.
- The null checks on element refs. The header, the mobile menu and the hero heading are always rendered. Contact's `<form>` exists only while `formSuccess` is false (Contact.tsx:115). The `formRef` check at Contact.tsx:85 guards only a tween. Contact.tsx:204 passes `formRef.current` to a tween without a check. No state depends on either.
- `Hero.CharSpan` keeps each code unit as the span's text. Assigning `innerText` would turn a line feed into a `<br>` element instead. The title at Hero.tsx:83 contains no line feed.
- The mobile menu's `translate-x-*` class and its slide tween.
- The heading's `innerText` is modelled (`Hero.InnerText`) as the concatenation of its children's texts. The browser's rendering-aware text extraction is not modelled.
- Examples.tsx, About.tsx, App.tsx and gsapUtils.ts. These are static data, composition and thin library wrappers.
