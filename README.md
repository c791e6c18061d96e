# Reveal/hide vocabulary toggle — a Dafny model

This project models the one piece of behaviour in the code-snippets repository.
A vocabulary page shows each word twice: an "obscured" rendering (class
`word-obscured`) and a "full" rendering (class `word-full`). A button shows
either "Reveal" or "Hide". Each click does three things:

- it flips the button's label text;
- it flips the `style` attribute of every obscured rendering between
  `display:inline` and `display:none`;
- it flips every full rendering the opposite way.

The flip is a two-value attribute toggle over a collection of elements. The
repository has it twice. `setAndToggleAttribute` is the generic helper. The
inner `styleWord` function of the click handler is the same loop with the
attribute fixed to `style`. The rule for each element: if the attribute holds
exactly the first value, write the second; in every other case (no attribute,
the second value, any third value) write the first.

Files:

- `dom.dfy` (module `Dom`): the element interface the code uses. An `Element`
  has an attribute map `attrs` and a text content `text`. An attribute name
  missing from the map models `getAttribute` returning `null`. `setAttribute`
  throws an `InvalidCharacterError` DOMException when the name is not a valid
  attribute name (the DOM Standard's `setAttribute()` algorithm): the model's
  `SetAttribute` returns the status `InvalidCharacterError` and changes nothing.
  `ValidAttrName` is that rule: the name is non-empty and holds no ASCII
  whitespace, NULL, `/`, `=` or `>`.
- `set_and_toggle_attribute.dfy` (module `SetAndToggle`): the generic flip.
  `SetAndToggleAttribute` is the in-place loop over a `seq<Element>`. It is
  proved against two specification functions: `FlipValue` (the value one pass
  writes) and `FlippedTimes` (the value after n passes). Lemmas about those
  functions state the alternation and involution properties.
- `reveal_hide_vocab.dfy` (module `RevealHideVocab`): the label toggle, `StyleWord`,
  and the `Page` class whose `Click` method is the click handler.

The generic flip takes any collection, so the model does not assume that
elements are distinct. An element that occurs k times is flipped k times, and
`SetAndToggleAttribute`'s contract says so through the element's multiplicity.
The single-flip contract is a consequence that holds when the collection has
no repeats. `StyleWord` and `Click` apply only to the page's two node lists,
whose nodes are distinct. For those two the model states, as a precondition,
that neither list repeats a node and that no node is in both lists.

`StyleWord`'s body calls `SetAndToggleAttribute` with the attribute `style`. It
does not repeat the loop. The two loops in the source are identical apart from
that constant.

The exception from `setAttribute` leaves the `forEach` loop and the function.
The attribute name is the same for every element, so with an invalid name the
first write throws and no element has changed. `SetAndToggleAttribute` models
this by returning `InvalidCharacterError` at the first element. An empty
collection never calls `setAttribute`, so it returns `Done` whatever the name.
`styleWord` always writes `style`, a valid name (`StyleIsValidName`), so the
click handler never throws.

The two values are meant to be distinct, but the code does not check this.
The model allows equal values: every element then ends up holding that value
(`FlippedTimesEqualValues`).

The label is also read through `===` against `"Reveal"`. `ToggleLabel` states
that this is the same rule as the attribute flip with the pair
("Reveal", "Hide"), and `LabelAfterIsFlipped` lifts that to any number of
clicks.

## Model

| member | source | states |
|---|---|---|
| `Dom.Element.GetAttribute` | set-and-toggle-attribute.js:3 | reading an attribute yields its value, or None where the element has no such attribute (the `null` case) |
| `Dom.Element.SetAttribute` | set-and-toggle-attribute.js:6-7 | with a valid name, writing an attribute replaces or adds that one key and leaves every other attribute and the text as they were; it reports `InvalidCharacterError` exactly when the name is invalid, and then nothing changes |
| `SetAndToggle.FlipValue` | set-and-toggle-attribute.js:4-7 | the value written is always one of the pair; with distinct values it is the second exactly when the old value was exactly the first (absent, second or third value all give the first) |
| `SetAndToggle.ToggleOne` | set-and-toggle-attribute.js:2-8 | the per-element callback: with a valid name the element's attributes become the old ones with only `attr` set to the flipped value; with an invalid name it reports `InvalidCharacterError` and the element is unchanged |
| `SetAndToggle.SetAndToggleAttribute` | set-and-toggle-attribute.js:1-9 | it ends normally exactly when the name is valid or the collection is empty; otherwise the first write throws `InvalidCharacterError` and no element has changed. When it ends normally, for every element, in any collection: `attr` ends as its old value flipped once per occurrence of the element; every other attribute is unchanged; `attr` is present and holds one of the two values; with no repeats each element's attributes are exactly the old ones with `attr` flipped once; only the `attrs` of listed elements is written, so an empty collection changes nothing and the collection itself keeps its length and order |
| `SetAndToggle.CountPrefixIsMultiplicity` | set-and-toggle-attribute.js:2 | the loop's running count of visits to an element equals that element's multiplicity in the visited prefix |
| `SetAndToggle.DistinctOccursOnce` | set-and-toggle-attribute.js:2 | in a collection without repeats each element is visited exactly once, so elements are flipped independently |
| `SetAndToggle.FlippedTimesAlternates` | set-and-toggle-attribute.js:4-7 | with distinct values, successive passes give v2, v1, v2, … from v1 and v1, v2, v1, … from any other start (absent, v2 or a third value) |
| `SetAndToggle.FlippedEvenTimesRestores` | set-and-toggle-attribute.js:4-7 | with distinct values and a start already in the pair, any even number of passes restores the original value |
| `SetAndToggle.FlipTwiceRestores` | set-and-toggle-attribute.js:4-7 | on a whole attribute map whose `attr` is already one of two distinct values, two passes give back the same map |
| `SetAndToggle.FlippedTimesPeriodic` | set-and-toggle-attribute.js:4-7 | after the first pass the value repeats with period two, whatever the start |
| `SetAndToggle.FlippedTimesEqualValues` | set-and-toggle-attribute.js:5-7 | when both values are equal, any positive number of passes leaves the attribute holding that value |
| `RevealHideVocab.ToggleLabel` | reveal-hide-vocab.js:8-9 | the new label is "Reveal" or "Hide"; it is "Hide" exactly when the old text was exactly "Reveal"; this is the attribute flip's rule with the pair ("Reveal", "Hide") |
| `RevealHideVocab.LabelAfterIsFlipped` | reveal-hide-vocab.js:8-9 | the label after n clicks equals n passes of the two-value flip over the old text |
| `RevealHideVocab.LabelAlternates` | reveal-hide-vocab.js:8-9 | after any click the label is "Reveal" or "Hide"; from "Reveal" successive clicks give Hide, Reveal, Hide, …; from any other text they give Reveal, Hide, Reveal, … |
| `RevealHideVocab.StyleIsValidName` | reveal-hide-vocab.js:19-20 | the name `style` is a valid attribute name, so `styleWord`'s writes never throw |
| `RevealHideVocab.StyleWord` | reveal-hide-vocab.js:14-22 | on a node list without repeats, every word's attributes become the old ones with only `style` flipped by the given pair; nothing outside the list's `attrs` is written |
| `RevealHideVocab.Page.constructor` | reveal-hide-vocab.js:2-4 | the page holds the resolved label element and the two node lists as given |
| `RevealHideVocab.Page.Click` | reveal-hide-vocab.js:6-12 | the label text is toggled; each obscured word gets `style` flipped by (`display:inline`, `display:none`) and each full word by (`display:none`, `display:inline`), with every other attribute unchanged; if the obscured words were all shown and the full ones all hidden, the reverse holds afterwards, and vice versa; only the label's text and the words' `attrs` are written |
| `RevealHideVocab.ClickN` | reveal-hide-vocab.js:6-12 | after `n` clicks the label reads `LabelAfter` of its old text (so `LabelAlternates` applies to clicks), each obscured word's `style` is its old value after `n` passes of the (`display:inline`, `display:none`) flip, each full word's after `n` passes of the reversed pair, and every other attribute is unchanged |
| `RevealHideVocab.ClickTwice` | reveal-hide-vocab.js:6-12 | two clicks restore the page: the label text and every word's attributes return to their values before the first click, when the label reads "Reveal" or "Hide" and every style is one of the two values |

Two example scenarios, checked by the verifier:
`RevealHideVocab.RevealThenHide` starts from label "Reveal", one obscured word
shown and its full rendering hidden, then clicks twice;
`SetAndToggle.EmptyNameThrows` flips the empty attribute name over two
elements and gets `InvalidCharacterError` with both elements unchanged.

## Left out

- DOM lookup (`getElementById`, `querySelectorAll`, reveal-hide-vocab.js:2-4 and 7) is not modelled. The label element and the two node lists are inputs that are already resolved and not null. The error when an element is missing is outside the model.
- The label is looked up again on every click (reveal-hide-vocab.js:7). The model resolves it once, as a field of the page. The page's elements never change, so the two behave the same.
- Event wiring is not modelled: `addEventListener` (reveal-hide-vocab.js:6) and the module-level call (reveal-hide-vocab.js:25). A click is a call to `Page.Click`.
- The assignments of `setAttribute`'s `undefined` result to `attribute` / `styleAttr` (set-and-toggle-attribute.js:4, reveal-hide-vocab.js:17) have no observable effect. The model leaves them out.
- `RevealHideVocab.StyleWord` and `RevealHideVocab.Page.Click`: they require the node lists to hold distinct nodes and to share no node. The generic `SetAndToggle.SetAndToggleAttribute` has no such requirement and covers repeats.
- How the DOM identifies nodes is not modelled. Element identity is Dafny object identity.
- CSS rendering is not modelled. `display:inline` and `display:none` are opaque strings.
- `Dom.Element.SetAttribute` and `SetAndToggle.SetAndToggleAttribute`: the exception is a returned status, not a thrown one; the model does not propagate it further, and no caller in the code catches it. `Dom.ValidAttrName` follows the DOM Standard's current name rule; browsers that still apply the older XML `Name` production (which also rejects, for example, a leading digit) throw on more names than the model does.
- `getAttribute`/`setAttribute` are not modelled beyond exact string values. There is no attribute-name case folding and no normalisation of style text.
