# Checkbox group selection logic, in Dafny

This project models the selection logic of the `checkbox-group` web component
(`site/_js/web-components/checkbox-group.js`) with its rendering stripped away.
The component holds an ordered list of checkbox inputs, a group name taken from
the first checkbox, an "all selected" flag and a count `show` of children to
display (initially 4). It keeps the checkboxes in step with a global store in
both directions:

- a store update sets every checkbox's `checked` flag from the store's entry
  list for the group;
- a change to a checkbox publishes the checked checkboxes (label and value) to
  the store with `setFilter(name, list)`;
- a mass-select control checks every enabled checkbox, or unchecks every
  enabled checkbox when all were selected, firing one change per flipped box;
- a "More" control and the mass-select control set `show` to the checkbox
  count, which reveals all children when there are no more children than
  checkboxes.

Layout:

- `selection.dfy`, module `Selection`: the checkbox and entry records, the
  store state, and the pure computations. `Filter`, `Find` and `Any` model the
  `filter`, `find` and `some` array methods the component is written with.
  `Reconcile` is the store update, `AllSelected` the flag, and `CheckedEntries`
  the published list. `MassSelected` and `MassLog` give the mass-select pass's
  final state and the lists it publishes. The lemmas state what these mean.
- `disclosure.dfy`, module `Disclosure`: the visible slice (with the
  end-index rule of `Array.prototype.slice`) and the rule for the "More"
  control.
- `checkbox_group.dfy`, module `Component`: class `CheckboxGroup` with the
  checkboxes in an `array<Checkbox>` updated in place. `published` logs every
  `setFilter` call; all of them carry the constant key `name`. Each method is
  proved against the functions of `Selection` and `Disclosure`.

The 10 ms debounce on the flag is replaced by an explicit `ComputeAllSelected`
step that the caller invokes. A change event dispatched by the mass-select pass
runs its `_checkOption` listener synchronously, so the model publishes one
snapshot right after each flip, as the source does.

`_checkOption` filters only on `checked`
(`site/_js/web-components/checkbox-group.js:137`), so a checkbox that is
disabled but checked is still published (`CheckedEntriesSingle`).

## Model

| member | source | states |
|---|---|---|
| Selection.Filter | site/_js/web-components/checkbox-group.js:136-137 | the result is no longer than the input and holds exactly the input's elements that satisfy the predicate |
| Selection.FilterAppend | site/_js/web-components/checkbox-group.js:136-137 | filtering a concatenation is the concatenation of the filtered parts, so the input's order is kept |
| Selection.Find | site/_js/web-components/checkbox-group.js:130 | a found element is in the input and satisfies the predicate; nothing is found exactly when no element satisfies it |
| Selection.Any | site/_js/web-components/checkbox-group.js:77 | true exactly when some element satisfies the predicate |
| Selection.ReconcileChecksListed | site/_js/web-components/checkbox-group.js:71-78 | after a store update each checkbox is checked iff some entry of the group's list has an equal value; count, order and every other field are unchanged |
| Selection.ReconcileExample | site/_js/web-components/checkbox-group.js:71-78 | entries valued "1" and "3" check the checkboxes valued 1 and 3 and uncheck the one valued 2 |
| Selection.MissingEntriesUncheckAll | site/_js/web-components/checkbox-group.js:72-73 | a state without `filters`, or without the group's key, leaves every checkbox unchecked |
| Selection.AllSelectedIff | site/_js/web-components/checkbox-group.js:127-133 | the flag is true iff every enabled checkbox is checked |
| Selection.AllDisabledIsAllSelected | site/_js/web-components/checkbox-group.js:127-133 | the flag is vacuously true when every checkbox is disabled |
| Selection.CheckedEntriesAppend | site/_js/web-components/checkbox-group.js:135-143 | the published list of a concatenation is the concatenation of the lists: it is built in array order |
| Selection.CheckedEntriesSingle | site/_js/web-components/checkbox-group.js:136-141 | one checkbox contributes its label and value iff it is checked, whether or not it is disabled |
| Selection.CheckedEntriesMembers | site/_js/web-components/checkbox-group.js:136-141 | an entry is published iff some checked checkbox has that label and value |
| Selection.ReconcilePublishedIsIdentity | site/_js/web-components/checkbox-group.js:71-81 | when checkbox values are distinct, a store update carrying the list the group published leaves every checkbox as it was |
| Selection.SharedValueSpreadsCheck | site/_js/web-components/checkbox-group.js:77 | with two checkboxes sharing a value, that store update checks the unchecked one too, so the distinctness condition is needed |
| Selection.MassSelectedTargets | site/_js/web-components/checkbox-group.js:151-163 | after mass select every enabled checkbox is checked iff the flag captured on entry was false; disabled checkboxes and every other field are unchanged |
| Selection.SelectAllSelectsAll | site/_js/web-components/checkbox-group.js:151-163 | mass select from a false flag makes the recomputed flag true |
| Selection.ResetClearsAll | site/_js/web-components/checkbox-group.js:151-163 | after mass select from a true flag, the recomputed flag is true iff no checkbox is enabled |
| Selection.MassLogCountsUpTo | site/_js/web-components/checkbox-group.js:153-163 | after the pass has visited k checkboxes, it has published once per checkbox among them whose `checked` flag it changed |
| Selection.MassLogOnePerFlip | site/_js/web-components/checkbox-group.js:154-162 | mass select publishes exactly once per checkbox whose `checked` flag actually flipped |
| Selection.MassLogLastUpTo | site/_js/web-components/checkbox-group.js:153-163 | the last list published while visiting k checkboxes is the checked entries of the state reached after those k |
| Selection.MassLogEndsWithFinal | site/_js/web-components/checkbox-group.js:153-163 | when mass select publishes at all, its last list is the checked entries of the final state |
| Disclosure.SliceEnd | site/_js/web-components/checkbox-group.js:105 | the slice end always lies within the children |
| Disclosure.VisibleIsFirstMin | site/_js/web-components/checkbox-group.js:105 | for a non-negative `show`, the rendered children are the first min(show, n) children |
| Disclosure.ShowMoreIffSomeHidden | site/_js/web-components/checkbox-group.js:114-115 | with as many children as checkboxes, the "More" control is rendered iff some child is hidden |
| Disclosure.RevealAll | site/_js/web-components/checkbox-group.js:171-175 | setting `show` to the checkbox count, when there are no more children than checkboxes, renders all children, hides the "More" control, and keeps the children shown before in front |
| Component.CheckboxGroup.constructor | site/_js/web-components/checkbox-group.js:28-34 | needs at least one checkbox; the name is the first checkbox's name, the checkboxes keep their given flags, `show` starts at 4, `allSelected` starts false, nothing is published, and "More" is rendered iff there are more than 4 checkboxes |
| Component.CheckboxGroup.OnStoreUpdate | site/_js/web-components/checkbox-group.js:71-81 | each checkbox is checked iff the group's entry list has an equal value; nothing else changes |
| Component.CheckboxGroup.ComputeAllSelected | site/_js/web-components/checkbox-group.js:127-133 | the flag becomes true iff no enabled checkbox is unchecked |
| Component.CheckboxGroup.CheckOption | site/_js/web-components/checkbox-group.js:135-143 | appends the checked entries, in array order, to the published log |
| Component.CheckboxGroup.HandleMassSelect | site/_js/web-components/checkbox-group.js:148-166 | enabled checkboxes end in the state opposite to the flag read on entry, disabled ones keep theirs, one list is published per flip, `show` becomes the checkbox count, the "More" control disappears, and every child is rendered when there are no more children than checkboxes |
| Component.CheckboxGroup.HandleShowMore | site/_js/web-components/checkbox-group.js:171-175 | `show` becomes the checkbox count, the "More" control disappears, and every child is rendered when there are no more children than checkboxes |

## Left out

- `external/build-external.js` in full: it deletes and creates directories, runs build scripts as child processes, globs files, hashes them with a foreign SHA-256 and writes files. It is I/O glue with no logic worth stating.
- Rendering (the lit-element templates, the caret icon, the i18n strings of the mass-select button) and property reflection. Only the visible slice and the "More" condition are kept.
- The store's internals and the `setFilter` action. A publish is an append to `published`. How the store reacts, including an echo back into `OnStoreUpdate`, is not modelled; `ReconcilePublishedIsIdentity` states when such an echo would be harmless.
- The 10 ms debounce timer: `ComputeAllSelected` is an explicit step. `connectedCallback`'s own call to it is the same step.
- Listener registration and removal in `connectedCallback` and `disconnectedCallback`. The model assumes the group is connected, so every change event reaches `CheckOption`.
- `preventDefault` on the click events: it only affects the browser's default action.
- The label source (`nextSibling?.textContent`): it is an opaque string field, and a missing sibling is not distinguished.
- A `show` value set from markup through the reflected attribute, including NaN. The model starts `show` at 4 and only the two handlers change it, though `Visible` accepts any integer, negative ones included.
- User clicks on individual checkboxes: the browser toggles them. The model provides the listener they trigger (`CheckOption`), not the toggle.
- `allSelected` before the first recompute: the source leaves it undefined; the model starts it at `false`, which behaves the same in the mass-select condition (`checkbox-group.js:155-156`) and in the button label (`checkbox-group.js:102`).
