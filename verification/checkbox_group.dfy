/** The checkbox-group component as a stateful object: its checkboxes, the
    group name, the "all selected" flag, the number of children shown, and
    the lists it has published to the store under the group name. */
module Component {
  import opened Selection
  import opened Disclosure

  class CheckboxGroup<Child> {
    /** The checkbox inputs found inside the group, in document order. */
    const boxes: array<Checkbox>
    /** The group's original children, as they were at construction. */
    const initialChildren: seq<Child>
    /** The store key of the group, taken from the first checkbox. */
    const name: string

    var allSelected: bool
    var show: int
    /** The entry lists passed to the store's `setFilter` action under `name`,
        oldest first. */
    var published: seq<seq<Entry>>

    /** A group needs at least one checkbox: its name comes from the first. */
    constructor (checkboxes: seq<Checkbox>, children: seq<Child>)
      requires |checkboxes| > 0
      ensures fresh(boxes) && boxes[..] == checkboxes
      ensures initialChildren == children
      ensures name == checkboxes[0].name
      ensures show == InitialShow && !allSelected && published == []
      ensures ShowMoreButton() <==> |checkboxes| > 4
    {
      boxes := new Checkbox[|checkboxes|](i requires 0 <= i < |checkboxes| => checkboxes[i]);
      initialChildren := children;
      name := checkboxes[0].name;
      show := InitialShow;
      allSelected := false;
      published := [];
    }

    /** Whether the "More" control is rendered. */
    predicate ShowMoreButton()
      reads this
    {
      ShowMoreShown(show, boxes.Length)
    }

    /** The children rendered inside the group. */
    function VisibleChildren(): seq<Child>
      reads this
    {
      Visible(initialChildren, show)
    }

    /** Sets every `checked` flag from the store's entry list for the group;
        nothing else about the checkboxes changes. */
    method OnStoreUpdate(state: StoreState)
      modifies boxes
      ensures boxes[..] == Reconcile(old(boxes[..]), EntriesFor(state, name))
      ensures forall i :: 0 <= i < boxes.Length ==>
        (boxes[i].checked <==> exists j :: 0 <= j < |EntriesFor(state, name)| && EntriesFor(state, name)[j].value == boxes[i].value)
      ensures forall i :: 0 <= i < boxes.Length ==> boxes[i] == old(boxes[i]).(checked := boxes[i].checked)
    {
      var entries := EntriesFor(state, name);
      for i := 0 to boxes.Length
        invariant forall k :: 0 <= k < i ==> boxes[k] == old(boxes[k]).(checked := Listed(entries, old(boxes[k]).value))
        invariant forall k :: i <= k < boxes.Length ==> boxes[k] == old(boxes[k])
      {
        boxes[i] := boxes[i].(checked := Listed(entries, boxes[i].value));
      }
      ReconcileChecksListed(old(boxes[..]), entries);
    }

    /** Recomputes the "all selected" flag: true exactly when no enabled
        checkbox is unchecked. */
    method ComputeAllSelected()
      modifies this`allSelected
      ensures allSelected == AllSelected(boxes[..])
      ensures allSelected <==> forall i :: 0 <= i < boxes.Length && !boxes[i].disabled ==> boxes[i].checked
    {
      allSelected := AllSelected(boxes[..]);
      AllSelectedIff(boxes[..]);
    }

    /** The change listener: publishes the checked checkboxes' entries. */
    method CheckOption()
      modifies this`published
      ensures published == old(published) + [CheckedEntries(boxes[..])]
    {
      published := published + [CheckedEntries(boxes[..])];
    }

    /** The mass-select control: flips every enabled checkbox that is not yet
        in the state opposite to the flag read on entry, publishing once after
        each flip, then sets `show` to the checkbox count. The flag itself is left for the
        next ComputeAllSelected. */
    method HandleMassSelect()
      modifies this`show, this`published, boxes
      ensures boxes[..] == MassSelected(old(boxes[..]), old(allSelected))
      ensures forall i :: 0 <= i < boxes.Length && !boxes[i].disabled ==> boxes[i].checked == !old(allSelected)
      ensures forall i :: 0 <= i < boxes.Length && old(boxes[i]).disabled ==> boxes[i] == old(boxes[i])
      ensures published == old(published) + MassLog(old(boxes[..]), old(allSelected), boxes.Length)
      ensures show == boxes.Length && !ShowMoreButton()
      ensures |initialChildren| <= boxes.Length ==> VisibleChildren() == initialChildren
    {
      var all := allSelected;
      ghost var start := boxes[..];
      ghost var log := published;
      for i := 0 to boxes.Length
        invariant boxes[..] == MassSelectedUpTo(start, all, i)
        invariant published == log + MassLog(start, all, i)
      {
        var b := boxes[i];
        if (all && !b.checked) || (!all && b.checked) || b.disabled {
          continue;
        }
        boxes[i] := b.(checked := !all);
        assert boxes[..] == MassSelectedUpTo(start, all, i + 1);
        CheckOption();
      }
      MassSelectedTargets(start, all);
      show := boxes.Length;
    }

    /** The "More" control: sets `show` to the checkbox count. */
    method HandleShowMore()
      modifies this`show
      ensures show == boxes.Length && !ShowMoreButton()
      ensures |initialChildren| <= boxes.Length ==> VisibleChildren() == initialChildren
    {
      show := boxes.Length;
    }
  }
}
