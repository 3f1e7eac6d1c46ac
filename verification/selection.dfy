/** The selection logic of a checkbox group, stated on values: the checkbox
    records, the store's filter state, and the pure computations the component
    performs over them (reconciling against the store, the "all selected" flag,
    the list it publishes, and the effect of the mass-select control). */
module Selection {

  datatype Option<T> = None | Some(value: T)

  /** One checkbox input of the group. `labelText` is the text next to the
      input, treated as an opaque string (the name `label` is a Dafny keyword). */
  datatype Checkbox = Checkbox(name: string, value: string, labelText: string, checked: bool, disabled: bool)

  /** One entry of a filter list in the store. */
  datatype Entry = Entry(labelText: string, value: string)

  /** The part of the application state the component reads: `filters` may be
      absent altogether, and otherwise maps a group name to its entry list. */
  datatype StoreState = StoreState(filters: Option<map<string, seq<Entry>>>)

  // ---------------------------------------------------------------------------
  // The array operations the component is written with

  /** `Array.prototype.filter`: the elements satisfying `p`, in their order. */
  function Filter<T(!new)>(s: seq<T>, p: T -> bool): (r: seq<T>)
    ensures |r| <= |s|
    ensures forall x :: x in r <==> x in s && p(x)
  {
    if s == [] then [] else (if p(s[0]) then [s[0]] else []) + Filter(s[1..], p)
  }

  /** `Array.prototype.find`: the first element satisfying `p`, if any. */
  function Find<T(!new)>(s: seq<T>, p: T -> bool): (r: Option<T>)
    ensures r.Some? ==> r.value in s && p(r.value)
    ensures r.None? <==> forall x :: x in s ==> !p(x)
  {
    if s == [] then None else if p(s[0]) then Some(s[0]) else Find(s[1..], p)
  }

  /** `Array.prototype.some`: whether some element satisfies `p`. */
  function Any<T>(s: seq<T>, p: T -> bool): (r: bool)
    ensures r <==> exists i :: 0 <= i < |s| && p(s[i])
  {
    if s == [] then false
    else if p(s[0]) then true
    else
      var r := Any(s[1..], p);
      assert forall i :: 1 <= i < |s| ==> s[i] == s[1..][i - 1];
      r
  }

  lemma {:induction false} FilterAppend<T(!new)>(a: seq<T>, b: seq<T>, p: T -> bool)
    ensures Filter(a + b, p) == Filter(a, p) + Filter(b, p)
  {
    if a == [] {
      assert a + b == b;
    } else {
      assert (a + b)[1..] == a[1..] + b;
      FilterAppend(a[1..], b, p);
    }
  }

  // ---------------------------------------------------------------------------
  // Reconciling with the store

  /** The entry list the store holds for group `name`: an absent `filters`
      object and an absent key both read as the empty list. */
  function EntriesFor(state: StoreState, name: string): seq<Entry> {
    match state.filters
    case None => []
    case Some(filters) => if name in filters then filters[name] else []
  }

  /** Whether some entry carries the value `v`. */
  predicate Listed(entries: seq<Entry>, v: string) {
    Any(entries, (e: Entry) => e.value == v)
  }

  /** Every checkbox with its `checked` flag set from the entry list. */
  function Reconcile(s: seq<Checkbox>, entries: seq<Entry>): seq<Checkbox> {
    seq(|s|, i requires 0 <= i < |s| => s[i].(checked := Listed(entries, s[i].value)))
  }

  /** After reconciling, a checkbox is checked exactly when some entry has
      the same value, and nothing but the `checked` flags has changed. */
  lemma ReconcileChecksListed(s: seq<Checkbox>, entries: seq<Entry>)
    ensures |Reconcile(s, entries)| == |s|
    ensures forall i :: 0 <= i < |s| ==>
      (Reconcile(s, entries)[i].checked <==> exists j :: 0 <= j < |entries| && entries[j].value == s[i].value)
    ensures forall i :: 0 <= i < |s| ==>
      Reconcile(s, entries)[i] == s[i].(checked := Reconcile(s, entries)[i].checked)
  {
  }

  /** Store entries with values "1" and "3" check the first and third of
      three checkboxes valued "1", "2", "3". */
  lemma ReconcileExample()
    ensures
      var s := [Checkbox("g", "1", "one", false, false), Checkbox("g", "2", "two", true, false), Checkbox("g", "3", "three", false, false)];
      var r := Reconcile(s, [Entry("one", "1"), Entry("three", "3")]);
      r[0].checked && !r[1].checked && r[2].checked
  {
    var entries := [Entry("one", "1"), Entry("three", "3")];
    assert entries[0].value == "1" && entries[1].value == "3";
  }

  /** A state without `filters`, or without an entry for the group, leaves
      every checkbox unchecked. */
  lemma MissingEntriesUncheckAll(s: seq<Checkbox>, state: StoreState, name: string)
    requires state.filters.None? || name !in state.filters.value
    ensures forall i :: 0 <= i < |s| ==> !Reconcile(s, EntriesFor(state, name))[i].checked
  {
  }

  // ---------------------------------------------------------------------------
  // The "all selected" flag

  /** The flag as the component computes it: among the enabled checkboxes,
      no unchecked one is found. */
  predicate AllSelected(s: seq<Checkbox>) {
    Find(Filter(s, (b: Checkbox) => b.disabled == false), (b: Checkbox) => b.checked == false).None?
  }

  /** The flag holds exactly when every enabled checkbox is checked. */
  lemma AllSelectedIff(s: seq<Checkbox>)
    ensures AllSelected(s) <==> forall i :: 0 <= i < |s| && !s[i].disabled ==> s[i].checked
  {
    var enabled := Filter(s, (b: Checkbox) => b.disabled == false);
    if AllSelected(s) {
      forall i | 0 <= i < |s| && !s[i].disabled ensures s[i].checked {
        assert s[i] in enabled;
      }
    }
  }

  /** A group whose checkboxes are all disabled is vacuously all selected. */
  lemma AllDisabledIsAllSelected(s: seq<Checkbox>)
    requires forall i :: 0 <= i < |s| ==> s[i].disabled
    ensures AllSelected(s)
  {
    AllSelectedIff(s);
  }

  // ---------------------------------------------------------------------------
  // The list published to the store

  function EntryOf(b: Checkbox): Entry {
    Entry(b.labelText, b.value)
  }

  /** The checked checkboxes, as label/value entries, in array order.
      Disabled checkboxes are not excluded. */
  function CheckedEntries(s: seq<Checkbox>): seq<Entry> {
    var checked := Filter(s, (b: Checkbox) => b.checked == true);
    seq(|checked|, k requires 0 <= k < |checked| => EntryOf(checked[k]))
  }

  /** The published list is built left to right: the list of a concatenation
      is the concatenation of the lists. */
  lemma CheckedEntriesAppend(a: seq<Checkbox>, b: seq<Checkbox>)
    ensures CheckedEntries(a + b) == CheckedEntries(a) + CheckedEntries(b)
  {
    FilterAppend(a, b, (x: Checkbox) => x.checked == true);
  }

  /** A single checkbox contributes its entry exactly when it is checked,
      whatever its `disabled` flag. Together with CheckedEntriesAppend this
      determines the published list completely. */
  lemma CheckedEntriesSingle(b: Checkbox)
    ensures CheckedEntries([b]) == if b.checked then [EntryOf(b)] else []
  {
    assert [b][1..] == [];
  }

  /** An entry is published exactly when some checked checkbox has that
      label and value. */
  lemma CheckedEntriesMembers(s: seq<Checkbox>)
    ensures forall e :: e in CheckedEntries(s) <==> exists j :: 0 <= j < |s| && s[j].checked && e == EntryOf(s[j])
  {
    var p := (b: Checkbox) => b.checked == true;
    var checked := Filter(s, p);
    forall e | e in CheckedEntries(s)
      ensures exists j :: 0 <= j < |s| && s[j].checked && e == EntryOf(s[j])
    {
      var k :| 0 <= k < |checked| && CheckedEntries(s)[k] == e;
      assert checked[k] in checked;
      var j :| 0 <= j < |s| && s[j] == checked[k];
    }
    forall j | 0 <= j < |s| && s[j].checked
      ensures EntryOf(s[j]) in CheckedEntries(s)
    {
      assert s[j] in checked;
      var k :| 0 <= k < |checked| && checked[k] == s[j];
      assert CheckedEntries(s)[k] == EntryOf(s[j]);
    }
  }

  predicate DistinctValues(s: seq<Checkbox>) {
    forall i, j :: 0 <= i < |s| && 0 <= j < |s| && s[i].value == s[j].value ==> i == j
  }

  /** Reconciling against the list the group itself published restores every
      `checked` flag, provided no two checkboxes share a value: a store that
      echoes the published list back leaves the group as it was. */
  lemma ReconcilePublishedIsIdentity(s: seq<Checkbox>)
    requires DistinctValues(s)
    ensures Reconcile(s, CheckedEntries(s)) == s
  {
    var entries := CheckedEntries(s);
    CheckedEntriesMembers(s);
    forall i | 0 <= i < |s| ensures Listed(entries, s[i].value) == s[i].checked {
      if s[i].checked {
        assert EntryOf(s[i]) in entries;
        var k :| 0 <= k < |entries| && entries[k] == EntryOf(s[i]);
        assert entries[k].value == s[i].value;
      }
      if Listed(entries, s[i].value) {
        var k :| 0 <= k < |entries| && entries[k].value == s[i].value;
        assert entries[k] in entries;
        var j :| 0 <= j < |s| && s[j].checked && entries[k] == EntryOf(s[j]);
        assert j == i;
      }
    }
  }

  /** Without distinct values the echo is not the identity: a checked and an
      unchecked checkbox sharing a value both end up checked. */
  lemma SharedValueSpreadsCheck()
    ensures
      var s := [Checkbox("g", "v", "A", true, false), Checkbox("g", "v", "B", false, false)];
      Reconcile(s, CheckedEntries(s)) != s
  {
    var s := [Checkbox("g", "v", "A", true, false), Checkbox("g", "v", "B", false, false)];
    CheckedEntriesMembers(s);
    assert EntryOf(s[0]) in CheckedEntries(s);
    assert Reconcile(s, CheckedEntries(s))[1].checked;
  }

  // ---------------------------------------------------------------------------
  // Mass select

  /** Whether the mass-select pass touches checkbox `b`, given the flag `all`
      it captured: it skips a box already in the target state and a disabled
      one. */
  predicate Flips(b: Checkbox, all: bool) {
    !((all && !b.checked) || (!all && b.checked) || b.disabled)
  }

  function MassStep(b: Checkbox, all: bool): Checkbox {
    if Flips(b, all) then b.(checked := !all) else b
  }

  /** The checkboxes once the pass has visited the first `k` of them. */
  function MassSelectedUpTo(s: seq<Checkbox>, all: bool, k: nat): seq<Checkbox>
    requires k <= |s|
  {
    seq(|s|, i requires 0 <= i < |s| => if i < k then MassStep(s[i], all) else s[i])
  }

  function MassSelected(s: seq<Checkbox>, all: bool): seq<Checkbox> {
    MassSelectedUpTo(s, all, |s|)
  }

  /** The lists published while the pass visits the first `k` checkboxes:
      each flipped checkbox fires a change event, whose listener publishes
      the checked entries as they stand right after that flip. */
  function MassLog(s: seq<Checkbox>, all: bool, k: nat): seq<seq<Entry>>
    requires k <= |s|
  {
    if k == 0 then []
    else MassLog(s, all, k - 1) + (if Flips(s[k - 1], all) then [CheckedEntries(MassSelectedUpTo(s, all, k))] else [])
  }

  /** Every enabled checkbox ends in the state opposite to the captured flag;
      disabled checkboxes keep theirs. */
  lemma MassSelectedTargets(s: seq<Checkbox>, all: bool)
    ensures |MassSelected(s, all)| == |s|
    ensures forall i :: 0 <= i < |s| && !s[i].disabled ==> MassSelected(s, all)[i].checked == !all
    ensures forall i :: 0 <= i < |s| && s[i].disabled ==> MassSelected(s, all)[i] == s[i]
    ensures forall i :: 0 <= i < |s| ==> MassSelected(s, all)[i] == s[i].(checked := MassSelected(s, all)[i].checked)
  {
  }

  /** Selecting all (the flag was false) makes the recomputed flag true. */
  lemma SelectAllSelectsAll(s: seq<Checkbox>)
    ensures AllSelected(MassSelected(s, false))
  {
    AllSelectedIff(MassSelected(s, false));
  }

  /** After a reset (the flag was true) the recomputed flag is true only when
      there is no enabled checkbox at all. */
  lemma ResetClearsAll(s: seq<Checkbox>)
    ensures AllSelected(MassSelected(s, true)) <==> forall i :: 0 <= i < |s| ==> s[i].disabled
  {
    var r := MassSelected(s, true);
    AllSelectedIff(r);
    if AllSelected(r) {
      forall i | 0 <= i < |s| ensures s[i].disabled {
        assert r[i].checked ==> s[i].disabled;
      }
    }
  }

  /** Number of positions (among the first `k`) whose `checked` flag differs
      between `a` and `b`. */
  function ChangedCount(a: seq<Checkbox>, b: seq<Checkbox>, k: nat): nat
    requires k <= |a| && k <= |b|
  {
    if k == 0 then 0 else ChangedCount(a, b, k - 1) + (if a[k - 1].checked != b[k - 1].checked then 1 else 0)
  }

  lemma {:induction false} MassLogCountsUpTo(s: seq<Checkbox>, all: bool, k: nat)
    requires k <= |s|
    ensures |MassLog(s, all, k)| == ChangedCount(s, MassSelected(s, all), k)
  {
    if k > 0 {
      MassLogCountsUpTo(s, all, k - 1);
    }
  }

  /** The pass publishes exactly once per checkbox whose `checked` flag it
      actually changed; boxes already in the target state publish nothing. */
  lemma MassLogOnePerFlip(s: seq<Checkbox>, all: bool)
    ensures |MassLog(s, all, |s|)| == ChangedCount(s, MassSelected(s, all), |s|)
  {
    MassLogCountsUpTo(s, all, |s|);
  }

  lemma {:induction false} MassLogLastUpTo(s: seq<Checkbox>, all: bool, k: nat)
    requires k <= |s|
    requires MassLog(s, all, k) != []
    ensures MassLog(s, all, k)[|MassLog(s, all, k)| - 1] == CheckedEntries(MassSelectedUpTo(s, all, k))
  {
    if !Flips(s[k - 1], all) {
      MassLogLastUpTo(s, all, k - 1);
      assert MassSelectedUpTo(s, all, k - 1) == MassSelectedUpTo(s, all, k);
    }
  }

  /** When the pass publishes anything, the last list it publishes is the
      checked entries of the final state: the store ends in step with the
      checkboxes. */
  lemma MassLogEndsWithFinal(s: seq<Checkbox>, all: bool)
    requires MassLog(s, all, |s|) != []
    ensures MassLog(s, all, |s|)[|MassLog(s, all, |s|)| - 1] == CheckedEntries(MassSelected(s, all))
  {
    MassLogLastUpTo(s, all, |s|);
  }
}
