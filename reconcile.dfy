/**
 * The label reconciliation at the end of `run()`: which computed labels to
 * add (`toAddLabels`) and which current labels to remove (`toRemoveLabels`).
 * Labels are matched by name only. A label whose name is not in the label
 * table belongs to somebody else and is never removed.
 */
module Reconcile {
  import opened Wrappers
  import opened Sequences
  import opened Status
  import opened Labels

  /** `labels.find(label_ => label_.name === name)` finds a label. */
  predicate HasName(labels: seq<Label>, name: string) {
    exists i :: 0 <= i < |labels| && labels[i].name == name
  }

  /** Holds of the labels whose name is not among `labels`. */
  function NotNamedIn(labels: seq<Label>): Label -> bool {
    (l: Label) => !HasName(labels, l.name)
  }

  function IsManagedLabel(l: Label): bool {
    IsManaged(l.name)
  }

  /** The computed labels the pull request does not carry yet. */
  function LabelsToAdd(computed: seq<Label>, current: seq<Label>): seq<Label> {
    Filter(computed, NotNamedIn(current))
  }

  /** `currentSyncedLabels`: the current labels whose name the table knows. */
  function CurrentSyncedLabels(current: seq<Label>): seq<Label> {
    Filter(current, IsManagedLabel)
  }

  /** The managed current labels that are no longer computed. */
  function LabelsToRemove(current: seq<Label>, computed: seq<Label>): seq<Label> {
    Filter(CurrentSyncedLabels(current), NotNamedIn(computed))
  }

  lemma LabelsToAddSpec(computed: seq<Label>, current: seq<Label>)
    ensures forall l :: l in LabelsToAdd(computed, current) <==> l in computed && !HasName(current, l.name)
    ensures IsSubsequence(LabelsToAdd(computed, current), computed)
  {
    FilterIsSubsequence(computed, NotNamedIn(current));
  }

  lemma LabelsToRemoveSpec(current: seq<Label>, computed: seq<Label>)
    ensures forall l :: l in LabelsToRemove(current, computed) <==>
                        l in current && IsManaged(l.name) && !HasName(computed, l.name)
    ensures IsSubsequence(LabelsToRemove(current, computed), current)
  {
    FilterFilter(current, IsManagedLabel, NotNamedIn(computed));
    FilterIsSubsequence(current, Both(IsManagedLabel, NotNamedIn(computed)));
  }

  /** The `toAddLabels` loop. */
  method ToAddLabels(computed: seq<Label>, current: seq<Label>) returns (toAdd: seq<Label>)
    ensures toAdd == LabelsToAdd(computed, current)
    ensures forall l :: l in toAdd <==> l in computed && !HasName(current, l.name)
    ensures IsSubsequence(toAdd, computed)
  {
    toAdd := [];
    for i := 0 to |computed|
      invariant toAdd == Filter(computed[..i], NotNamedIn(current))
    {
      var computedLabel := computed[i];
      var found := Find(current, (l: Label) => l.name == computedLabel.name);
      assert computed[..i + 1][..i] == computed[..i];
      if found.None? {
        toAdd := toAdd + [computedLabel];
      }
    }
    assert computed[..|computed|] == computed;
    LabelsToAddSpec(computed, current);
  }

  /** `currentSyncedLabels` and the `toRemoveLabels` loop over it. */
  method ToRemoveLabels(current: seq<Label>, computed: seq<Label>) returns (toRemove: seq<Label>)
    ensures toRemove == LabelsToRemove(current, computed)
    ensures forall l :: l in toRemove <==> l in current && IsManaged(l.name) && !HasName(computed, l.name)
    ensures IsSubsequence(toRemove, current)
  {
    toRemove := [];
    var synced := CurrentSyncedLabels(current);
    for i := 0 to |synced|
      invariant toRemove == Filter(synced[..i], NotNamedIn(computed))
    {
      var currentLabel := synced[i];
      var found := Find(computed, (l: Label) => l.name == currentLabel.name);
      assert synced[..i + 1][..i] == synced[..i];
      if found.None? {
        toRemove := toRemove + [currentLabel];
      }
    }
    assert synced[..|synced|] == synced;
    LabelsToRemoveSpec(current, computed);
  }

  /** The pull request's labels once `toRemove` is removed and `toAdd` added, by name. */
  function Applied(current: seq<Label>, toAdd: seq<Label>, toRemove: seq<Label>): seq<Label> {
    Filter(current, NotNamedIn(toRemove)) + toAdd
  }

  lemma HasNameIff(labels: seq<Label>, name: string)
    ensures HasName(labels, name) <==> exists l :: l in labels && l.name == name
  {
    if exists l :: l in labels && l.name == name {
      var l :| l in labels && l.name == name;
      var i :| 0 <= i < |labels| && labels[i] == l;
    }
  }

  /**
   * Applying the changes leaves exactly the computed names among the
   * managed names, and the unmanaged names as they were.
   */
  lemma ReconcileRoundTrip(current: seq<Label>, computed: seq<Label>, name: string)
    requires forall l :: l in computed ==> IsManaged(l.name)
    ensures var after := Applied(current, LabelsToAdd(computed, current), LabelsToRemove(current, computed));
            HasName(after, name) <==> if IsManaged(name) then HasName(computed, name) else HasName(current, name)
  {
    var toAdd := LabelsToAdd(computed, current);
    var toRemove := LabelsToRemove(current, computed);
    var kept := Filter(current, NotNamedIn(toRemove));
    var after := kept + toAdd;
    LabelsToAddSpec(computed, current);
    LabelsToRemoveSpec(current, computed);
    HasNameIff(after, name);
    HasNameIff(kept, name);
    HasNameIff(toAdd, name);
    HasNameIff(toRemove, name);
    HasNameIff(current, name);
    HasNameIff(computed, name);
    assert HasName(after, name) <==> HasName(kept, name) || HasName(toAdd, name);
    assert HasName(toRemove, name) <==> HasName(current, name) && IsManaged(name) && !HasName(computed, name);
    assert HasName(kept, name) <==> HasName(current, name) && !HasName(toRemove, name) by {
      if HasName(current, name) && !HasName(toRemove, name) {
        var l :| l in current && l.name == name;
        assert l in kept;
      }
    }
    assert HasName(toAdd, name) <==> HasName(computed, name) && !HasName(current, name) by {
      if HasName(computed, name) && !HasName(current, name) {
        var l :| l in computed && l.name == name;
        assert l in toAdd;
      }
    }
  }
}
