/**
 * `defaultLabelMap`, the fixed table from status to label, and
 * `computedLabels`, the labels of the computed statuses.
 */
module Labels {
  import opened Wrappers
  import opened Status

  /** `Label`: a label name and an optional hex colour. */
  datatype Label = Label(name: string, color: Option<string>)

  const ToReviewLabel := Label("\U{1F6A6}status:to-review", Some("FBCA04"))
  const ToChangeLabel := Label("\U{1F6A6}status:to-change", Some("C2E0C6"))
  const ToMergeLabel := Label("\U{1F6A6}status:to-merge", Some("0E8A16"))
  const ToRebaseLabel := Label("\U{1F6A6}status:to-rebase", Some("FBCA04"))

  /** `defaultLabelMap`: Other has no label. */
  function DefaultLabelMap(status: PRStatus): (entry: Option<Label>)
    ensures entry.None? <==> status == Other
  {
    match status
    case ToReview => Some(ToReviewLabel)
    case ToChange => Some(ToChangeLabel)
    case ToMerge => Some(ToMergeLabel)
    case ToRebase => Some(ToRebaseLabel)
    case Other => None
  }

  /** `Object.values(labelMap)`, in the order the keys are declared. */
  function MappedLabels(): seq<Option<Label>> {
    [DefaultLabelMap(ToReview), DefaultLabelMap(ToChange), DefaultLabelMap(ToMerge),
     DefaultLabelMap(ToRebase), DefaultLabelMap(Other)]
  }

  /**
   * `mappedLabels.find(mappedLabel => mappedLabel?.name === name)`: a label
   * of this name is one the labeler manages (the null entry matches no name).
   */
  predicate IsManaged(name: string) {
    exists i :: 0 <= i < |MappedLabels()| && MappedLabels()[i].Some? && MappedLabels()[i].value.name == name
  }

  /** The managed names are exactly the names of the table's labels. */
  lemma ManagedIffMapped(name: string)
    ensures IsManaged(name) <==> exists s :: DefaultLabelMap(s).Some? && DefaultLabelMap(s).value.name == name
  {
    if IsManaged(name) {
      var i :| 0 <= i < |MappedLabels()| && MappedLabels()[i].Some? && MappedLabels()[i].value.name == name;
      var s := [ToReview, ToChange, ToMerge, ToRebase, Other][i];
      assert DefaultLabelMap(s) == MappedLabels()[i];
    }
    if exists s :: DefaultLabelMap(s).Some? && DefaultLabelMap(s).value.name == name {
      var s :| DefaultLabelMap(s).Some? && DefaultLabelMap(s).value.name == name;
      var i := match s case ToReview => 0 case ToChange => 1 case ToMerge => 2 case ToRebase => 3 case Other => 4;
      assert MappedLabels()[i] == DefaultLabelMap(s);
    }
  }

  /** No two statuses share a label name, so a name identifies its status. */
  lemma LabelNamesDistinct(s1: PRStatus, s2: PRStatus)
    requires DefaultLabelMap(s1).Some? && DefaultLabelMap(s2).Some?
    requires DefaultLabelMap(s1).value.name == DefaultLabelMap(s2).value.name
    ensures s1 == s2
  {
    var names := [ToReviewLabel.name, ToChangeLabel.name, ToMergeLabel.name, ToRebaseLabel.name];
    assert names[0][11] == 'r' && names[1][11] == 'c' && names[2][11] == 'm' && names[3][11] == 'r';
    assert names[0][12] == 'e' && names[3][12] == 'e';
    assert names[0][13] == 'v' && names[3][13] == 'b';
  }

  /** `computedLabels`: each status mapped to its label, the nulls dropped. */
  function ComputedLabels(statuses: seq<PRStatus>): (labels: seq<Label>)
    ensures |labels| <= |statuses|
    ensures Other !in statuses ==> |labels| == |statuses|
    ensures forall l :: l in labels <==> exists s :: s in statuses && DefaultLabelMap(s) == Some(l)
    decreases |statuses|
  {
    if statuses == [] then []
    else
      var init, last := statuses[..|statuses| - 1], statuses[|statuses| - 1];
      assert statuses == init + [last];
      ComputedLabels(init) + (match DefaultLabelMap(last) case Some(l) => [l] case None => [])
  }

  /** Every computed label is a managed one. */
  lemma ComputedLabelsAreManaged(statuses: seq<PRStatus>)
    ensures forall l :: l in ComputedLabels(statuses) ==> IsManaged(l.name)
  {
    forall l | l in ComputedLabels(statuses)
      ensures IsManaged(l.name)
    {
      var s :| s in statuses && DefaultLabelMap(s) == Some(l);
      ManagedIffMapped(l.name);
    }
  }

  /** Computed labels with distinct statuses have distinct names. */
  lemma {:induction false} ComputedLabelNamesDistinct(statuses: seq<PRStatus>)
    requires forall i, j :: 0 <= i < j < |statuses| ==> statuses[i] != statuses[j]
    ensures forall i, j :: 0 <= i < j < |ComputedLabels(statuses)| ==>
              ComputedLabels(statuses)[i].name != ComputedLabels(statuses)[j].name
    decreases |statuses|
  {
    if statuses != [] {
      var init, last := statuses[..|statuses| - 1], statuses[|statuses| - 1];
      assert forall i :: 0 <= i < |init| ==> init[i] == statuses[i];
      ComputedLabelNamesDistinct(init);
      var prefix := ComputedLabels(init);
      if DefaultLabelMap(last).Some? {
        var labels := prefix + [DefaultLabelMap(last).value];
        assert ComputedLabels(statuses) == labels;
        forall i | 0 <= i < |prefix|
          ensures prefix[i].name != DefaultLabelMap(last).value.name
        {
          assert prefix[i] in prefix;
          var s :| s in init && DefaultLabelMap(s) == Some(prefix[i]);
          if prefix[i].name == DefaultLabelMap(last).value.name {
            LabelNamesDistinct(s, last);
          }
        }
        assert forall i, j :: 0 <= i < j < |labels| ==> labels[i].name != labels[j].name by {
          forall i, j | 0 <= i < j < |labels|
            ensures labels[i].name != labels[j].name
          {
            if j == |prefix| {
              assert labels[i] == prefix[i];
            } else {
              assert labels[i] == prefix[i] && labels[j] == prefix[j];
            }
          }
        }
      } else {
        assert ComputedLabels(statuses) == prefix;
      }
    }
  }
}
