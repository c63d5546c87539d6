/**
  Object-metadata patching of gokart/gcs_obj_metadata_client.py: the merged label
  list (significant parameters, then user-provided labels), the greedy insertion
  of labels under the 8 KiB UTF-8 budget of a storage object's metadata, and the
  decision to issue a patch only when the metadata changed.
 */
module ObjectMetadata {
  import opened Wrappers

  /** A parameter value as far as labelling needs it: its str() rendering, and the items of a dict. */
  datatype PyValue =
    | PyNone
    | PyStr(s: string)
    | PyBool(b: bool)
    | PyObject(text: string)
    | PyDict(items: seq<(string, PyValue)>, text: string)

  /** str(value). */
  function Str(v: PyValue): string {
    match v
    case PyNone => "None"
    case PyStr(s) => s
    case PyBool(b) => if b then "True" else "False"
    case PyObject(text) => text
    case PyDict(_, text) => text
  }

  /** A (name, value, parameter object) triple; only the parameter's significance is used. */
  datatype Param = Param(name: string, value: PyValue, significant: bool)

  type Label = (string, PyValue)

  /** Object metadata as returned by the storage service; anything but a dict is passed through. */
  datatype Metadata = Dict(entries: map<string, string>) | NotDict(raw: PyValue)

  datatype MergeError = UserLabelsNotADict(value: PyValue)

  const UserLabelsKey: string := "user_provided_gcs_labels"
  const MaxMetadataSize: nat := 8 * 1024

  // ---------------------------------------------------------------------------
  // UTF-8 length

  /** Bytes of one Unicode scalar value in UTF-8. */
  function CharUtf8Len(c: char): (n: nat)
    ensures 1 <= n <= 4
    ensures n == 1 <==> (c as int) < 0x80
  {
    if (c as int) < 0x80 then 1
    else if (c as int) < 0x800 then 2
    else if (c as int) < 0x10000 then 3
    else 4
  }

  /** len(s.encode('utf-8')). */
  function Utf8Len(s: string): (n: nat)
    ensures |s| <= n <= 4 * |s|
  {
    if s == [] then 0 else CharUtf8Len(s[0]) + Utf8Len(s[1..])
  }

  lemma {:induction false} Utf8LenAscii(s: string)
    requires forall i :: 0 <= i < |s| ==> (s[i] as int) < 0x80
    ensures Utf8Len(s) == |s|
  {
    if s != [] {
      Utf8LenAscii(s[1..]);
    }
  }

  // ---------------------------------------------------------------------------
  // _merge_with_user_provided_labels

  /** dict(value) for the user-provided labels parameter: a dict gives its items, '' gives none, anything else raises. */
  function DictItems(v: PyValue): Result<seq<Label>, MergeError> {
    match v
    case PyDict(items, _) => Success(items)
    case PyStr(s) => if s == "" then Success([]) else Failure(UserLabelsNotADict(v))
    case _ => Failure(UserLabelsNotADict(v))
  }

  /** A parameter becomes a label when it is not the user-label entry, not None, and significant. */
  predicate Kept(p: Param) {
    p.name != UserLabelsKey && !p.value.PyNone? && p.significant
  }

  /** The labels of the first loop, in parameter order. */
  function ParamLabels(ps: seq<Param>): seq<Label> {
    if ps == [] then []
    else ParamLabels(ps[..|ps| - 1]) + (if Kept(ps[|ps| - 1]) then [(ps[|ps| - 1].name, ps[|ps| - 1].value)] else [])
  }

  /** The labels of the second loop: the items of every user-label entry, in order; the first entry dict() rejects raises. */
  function UserLabels(ps: seq<Param>): Result<seq<Label>, MergeError> {
    if ps == [] then Success([])
    else
      match UserLabels(ps[..|ps| - 1])
      case Failure(e) => Failure(e)
      case Success(u) =>
        var p := ps[|ps| - 1];
        if p.name != UserLabelsKey then Success(u)
        else
          match DictItems(p.value)
          case Failure(e) => Failure(e)
          case Success(items) => Success(u + items)
  }

  function MergedLabels(ps: seq<Param>): Result<seq<Label>, MergeError> {
    match UserLabels(ps)
    case Failure(e) => Failure(e)
    case Success(u) => Success(ParamLabels(ps) + u)
  }

  /** A failure in a prefix of the parameters is the failure of the whole list. */
  lemma {:induction false} UserLabelsFailureStays(ps: seq<Param>, i: nat)
    requires i <= |ps| && UserLabels(ps[..i]).Failure?
    ensures UserLabels(ps) == UserLabels(ps[..i])
    decreases |ps| - i
  {
    if i < |ps| {
      assert ps[..i + 1][..i] == ps[..i];
      UserLabelsFailureStays(ps, i + 1);
    } else {
      assert ps[..i] == ps;
    }
  }

  method MergeWithUserProvidedLabels(params: seq<Param>) returns (r: Result<seq<Label>, MergeError>)
    ensures r == MergedLabels(params)
  {
    var labels := CollectParameterLabels(params);
    r := AppendUserProvidedLabels(params, labels);
  }

  /** The first loop of _merge_with_user_provided_labels. */
  method CollectParameterLabels(params: seq<Param>) returns (labels: seq<Label>)
    ensures labels == ParamLabels(params)
  {
    labels := [];
    for i := 0 to |params|
      invariant labels == ParamLabels(params[..i])
    {
      assert params[..i + 1][..i] == params[..i];
      var p := params[i];
      if p.name == UserLabelsKey {
        continue;
      }
      if p.value.PyNone? {
        continue;
      }
      if p.significant {
        labels := labels + [(p.name, p.value)];
      }
    }
    assert params[..|params|] == params;
  }

  /** The second loop of _merge_with_user_provided_labels: user-label items go after the given labels. */
  method AppendUserProvidedLabels(params: seq<Param>, parameterLabels: seq<Label>) returns (r: Result<seq<Label>, MergeError>)
    ensures UserLabels(params).Failure? ==> r == Failure(UserLabels(params).error)
    ensures UserLabels(params).Success? ==> r == Success(parameterLabels + UserLabels(params).value)
  {
    var labels := parameterLabels;
    for i := 0 to |params|
      invariant UserLabels(params[..i]).Success?
      invariant labels == parameterLabels + UserLabels(params[..i]).value
    {
      assert params[..i + 1][..i] == params[..i];
      var p := params[i];
      if p.name == UserLabelsKey {
        var userProvided := DictItems(p.value);
        if userProvided.Failure? {
          UserLabelsFailureStays(params, i + 1);
          return Failure(userProvided.error);
        }
        var items := userProvided.value;
        ghost var before := labels;
        for j := 0 to |items|
          invariant labels == before + items[..j]
        {
          labels := labels + [items[j]];
        }
        assert items[..|items|] == items;
      }
    }
    assert params[..|params|] == params;
    r := Success(labels);
  }


  /** Parameter labels keep the parameters' order: the first loop distributes over concatenation. */
  lemma {:induction false} ParamLabelsAppend(ps1: seq<Param>, ps2: seq<Param>)
    ensures ParamLabels(ps1 + ps2) == ParamLabels(ps1) + ParamLabels(ps2)
    decreases |ps2|
  {
    if ps2 != [] {
      var ps2' := ps2[..|ps2| - 1];
      assert (ps1 + ps2)[..|ps1 + ps2| - 1] == ps1 + ps2';
      ParamLabelsAppend(ps1, ps2');
    } else {
      assert ps1 + ps2 == ps1;
    }
  }

  /** A label comes from the first loop exactly when a kept parameter has that name and value. */
  lemma {:induction false} ParamLabelsMembership(ps: seq<Param>, l: Label)
    ensures l in ParamLabels(ps) <==> exists i :: 0 <= i < |ps| && Kept(ps[i]) && l == (ps[i].name, ps[i].value)
  {
    if ps != [] {
      var init := ps[..|ps| - 1];
      ParamLabelsMembership(init, l);
      if exists i :: 0 <= i < |ps| && Kept(ps[i]) && l == (ps[i].name, ps[i].value) {
        var i :| 0 <= i < |ps| && Kept(ps[i]) && l == (ps[i].name, ps[i].value);
        if i < |ps| - 1 {
          assert init[i] == ps[i];
        }
      }
      if l in ParamLabels(init) {
        var i :| 0 <= i < |init| && Kept(init[i]) && l == (init[i].name, init[i].value);
        assert ps[i] == init[i];
      }
    }
  }

  /** No label of the first loop is named after the user-label entry, and none has a None value. */
  lemma ParamLabelsClean(ps: seq<Param>)
    ensures forall l :: l in ParamLabels(ps) ==> l.0 != UserLabelsKey && !l.1.PyNone?
  {
    forall l | l in ParamLabels(ps)
      ensures l.0 != UserLabelsKey && !l.1.PyNone?
    {
      ParamLabelsMembership(ps, l);
    }
  }

  /** The merge fails exactly when some user-label entry is not convertible to a dict. */
  lemma {:induction false} MergeFailsIff(ps: seq<Param>)
    ensures MergedLabels(ps).Failure? <==>
      exists i :: 0 <= i < |ps| && ps[i].name == UserLabelsKey && DictItems(ps[i].value).Failure?
  {
    if ps != [] {
      var init := ps[..|ps| - 1];
      MergeFailsIff(init);
      if exists i :: 0 <= i < |init| && init[i].name == UserLabelsKey && DictItems(init[i].value).Failure? {
        var i :| 0 <= i < |init| && init[i].name == UserLabelsKey && DictItems(init[i].value).Failure?;
        assert ps[i] == init[i];
      }
      if exists i :: 0 <= i < |ps| && ps[i].name == UserLabelsKey && DictItems(ps[i].value).Failure? {
        var i :| 0 <= i < |ps| && ps[i].name == UserLabelsKey && DictItems(ps[i].value).Failure?;
        if i < |ps| - 1 {
          assert init[i] == ps[i];
        }
      }
    }
  }

  /** Appending one user-label entry to the parameters appends its items after every earlier label. */
  lemma {:induction false} UserLabelsComeLast(ps: seq<Param>, items: seq<Label>, text: string)
    requires MergedLabels(ps).Success?
    ensures var ps' := ps + [Param(UserLabelsKey, PyDict(items, text), false)];
      MergedLabels(ps') == Success(MergedLabels(ps).value + items)
  {
    var ps' := ps + [Param(UserLabelsKey, PyDict(items, text), false)];
    assert ps'[..|ps'| - 1] == ps;
    assert ParamLabels(ps') == ParamLabels(ps);
    var u := UserLabels(ps).value;
    assert UserLabels(ps') == Success(u + items);
    assert ParamLabels(ps) + (u + items) == (ParamLabels(ps) + u) + items;
  }

  /** Without a user-label entry nothing is appended after the parameter labels. */
  lemma {:induction false} UserLabelsNone(ps: seq<Param>)
    requires forall i :: 0 <= i < |ps| ==> ps[i].name != UserLabelsKey
    ensures UserLabels(ps) == Success([])
  {
    if ps != [] {
      var init := ps[..|ps| - 1];
      assert forall i :: 0 <= i < |init| ==> init[i] == ps[i];
      UserLabelsNone(init);
    }
  }

  /** When every parameter is kept, the first loop yields one label per parameter, in order. */
  lemma {:induction false} ParamLabelsAllKept(ps: seq<Param>)
    requires forall i :: 0 <= i < |ps| ==> Kept(ps[i])
    ensures |ParamLabels(ps)| == |ps|
    ensures forall i :: 0 <= i < |ps| ==> ParamLabels(ps)[i] == (ps[i].name, ps[i].value)
  {
    if ps != [] {
      var init := ps[..|ps| - 1];
      assert forall i :: 0 <= i < |init| ==> init[i] == ps[i];
      ParamLabelsAllKept(init);
    }
  }

  // ---------------------------------------------------------------------------
  // _get_patched_obj_metadata

  /** Bytes a label takes against the budget: its name and its str() value in UTF-8. */
  function LabelSize(l: Label): nat {
    Utf8Len(l.0) + Utf8Len(Str(l.1))
  }

  function TotalSize(ls: seq<(string, string)>): nat {
    if ls == [] then 0 else Utf8Len(ls[0].0) + Utf8Len(ls[0].1) + TotalSize(ls[1..])
  }

  lemma {:induction false} TotalSizeAppend(ls: seq<(string, string)>, l: (string, string))
    ensures TotalSize(ls + [l]) == TotalSize(ls) + Utf8Len(l.0) + Utf8Len(l.1)
  {
    if ls != [] {
      assert (ls + [l])[1..] == ls[1..] + [l];
      TotalSizeAppend(ls[1..], l);
    }
  }

  /** Greedy insertion: labels are taken in order while they fit; the first that does not ends the insertion. */
  function Admit(ls: seq<Label>, used: nat): seq<(string, string)> {
    if ls == [] then []
    else if used + LabelSize(ls[0]) > MaxMetadataSize then []
    else [(ls[0].0, Str(ls[0].1))] + Admit(ls[1..], used + LabelSize(ls[0]))
  }

  /** Labels applied in order: a later label overrides an earlier one of the same name. */
  function Apply(m: map<string, string>, ls: seq<(string, string)>): map<string, string> {
    if ls == [] then m else Apply(m, ls[..|ls| - 1])[ls[|ls| - 1].0 := ls[|ls| - 1].1]
  }

  /**
    _get_patched_obj_metadata: a non-dict is returned as it is; with no parameters
    the result is a copy; otherwise the admitted labels are applied to a copy.
   */
  function PatchedMetadata(metadata: Metadata, params: seq<Param>): (r: Result<Metadata, MergeError>)
    ensures metadata.NotDict? ==> r == Success(metadata)
    ensures params == [] ==> r == Success(metadata)
    ensures r.Success? ==> r.value.Dict? == metadata.Dict?
  {
    if metadata.NotDict? then Success(metadata)
    else if params == [] then Success(metadata)
    else
      match MergedLabels(params)
      case Failure(e) => Failure(e)
      case Success(all) => Success(Dict(Apply(metadata.entries, Admit(all, 0))))
  }

  /** With parameters, a dict is patched with the admitted prefix of the merged labels. */
  lemma PatchedFromMerged(m: map<string, string>, ps: seq<Param>)
    requires ps != [] && MergedLabels(ps).Success?
    ensures PatchedMetadata(Dict(m), ps) == Success(Dict(Apply(m, Admit(MergedLabels(ps).value, 0))))
  {
  }

  method GetPatchedObjMetadata(metadata: Metadata, params: seq<Param>) returns (r: Result<Metadata, MergeError>)
    ensures r == PatchedMetadata(metadata, params)
  {
    if metadata.NotDict? {
      return Success(metadata);
    }
    var labels: seq<(string, string)> := [];
    if |params| > 0 {
      var merged := MergeWithUserProvidedLabels(params);
      if merged.Failure? {
        return Failure(merged.error);
      }
      labels := AdmitLabels(merged.value);
      PatchedFromMerged(metadata.entries, params);
    }
    var patched := ApplyLabels(metadata.entries, labels);
    r := Success(Dict(patched));
  }

  /** The insertion loop: running total, early break at the first label that would overflow. */
  method AdmitLabels(all: seq<Label>) returns (labels: seq<(string, string)>)
    ensures labels == Admit(all, 0)
  {
    var total: nat := 0;
    labels := [];
    var i := 0;
    while i < |all|
      invariant 0 <= i <= |all|
      invariant total == TotalSize(labels) <= MaxMetadataSize
      invariant Admit(all, 0) == labels + Admit(all[i..], total)
    {
      var size := Utf8Len(all[i].0) + Utf8Len(Str(all[i].1));
      AdmitStep(all, i, total);
      if total + size > MaxMetadataSize {
        break;
      }
      var entry := (all[i].0, Str(all[i].1));
      AdmitAdvance(all, i, total, labels);
      total := total + size;
      labels := labels + [entry];
      i := i + 1;
    }
  }

  /** One admitted label keeps the loop invariant of AdmitLabels. */
  lemma AdmitAdvance(all: seq<Label>, i: nat, total: nat, labels: seq<(string, string)>)
    requires i < |all| && total == TotalSize(labels)
    requires Admit(all, 0) == labels + Admit(all[i..], total)
    requires total + LabelSize(all[i]) <= MaxMetadataSize
    ensures var entry := (all[i].0, Str(all[i].1));
      && TotalSize(labels + [entry]) == total + LabelSize(all[i])
      && Admit(all, 0) == (labels + [entry]) + Admit(all[i + 1..], total + LabelSize(all[i]))
  {
    var entry := (all[i].0, Str(all[i].1));
    AdmitStep(all, i, total);
    var rest := Admit(all[i + 1..], total + LabelSize(all[i]));
    assert labels + ([entry] + rest) == (labels + [entry]) + rest;
    TotalSizeAppend(labels, entry);
  }

  /** The update loop over a copy of the metadata. */
  method ApplyLabels(m: map<string, string>, labels: seq<(string, string)>) returns (patched: map<string, string>)
    ensures patched == Apply(m, labels)
  {
    patched := m;
    for j := 0 to |labels|
      invariant patched == Apply(m, labels[..j])
    {
      assert labels[..j + 1][..j] == labels[..j];
      patched := patched[labels[j].0 := labels[j].1];
    }
    assert labels[..|labels|] == labels;
  }

  /** One step of the insertion loop: label i is taken if it fits, and otherwise nothing more is. */
  lemma AdmitStep(all: seq<Label>, i: nat, total: nat)
    requires i < |all|
    ensures total + LabelSize(all[i]) > MaxMetadataSize ==> Admit(all[i..], total) == []
    ensures total + LabelSize(all[i]) <= MaxMetadataSize ==>
      Admit(all[i..], total) == [(all[i].0, Str(all[i].1))] + Admit(all[i + 1..], total + LabelSize(all[i]))
  {
    assert all[i..][0] == all[i];
    assert all[i..][1..] == all[i + 1..];
  }

  // ---------------------------------------------------------------------------
  // Properties of the budgeted insertion

  /** The admitted labels never exceed the budget left. */
  lemma {:induction false} AdmitWithinBudget(ls: seq<Label>, used: nat)
    requires used <= MaxMetadataSize
    ensures used + TotalSize(Admit(ls, used)) <= MaxMetadataSize
  {
    if ls != [] && used + LabelSize(ls[0]) <= MaxMetadataSize {
      AdmitWithinBudget(ls[1..], used + LabelSize(ls[0]));
    }
  }

  /**
    The admitted labels are a prefix of the merged list, rendered with str(); when
    some label is left out, it is the one right after that prefix and it would
    overflow the budget, so no later label, however small, is added.
   */
  lemma {:induction false} AdmitIsPrefix(ls: seq<Label>, used: nat)
    ensures var a := Admit(ls, used);
      && |a| <= |ls|
      && (forall i :: 0 <= i < |a| ==> a[i] == (ls[i].0, Str(ls[i].1)))
      && (|a| < |ls| ==> used + TotalSize(a) + LabelSize(ls[|a|]) > MaxMetadataSize)
  {
    if ls != [] && used + LabelSize(ls[0]) <= MaxMetadataSize {
      var size := LabelSize(ls[0]);
      AdmitIsPrefix(ls[1..], used + size);
      var a := Admit(ls, used);
      var rest := Admit(ls[1..], used + size);
      assert a == [(ls[0].0, Str(ls[0].1))] + rest;
      assert a[1..] == rest;
      forall i | 0 <= i < |a| ensures a[i] == (ls[i].0, Str(ls[i].1)) {
        if i > 0 {
          assert a[i] == rest[i - 1];
        }
      }
    }
  }

  /** When every label takes at most `bound` bytes and all of them fit the budget left, all are admitted. */
  lemma {:induction false} AdmitAllWhenFits(ls: seq<Label>, used: nat, bound: nat)
    requires forall i :: 0 <= i < |ls| ==> LabelSize(ls[i]) <= bound
    requires used + |ls| * bound <= MaxMetadataSize
    ensures |Admit(ls, used)| == |ls|
  {
    if ls != [] {
      assert |ls| * bound == bound + (|ls| - 1) * bound;
      assert forall i :: 0 <= i < |ls| - 1 ==> ls[1..][i] == ls[i + 1];
      AdmitAllWhenFits(ls[1..], used + LabelSize(ls[0]), bound);
    }
  }

  /** The index of the last label that names key k, or -1. */
  function LastNaming(ls: seq<(string, string)>, k: string): (r: int)
    ensures -1 <= r < |ls|
    ensures r >= 0 ==> ls[r].0 == k
    ensures forall j :: r < j < |ls| ==> ls[j].0 != k
  {
    if ls == [] then -1
    else if ls[|ls| - 1].0 == k then |ls| - 1
    else LastNaming(ls[..|ls| - 1], k)
  }

  /**
    After applying labels, a key holds the value of the last label naming it; a key
    no label names keeps its original value, and no key is dropped.
   */
  lemma {:induction false} ApplyLookup(m: map<string, string>, ls: seq<(string, string)>, k: string)
    ensures k in Apply(m, ls) <==> k in m || LastNaming(ls, k) >= 0
    ensures k in Apply(m, ls) ==>
      Apply(m, ls)[k] == if LastNaming(ls, k) >= 0 then ls[LastNaming(ls, k)].1 else m[k]
  {
    if ls != [] {
      ApplyLookup(m, ls[..|ls| - 1], k);
    }
  }

  /** Applying the same labels a second time changes nothing. */
  lemma ApplyIdempotent(m: map<string, string>, ls: seq<(string, string)>)
    ensures Apply(Apply(m, ls), ls) == Apply(m, ls)
  {
    var once := Apply(m, ls);
    var twice := Apply(once, ls);
    forall k ensures (k in twice <==> k in once) && (k in twice ==> twice[k] == once[k]) {
      ApplyLookup(m, ls, k);
      ApplyLookup(once, ls, k);
    }
  }

  /**
    On a name collision the user-provided label wins: when every merged label fits
    the budget, a name carried by the last user-label entry gets that entry's value.
   */
  lemma {:induction false} UserLabelWins(m: map<string, string>, ps: seq<Param>, items: seq<Label>, text: string, k: string, j: nat)
    requires MergedLabels(ps).Success?
    requires j < |items| && items[j].0 == k
    requires forall j2 :: j < j2 < |items| ==> items[j2].0 != k
    requires var ps' := ps + [Param(UserLabelsKey, PyDict(items, text), false)];
      MergedLabels(ps').Success? && |Admit(MergedLabels(ps').value, 0)| == |MergedLabels(ps').value|
    ensures var ps' := ps + [Param(UserLabelsKey, PyDict(items, text), false)];
      PatchedMetadata(Dict(m), ps') == Success(Dict(Apply(m, Admit(MergedLabels(ps').value, 0))))
      && k in PatchedMetadata(Dict(m), ps').value.entries
      && PatchedMetadata(Dict(m), ps').value.entries[k] == Str(items[j].1)
  {
    var ps' := ps + [Param(UserLabelsKey, PyDict(items, text), false)];
    PatchedFromMerged(m, ps');
    UserLabelsComeLast(ps, items, text);
    LaterLabelWins(m, MergedLabels(ps).value, items, j, k);
  }

  /** When every label is admitted, the last label naming k among the appended ones sets k. */
  lemma LaterLabelWins(m: map<string, string>, base: seq<Label>, items: seq<Label>, j: nat, k: string)
    requires j < |items| && items[j].0 == k
    requires forall j2 :: j < j2 < |items| ==> items[j2].0 != k
    requires |Admit(base + items, 0)| == |base + items|
    ensures k in Apply(m, Admit(base + items, 0)) && Apply(m, Admit(base + items, 0))[k] == Str(items[j].1)
  {
    var all := base + items;
    var n := |base|;
    assert all[n..] == items;
    var a := Admit(all, 0);
    AdmitIsPrefix(all, 0);
    AppendedLabelIsLast(all, a, n, items, j, k);
    AppliedLabelValue(m, a, n + j, k);
  }

  /** Applying labels stores, under k, the value of the last label naming k. */
  lemma AppliedLabelValue(m: map<string, string>, a: seq<(string, string)>, i: nat, k: string)
    requires i < |a| && LastNaming(a, k) == i
    ensures k in Apply(m, a) && Apply(m, a)[k] == a[i].1
  {
    ApplyLookup(m, a, k);
  }

  /** In the admitted labels, the user label j is the last one naming k when no later user label does. */
  lemma AppendedLabelIsLast(all: seq<Label>, a: seq<(string, string)>, n: nat, items: seq<Label>, j: nat, k: string)
    requires n <= |all| && all[n..] == items
    requires |a| == |all| && forall i :: 0 <= i < |a| ==> a[i] == (all[i].0, Str(all[i].1))
    requires j < |items| && items[j].0 == k
    requires forall j2 :: j < j2 < |items| ==> items[j2].0 != k
    ensures LastNaming(a, k) == n + j && a[n + j].1 == Str(items[j].1)
  {
    assert all[n + j] == items[j];
    forall i | n + j < i < |a|
      ensures a[i].0 != k
    {
      assert all[i] == items[i - n];
    }
  }

  // ---------------------------------------------------------------------------
  // add_task_state_labels: patch only when something changed

  /** The object resource returned by the get request; its metadata may be missing or None. */
  datatype ObjectResource = ObjectResource(metadata: Option<map<string, string>>)

  datatype Decision =
    | NoObject
    | NoPatch
    | Patch(original: map<string, string>, patched: map<string, string>)
    | Failed(error: MergeError)

  function PatchDecision(response: Option<ObjectResource>, params: seq<Param>): (d: Decision)
    ensures response.None? <==> d.NoObject?
    ensures d.Patch? ==> d.original != d.patched
    ensures params == [] ==> !d.Patch?
    ensures response.Some? ==>
      var original := if response.value.metadata.Some? then response.value.metadata.value else map[];
      var p := PatchedMetadata(Dict(original), params);
      && (p.Failure? ==> d == Failed(p.error))
      && (p.Success? ==> (d.Patch? <==> p.value.entries != original))
      && (p.Success? && d.Patch? ==> d.original == original && d.patched == p.value.entries)
      && (p.Success? && !d.Patch? ==> d == NoPatch)
  {
    if response.None? then NoObject
    else
      var original := if response.value.metadata.Some? then response.value.metadata.value else map[];
      match PatchedMetadata(Dict(original), params)
      case Failure(e) => Failed(e)
      case Success(patched) =>
        if patched.entries == original then NoPatch else Patch(original, patched.entries)
  }

  /** Label i is the last one naming its key, and it gives that key a value the original lacks. */
  predicate SetsNewValue(original: map<string, string>, labels: seq<(string, string)>, i: int)
    requires 0 <= i < |labels|
  {
    LastNaming(labels, labels[i].0) == i
    && (labels[i].0 !in original || original[labels[i].0] != labels[i].1)
  }

  /** A patch is issued exactly when some admitted label that is last for its key brings a new value. */
  lemma PatchIffSomeLabelChanges(original: map<string, string>, params: seq<Param>)
    requires params != [] && MergedLabels(params).Success?
    ensures var labels := Admit(MergedLabels(params).value, 0);
      PatchDecision(Some(ObjectResource(Some(original))), params).Patch? <==>
        exists i :: 0 <= i < |labels| && SetsNewValue(original, labels, i)
  {
    var labels := Admit(MergedLabels(params).value, 0);
    var patched := Apply(original, labels);
    PatchedFromMerged(original, params);
    if exists i :: 0 <= i < |labels| && SetsNewValue(original, labels, i) {
      var i :| 0 <= i < |labels| && SetsNewValue(original, labels, i);
      var k := labels[i].0;
      ApplyLookup(original, labels, k);
      assert k in patched && patched[k] == labels[i].1;
      assert patched != original by {
        if k in original {
          assert original[k] != patched[k];
        }
      }
    } else {
      forall k | k in patched || k in original
        ensures k in patched && k in original && patched[k] == original[k]
      {
        ApplyLookup(original, labels, k);
        var j := LastNaming(labels, k);
        if j >= 0 {
          assert labels[j].0 == k;
          assert !SetsNewValue(original, labels, j);
        }
      }
      assert patched == original;
    }
  }

  /** Annotating an object a second time with the same parameters issues no patch. */
  lemma ReannotationIssuesNoPatch(original: map<string, string>, params: seq<Param>)
    requires PatchDecision(Some(ObjectResource(Some(original))), params).Patch?
    ensures var patched := PatchDecision(Some(ObjectResource(Some(original))), params).patched;
      PatchDecision(Some(ObjectResource(Some(patched))), params) == NoPatch
  {
    var all := MergedLabels(params).value;
    ApplyIdempotent(original, Admit(all, 0));
  }

  // ---------------------------------------------------------------------------
  // Worked cases

  /** With only kept parameters, the merged list is one label per parameter, in order. */
  lemma MergedAllKept(ps: seq<Param>)
    requires forall i :: 0 <= i < |ps| ==> Kept(ps[i])
    ensures MergedLabels(ps).Success?
    ensures |MergedLabels(ps).value| == |ps|
    ensures forall i :: 0 <= i < |ps| ==> MergedLabels(ps).value[i] == (ps[i].name, ps[i].value)
  {
    UserLabelsNone(ps);
    ParamLabelsAllKept(ps);
    assert ParamLabels(ps) + [] == ParamLabels(ps);
  }

  /** Two parameters of 5000 ASCII characters each: only the first fits the 8 KiB budget. */
  lemma TwoLargeParams(a: string, b: string)
    requires |a| == 5000 && |b| == 5000
    requires forall i :: 0 <= i < 5000 ==> (a[i] as int) < 0x80 && (b[i] as int) < 0x80
    ensures var ps := [Param("param1", PyStr(a), true), Param("param2", PyStr(b), true)];
      PatchedMetadata(Dict(map[]), ps) == Success(Dict(map["param1" := a]))
  {
    var ps := [Param("param1", PyStr(a), true), Param("param2", PyStr(b), true)];
    MergedAllKept(ps);
    assert MergedLabels(ps).value == [("param1", PyStr(a)), ("param2", PyStr(b))];
    TwoLargeAdmit(a, b);
    PatchedFromMerged(map[], ps);
    assert [("param1", a)][..0] == [];
    assert Apply(map[], [("param1", a)]) == map["param1" := a];
  }

  /** The first 5006-byte label fits the 8 KiB budget; the second does not. */
  lemma TwoLargeAdmit(a: string, b: string)
    requires |a| == 5000 && |b| == 5000
    requires forall i :: 0 <= i < 5000 ==> (a[i] as int) < 0x80 && (b[i] as int) < 0x80
    ensures Admit([("param1", PyStr(a)), ("param2", PyStr(b))], 0) == [("param1", a)]
  {
    var all := [("param1", PyStr(a)), ("param2", PyStr(b))];
    Utf8LenAscii(a);
    Utf8LenAscii(b);
    Utf8LenAscii("param1");
    AdmitStep(all, 0, 0);
    AdmitStep(all, 1, 5006);
    assert all[0..] == all && all[2..] == [];
  }


  /**
    A significant parameter and a user-provided label with the same name: when both
    fit the budget, the metadata gets the user label's value under that name and
    nothing else changes.
   */
  lemma CollidingLabels(m: map<string, string>, k: string, paramValue: PyValue, userValue: PyValue, text: string)
    requires k != UserLabelsKey && !paramValue.PyNone?
    requires LabelSize((k, paramValue)) + LabelSize((k, userValue)) <= MaxMetadataSize
    ensures var ps := [Param(k, paramValue, true), Param(UserLabelsKey, PyDict([(k, userValue)], text), false)];
      PatchedMetadata(Dict(m), ps) == Success(Dict(m[k := Str(userValue)]))
  {
    var ps := [Param(k, paramValue, true), Param(UserLabelsKey, PyDict([(k, userValue)], text), false)];
    CollidingMerge(k, paramValue, userValue, text);
    CollidingAdmit(k, paramValue, userValue);
    CollidingApply(m, k, Str(paramValue), Str(userValue));
    PatchedFromMerged(m, ps);
  }

  lemma CollidingMerge(k: string, paramValue: PyValue, userValue: PyValue, text: string)
    requires k != UserLabelsKey && !paramValue.PyNone?
    ensures MergedLabels([Param(k, paramValue, true), Param(UserLabelsKey, PyDict([(k, userValue)], text), false)])
      == Success([(k, paramValue), (k, userValue)])
  {
    var base := [Param(k, paramValue, true)];
    var ps := base + [Param(UserLabelsKey, PyDict([(k, userValue)], text), false)];
    assert Kept(base[0]);
    MergedAllKept(base);
    assert MergedLabels(base).value == [(k, paramValue)];
    UserLabelsComeLast(base, [(k, userValue)], text);
    assert [(k, paramValue)] + [(k, userValue)] == [(k, paramValue), (k, userValue)];
    assert ps == [Param(k, paramValue, true), Param(UserLabelsKey, PyDict([(k, userValue)], text), false)];
  }

  lemma CollidingAdmit(k: string, paramValue: PyValue, userValue: PyValue)
    requires LabelSize((k, paramValue)) + LabelSize((k, userValue)) <= MaxMetadataSize
    ensures Admit([(k, paramValue), (k, userValue)], 0) == [(k, Str(paramValue)), (k, Str(userValue))]
  {
    var all := [(k, paramValue), (k, userValue)];
    AdmitStep(all, 0, 0);
    AdmitStep(all, 1, LabelSize((k, paramValue)));
    assert all[0..] == all && all[2..] == [];
  }

  lemma CollidingApply(m: map<string, string>, k: string, a: string, b: string)
    ensures Apply(m, [(k, a), (k, b)]) == m[k := b]
  {
    var ls := [(k, a), (k, b)];
    assert ls[..1] == [(k, a)] && ls[..1][..0] == [];
    assert Apply(m, ls[..1]) == m[k := a];
    assert m[k := a][k := b] == m[k := b];
  }
}
