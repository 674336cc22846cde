/** The administrator's editor (components/AdminEditor.tsx): the sidebar search, the
    skeleton a new member starts from, saving the form, and adding or removing custom
    fields. The form holds a `Partial<AssociationMember>`; the results of the two
    `prompt` dialogs and the clock reading are inputs. */
module AdminEditor {
  import opened Types
  import opened Seqs
  import opened Text
  import opened Constants
  import opened DataContext

  /** The sidebar's search test: the lower-cased abbreviation contains the
      lower-cased term, or the Chinese name contains the term as typed. */
  predicate SearchMatches(m: MemberRecord, term: string) {
    Contains(ToLower(m.abbreviation), ToLower(term)) || Contains(m.nameCN, term)
  }

  /** The search test for `term`, as a value to filter with. */
  function SearchGate(term: string): MemberRecord -> bool {
    (m: MemberRecord) => SearchMatches(m, term)
  }

  /** `filtered`: the members the sidebar lists, in directory order, each as often as
      the directory holds it. */
  function SearchFilter(members: Directory, term: string): (r: Directory)
    ensures IsSubsequence(r, members)
    ensures |r| == Count(members, SearchGate(term))
    ensures forall i :: 0 <= i < |r| ==> SearchMatches(r[i], term)
    ensures forall i :: 0 <= i < |members| && SearchMatches(members[i], term) ==> members[i] in r
  {
    Filter(members, SearchGate(term))
  }

  /** An empty search lists every member. */
  lemma EmptySearchKeepsAll(members: Directory)
    ensures SearchFilter(members, "") == members
  {
    forall i | 0 <= i < |members| ensures SearchMatches(members[i], "") {
      ContainsEmpty(members[i].nameCN);
    }
    FilterKeepsAll(members, SearchGate(""));
  }

  /** Searching for a member's abbreviation, in any capitalisation, lists it. */
  lemma SearchFindsAbbreviation(members: Directory, i: int, term: string)
    requires 0 <= i < |members|
    requires ToLower(term) == ToLower(members[i].abbreviation)
    ensures members[i] in SearchFilter(members, term)
  {
    var a := ToLower(members[i].abbreviation);
    assert a[..|a|] == a;
    assert IsPrefix(a, a);
  }

  /** The id `handleCreateNew` gives a member: `m-` and the clock reading in
      milliseconds. */
  function SkeletonId(now: nat): (id: string)
    ensures |id| > 2 && id[..2] == "m-"
  {
    "m-" + NatToString(now)
  }

  /** A field of the skeleton: both values empty, awaiting review. */
  const PendingEmpty: Field := PlainField("", "", Pending)

  /** The member `handleCreateNew` builds: a placeholder association in Europe at
      (0, 0), active, of type `Member`, with every fixed field empty and pending. */
  function NewMemberSkeleton(now: nat): (m: MemberRecord)
    ensures m.id == SkeletonId(now)
    ensures m.memberCategory == Association && m.status == Active && m.memberType == Member
    ensures m.region == Europe && m.coordinates == Coordinates(0.0, 0.0)
    ensures m.abbreviation == "NEW" && m.nameEN == "New Association" && m.country == "Country"
    ensures m.overview == PendingEmpty
    ensures m.basicFacts == BasicFacts(PendingEmpty, PendingEmpty, PendingEmpty, PendingEmpty, map[])
    ensures m.coreAreas == CoreAreas([], [], Pending)
    ensures m.customFields.None? && m.contacts.emails == []
  {
    MemberRecord(
      SkeletonId(now), Member, Association, "NEW", "New Association", "新成员协会",
      "Country", "国家", Europe, Coordinates(0.0, 0.0), "",
      PendingEmpty, CoreAreas([], [], Pending),
      BasicFacts(PendingEmpty, PendingEmpty, PendingEmpty, PendingEmpty, map[]),
      None, ContactInfo("", [], ""), Active, None, None)
  }

  /** A skeleton's id never collides with a seed id: `m-` is followed by digits in
      the one, `m` directly in the other. */
  lemma SkeletonIdNotSeed(now: nat, k: nat)
    ensures NewMemberSkeleton(now).id != SeedId(k)
  {
    var a := SkeletonId(now);
    var b := SeedId(k);
    assert b == "m" + NatToString(k);
    assert b[1] == NatToString(k)[0];
    assert IsDigit(b[1]);
    assert a[1] == '-';
  }

  /** The editor's own state: the id being edited, if any, and the form. */
  datatype EditorState = EditorState(editingId: Option<string>, formData: MemberPatch)

  /** The editor as it opens: nothing being edited, an empty form. */
  const ClosedEditor: EditorState := EditorState(None, NoChanges)

  /** Clicking a member in the sidebar: the record itself becomes the form and its
      id the one being edited. The form omits the optional attributes the record
      lacks, so a later save leaves those as the directory then has them. */
  function HandleSelect(m: MemberRecord): (st: EditorState)
    ensures st.editingId == Some(m.id)
    ensures Apply(m, st.formData) == m
    ensures m.customFields.None? ==> st.formData.customFields.None?
    ensures m.customFields.Some? ==> st.formData.customFields == Some(m.customFields)
  {
    ApplyLaws(m, m, NoChanges, NoChanges);
    EditorState(Some(m.id), WholeRecord(m))
  }

  /** `handleCreateNew`: the skeleton goes to the head of the directory and is
      selected for editing, as a click on it would. */
  function HandleCreateNew(members: Directory, now: nat): (r: (Directory, EditorState))
    ensures r.0 == AddMember(members, NewMemberSkeleton(now))
    ensures r.1 == HandleSelect(NewMemberSkeleton(now))
    ensures r.1.editingId == Some(SkeletonId(now))
  {
    var m := NewMemberSkeleton(now);
    (AddMember(members, m), EditorState(Some(m.id), WholeRecord(m)))
  }

  /** A JavaScript string used as a condition: present and not empty. */
  predicate Truthy(s: Option<string>) {
    s.Some? && s.value != ""
  }

  /** `handleSave`: with an id being edited, the form is spread over every member
      carrying that id and editing ends; with none, nothing happens. */
  function HandleSave(members: Directory, st: EditorState): (r: (Directory, EditorState))
    ensures !Truthy(st.editingId) ==> r == (members, st)
    ensures Truthy(st.editingId) ==> r.1 == st.(editingId := None)
    ensures Truthy(st.editingId) ==> |r.0| == |members|
    ensures Truthy(st.editingId) ==> forall i :: 0 <= i < |members| ==>
      r.0[i] == (if members[i].id == st.editingId.value then Apply(members[i], st.formData) else members[i])
  {
    if Truthy(st.editingId) then
      (UpdateMember(members, st.editingId.value, st.formData), st.(editingId := None))
    else (members, st)
  }

  /** Creating a member and saving the untouched form leaves the directory as the
      creation made it, when the new id was not yet taken. */
  lemma CreateThenSave(members: Directory, now: nat)
    requires IdAbsent(members, SkeletonId(now))
    ensures var (d, st) := HandleCreateNew(members, now);
      HandleSave(d, st) == (d, ClosedEditor.(formData := st.formData))
  {
    var (d, st) := HandleCreateNew(members, now);
    var (d2, st2) := HandleSave(d, st);
    assert d2 == d by {
      forall i | 0 <= i < |d| ensures d2[i] == d[i] {
        if i == 0 {
          ApplyLaws(d[0], d[0], NoChanges, NoChanges);
        } else {
          assert d[i] == members[i - 1];
        }
      }
    }
  }

  /** The form is a snapshot taken when editing began, so saving it undoes every
      `updateFieldInfo` made to that member in between: the edited value is gone. */
  lemma SaveRevertsFieldEdits(members: Directory, i: int, valCN: string, valEN: string, st: VerificationStatus)
    requires DistinctMemberIds(members)
    requires 0 <= i < |members| && members[i].id != ""
    ensures var m := members[i];
      var edited := UpdateFieldInfo(members, m.id, ["overview"], valCN, valEN, st);
      var (saved, _) := HandleSave(edited, HandleSelect(m));
      saved == members
  {
    var m := members[i];
    var edited := UpdateFieldInfo(members, m.id, ["overview"], valCN, valEN, st);
    var (saved, _) := HandleSave(edited, HandleSelect(m));
    forall k | 0 <= k < |members| ensures saved[k] == members[k] {
      if k == i {
        ApplyLaws(edited[i], m, NoChanges, NoChanges);
      }
    }
  }

  /** The add-custom-field button: both dialog answers must be non-empty and a member
      must be being edited, otherwise nothing happens. `fid` stands for the id the
      directory draws at random. */
  function AddCustomFieldGuarded(members: Directory, st: EditorState, labelCN: Option<string>, labelEN: Option<string>,
                                 fid: string): (next: Directory)
    ensures !(Truthy(labelCN) && Truthy(labelEN) && Truthy(st.editingId)) ==> next == members
    ensures Truthy(labelCN) && Truthy(labelEN) && Truthy(st.editingId) ==>
      next == AddCustomField(members, st.editingId.value, fid, labelCN.value, labelEN.value)
  {
    if Truthy(labelCN) && Truthy(labelEN) && Truthy(st.editingId) then
      AddCustomField(members, st.editingId.value, fid, labelCN.value, labelEN.value)
    else members
  }

  /** Selecting a member, adding a custom field with both labels given, and saving:
      a member that had no custom-field list keeps the new field, because its form
      omits the list; a member that had one gets its old list back from the form, so
      the new field is dropped again. Nothing else of the member changes. */
  lemma AddFieldThenSave(members: Directory, i: int, fid: string, labelCN: string, labelEN: string)
    requires 0 <= i < |members| && members[i].id != ""
    requires labelCN != "" && labelEN != ""
    ensures var st := HandleSelect(members[i]);
      var added := AddCustomFieldGuarded(members, st, Some(labelCN), Some(labelEN), fid);
      var (saved, _) := HandleSave(added, st);
      && |saved| == |members|
      && saved[i] == members[i].(customFields := saved[i].customFields)
      && (members[i].customFields.None? ==> saved[i].customFields == Some([NewCustomField(fid, labelCN, labelEN)]))
      && (members[i].customFields.Some? ==> saved[i].customFields == members[i].customFields)
  {
    var m := members[i];
    var st := HandleSelect(m);
    var added := AddCustomFieldGuarded(members, st, Some(labelCN), Some(labelEN), fid);
    assert added[i] == m.(customFields := Some(m.customFields.GetOr([]) + [NewCustomField(fid, labelCN, labelEN)]));
    ApplyLaws(added[i], m, NoChanges, NoChanges);
  }

  /** A custom-field list without an entry carrying `fid`. */
  predicate NoFieldWithId(cfs: seq<CustomField>, fid: string) {
    forall k :: 0 <= k < |cfs| ==> cfs[k].id != fid
  }

  /** The test the delete button filters with. */
  function OtherThan(fid: string): CustomField -> bool {
    (f: CustomField) => f.id != fid
  }

  /** Filtering out an id that only the appended entry carries undoes the append. */
  lemma {:induction false} DropAppended(cfs: seq<CustomField>, cf: CustomField)
    requires NoFieldWithId(cfs, cf.id)
    ensures Filter(cfs + [cf], OtherThan(cf.id)) == cfs
  {
    FilterConcat(cfs, [cf], OtherThan(cf.id));
    FilterKeepsAll(cfs, OtherThan(cf.id));
    assert Filter([cf], OtherThan(cf.id)) == [];
  }

  /** The delete button under a custom field: the form's list loses every entry with
      that id and keeps the others in order; a missing list stays missing. No other
      attribute of the form changes, and the directory is untouched until a save. */
  function RemoveFormCustomField(form: MemberPatch, fid: string): (r: MemberPatch)
    ensures r == form.(customFields := r.customFields)
    ensures (form.customFields.None? || form.customFields.value.None?) ==> r.customFields == Some(None)
    ensures form.customFields.Some? && form.customFields.value.Some? ==>
      && r.customFields.Some? && r.customFields.value.Some?
      && NoFieldWithId(r.customFields.value.value, fid)
      && IsSubsequence(r.customFields.value.value, form.customFields.value.value)
      && forall k :: (0 <= k < |form.customFields.value.value| && form.customFields.value.value[k].id != fid) ==>
           form.customFields.value.value[k] in r.customFields.value.value
  {
    var cfs := form.customFields.GetOr(None);
    form.(customFields := Some(if cfs.Some? then Some(Filter(cfs.value, OtherThan(fid))) else None))
  }

  /** Removing, in the form of the member just given a custom field, the field just
      added restores the member's earlier list (an absent list comes back empty),
      provided the drawn id was new to that member. */
  lemma RemoveUndoesAdd(members: Directory, i: int, fid: string, labelCN: string, labelEN: string)
    requires 0 <= i < |members|
    requires NoFieldWithId(members[i].customFields.GetOr([]), fid)
    ensures var after := AddCustomField(members, members[i].id, fid, labelCN, labelEN)[i];
      RemoveFormCustomField(WholeRecord(after), fid).customFields == Some(Some(members[i].customFields.GetOr([])))
  {
    var before := members[i].customFields.GetOr([]);
    var after := AddCustomField(members, members[i].id, fid, labelCN, labelEN)[i];
    assert after.customFields == Some(before + [NewCustomField(fid, labelCN, labelEN)]);
    DropAppended(before, NewCustomField(fid, labelCN, labelEN));
  }
}
