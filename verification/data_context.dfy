/** The directory state and its transitions (contexts/DataContext.tsx). Every
    transition is a pure `prev => next` function over the member sequence; the
    outcome of a confirmation dialog and a freshly drawn id are inputs. */
module DataContext {
  import opened Types
  import opened Seqs

  /** `addMember`: the new member goes to the head of the directory. */
  function AddMember(prev: Directory, m: MemberRecord): (next: Directory)
    ensures |next| == |prev| + 1
    ensures next[0] == m
    ensures next[1..] == prev
  {
    [m] + prev
  }

  /** No member of `d` carries `id`. */
  predicate IdAbsent(d: Directory, id: string) {
    forall i :: 0 <= i < |d| ==> d[i].id != id
  }

  /** `deleteMember`: once confirmed, drops every member carrying `id`, keeping the
      rest in order; declined, leaves the directory as it was. */
  function DeleteMember(prev: Directory, id: string, confirmed: bool): (next: Directory)
    ensures !confirmed ==> next == prev
    ensures confirmed ==> IdAbsent(next, id)
    ensures confirmed ==> IsSubsequence(next, prev)
    ensures confirmed ==> forall i :: 0 <= i < |prev| && prev[i].id != id ==> prev[i] in next
    ensures confirmed ==> |next| == |prev| - Count(prev, (m: MemberRecord) => m.id == id)
  {
    if confirmed then
      var keep := (m: MemberRecord) => m.id != id;
      FilterSplits(prev, keep, (m: MemberRecord) => m.id == id);
      Filter(prev, keep)
    else prev
  }

  /** Deleting the id of a member just added, when no other member carries it,
      restores the directory. */
  lemma DeleteAfterAdd(prev: Directory, m: MemberRecord)
    requires IdAbsent(prev, m.id)
    ensures DeleteMember(AddMember(prev, m), m.id, true) == prev
  {
    var keep := (x: MemberRecord) => x.id != m.id;
    FilterKeepsAll(prev, keep);
    assert AddMember(prev, m)[1..] == prev;
  }

  /** Deleting twice is deleting once. */
  lemma DeleteIdempotent(prev: Directory, id: string, confirmed: bool)
    ensures DeleteMember(DeleteMember(prev, id, confirmed), id, confirmed) == DeleteMember(prev, id, confirmed)
  {
    if confirmed {
      var once := DeleteMember(prev, id, true);
      FilterKeepsAll(once, (m: MemberRecord) => m.id != id);
    }
  }

  /** A `Partial<AssociationMember>`: each attribute either supplied or omitted. The
      optional attributes can be supplied as `undefined`, hence the nested option. */
  datatype MemberPatch = MemberPatch(
    id: Option<string>,
    memberType: Option<MemberType>,
    memberCategory: Option<Category>,
    abbreviation: Option<string>,
    nameEN: Option<string>,
    nameCN: Option<string>,
    country: Option<string>,
    countryCN: Option<string>,
    region: Option<Region>,
    coordinates: Option<Coordinates>,
    logo: Option<string>,
    overview: Option<Field>,
    coreAreas: Option<CoreAreas>,
    basicFacts: Option<BasicFacts>,
    customFields: Option<Option<seq<CustomField>>>,
    contacts: Option<ContactInfo>,
    status: Option<ActiveStatus>,
    internalNotes: Option<Option<string>>,
    allowGlobalAutoUpdate: Option<Option<bool>>)

  /** The patch that supplies nothing. */
  const NoChanges: MemberPatch :=
    MemberPatch(None, None, None, None, None, None, None, None, None, None,
                None, None, None, None, None, None, None, None, None)

  /** An optional attribute as a spread supplies it: present when the record holds
      it, omitted when the record has no such key. */
  function Present<T>(o: Option<T>): (p: Option<Option<T>>)
    ensures o.Some? ==> p == Some(o)
    ensures o.None? ==> p.None?
  {
    if o.Some? then Some(o) else None
  }

  /** The patch a complete record makes when it is spread: every attribute it holds,
      and none of the optional attributes (`customFields`, `internalNotes`,
      `allowGlobalAutoUpdate`) it lacks. This is the form the editor loads. */
  function WholeRecord(n: MemberRecord): (u: MemberPatch)
    ensures u.id == Some(n.id) && u.basicFacts == Some(n.basicFacts) && u.overview == Some(n.overview)
    ensures u.customFields.Some? <==> n.customFields.Some?
    ensures u.customFields.Some? ==> u.customFields.value == n.customFields
    ensures u.internalNotes.Some? <==> n.internalNotes.Some?
    ensures u.allowGlobalAutoUpdate.Some? <==> n.allowGlobalAutoUpdate.Some?
  {
    MemberPatch(Some(n.id), Some(n.memberType), Some(n.memberCategory), Some(n.abbreviation),
                Some(n.nameEN), Some(n.nameCN), Some(n.country), Some(n.countryCN),
                Some(n.region), Some(n.coordinates), Some(n.logo), Some(n.overview),
                Some(n.coreAreas), Some(n.basicFacts), Present(n.customFields), Some(n.contacts),
                Some(n.status), Present(n.internalNotes), Present(n.allowGlobalAutoUpdate))
  }

  /** `{ ...m, ...u }`: supplied attributes override, omitted ones are kept. */
  function Apply(m: MemberRecord, u: MemberPatch): (r: MemberRecord)
    ensures u.id.None? ==> r.id == m.id
    ensures u.id.Some? ==> r.id == u.id.value
    ensures u.memberType.Some? ==> r.memberType == u.memberType.value
    ensures u.memberType.None? ==> r.memberType == m.memberType
    ensures u.memberCategory.Some? ==> r.memberCategory == u.memberCategory.value
    ensures u.memberCategory.None? ==> r.memberCategory == m.memberCategory
    ensures u.abbreviation.Some? ==> r.abbreviation == u.abbreviation.value
    ensures u.abbreviation.None? ==> r.abbreviation == m.abbreviation
    ensures u.nameEN.Some? ==> r.nameEN == u.nameEN.value
    ensures u.nameEN.None? ==> r.nameEN == m.nameEN
    ensures u.nameCN.Some? ==> r.nameCN == u.nameCN.value
    ensures u.nameCN.None? ==> r.nameCN == m.nameCN
    ensures u.country.Some? ==> r.country == u.country.value
    ensures u.country.None? ==> r.country == m.country
    ensures u.countryCN.Some? ==> r.countryCN == u.countryCN.value
    ensures u.countryCN.None? ==> r.countryCN == m.countryCN
    ensures u.region.Some? ==> r.region == u.region.value
    ensures u.region.None? ==> r.region == m.region
    ensures u.coordinates.Some? ==> r.coordinates == u.coordinates.value
    ensures u.coordinates.None? ==> r.coordinates == m.coordinates
    ensures u.logo.Some? ==> r.logo == u.logo.value
    ensures u.logo.None? ==> r.logo == m.logo
    ensures u.overview.Some? ==> r.overview == u.overview.value
    ensures u.overview.None? ==> r.overview == m.overview
    ensures u.coreAreas.Some? ==> r.coreAreas == u.coreAreas.value
    ensures u.coreAreas.None? ==> r.coreAreas == m.coreAreas
    ensures u.basicFacts.Some? ==> r.basicFacts == u.basicFacts.value
    ensures u.basicFacts.None? ==> r.basicFacts == m.basicFacts
    ensures u.customFields.Some? ==> r.customFields == u.customFields.value
    ensures u.customFields.None? ==> r.customFields == m.customFields
    ensures u.contacts.Some? ==> r.contacts == u.contacts.value
    ensures u.contacts.None? ==> r.contacts == m.contacts
    ensures u.status.Some? ==> r.status == u.status.value
    ensures u.status.None? ==> r.status == m.status
    ensures u.internalNotes.Some? ==> r.internalNotes == u.internalNotes.value
    ensures u.internalNotes.None? ==> r.internalNotes == m.internalNotes
    ensures u.allowGlobalAutoUpdate.Some? ==> r.allowGlobalAutoUpdate == u.allowGlobalAutoUpdate.value
    ensures u.allowGlobalAutoUpdate.None? ==> r.allowGlobalAutoUpdate == m.allowGlobalAutoUpdate
  {
    MemberRecord(
      u.id.GetOr(m.id),
      u.memberType.GetOr(m.memberType),
      u.memberCategory.GetOr(m.memberCategory),
      u.abbreviation.GetOr(m.abbreviation),
      u.nameEN.GetOr(m.nameEN),
      u.nameCN.GetOr(m.nameCN),
      u.country.GetOr(m.country),
      u.countryCN.GetOr(m.countryCN),
      u.region.GetOr(m.region),
      u.coordinates.GetOr(m.coordinates),
      u.logo.GetOr(m.logo),
      u.overview.GetOr(m.overview),
      u.coreAreas.GetOr(m.coreAreas),
      u.basicFacts.GetOr(m.basicFacts),
      u.customFields.GetOr(m.customFields),
      u.contacts.GetOr(m.contacts),
      u.status.GetOr(m.status),
      u.internalNotes.GetOr(m.internalNotes),
      u.allowGlobalAutoUpdate.GetOr(m.allowGlobalAutoUpdate))
  }

  /** One attribute of a merged patch: the later one when supplied. */
  function Over<T>(earlier: Option<T>, later: Option<T>): (w: Option<T>)
    ensures later.Some? ==> w == later
    ensures later.None? ==> w == earlier
  {
    if later.Some? then later else earlier
  }

  /** The patch `v` laid over `u`: `v`'s supplied attributes win. */
  function Merge(u: MemberPatch, v: MemberPatch): (w: MemberPatch)
    ensures v.id.Some? ==> w.id == v.id
    ensures v.id.None? ==> w.id == u.id
  {
    MemberPatch(
      Over(u.id, v.id),
      Over(u.memberType, v.memberType),
      Over(u.memberCategory, v.memberCategory),
      Over(u.abbreviation, v.abbreviation),
      Over(u.nameEN, v.nameEN),
      Over(u.nameCN, v.nameCN),
      Over(u.country, v.country),
      Over(u.countryCN, v.countryCN),
      Over(u.region, v.region),
      Over(u.coordinates, v.coordinates),
      Over(u.logo, v.logo),
      Over(u.overview, v.overview),
      Over(u.coreAreas, v.coreAreas),
      Over(u.basicFacts, v.basicFacts),
      Over(u.customFields, v.customFields),
      Over(u.contacts, v.contacts),
      Over(u.status, v.status),
      Over(u.internalNotes, v.internalNotes),
      Over(u.allowGlobalAutoUpdate, v.allowGlobalAutoUpdate))
  }

  /** Spreading nothing changes nothing; a complete record replaces the member except
      for the optional attributes it lacks, which the member keeps; spreading twice
      is spreading once; and two spreads in a row are one spread of the merged patch. */
  lemma ApplyLaws(m: MemberRecord, n: MemberRecord, u: MemberPatch, v: MemberPatch)
    ensures Apply(m, NoChanges) == m
    ensures Apply(m, WholeRecord(n)) == n.(customFields := Over(m.customFields, n.customFields),
                                          internalNotes := Over(m.internalNotes, n.internalNotes),
                                          allowGlobalAutoUpdate := Over(m.allowGlobalAutoUpdate, n.allowGlobalAutoUpdate))
    ensures Apply(n, WholeRecord(n)) == n
    ensures Apply(Apply(m, u), u) == Apply(m, u)
    ensures Apply(Apply(m, u), v) == Apply(m, Merge(u, v))
  {
  }

  /** `updateMember`: every member carrying `id` has the patch spread over it; the
      others, and the length, stay as they were. */
  function UpdateMember(prev: Directory, id: string, u: MemberPatch): (next: Directory)
    ensures |next| == |prev|
    ensures forall i :: 0 <= i < |prev| && prev[i].id != id ==> next[i] == prev[i]
    ensures forall i :: 0 <= i < |prev| && prev[i].id == id ==> next[i] == Apply(prev[i], u)
  {
    seq(|prev|, i requires 0 <= i < |prev| => if prev[i].id == id then Apply(prev[i], u) else prev[i])
  }

  /** An update naming no member leaves the directory unchanged. */
  lemma UpdateUnknownMember(prev: Directory, id: string, u: MemberPatch)
    requires IdAbsent(prev, id)
    ensures UpdateMember(prev, id, u) == prev
  {
  }

  /** Two updates of the same member compose into one update with the merged patch,
      as long as the first does not change the id. */
  lemma UpdateMemberTwice(prev: Directory, id: string, u: MemberPatch, v: MemberPatch)
    requires u.id.None?
    ensures UpdateMember(UpdateMember(prev, id, u), id, v) == UpdateMember(prev, id, Merge(u, v))
  {
    var once := UpdateMember(prev, id, u);
    forall i | 0 <= i < |prev|
      ensures UpdateMember(once, id, v)[i] == UpdateMember(prev, id, Merge(u, v))[i]
    {
      ApplyLaws(prev[i], prev[i], u, v);
    }
  }

  /** Where `updateFieldInfo`'s path points. `path[1]` missing reads as the key
      `"undefined"` under `basicFacts` and as no id under `customFields`. */
  datatype FieldPath = OverviewPath | FactPath(key: string) | CustomPath(fid: Option<string>) | NoPath

  function ParsePath(path: seq<string>): (p: FieldPath)
    ensures p == OverviewPath <==> |path| > 0 && path[0] == "overview"
    ensures p.FactPath? <==> |path| > 0 && path[0] == "basicFacts"
    ensures p.CustomPath? <==> |path| > 0 && path[0] == "customFields"
    ensures p.FactPath? && |path| > 1 ==> p.key == path[1]
    ensures p.FactPath? && |path| == 1 ==> p.key == "undefined"
    ensures p.CustomPath? ==> (p.fid.Some? <==> |path| > 1)
    ensures p.CustomPath? && |path| > 1 ==> p.fid.value == path[1]
  {
    if |path| == 0 then NoPath
    else if path[0] == "overview" then OverviewPath
    else if path[0] == "basicFacts" then FactPath(if |path| > 1 then path[1] else "undefined")
    else if path[0] == "customFields" then CustomPath(if |path| > 1 then Some(path[1]) else None)
    else NoPath
  }

  /** `after` is `before` with its value pair and status replaced and its provenance
      (source, timestamp, auto-update flag, history) untouched: no history entry
      is appended. */
  predicate Retargeted(before: Field, after: Field, valCN: string, valEN: string, st: VerificationStatus) {
    && after.valueCN == valCN && after.valueEN == valEN && after.status == st
    && after.source == before.source
    && after.updatedAt == before.updatedAt
    && after.allowAutoUpdate == before.allowAutoUpdate
    && after.history == before.history
  }

  /** `{ ...f, valueCN, valueEN, status }`. */
  function SetValue(f: Field, valCN: string, valEN: string, st: VerificationStatus): (r: Field)
    ensures Retargeted(f, r, valCN, valEN, st)
  {
    f.(valueCN := valCN, valueEN := valEN, status := st)
  }

  const FactKeys: seq<string> := ["yearEstablished", "legalStatus", "memberScale", "staffScale"]

  /** `basicFacts[key]`: one of the four fixed facts, an extra key, or undefined. */
  function GetFact(b: BasicFacts, key: string): (f: Option<Field>)
    ensures key in FactKeys ==> f.Some?
  {
    if key == "yearEstablished" then Some(b.yearEstablished)
    else if key == "legalStatus" then Some(b.legalStatus)
    else if key == "memberScale" then Some(b.memberScale)
    else if key == "staffScale" then Some(b.staffScale)
    else if key in b.others then Some(b.others[key])
    else None
  }

  /** `{ ...basicFacts, [key]: { ...basicFacts[key], valueCN, valueEN, status } }`.
      Spreading an undefined entry contributes nothing, so an unknown key gets a
      field holding the three given properties only. */
  function SetFact(b: BasicFacts, key: string, valCN: string, valEN: string, st: VerificationStatus): (r: BasicFacts)
    ensures GetFact(b, key).Some? ==> GetFact(r, key) == Some(SetValue(GetFact(b, key).value, valCN, valEN, st))
    ensures GetFact(b, key).None? ==> GetFact(r, key) == Some(PlainField(valCN, valEN, st))
    ensures forall k :: k != key ==> GetFact(r, k) == GetFact(b, k)
  {
    if key == "yearEstablished" then b.(yearEstablished := SetValue(b.yearEstablished, valCN, valEN, st))
    else if key == "legalStatus" then b.(legalStatus := SetValue(b.legalStatus, valCN, valEN, st))
    else if key == "memberScale" then b.(memberScale := SetValue(b.memberScale, valCN, valEN, st))
    else if key == "staffScale" then b.(staffScale := SetValue(b.staffScale, valCN, valEN, st))
    else if key in b.others then b.(others := b.others[key := SetValue(b.others[key], valCN, valEN, st)])
    else b.(others := b.others[key := PlainField(valCN, valEN, st)])
  }

  /** `customFields?.map(f => f.id === fid ? { ...f, valueCN, valueEN, status } : f)`. */
  function SetCustom(cfs: Option<seq<CustomField>>, fid: Option<string>, valCN: string, valEN: string, st: VerificationStatus): (r: Option<seq<CustomField>>)
    ensures cfs.None? <==> r.None?
    ensures r.Some? ==> |r.value| == |cfs.value|
    ensures r.Some? ==> forall i :: 0 <= i < |r.value| ==>
      r.value[i].id == cfs.value[i].id && r.value[i].labelCN == cfs.value[i].labelCN && r.value[i].labelEN == cfs.value[i].labelEN
    ensures r.Some? ==> forall i :: 0 <= i < |r.value| && Some(cfs.value[i].id) != fid ==> r.value[i] == cfs.value[i]
    ensures r.Some? ==> forall i :: 0 <= i < |r.value| && Some(cfs.value[i].id) == fid ==>
      Retargeted(cfs.value[i].field, r.value[i].field, valCN, valEN, st)
  {
    match cfs
    case None => None
    case Some(fs) =>
      Some(seq(|fs|, i requires 0 <= i < |fs| =>
        if Some(fs[i].id) == fid then fs[i].(field := SetValue(fs[i].field, valCN, valEN, st)) else fs[i]))
  }

  /** The update of one member under a parsed path. */
  function UpdateFieldOf(m: MemberRecord, p: FieldPath, valCN: string, valEN: string, st: VerificationStatus): (r: MemberRecord)
    ensures p.OverviewPath? ==> r == m.(overview := r.overview) && Retargeted(m.overview, r.overview, valCN, valEN, st)
    ensures p.FactPath? ==> r == m.(basicFacts := r.basicFacts)
    ensures p.CustomPath? ==> r == m.(customFields := r.customFields)
    ensures p.NoPath? ==> r == m
  {
    match p
    case OverviewPath => m.(overview := SetValue(m.overview, valCN, valEN, st))
    case FactPath(key) => m.(basicFacts := SetFact(m.basicFacts, key, valCN, valEN, st))
    case CustomPath(fid) => m.(customFields := SetCustom(m.customFields, fid, valCN, valEN, st))
    case NoPath => m
  }

  /** `updateFieldInfo`: the members carrying `memberId` get the addressed field
      rewritten; every other member is returned as it was. */
  function UpdateFieldInfo(prev: Directory, memberId: string, path: seq<string>,
                           valCN: string, valEN: string, st: VerificationStatus): (next: Directory)
    ensures |next| == |prev|
    ensures forall i :: 0 <= i < |prev| ==> next[i].id == prev[i].id
    ensures forall i :: 0 <= i < |prev| && prev[i].id != memberId ==> next[i] == prev[i]
    ensures forall i :: 0 <= i < |prev| && prev[i].id == memberId ==>
      next[i] == UpdateFieldOf(prev[i], ParsePath(path), valCN, valEN, st)
  {
    seq(|prev|, i requires 0 <= i < |prev| =>
      if prev[i].id == memberId then UpdateFieldOf(prev[i], ParsePath(path), valCN, valEN, st) else prev[i])
  }

  /** Rewriting a field once more with the same values changes nothing. */
  lemma UpdateFieldOfIdempotent(m: MemberRecord, p: FieldPath, valCN: string, valEN: string, st: VerificationStatus)
    ensures UpdateFieldOf(UpdateFieldOf(m, p, valCN, valEN, st), p, valCN, valEN, st) == UpdateFieldOf(m, p, valCN, valEN, st)
  {
    var once := UpdateFieldOf(m, p, valCN, valEN, st);
    match p
    case FactPath(key) =>
      var b := SetFact(m.basicFacts, key, valCN, valEN, st);
      if key !in FactKeys {
        assert key in b.others;
        assert SetFact(b, key, valCN, valEN, st).others == b.others;
      }
    case CustomPath(fid) =>
      if m.customFields.Some? {
        var fs := once.customFields.value;
        assert SetCustom(once.customFields, fid, valCN, valEN, st).value == fs;
      }
    case _ =>
  }

  /** `updateFieldInfo` is idempotent. */
  lemma {:induction false} UpdateFieldInfoIdempotent(prev: Directory, memberId: string, path: seq<string>,
                                                     valCN: string, valEN: string, st: VerificationStatus)
    ensures UpdateFieldInfo(UpdateFieldInfo(prev, memberId, path, valCN, valEN, st), memberId, path, valCN, valEN, st)
         == UpdateFieldInfo(prev, memberId, path, valCN, valEN, st)
  {
    var once := UpdateFieldInfo(prev, memberId, path, valCN, valEN, st);
    var twice := UpdateFieldInfo(once, memberId, path, valCN, valEN, st);
    forall i | 0 <= i < |prev| ensures twice[i] == once[i] {
      if prev[i].id == memberId {
        UpdateFieldOfIdempotent(prev[i], ParsePath(path), valCN, valEN, st);
      }
    }
  }

  /** On the addressed member, the `overview` path rewrites the overview's value
      pair and status, keeps its provenance, and touches no other attribute. */
  lemma UpdateOverviewOnly(prev: Directory, memberId: string,
                           valCN: string, valEN: string, st: VerificationStatus, i: int)
    requires 0 <= i < |prev| && prev[i].id == memberId
    ensures var r := UpdateFieldInfo(prev, memberId, ["overview"], valCN, valEN, st)[i];
      && r == prev[i].(overview := r.overview)
      && Retargeted(prev[i].overview, r.overview, valCN, valEN, st)
  {
    assert ParsePath(["overview"]) == OverviewPath;
  }

  /** On the addressed member, a path into `basicFacts` rewrites only the fact under
      its key (adding it when the key is new) and leaves every other key as it was. */
  lemma UpdateFactOnly(prev: Directory, memberId: string, key: string,
                       valCN: string, valEN: string, st: VerificationStatus, i: int)
    requires 0 <= i < |prev| && prev[i].id == memberId
    ensures var r := UpdateFieldInfo(prev, memberId, ["basicFacts", key], valCN, valEN, st)[i];
      && r == prev[i].(basicFacts := r.basicFacts)
      && GetFact(r.basicFacts, key).Some?
      && (GetFact(prev[i].basicFacts, key).Some? ==>
            Retargeted(GetFact(prev[i].basicFacts, key).value, GetFact(r.basicFacts, key).value, valCN, valEN, st))
      && (forall k :: k != key ==> GetFact(r.basicFacts, k) == GetFact(prev[i].basicFacts, k))
  {
    assert ParsePath(["basicFacts", key]) == FactPath(key);
  }

  /** On the addressed member, a path into `customFields` rewrites the custom fields
      carrying the id and no others; an absent list stays absent. */
  lemma UpdateCustomOnly(prev: Directory, memberId: string, fid: string,
                         valCN: string, valEN: string, st: VerificationStatus, i: int)
    requires 0 <= i < |prev| && prev[i].id == memberId
    ensures var r := UpdateFieldInfo(prev, memberId, ["customFields", fid], valCN, valEN, st)[i];
      && r == prev[i].(customFields := r.customFields)
      && (prev[i].customFields.None? <==> r.customFields.None?)
      && (r.customFields.Some? ==> |r.customFields.value| == |prev[i].customFields.value|)
      && (r.customFields.Some? ==> forall j :: 0 <= j < |r.customFields.value| ==>
            (prev[i].customFields.value[j].id != fid ==> r.customFields.value[j] == prev[i].customFields.value[j]))
      && (r.customFields.Some? ==> forall j :: 0 <= j < |r.customFields.value| ==>
            (prev[i].customFields.value[j].id == fid ==>
               Retargeted(prev[i].customFields.value[j].field, r.customFields.value[j].field, valCN, valEN, st)))
  {
    assert ParsePath(["customFields", fid]) == CustomPath(Some(fid));
  }

  /** No custom field of a member carrying `memberId` has the id `fid`. */
  predicate NoCustomFieldWith(prev: Directory, memberId: string, fid: Option<string>) {
    forall i, j ::
      (0 <= i < |prev| && prev[i].id == memberId && prev[i].customFields.Some? && 0 <= j < |prev[i].customFields.value|)
      ==> Some(prev[i].customFields.value[j].id) != fid
  }

  /** The silent no-ops: an unknown member id, or a first path element other than
      `overview`, `basicFacts` and `customFields`, leaves the directory as it was; so
      does a custom-field id that no custom field of the member carries. */
  lemma UpdateFieldInfoNoOps(prev: Directory, memberId: string, path: seq<string>,
                             valCN: string, valEN: string, st: VerificationStatus)
    ensures IdAbsent(prev, memberId) ==> UpdateFieldInfo(prev, memberId, path, valCN, valEN, st) == prev
    ensures ParsePath(path) == NoPath ==> UpdateFieldInfo(prev, memberId, path, valCN, valEN, st) == prev
    ensures ParsePath(path).CustomPath? && NoCustomFieldWith(prev, memberId, ParsePath(path).fid)
            ==> UpdateFieldInfo(prev, memberId, path, valCN, valEN, st) == prev
  {
    var next := UpdateFieldInfo(prev, memberId, path, valCN, valEN, st);
    var p := ParsePath(path);
    if p.CustomPath? && NoCustomFieldWith(prev, memberId, p.fid) {
      forall i | 0 <= i < |prev| ensures next[i] == prev[i] {
        if prev[i].id == memberId && prev[i].customFields.Some? {
          assert next[i].customFields.value == prev[i].customFields.value;
        }
      }
    }
  }

  /** The custom field `addCustomField` creates: the given labels, empty values,
      `pending`. */
  function NewCustomField(fid: string, labelCN: string, labelEN: string): (f: CustomField)
    ensures f.id == fid && f.labelCN == labelCN && f.labelEN == labelEN
    ensures f.field == PlainField("", "", Pending)
  {
    CustomField(fid, labelCN, labelEN, PlainField("", "", Pending))
  }

  /** `addCustomField`: every member carrying `memberId` gets one new custom field
      appended after its existing ones (an absent list counts as empty); the other
      members and every other attribute stay as they were. `fid` stands for the
      random id the source draws. */
  function AddCustomField(prev: Directory, memberId: string, fid: string, labelCN: string, labelEN: string): (next: Directory)
    ensures |next| == |prev|
    ensures forall i :: 0 <= i < |prev| && prev[i].id != memberId ==> next[i] == prev[i]
    ensures forall i :: 0 <= i < |prev| && prev[i].id == memberId ==>
      && next[i] == prev[i].(customFields := next[i].customFields)
      && next[i].customFields.Some?
      && |next[i].customFields.value| == |prev[i].customFields.GetOr([])| + 1
      && next[i].customFields.value[..|next[i].customFields.value| - 1] == prev[i].customFields.GetOr([])
      && next[i].customFields.value[|next[i].customFields.value| - 1] == NewCustomField(fid, labelCN, labelEN)
  {
    seq(|prev|, i requires 0 <= i < |prev| =>
      if prev[i].id == memberId
      then prev[i].(customFields := Some(prev[i].customFields.GetOr([]) + [NewCustomField(fid, labelCN, labelEN)]))
      else prev[i])
  }

  /** The settings the directory starts with. */
  const InitialSettings: DisplaySettings :=
    DisplaySettings(false, [Europe, AsiaPacific, Americas, Africa], [Member, Affiliate], true, true, true)

  /** The initial settings admit every region and both member types, open all three
      category gates and show inactive members too. */
  lemma InitialSettingsOpen()
    ensures !InitialSettings.showActiveOnly
    ensures forall r: Region :: r in InitialSettings.allowedRegions
    ensures forall t: MemberType :: t in InitialSettings.allowedTypes
    ensures InitialSettings.showCorporate && InitialSettings.showAssociation && InitialSettings.showAffiliate
  {
    forall r: Region ensures r in InitialSettings.allowedRegions {
      match r
      case Europe => assert InitialSettings.allowedRegions[0] == r;
      case AsiaPacific => assert InitialSettings.allowedRegions[1] == r;
      case Americas => assert InitialSettings.allowedRegions[2] == r;
      case Africa => assert InitialSettings.allowedRegions[3] == r;
    }
    forall t: MemberType ensures t in InitialSettings.allowedTypes {
      if t == Member { assert InitialSettings.allowedTypes[0] == t; }
      else { assert InitialSettings.allowedTypes[1] == t; }
    }
  }

  /** `toggleLanguage`: the other language. */
  function ToggleLanguage(l: Language): (r: Language)
    ensures r != l
  {
    if l == Zh then En else Zh
  }

  /** Toggling the language twice returns to where it started. */
  lemma ToggleLanguageInvolution(l: Language)
    ensures ToggleLanguage(ToggleLanguage(l)) == l
  {
  }
}
