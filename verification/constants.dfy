/** Colour and label constants, the seed-field helper, the seed-member constructor and
    the seed directory (constants.ts). */
module Constants {
  import opened Types
  import opened Text

  datatype RegionColors = RegionColors(fill: string, text: string, stroke: string)

  /** `REGION_COLORS`: the fill, text and stroke colours of each region. */
  function RegionColorsOf(r: Region): (c: RegionColors)
    ensures |c.fill| == 7 && c.fill[0] == '#'
    ensures |c.text| == 7 && c.text[0] == '#'
  {
    match r
    case Europe => RegionColors("#2563EB", "#1E3A8A", "#93C5FD")
    case AsiaPacific => RegionColors("#F59E0B", "#92400E", "#FCD34D")
    case Americas => RegionColors("#10B981", "#065F46", "#6EE7B7")
    case Africa => RegionColors("#EF4444", "#991B1B", "#FCA5A5")
  }

  /** The `region<Name>` labels of the interface string tables. */
  function RegionLabel(lang: Language, r: Region): string {
    match lang
    case Zh => (match r
      case Europe => "欧洲大区"
      case AsiaPacific => "亚太大区"
      case Americas => "美洲大区"
      case Africa => "非洲大区")
    case En => (match r
      case Europe => "Europe"
      case AsiaPacific => "Asia-Pacific"
      case Americas => "Americas"
      case Africa => "Africa")
  }

  /** The `field` helper: a confirmed field whose English value falls back to the
      Chinese one when it is omitted or empty (`valEN || valCN`). `now` is the
      timestamp the browser clock supplies. */
  function FieldOf(valCN: string, valEN: Option<string>, now: string): (f: Field)
    ensures f.status == Confirmed
    ensures f.valueCN == valCN
    ensures valEN.None? ==> f.valueEN == valCN
    ensures valEN == Some("") ==> f.valueEN == valCN
    ensures valEN.Some? && valEN.value != "" ==> f.valueEN == valEN.value
    ensures f.updatedAt == Some(now) && f.source.None? && f.history.None? && f.allowAutoUpdate.None?
  {
    Field(valCN, if valEN.Some? && valEN.value != "" then valEN.value else valCN, Confirmed, None, Some(now), None, None)
  }

  /** The arguments of one `initMember` call; an absent `memberType` takes the default. */
  datatype InitArgs = InitArgs(
    id: string,
    abbr: string,
    nameCN: string,
    nameEN: string,
    region: Region,
    country: string,
    countryCN: string,
    lat: real,
    lng: real,
    delegate: string,
    email: string,
    memberType: Option<MemberType>)

  /** The default of `initMember`'s `type` parameter. */
  function DefaultType(t: Option<MemberType>): MemberType {
    if t.Some? then t.value else Member
  }

  /** The seed overview template around the country name, in each language. */
  const OverviewHeadCN: string := "该机构是"
  const OverviewTailCN: string := "地区最具影响力的采购与供应链管理专业组织。致力于推动行业标准的建立，通过职业教育与认证体系提升专业人员素质，是区域内政府与企业间的重要智库。"
  const OverviewHeadEN: string := "Leading professional body in "
  const OverviewTailEN: string := " for procurement and supply chain management. Focal point for industry standards and professional development."

  const SeedWebsite: string := "https://www.ifpsm.org"

  /** `initMember`: a seed association, active, with every fixed field confirmed. */
  function InitMember(a: InitArgs, now: string): (m: MemberRecord)
    ensures m.id == a.id && m.abbreviation == a.abbr && m.region == a.region
    ensures m.memberCategory == Association && m.status == Active
    ensures m.memberType == DefaultType(a.memberType)
    ensures m.coordinates == Coordinates(a.lat, a.lng)
    ensures m.overview.status == Confirmed && m.coreAreas.status == Confirmed
    ensures m.basicFacts.yearEstablished.status == Confirmed && m.basicFacts.legalStatus.status == Confirmed
    ensures m.basicFacts.memberScale.status == Confirmed && m.basicFacts.staffScale.status == Confirmed
    ensures m.basicFacts.memberScale.valueCN == "" && m.basicFacts.memberScale.valueEN == ""
    ensures m.basicFacts.staffScale.valueCN == "" && m.basicFacts.staffScale.valueEN == ""
    ensures m.basicFacts.others == map[]
    ensures m.customFields.None?
    ensures m.contacts.emails == [a.email] && m.contacts.website == SeedWebsite
  {
    MemberRecord(
      a.id,
      DefaultType(a.memberType),
      Association,
      a.abbr,
      a.nameEN,
      a.nameCN,
      a.country,
      a.countryCN,
      a.region,
      Coordinates(a.lat, a.lng),
      "",
      FieldOf(
        OverviewHeadCN + a.countryCN + OverviewTailCN,
        Some(OverviewHeadEN + a.country + OverviewTailEN),
        now),
      CoreAreas(
        ["采购与供应链专业培训", "行业标准与认证", "国际交流与政策倡议"],
        ["Professional Training", "Standards & Certification", "Policy Advocacy"],
        Confirmed),
      BasicFacts(
        FieldOf("1980", None, now),
        FieldOf("非营利性协会 (Non-profit)", Some("Non-profit Association"), now),
        FieldOf("", None, now),
        FieldOf("", None, now),
        map[]),
      None,
      ContactInfo(a.delegate, [a.email], SeedWebsite),
      Active,
      None,
      None)
  }

  /** One `MEMBERS_DATA` line without its id and its optional member type: the source
      numbers the ids `m1` to `m40` in directory order, so the id of a line follows
      from its position, and the member types are listed apart in `SeedTypes`. */
  datatype SeedRow = SeedRow(
    abbr: string,
    nameCN: string,
    nameEN: string,
    region: Region,
    country: string,
    countryCN: string,
    lat: real,
    lng: real,
    delegate: string,
    email: string)
  {
    function Args(id: string, memberType: Option<MemberType>): InitArgs {
      InitArgs(id, abbr, nameCN, nameEN, region, country, countryCN, lat, lng, delegate, email, memberType)
    }
  }

  /** The id of the `k`-th seed member, counting from 1. */
  function SeedId(k: nat): string {
    "m" + NatToString(k)
  }

  /** Gives the rows their member types (none past the end of `types`) and the ids
      `m<first>`, `m<first + 1>`, ... in order. */
  function NumberRows(rows: seq<SeedRow>, types: seq<Option<MemberType>>, first: nat): (args: seq<InitArgs>)
    ensures |args| == |rows|
    ensures forall i :: 0 <= i < |rows| ==>
      args[i] == rows[i].Args(SeedId(first + i), if i < |types| then types[i] else None)
    decreases |rows|
  {
    if |rows| == 0 then []
    else if |types| == 0 then [rows[0].Args(SeedId(first), None)] + NumberRows(rows[1..], types, first + 1)
    else [rows[0].Args(SeedId(first), types[0])] + NumberRows(rows[1..], types[1..], first + 1)
  }

  /** One seed member per argument list, in order. */
  function InitMembers(args: seq<InitArgs>, now: string): (d: Directory)
    ensures |d| == |args|
    ensures forall i :: 0 <= i < |d| ==> d[i] == InitMember(args[i], now)
    decreases |args|
  {
    if |args| == 0 then [] else [InitMember(args[0], now)] + InitMembers(args[1..], now)
  }

  lemma SeedIdInjective(a: nat, b: nat)
    requires SeedId(a) == SeedId(b)
    ensures a == b
  {
    assert SeedId(a)[1..] == NatToString(a);
    assert SeedId(b)[1..] == NatToString(b);
    NatToStringInjective(a, b);
  }

  /** The `i`-th member (from 0) has id `m<i + 1>`. */
  predicate IdsNumbered(d: Directory) {
    forall i :: 0 <= i < |d| ==> d[i].id == SeedId(i + 1)
  }

  /** No two members share an id. */
  predicate DistinctMemberIds(d: Directory) {
    forall i, j :: 0 <= i < j < |d| ==> d[i].id != d[j].id
  }

  /** The affiliates are exactly the members at the given positions. */
  predicate AffiliatesExactlyAt(d: Directory, positions: set<int>) {
    forall i :: 0 <= i < |d| ==> (d[i].memberType == Affiliate <==> i in positions)
  }

  /** What every seed member has in common: an active association whose fixed fields are
      confirmed, whose member and staff scales are confirmed empty strings, with no custom
      fields, one contact address and the federation's website. */
  predicate IsSeedShaped(m: MemberRecord) {
    && m.memberCategory == Association
    && m.status == Active
    && m.overview.status == Confirmed
    && m.coreAreas.status == Confirmed
    && m.basicFacts.yearEstablished.status == Confirmed
    && m.basicFacts.legalStatus.status == Confirmed
    && m.basicFacts.memberScale.status == Confirmed
    && m.basicFacts.memberScale.valueCN == "" && m.basicFacts.memberScale.valueEN == ""
    && m.basicFacts.staffScale.status == Confirmed
    && m.basicFacts.staffScale.valueCN == "" && m.basicFacts.staffScale.valueEN == ""
    && m.basicFacts.others == map[]
    && m.customFields.None?
    && |m.contacts.emails| == 1
    && m.contacts.website == SeedWebsite
  }

  predicate AllSeedShaped(d: Directory) {
    forall i :: 0 <= i < |d| ==> IsSeedShaped(d[i])
  }

  /** The directory built from numbered rows: one `initMember` call per row. */
  function BuildDirectory(rows: seq<SeedRow>, types: seq<Option<MemberType>>, now: string): (d: Directory)
    ensures |d| == |rows|
  {
    InitMembers(NumberRows(rows, types, 1), now)
  }

  /** Numbering rows hands out the ids `m1`, `m2`, ... in order. */
  lemma NumberedIds(rows: seq<SeedRow>, types: seq<Option<MemberType>>, now: string)
    ensures IdsNumbered(BuildDirectory(rows, types, now))
  {
    var args := NumberRows(rows, types, 1);
    var d := BuildDirectory(rows, types, now);
    forall i | 0 <= i < |d| ensures d[i].id == SeedId(i + 1) {
      assert d[i] == InitMember(args[i], now);
    }
  }

  /** Ids numbered by position never repeat. */
  lemma NumberedIdsDistinct(d: Directory)
    requires IdsNumbered(d)
    ensures DistinctMemberIds(d)
  {
    forall i, j | 0 <= i < j < |d| ensures d[i].id != d[j].id {
      if d[i].id == d[j].id {
        SeedIdInjective(i + 1, j + 1);
      }
    }
  }

  /** Every member `initMember` builds has the seed shape, whatever its arguments. */
  lemma InitMembersShaped(args: seq<InitArgs>, now: string)
    ensures AllSeedShaped(InitMembers(args, now))
  {
    var d := InitMembers(args, now);
    forall i | 0 <= i < |d| ensures IsSeedShaped(d[i]) {
      assert d[i] == InitMember(args[i], now);
    }
  }

  /** Members built from rows typed by `types` are affiliates exactly where `types`
      says `Affiliate`. */
  lemma NumberedAffiliates(rows: seq<SeedRow>, types: seq<Option<MemberType>>, now: string, positions: set<int>)
    requires |types| == |rows|
    requires forall i :: 0 <= i < |types| ==> (types[i].Some? <==> i in positions)
    requires forall i :: 0 <= i < |types| && types[i].Some? ==> types[i].value == Affiliate
    ensures AffiliatesExactlyAt(BuildDirectory(rows, types, now), positions)
  {
    var args := NumberRows(rows, types, 1);
    var d := BuildDirectory(rows, types, now);
    forall i | 0 <= i < |d| ensures d[i].memberType == DefaultType(types[i]) {
      assert d[i] == InitMember(args[i], now);
    }
  }

  /** Whatever the rows hold: the built directory numbers its ids `m1`, `m2`, ... in
      order without repeats, every member has the seed shape, and the affiliates are
      exactly the members at the positions whose type says so. */
  lemma BuildDirectoryFacts(rows: seq<SeedRow>, types: seq<Option<MemberType>>, now: string, positions: set<int>)
    requires |types| == |rows|
    requires forall i :: 0 <= i < |types| ==> (types[i].Some? <==> i in positions)
    requires forall i :: 0 <= i < |types| && types[i].Some? ==> types[i].value == Affiliate
    ensures IdsNumbered(BuildDirectory(rows, types, now))
    ensures DistinctMemberIds(BuildDirectory(rows, types, now))
    ensures AllSeedShaped(BuildDirectory(rows, types, now))
    ensures AffiliatesExactlyAt(BuildDirectory(rows, types, now), positions)
  {
    NumberedIds(rows, types, now);
    NumberedIdsDistinct(BuildDirectory(rows, types, now));
    InitMembersShaped(NumberRows(rows, types, 1), now);
    NumberedAffiliates(rows, types, now, positions);
  }
}
