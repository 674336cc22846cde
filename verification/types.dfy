/** The record types of the member directory (types.ts). */
module Types {

  datatype Option<T> = None | Some(value: T) {
    function GetOr(default: T): T {
      match this
      case Some(v) => v
      case None => default
    }
  }

  datatype Region = Europe | AsiaPacific | Americas | Africa
  datatype MemberType = Member | Affiliate
  datatype ActiveStatus = Active | Inactive
  datatype VerificationStatus = Auto | Pending | Confirmed
  datatype Category = Association | Corporate
  datatype Language = Zh | En

  /** Every value of each enumeration, in the order the source lists them. */
  const AllRegions: seq<Region> := [Europe, AsiaPacific, Americas, Africa]
  const AllMemberTypes: seq<MemberType> := [Member, Affiliate]
  const AllActiveStatuses: seq<ActiveStatus> := [Active, Inactive]
  const AllVerificationStatuses: seq<VerificationStatus> := [Auto, Pending, Confirmed]
  const AllLanguages: seq<Language> := [Zh, En]

  /** The region, member-type, activity, verification and language enumerations are
      closed: the listings above are exhaustive and repeat nothing. */
  lemma EnumerationsClosed()
    ensures |AllRegions| == 4 && forall r: Region :: r in AllRegions
    ensures forall i, j :: 0 <= i < j < |AllRegions| ==> AllRegions[i] != AllRegions[j]
    ensures |AllMemberTypes| == 2 && forall t: MemberType :: t in AllMemberTypes
    ensures AllMemberTypes[0] != AllMemberTypes[1]
    ensures |AllActiveStatuses| == 2 && forall a: ActiveStatus :: a in AllActiveStatuses
    ensures AllActiveStatuses[0] != AllActiveStatuses[1]
    ensures |AllVerificationStatuses| == 3 && forall v: VerificationStatus :: v in AllVerificationStatuses
    ensures forall i, j :: 0 <= i < j < 3 ==> AllVerificationStatuses[i] != AllVerificationStatuses[j]
    ensures |AllLanguages| == 2 && forall l: Language :: l in AllLanguages
    ensures AllLanguages[0] != AllLanguages[1]
  {
    forall r: Region ensures r in AllRegions {
      match r
      case Europe => assert AllRegions[0] == r;
      case AsiaPacific => assert AllRegions[1] == r;
      case Americas => assert AllRegions[2] == r;
      case Africa => assert AllRegions[3] == r;
    }
    forall t: MemberType ensures t in AllMemberTypes {
      if t == Member { assert AllMemberTypes[0] == t; } else { assert AllMemberTypes[1] == t; }
    }
    forall a: ActiveStatus ensures a in AllActiveStatuses {
      if a == Active { assert AllActiveStatuses[0] == a; } else { assert AllActiveStatuses[1] == a; }
    }
    forall v: VerificationStatus ensures v in AllVerificationStatuses {
      match v
      case Auto => assert AllVerificationStatuses[0] == v;
      case Pending => assert AllVerificationStatuses[1] == v;
      case Confirmed => assert AllVerificationStatuses[2] == v;
    }
    forall l: Language ensures l in AllLanguages {
      if l == Zh { assert AllLanguages[0] == l; } else { assert AllLanguages[1] == l; }
    }
  }

  datatype Coordinates = Coordinates(lat: real, lng: real)

  /** One snapshot of a field's earlier value. */
  datatype FieldVersion = FieldVersion(valueCN: string, valueEN: string, status: VerificationStatus, updatedAt: string)

  /** A bilingual value pair with one verification status for the pair. */
  datatype Field = Field(
    valueCN: string,
    valueEN: string,
    status: VerificationStatus,
    source: Option<string>,
    updatedAt: Option<string>,
    allowAutoUpdate: Option<bool>,
    history: Option<seq<FieldVersion>>)

  /** A field with no provenance, the shape every editor-built field literal has. */
  function PlainField(valueCN: string, valueEN: string, status: VerificationStatus): (f: Field)
    ensures f.valueCN == valueCN && f.valueEN == valueEN && f.status == status
    ensures f.source.None? && f.updatedAt.None? && f.allowAutoUpdate.None? && f.history.None?
  {
    Field(valueCN, valueEN, status, None, None, None, None)
  }

  /** A member-specific section: a field together with its identifier and label pair. */
  datatype CustomField = CustomField(id: string, labelCN: string, labelEN: string, field: Field)

  /** The four fixed facts. `others` holds keys outside the four, which only a
      field-path update naming an unknown key can add (an empty map everywhere else). */
  datatype BasicFacts = BasicFacts(
    yearEstablished: Field,
    legalStatus: Field,
    memberScale: Field,
    staffScale: Field,
    others: map<string, Field>)

  /** Two parallel tag lists under one shared status; tags carry no status of their own. */
  datatype CoreAreas = CoreAreas(tagsCN: seq<string>, tagsEN: seq<string>, status: VerificationStatus)

  datatype ContactInfo = ContactInfo(delegate: string, emails: seq<string>, website: string)

  /** One directory entry (`AssociationMember`). */
  datatype MemberRecord = MemberRecord(
    id: string,
    memberType: MemberType,
    memberCategory: Category,
    abbreviation: string,
    nameEN: string,
    nameCN: string,
    country: string,
    countryCN: string,
    region: Region,
    coordinates: Coordinates,
    logo: string,
    overview: Field,
    coreAreas: CoreAreas,
    basicFacts: BasicFacts,
    customFields: Option<seq<CustomField>>,
    contacts: ContactInfo,
    status: ActiveStatus,
    internalNotes: Option<string>,
    allowGlobalAutoUpdate: Option<bool>)

  type Directory = seq<MemberRecord>

  datatype DisplaySettings = DisplaySettings(
    showActiveOnly: bool,
    allowedRegions: seq<Region>,
    allowedTypes: seq<MemberType>,
    showCorporate: bool,
    showAssociation: bool,
    showAffiliate: bool)

  /** A calendar date as the browser clock reports it. */
  datatype CalendarDate = CalendarDate(year: int, month: nat, day: nat)

  predicate ValidDate(d: CalendarDate) {
    1 <= d.month <= 12 && 1 <= d.day <= 31
  }
}
