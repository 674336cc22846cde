/** Export selection and assembly (utils/exportSystem.ts). The slide deck and the
    PDF report are modelled as plain data: a cover, a list of map markers and a list
    of region sections holding table rows. The browser clock, the Mercator
    projection of the latitude and the height of a rendered table are inputs. */
module ExportSystem {
  import opened Types
  import opened Seqs
  import opened Text
  import opened Constants

  /** `getConfirmedValue`: only a confirmed field is exported, in the requested
      language; any other status exports the empty string. */
  function GetConfirmedValue(f: Field, lang: Language): (v: string)
    ensures f.status == Confirmed && lang == Zh ==> v == f.valueCN
    ensures f.status == Confirmed && lang == En ==> v == f.valueEN
    ensures f.status != Confirmed ==> v == ""
  {
    if f.status == Confirmed then (if lang == Zh then f.valueCN else f.valueEN) else ""
  }

  /** The gate a member's category and type select: corporate members follow
      `showCorporate`, associations of type `Member` follow `showAssociation` and
      affiliated associations follow `showAffiliate`. */
  predicate CategoryGate(s: DisplaySettings, m: MemberRecord) {
    match m.memberCategory
    case Corporate => s.showCorporate
    case Association =>
      match m.memberType
      case Member => s.showAssociation
      case Affiliate => s.showAffiliate
  }

  /** The test inside `getFilteredMembers`, as the chain of early returns it is. */
  function ExportEligible(s: DisplaySettings, m: MemberRecord): (keep: bool)
    ensures keep <==> m.status == Active && CategoryGate(s, m)
  {
    if m.status != Active then false
    else if m.memberCategory == Corporate && !s.showCorporate then false
    else if m.memberCategory == Association && m.memberType == Member && !s.showAssociation then false
    else if m.memberCategory == Association && m.memberType == Affiliate && !s.showAffiliate then false
    else true
  }

  /** The export test under settings `s`, as a value to filter with. */
  function ExportGate(s: DisplaySettings): MemberRecord -> bool {
    (m: MemberRecord) => ExportEligible(s, m)
  }

  /** `getFilteredMembers`: the active members whose gate is open, in directory order,
      each as often as the directory holds it. */
  function GetFilteredMembers(members: Directory, s: DisplaySettings): (r: Directory)
    ensures IsSubsequence(r, members)
    ensures |r| == Count(members, ExportGate(s))
    ensures forall i :: 0 <= i < |r| ==> r[i].status == Active && CategoryGate(s, r[i])
    ensures forall i :: 0 <= i < |members| && members[i].status == Active && CategoryGate(s, members[i]) ==>
      members[i] in r
  {
    Filter(members, ExportGate(s))
  }

  /** The exports read only the three category gates: settings that agree on those
      select the same members, whatever their regions, types or active-only switch. */
  lemma ExportIgnoresViewSettings(members: Directory, s: DisplaySettings, t: DisplaySettings)
    requires s.showCorporate == t.showCorporate
    requires s.showAssociation == t.showAssociation
    requires s.showAffiliate == t.showAffiliate
    ensures GetFilteredMembers(members, s) == GetFilteredMembers(members, t)
  {
    FilterCongruent(members, ExportGate(s), ExportGate(t));
  }

  /** `formatDate` for the date the browser clock reports: `YYYY-MM-DD`, month and
      day padded to two digits. */
  function FormatDate(d: CalendarDate): string {
    IntToString(d.year) + "-" + PadStart(NatToString(d.month), 2, '0') + "-" + PadStart(NatToString(d.day), 2, '0')
  }

  /** A number below 100 padded to two digits reads back as itself. */
  lemma PaddedTwoDigits(n: nat)
    requires 1 <= n < 100
    ensures |PadStart(NatToString(n), 2, '0')| == 2
    ensures AllDigits(PadStart(NatToString(n), 2, '0'))
    ensures ParseNat(PadStart(NatToString(n), 2, '0')) == n
  {
    var s := NatToString(n);
    var p := PadStart(s, 2, '0');
    ParseNatToString(n);
    if n < 10 {
      assert p == ['0'] + s;
      assert p[..1] == "0";
      assert ParseNat(p[..1]) == 0;
    } else {
      assert p == s;
    }
  }

  /** For a four-digit year the date string is `YYYY-MM-DD` and each part reads back
      as the year, month and day: distinct dates give distinct strings. */
  lemma FormatDateReadsBack(d: CalendarDate)
    requires ValidDate(d) && 1000 <= d.year <= 9999
    ensures var r := FormatDate(d);
      && |r| == 10 && r[4] == '-' && r[7] == '-'
      && AllDigits(r[..4]) && AllDigits(r[5..7]) && AllDigits(r[8..])
      && ParseNat(r[..4]) == d.year && ParseNat(r[5..7]) == d.month && ParseNat(r[8..]) == d.day
  {
    var y := IntToString(d.year);
    var mm := PadStart(NatToString(d.month), 2, '0');
    var dd := PadStart(NatToString(d.day), 2, '0');
    NatLength4(d.year);
    ParseNatToString(d.year);
    PaddedTwoDigits(d.month);
    PaddedTwoDigits(d.day);
    DateParts(y, mm, dd);
  }

  /** Where the parts of a `YYYY-MM-DD` string sit. */
  lemma DateParts(y: string, mm: string, dd: string)
    requires |y| == 4 && |mm| == 2 && |dd| == 2
    ensures var r := y + "-" + mm + "-" + dd;
      |r| == 10 && r[4] == '-' && r[7] == '-' && r[..4] == y && r[5..7] == mm && r[8..] == dd
  {
  }

  lemma NatLength4(n: nat)
    requires 1000 <= n <= 9999
    ensures |NatToString(n)| == 4
  {
    assert |NatToString(n / 10)| == 3 by {
      assert |NatToString(n / 100)| == 2 by {
        assert |NatToString(n / 1000)| == 1;
      }
    }
  }

  /** Dates in four-digit years format alike only when they are the same date. */
  lemma FormatDateInjective(d: CalendarDate, e: CalendarDate)
    requires ValidDate(d) && 1000 <= d.year <= 9999
    requires ValidDate(e) && 1000 <= e.year <= 9999
    requires FormatDate(d) == FormatDate(e)
    ensures d == e
  {
    FormatDateReadsBack(d);
    FormatDateReadsBack(e);
  }

  const FileStem: string := "IFPSM_Members_"

  /** The slide deck's file name: the stem, the date, the `.pptx` extension. */
  function PptxFileName(date: string): (name: string)
    ensures |name| == |FileStem| + |date| + 5
    ensures name[..|FileStem|] == FileStem
    ensures name[|FileStem|..|FileStem| + |date|] == date
    ensures name[|FileStem| + |date|..] == ".pptx"
  {
    FileStem + date + ".pptx"
  }

  /** The report's file name: the stem, the date, the `.pdf` extension. */
  function PdfFileName(date: string): (name: string)
    ensures |name| == |FileStem| + |date| + 4
    ensures name[..|FileStem|] == FileStem
    ensures name[|FileStem|..|FileStem| + |date|] == date
    ensures name[|FileStem| + |date|..] == ".pdf"
  {
    FileStem + date + ".pdf"
  }

  /** A file name determines the date it was stamped with, and a deck never shares
      its name with a report. */
  lemma FileNamesDistinguish(d1: string, d2: string)
    ensures PptxFileName(d1) == PptxFileName(d2) ==> d1 == d2
    ensures PdfFileName(d1) == PdfFileName(d2) ==> d1 == d2
    ensures PptxFileName(d1) != PdfFileName(d2)
  {
    var a := PptxFileName(d1);
    var b := PdfFileName(d2);
    assert a[|a| - 4] == 'p';
    assert b[|b| - 4] == '.';
  }

  /** For dates in four-digit years, an exported file is named `IFPSM_Members_`, the
      ten-character stamp and the extension, and the name tells the date apart. */
  lemma ExportNamesIdentifyDate(d: CalendarDate, e: CalendarDate)
    requires ValidDate(d) && 1000 <= d.year <= 9999
    requires ValidDate(e) && 1000 <= e.year <= 9999
    ensures |PptxFileName(FormatDate(d))| == |FileStem| + 15 && |PdfFileName(FormatDate(d))| == |FileStem| + 14
    ensures PptxFileName(FormatDate(d)) == PptxFileName(FormatDate(e)) ==> d == e
    ensures PdfFileName(FormatDate(d)) == PdfFileName(FormatDate(e)) ==> d == e
  {
    FormatDateReadsBack(d);
    FileNamesDistinguish(FormatDate(d), FormatDate(e));
    if FormatDate(d) == FormatDate(e) {
      FormatDateInjective(d, e);
    }
  }

  /** `Math.max(0, Math.min(1, v))`. */
  function Clamp01(v: real): (r: real)
    ensures 0.0 <= r <= 1.0
    ensures 0.0 <= v <= 1.0 ==> r == v
    ensures v < 0.0 ==> r == 0.0
    ensures v > 1.0 ==> r == 1.0
  {
    if v < 0.0 then 0.0 else if v > 1.0 then 1.0 else v
  }

  datatype Point = Point(x: real, y: real)

  /** `latLngToXY` with the Mercator ordinate `0.5 - ln(tan(pi/4 + lat/2)) / (2 pi)`
      abstracted as `mercatorY`: the longitude maps linearly onto [0, 1] and both
      coordinates are clamped to the unit square. */
  function LatLngToXY(lat: real, lng: real, mercatorY: real -> real): (p: Point)
    ensures 0.0 <= p.x <= 1.0 && 0.0 <= p.y <= 1.0
    ensures -180.0 <= lng <= 180.0 ==> p.x * 360.0 == lng + 180.0
    ensures lng < -180.0 ==> p.x == 0.0
    ensures lng > 180.0 ==> p.x == 1.0
    ensures 0.0 <= mercatorY(lat) <= 1.0 ==> p.y == mercatorY(lat)
  {
    Point(Clamp01((lng + 180.0) / 360.0), Clamp01(mercatorY(lat)))
  }

  /** The centre of the map: the equator at the prime meridian lands mid-image, and
      the antimeridian at the left edge, once the projection puts the equator at 0.5. */
  lemma ProjectorSamples(mercatorY: real -> real)
    requires mercatorY(0.0) == 0.5
    ensures LatLngToXY(0.0, 0.0, mercatorY) == Point(0.5, 0.5)
    ensures LatLngToXY(0.0, -180.0, mercatorY) == Point(0.0, 0.5)
  {
  }

  /** A map marker: a 0.1-inch ellipse centred on the member's projected position. */
  datatype Marker = Marker(x: real, y: real, w: real, h: real, fill: string)

  /** The marker colour: violet for corporate members, slate for affiliates, else the
      region's fill colour without its `#`. */
  function MarkerColour(m: MemberRecord): (c: string)
    ensures m.memberCategory == Corporate ==> c == "7C3AED"
    ensures m.memberCategory == Association && m.memberType == Affiliate ==> c == "475569"
    ensures m.memberCategory == Association && m.memberType == Member ==> c == RegionColorsOf(m.region).fill[1..]
  {
    if m.memberCategory == Corporate then "7C3AED"
    else if m.memberType == Affiliate then "475569"
    else
      RemoveLeading(RegionColorsOf(m.region).fill, '#');
      RemoveFirst(RegionColorsOf(m.region).fill, '#')
  }

  /** The map image occupies x in [0.5, 9.4] and y in [1.2, 6.2] on the slide. */
  const MapLeft: real := 0.5
  const MapTop: real := 1.2
  const MapWidth: real := 8.9
  const MapHeight: real := 5.0

  function MarkerFor(m: MemberRecord, mercatorY: real -> real): (mk: Marker)
    ensures mk.w == 0.1 && mk.h == 0.1
    ensures MapLeft <= mk.x + 0.05 <= MapLeft + MapWidth
    ensures MapTop <= mk.y + 0.05 <= MapTop + MapHeight
    ensures mk.fill == MarkerColour(m)
    ensures mk.x == MapLeft + LatLngToXY(m.coordinates.lat, m.coordinates.lng, mercatorY).x * MapWidth - 0.05
    ensures mk.y == MapTop + LatLngToXY(m.coordinates.lat, m.coordinates.lng, mercatorY).y * MapHeight - 0.05
  {
    var p := LatLngToXY(m.coordinates.lat, m.coordinates.lng, mercatorY);
    var plotX := MapLeft + p.x * MapWidth;
    var plotY := MapTop + p.y * MapHeight;
    Marker(plotX - 0.05, plotY - 0.05, 0.1, 0.1, MarkerColour(m))
  }

  /** One marker per selected member, corporate members included, in order. */
  function Markers(filtered: Directory, mercatorY: real -> real): (ms: seq<Marker>)
    ensures |ms| == |filtered|
    ensures forall i :: 0 <= i < |ms| ==> ms[i] == MarkerFor(filtered[i], mercatorY)
  {
    seq(|filtered|, i requires 0 <= i < |filtered| => MarkerFor(filtered[i], mercatorY))
  }

  /** The region names as the source spells them, which the PDF headings and the
      English slide headings print verbatim. */
  function RegionName(r: Region): string {
    match r
    case Europe => "Europe"
    case AsiaPacific => "AsiaPacific"
    case Americas => "Americas"
    case Africa => "Africa"
  }

  /** Position of a region in the fixed section order. */
  function RegionIndex(r: Region): (k: nat)
    ensures k < |AllRegions| && AllRegions[k] == r
  {
    match r
    case Europe => 0
    case AsiaPacific => 1
    case Americas => 2
    case Africa => 3
  }

  predicate InRegionAssociation(reg: Region, m: MemberRecord) {
    m.region == reg && m.memberCategory == Association
  }

  /** The region section test, as a value to filter with. */
  function InRegion(reg: Region): MemberRecord -> bool {
    (m: MemberRecord) => InRegionAssociation(reg, m)
  }

  /** The members a region section lists: the selected associations of that region,
      each as often as the selection holds it. */
  function RegionMembers(filtered: Directory, reg: Region): (r: Directory)
    ensures IsSubsequence(r, filtered)
    ensures |r| == Count(filtered, InRegion(reg))
    ensures forall i :: 0 <= i < |r| ==> r[i].region == reg && r[i].memberCategory == Association
    ensures forall i :: 0 <= i < |filtered| && InRegionAssociation(reg, filtered[i]) ==> filtered[i] in r
  {
    Filter(filtered, InRegion(reg))
  }

  /** A region section before formatting: the region and its members. */
  datatype Group = Group(region: Region, members: Directory)

  /** Every region's section members, as a value to build sections from. */
  function Sections(filtered: Directory): Region -> Directory {
    (r: Region) => RegionMembers(filtered, r)
  }

  /** The candidate section of every region, in the fixed order Europe,
      Asia-Pacific, Americas, Africa; `sel` gives each region's members. */
  function AllGroups(sel: Region -> Directory): (gs: seq<Group>)
    ensures |gs| == 4
    ensures forall k :: 0 <= k < 4 ==> gs[k] == Group(AllRegions[k], sel(AllRegions[k]))
  {
    [Group(Europe, sel(Europe)), Group(AsiaPacific, sel(AsiaPacific)),
     Group(Americas, sel(Americas)), Group(Africa, sel(Africa))]
  }

  predicate NonEmptyGroup(g: Group) {
    |g.members| > 0
  }

  function GroupIndex(g: Group): int {
    RegionIndex(g.region)
  }

  /** The region sections: the candidate sections with at least one member, in the
      fixed region order. */
  function RegionGroups(filtered: Directory): (g: seq<Group>)
    ensures |g| <= 4
    ensures forall k :: 0 <= k < |g| ==> |g[k].members| > 0 && g[k].members == RegionMembers(filtered, g[k].region)
    ensures forall r: Region :: |RegionMembers(filtered, r)| > 0 <==> Group(r, RegionMembers(filtered, r)) in g
    ensures StrictlyIncreasing(g, GroupIndex)
  {
    var sel := Sections(filtered);
    GroupsNonEmpty(sel);
    GroupsCover(sel);
    GroupsOrdered(sel);
    Filter(AllGroups(sel), NonEmptyGroup)
  }

  lemma GroupsNonEmpty(sel: Region -> Directory)
    ensures var g := Filter(AllGroups(sel), NonEmptyGroup);
      forall k :: 0 <= k < |g| ==> |g[k].members| > 0 && g[k].members == sel(g[k].region)
  {
    var all := AllGroups(sel);
    var g := Filter(all, NonEmptyGroup);
    forall k | 0 <= k < |g| ensures g[k].members == sel(g[k].region) {
      assert g[k] in all;
    }
  }

  lemma GroupsCover(sel: Region -> Directory)
    ensures var g := Filter(AllGroups(sel), NonEmptyGroup);
      forall r: Region :: |sel(r)| > 0 <==> Group(r, sel(r)) in g
  {
    var all := AllGroups(sel);
    var g := Filter(all, NonEmptyGroup);
    forall r: Region ensures |sel(r)| > 0 <==> Group(r, sel(r)) in g {
      var x := Group(r, sel(r));
      assert all[RegionIndex(r)] == x;
      if x in g {
        var k :| 0 <= k < |g| && g[k] == x;
        assert NonEmptyGroup(g[k]);
      }
    }
  }

  lemma GroupsOrdered(sel: Region -> Directory)
    ensures StrictlyIncreasing(Filter(AllGroups(sel), NonEmptyGroup), GroupIndex)
  {
    AllGroupsLaid(sel);
    SubsequenceIncreasing(Filter(AllGroups(sel), NonEmptyGroup), AllGroups(sel), GroupIndex);
  }

  /** The candidate sections come in region order. */
  lemma AllGroupsLaid(sel: Region -> Directory)
    ensures StrictlyIncreasing(AllGroups(sel), GroupIndex)
  {
    var all := AllGroups(sel);
    assert forall k :: 0 <= k < 4 ==> GroupIndex(all[k]) == k by {
      assert AllRegions == [Europe, AsiaPacific, Americas, Africa];
    }
  }

  /** A table: a header row and body rows of four cells. */
  datatype Table = Table(header: seq<string>, rows: seq<seq<string>>)

  /** One slide-deck table row: abbreviation, then name, country and confirmed
      member scale in the deck's language. */
  function PptxRow(m: MemberRecord, lang: Language): (row: seq<string>)
    ensures |row| == 4 && row[0] == m.abbreviation
    ensures row[1] == (if lang == Zh then m.nameCN else m.nameEN)
    ensures row[2] == (if lang == Zh then m.countryCN else m.country)
    ensures row[3] == GetConfirmedValue(m.basicFacts.memberScale, lang)
  {
    [m.abbreviation,
     if lang == Zh then m.nameCN else m.nameEN,
     if lang == Zh then m.countryCN else m.country,
     GetConfirmedValue(m.basicFacts.memberScale, lang)]
  }

  /** One report table row: always the English name, country and scale. */
  function PdfRow(m: MemberRecord): (row: seq<string>)
    ensures |row| == 4 && row[0] == m.abbreviation
    ensures row[1] == m.nameEN && row[2] == m.country
    ensures row[3] == GetConfirmedValue(m.basicFacts.memberScale, En)
  {
    [m.abbreviation, m.nameEN, m.country, GetConfirmedValue(m.basicFacts.memberScale, En)]
  }

  function PptxHeader(lang: Language): (h: seq<string>)
    ensures |h| == 4 && h[0] == "Abbr"
  {
    if lang == Zh then ["Abbr", "名称", "国家", "规模"] else ["Abbr", "Name", "Country", "Scale"]
  }

  const PdfHeader: seq<string> := ["Abbr", "Name", "Country", "Scale"]

  /** The region-slide heading: the localised label in Chinese, the region's own
      name otherwise. */
  function PptxHeading(reg: Region, lang: Language): string {
    if lang == Zh then RegionLabel(Zh, reg) else RegionName(reg)
  }

  datatype RegionSlide = RegionSlide(region: Region, heading: string, headingColour: string, table: Table)

  /** The slide deck: cover, map slide with its markers, one slide per non-empty
      region, and the file name. */
  datatype Deck = Deck(
    coverTitle: string,
    coverSubtitle: string,
    coverDate: string,
    mapTitle: string,
    markers: seq<Marker>,
    regionSlides: seq<RegionSlide>,
    fileName: string)

  function SlideFor(grp: Group, lang: Language): (s: RegionSlide)
    ensures s.region == grp.region
    ensures |s.table.rows| == |grp.members|
    ensures forall i :: 0 <= i < |grp.members| ==> s.table.rows[i] == PptxRow(grp.members[i], lang)
  {
    RegionSlide(grp.region, PptxHeading(grp.region, lang), RemoveFirst(RegionColorsOf(grp.region).text, '#'),
      Table(PptxHeader(lang), seq(|grp.members|, i requires 0 <= i < |grp.members| => PptxRow(grp.members[i], lang))))
  }

  /** One slide per region section, in section order. */
  function RegionSlides(groups: seq<Group>, lang: Language): (ss: seq<RegionSlide>)
    ensures |ss| == |groups|
    ensures forall k :: 0 <= k < |ss| ==> ss[k] == SlideFor(groups[k], lang)
  {
    seq(|groups|, k requires 0 <= k < |groups| => SlideFor(groups[k], lang))
  }

  function CoverTitle(lang: Language): string {
    if lang == Zh then "全球会员概览" else "Global Members Overview"
  }

  function CoverSubtitle(lang: Language): string {
    "IFPSM / ECOSOC " + (if lang == Zh then "报告" else "Report")
  }

  function DateLabel(lang: Language): string {
    if lang == Zh then "日期" else "Date"
  }

  function MapTitle(lang: Language): string {
    if lang == Zh then "全球分布" else "Global Distribution"
  }

  /** `generatePPTX`. `coverDate` and `fileDate` are the dates the clock reports at
      the two `formatDate()` calls, one for the cover and one for the file name. */
  function GeneratePptx(members: Directory, s: DisplaySettings, lang: Language,
                        coverDate: CalendarDate, fileDate: CalendarDate, mercatorY: real -> real): (deck: Deck)
    ensures deck.markers == Markers(GetFilteredMembers(members, s), mercatorY)
    ensures deck.regionSlides == RegionSlides(RegionGroups(GetFilteredMembers(members, s)), lang)
    ensures deck.coverDate == DateLabel(lang) + ": " + FormatDate(coverDate)
    ensures deck.fileName == PptxFileName(FormatDate(fileDate))
  {
    var filtered := GetFilteredMembers(members, s);
    Deck(CoverTitle(lang), CoverSubtitle(lang), DateLabel(lang) + ": " + FormatDate(coverDate), MapTitle(lang),
         Markers(filtered, mercatorY), RegionSlides(RegionGroups(filtered), lang), PptxFileName(FormatDate(fileDate)))
  }

  /** The deck's map carries one marker per selected member, corporate members
      included, and its region slides come in the fixed region order. */
  lemma DeckOrder(members: Directory, s: DisplaySettings, lang: Language,
                  coverDate: CalendarDate, fileDate: CalendarDate, mercatorY: real -> real)
    ensures var deck := GeneratePptx(members, s, lang, coverDate, fileDate, mercatorY);
      && |deck.markers| == |GetFilteredMembers(members, s)|
      && forall k, l :: 0 <= k < l < |deck.regionSlides| ==>
           RegionIndex(deck.regionSlides[k].region) < RegionIndex(deck.regionSlides[l].region)
  {
    var groups := RegionGroups(GetFilteredMembers(members, s));
    var slides := RegionSlides(groups, lang);
    forall k, l | 0 <= k < l < |slides|
      ensures RegionIndex(slides[k].region) < RegionIndex(slides[l].region)
    {
      assert GroupIndex(groups[k]) < GroupIndex(groups[l]);
    }
  }

  /** The deck has a region slide exactly for the regions with a selected
      association, and each lists that region's selected associations. */
  lemma DeckCoverage(members: Directory, s: DisplaySettings, lang: Language,
                     coverDate: CalendarDate, fileDate: CalendarDate, mercatorY: real -> real)
    ensures var deck := GeneratePptx(members, s, lang, coverDate, fileDate, mercatorY);
            var filtered := GetFilteredMembers(members, s);
      && (forall k :: 0 <= k < |deck.regionSlides| ==>
            |deck.regionSlides[k].table.rows| == |RegionMembers(filtered, deck.regionSlides[k].region)| > 0)
      && (forall r: Region :: |RegionMembers(filtered, r)| > 0 <==>
            exists k :: 0 <= k < |deck.regionSlides| && deck.regionSlides[k].region == r)
  {
    var filtered := GetFilteredMembers(members, s);
    var groups := RegionGroups(filtered);
    SlidesCover(Sections(filtered), groups, lang);
  }

  lemma SlidesCover(sel: Region -> Directory, groups: seq<Group>, lang: Language)
    requires forall k :: 0 <= k < |groups| ==> |groups[k].members| > 0 && groups[k].members == sel(groups[k].region)
    requires forall r: Region :: |sel(r)| > 0 <==> Group(r, sel(r)) in groups
    ensures var slides := RegionSlides(groups, lang);
      && (forall k :: 0 <= k < |slides| ==> |slides[k].table.rows| == |sel(slides[k].region)| > 0)
      && (forall r: Region :: |sel(r)| > 0 <==> exists k :: 0 <= k < |slides| && slides[k].region == r)
  {
    SlidesSized(sel, groups, lang);
    SlidesPerRegion(sel, groups, lang);
  }

  lemma SlidesSized(sel: Region -> Directory, groups: seq<Group>, lang: Language)
    requires forall k :: 0 <= k < |groups| ==> |groups[k].members| > 0 && groups[k].members == sel(groups[k].region)
    ensures var slides := RegionSlides(groups, lang);
      forall k :: 0 <= k < |slides| ==> |slides[k].table.rows| == |sel(slides[k].region)| > 0
  {
    var slides := RegionSlides(groups, lang);
    forall k | 0 <= k < |slides|
      ensures |slides[k].table.rows| == |sel(slides[k].region)| > 0
    {
      assert slides[k] == SlideFor(groups[k], lang);
    }
  }

  lemma SlidesPerRegion(sel: Region -> Directory, groups: seq<Group>, lang: Language)
    requires forall k :: 0 <= k < |groups| ==> |groups[k].members| > 0 && groups[k].members == sel(groups[k].region)
    requires forall r: Region :: |sel(r)| > 0 <==> Group(r, sel(r)) in groups
    ensures var slides := RegionSlides(groups, lang);
      forall r: Region :: |sel(r)| > 0 <==> exists k :: 0 <= k < |slides| && slides[k].region == r
  {
    var slides := RegionSlides(groups, lang);
    forall r: Region
      ensures |sel(r)| > 0 <==> exists k :: 0 <= k < |slides| && slides[k].region == r
    {
      if |sel(r)| > 0 {
        var k :| 0 <= k < |groups| && groups[k] == Group(r, sel(r));
        assert slides[k].region == r;
      }
      if exists k :: 0 <= k < |slides| && slides[k].region == r {
        var k :| 0 <= k < |slides| && slides[k].region == r;
        assert groups[k].region == r;
      }
    }
  }

  /** One report section: heading, where it was drawn, the table, where the table
      started and ended, and whether a page break followed it. */
  datatype PdfSection = PdfSection(
    heading: string,
    headingY: real,
    table: Table,
    startY: real,
    finalY: real,
    pageBreakAfter: bool)

  datatype PdfReport = PdfReport(title: string, generated: string, sections: seq<PdfSection>, fileName: string)

  const PdfFirstY: real := 70.0
  const PdfPageLimit: real := 250.0
  const PdfTopMargin: real := 20.0

  /** The cursor after a table ending at `finalY`: 20 below it, or the top of a new
      page once that passes 250. */
  function NextCursor(finalY: real): (y: real)
    ensures y <= PdfPageLimit
    ensures finalY + 20.0 > PdfPageLimit ==> y == PdfTopMargin
    ensures finalY + 20.0 <= PdfPageLimit ==> y == finalY + 20.0
  {
    if finalY + 20.0 > PdfPageLimit then PdfTopMargin else finalY + 20.0
  }

  function PdfTable(grp: Group): (t: Table)
    ensures t.header == PdfHeader && |t.rows| == |grp.members|
    ensures forall i :: 0 <= i < |t.rows| ==> t.rows[i] == PdfRow(grp.members[i])
  {
    Table(PdfHeader, seq(|grp.members|, i requires 0 <= i < |grp.members| => PdfRow(grp.members[i])))
  }

  /** `yPos` when the `k`-th section (from 0) is reached: 70 for the first, then
      the cursor after the previous table. `tableEnd(startY, table)` is where the
      table library finishes a table started at `startY`. */
  function CursorBefore(groups: seq<Group>, k: nat, tableEnd: (real, Table) -> real): (y: real)
    requires k <= |groups|
    ensures y <= PdfPageLimit
    decreases k
  {
    if k == 0 then PdfFirstY
    else NextCursor(tableEnd(CursorBefore(groups, k - 1, tableEnd) + 10.0, PdfTable(groups[k - 1])))
  }

  /** The `k`-th report section: its heading at the cursor, its table 10 below. */
  function SectionAt(groups: seq<Group>, k: nat, tableEnd: (real, Table) -> real): (sec: PdfSection)
    requires k < |groups|
    ensures sec.heading == RegionName(groups[k].region) && sec.table == PdfTable(groups[k])
    ensures sec.headingY == CursorBefore(groups, k, tableEnd)
    ensures sec.startY == sec.headingY + 10.0 && sec.finalY == tableEnd(sec.startY, sec.table)
  {
    var y := CursorBefore(groups, k, tableEnd);
    var t := PdfTable(groups[k]);
    var fin := tableEnd(y + 10.0, t);
    PdfSection(RegionName(groups[k].region), y, t, y + 10.0, fin, fin + 20.0 > PdfPageLimit)
  }

  function PdfSections(groups: seq<Group>, tableEnd: (real, Table) -> real): (ps: seq<PdfSection>)
    ensures |ps| == |groups|
    ensures forall k :: 0 <= k < |ps| ==> ps[k] == SectionAt(groups, k, tableEnd)
  {
    seq(|groups|, k requires 0 <= k < |groups| => SectionAt(groups, k, tableEnd))
  }

  /** The report's layout: the first heading at 70; every heading at a y of at most the
      page limit of 250; every table 10 below its heading; each later heading 20
      below the previous table, or at the top margin of 20 on a new page when that
      would pass the limit. */
  lemma PdfLayoutBounds(groups: seq<Group>, tableEnd: (real, Table) -> real)
    ensures var ps := PdfSections(groups, tableEnd);
      && (|ps| > 0 ==> ps[0].headingY == PdfFirstY)
      && (forall k :: 0 <= k < |ps| ==> ps[k].headingY <= PdfPageLimit && ps[k].startY == ps[k].headingY + 10.0)
      && (forall k :: 0 <= k < |ps| ==> ps[k].finalY == tableEnd(ps[k].startY, ps[k].table))
      && (forall k :: 0 <= k < |ps| - 1 ==>
            ps[k + 1].headingY == (if ps[k].finalY + 20.0 > PdfPageLimit then PdfTopMargin else ps[k].finalY + 20.0))
      && (forall k :: 0 <= k < |ps| - 1 ==> (ps[k].pageBreakAfter <==> ps[k + 1].headingY == PdfTopMargin && ps[k].finalY + 20.0 > PdfPageLimit))
  {
    var ps := PdfSections(groups, tableEnd);
    forall k | 0 <= k < |ps| - 1
      ensures ps[k + 1].headingY == NextCursor(ps[k].finalY)
    {
      assert ps[k + 1].headingY == CursorBefore(groups, k + 1, tableEnd);
    }
  }

  /** The report's section layout, computed the way the source does it: one pass
      over the sections with a running `yPos`, which stays at or below the page
      limit after every section. */
  method LayoutPdf(groups: seq<Group>, tableEnd: (real, Table) -> real) returns (ps: seq<PdfSection>, yPos: real)
    ensures |ps| == |groups|
    ensures forall k :: 0 <= k < |ps| ==> ps[k].heading == RegionName(groups[k].region) && ps[k].table == PdfTable(groups[k])
    ensures |ps| > 0 ==> ps[0].headingY == PdfFirstY
    ensures ps == PdfSections(groups, tableEnd)
    ensures yPos <= PdfPageLimit
    ensures yPos == CursorBefore(groups, |groups|, tableEnd)
  {
    ps := [];
    yPos := PdfFirstY;
    var i := 0;
    while i < |groups|
      invariant 0 <= i <= |groups|
      invariant |ps| == i
      invariant forall k :: 0 <= k < i ==> ps[k] == SectionAt(groups, k, tableEnd)
      invariant yPos == CursorBefore(groups, i, tableEnd)
    {
      var t := PdfTable(groups[i]);
      var heading := RegionName(groups[i].region);
      var headingY := yPos;
      yPos := yPos + 10.0;
      var startY := yPos;
      var finalY := tableEnd(startY, t);
      yPos := finalY + 20.0;
      var pageBreak := false;
      if yPos > PdfPageLimit {
        pageBreak := true;
        yPos := PdfTopMargin;
      }
      ps := ps + [PdfSection(heading, headingY, t, startY, finalY, pageBreak)];
      i := i + 1;
    }
  }

  /** `generatePDF`: the title is English whatever the language, and so are the
      section headings and every table cell. `generatedDate` and `fileDate` are the
      dates the clock reports at the two `formatDate()` calls. */
  function GeneratePdf(members: Directory, s: DisplaySettings, lang: Language,
                       generatedDate: CalendarDate, fileDate: CalendarDate, tableEnd: (real, Table) -> real): (doc: PdfReport)
    ensures doc.title == "Global Members Report"
    ensures doc.generated == "Generated: " + FormatDate(generatedDate)
    ensures |doc.sections| == |RegionGroups(GetFilteredMembers(members, s))|
    ensures doc.sections == PdfSections(RegionGroups(GetFilteredMembers(members, s)), tableEnd)
    ensures doc.fileName == PdfFileName(FormatDate(fileDate))
  {
    var groups := RegionGroups(GetFilteredMembers(members, s));
    PdfReport(
      if lang == Zh then "Global Members Report" else "Global Members Report",
      "Generated: " + FormatDate(generatedDate),
      PdfSections(groups, tableEnd),
      PdfFileName(FormatDate(fileDate)))
  }

  /** The report does not depend on the language it is asked for. */
  lemma PdfIgnoresLanguage(members: Directory, s: DisplaySettings, d1: CalendarDate, d2: CalendarDate,
                           tableEnd: (real, Table) -> real)
    ensures GeneratePdf(members, s, Zh, d1, d2, tableEnd) == GeneratePdf(members, s, En, d1, d2, tableEnd)
  {
  }

  /** Whatever language the report is asked for, its sections list the same regions
      in the same order as the English slide deck, with the same table rows. */
  lemma PdfMatchesEnglishDeck(members: Directory, s: DisplaySettings, lang: Language,
                              d1: CalendarDate, d2: CalendarDate, mercatorY: real -> real, tableEnd: (real, Table) -> real)
    ensures var doc := GeneratePdf(members, s, lang, d1, d2, tableEnd);
            var deck := GeneratePptx(members, s, En, d1, d2, mercatorY);
      && |doc.sections| == |deck.regionSlides|
      && forall k :: 0 <= k < |doc.sections| ==>
           doc.sections[k].heading == deck.regionSlides[k].heading
           && doc.sections[k].table.header == deck.regionSlides[k].table.header
           && doc.sections[k].table.rows == deck.regionSlides[k].table.rows
  {
    var groups := RegionGroups(GetFilteredMembers(members, s));
    SectionsMatchSlides(groups, tableEnd);
  }

  lemma SectionsMatchSlides(groups: seq<Group>, tableEnd: (real, Table) -> real)
    ensures var ps := PdfSections(groups, tableEnd);
            var slides := RegionSlides(groups, En);
      && |ps| == |slides|
      && forall k :: 0 <= k < |ps| ==>
           ps[k].heading == slides[k].heading
           && ps[k].table.header == slides[k].table.header
           && ps[k].table.rows == slides[k].table.rows
  {
    var ps := PdfSections(groups, tableEnd);
    var slides := RegionSlides(groups, En);
    forall k | 0 <= k < |ps|
      ensures ps[k].table.rows == slides[k].table.rows
    {
      var a := ps[k].table.rows;
      var b := slides[k].table.rows;
      forall i | 0 <= i < |a| ensures a[i] == b[i] {
        assert a[i] == PdfRow(groups[k].members[i]);
        assert b[i] == PptxRow(groups[k].members[i], En);
      }
    }
  }

  /** A directory of one active association member in Europe with a confirmed member
      scale, and one inactive affiliate elsewhere: exactly the first is exported, and
      the report holds one section, headed `Europe`, with one row carrying that scale. */
  lemma OneEuropeanMember(a: MemberRecord, b: MemberRecord, s: DisplaySettings, lang: Language,
                          d1: CalendarDate, d2: CalendarDate, tableEnd: (real, Table) -> real)
    requires a.status == Active && a.memberCategory == Association && a.memberType == Member
    requires a.region == Europe && a.basicFacts.memberScale.status == Confirmed
    requires b.status == Inactive && b.memberType == Affiliate
    requires s.showAssociation
    ensures GetFilteredMembers([a, b], s) == [a]
    ensures var doc := GeneratePdf([a, b], s, lang, d1, d2, tableEnd);
      && |doc.sections| == 1
      && doc.sections[0].heading == "Europe"
      && doc.sections[0].table.rows == [[a.abbreviation, a.nameEN, a.country, a.basicFacts.memberScale.valueEN]]
  {
    SelectsFirstOnly(a, b, s);
    SingleEuropeanGroup(a);
    var groups := [Group(Europe, [a])];
    var ps := PdfSections(groups, tableEnd);
    assert ps[0] == SectionAt(groups, 0, tableEnd);
    assert ps[0].table.rows == [PdfRow(a)];
  }

  lemma SelectsFirstOnly(a: MemberRecord, b: MemberRecord, s: DisplaySettings)
    requires a.status == Active && a.memberCategory == Association && a.memberType == Member
    requires b.status == Inactive
    requires s.showAssociation
    ensures GetFilteredMembers([a, b], s) == [a]
  {
    assert [a, b][1..] == [b] && [b][1..] == [];
  }

  /** One association in Europe makes one section, Europe's. */
  lemma SingleEuropeanGroup(a: MemberRecord)
    requires a.region == Europe && a.memberCategory == Association
    ensures RegionGroups([a]) == [Group(Europe, [a])]
  {
    var filtered := [a];
    assert filtered[1..] == [];
    assert RegionMembers(filtered, Europe) == [a];
    assert RegionMembers(filtered, AsiaPacific) == [];
    assert RegionMembers(filtered, Americas) == [];
    assert RegionMembers(filtered, Africa) == [];
    var all := AllGroups(Sections(filtered));
    assert all == [Group(Europe, [a]), Group(AsiaPacific, []), Group(Americas, []), Group(Africa, [])];
    assert all[1..][1..][1..][1..] == [];
  }

  /** Every member of the directory that passes the export test reaches the deck's
      map; an association also gets a row in the deck's slide and in the report's
      section for its region. */
  lemma EligibleMemberExported(members: Directory, s: DisplaySettings, lang: Language, m: MemberRecord,
                               d1: CalendarDate, d2: CalendarDate, d3: CalendarDate, d4: CalendarDate,
                               mercatorY: real -> real, tableEnd: (real, Table) -> real)
    requires m in members && ExportEligible(s, m)
    ensures var deck := GeneratePptx(members, s, lang, d1, d2, mercatorY);
      && MarkerFor(m, mercatorY) in deck.markers
      && (m.memberCategory == Association ==>
            exists k :: 0 <= k < |deck.regionSlides| && deck.regionSlides[k].region == m.region
                        && PptxRow(m, lang) in deck.regionSlides[k].table.rows)
    ensures var doc := GeneratePdf(members, s, lang, d3, d4, tableEnd);
      m.memberCategory == Association ==>
        exists k :: 0 <= k < |doc.sections| && doc.sections[k].heading == RegionName(m.region)
                    && PdfRow(m) in doc.sections[k].table.rows
  {
    ExportedToDeck(members, s, lang, m, d1, d2, mercatorY);
    ExportedToReport(members, s, lang, m, d3, d4, tableEnd);
  }

  lemma ExportedToDeck(members: Directory, s: DisplaySettings, lang: Language, m: MemberRecord,
                       d1: CalendarDate, d2: CalendarDate, mercatorY: real -> real)
    requires m in members && ExportEligible(s, m)
    ensures var deck := GeneratePptx(members, s, lang, d1, d2, mercatorY);
      && MarkerFor(m, mercatorY) in deck.markers
      && (m.memberCategory == Association ==>
            exists k :: 0 <= k < |deck.regionSlides| && deck.regionSlides[k].region == m.region
                        && PptxRow(m, lang) in deck.regionSlides[k].table.rows)
  {
    var filtered := GetFilteredMembers(members, s);
    var i :| 0 <= i < |members| && members[i] == m;
    assert m in filtered;
    var j :| 0 <= j < |filtered| && filtered[j] == m;
    var deck := GeneratePptx(members, s, lang, d1, d2, mercatorY);
    assert deck.markers[j] == MarkerFor(m, mercatorY);
    if m.memberCategory == Association {
      var k, t := SectionOf(filtered, m);
      var groups := RegionGroups(filtered);
      assert deck.regionSlides[k] == SlideFor(groups[k], lang);
      assert deck.regionSlides[k].table.rows[t] == PptxRow(m, lang);
    }
  }

  lemma ExportedToReport(members: Directory, s: DisplaySettings, lang: Language, m: MemberRecord,
                         d3: CalendarDate, d4: CalendarDate, tableEnd: (real, Table) -> real)
    requires m in members && ExportEligible(s, m)
    ensures var doc := GeneratePdf(members, s, lang, d3, d4, tableEnd);
      m.memberCategory == Association ==>
        exists k :: 0 <= k < |doc.sections| && doc.sections[k].heading == RegionName(m.region)
                    && PdfRow(m) in doc.sections[k].table.rows
  {
    if m.memberCategory == Association {
      var filtered := GetFilteredMembers(members, s);
      var i :| 0 <= i < |members| && members[i] == m;
      assert m in filtered;
      var k, t := SectionOf(filtered, m);
      var groups := RegionGroups(filtered);
      var doc := GeneratePdf(members, s, lang, d3, d4, tableEnd);
      assert doc.sections[k] == SectionAt(groups, k, tableEnd);
      assert doc.sections[k].table.rows[t] == PdfRow(m);
    }
  }

  /** A selected association sits in its region's section: section `k`, row `t`. */
  lemma SectionOf(filtered: Directory, m: MemberRecord) returns (k: nat, t: nat)
    requires m in filtered && m.memberCategory == Association
    ensures var groups := RegionGroups(filtered);
      && k < |groups| && groups[k].region == m.region
      && t < |groups[k].members| && groups[k].members[t] == m
  {
    var rm := RegionMembers(filtered, m.region);
    var i :| 0 <= i < |filtered| && filtered[i] == m;
    assert InRegionAssociation(m.region, filtered[i]);
    assert m in rm;
    t :| 0 <= t < |rm| && rm[t] == m;
    var groups := RegionGroups(filtered);
    assert Group(m.region, rm) in groups;
    k :| 0 <= k < |groups| && groups[k] == Group(m.region, rm);
  }
}
