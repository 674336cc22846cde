/** The selection logic of the main screen (App.tsx): which members the map shows,
    the region switches of the filter panel, and stepping through the shown members
    one card at a time. */
module AppView {
  import opened Types
  import opened Seqs
  import opened Constants
  import opened ExportSystem

  /** The on-screen test, as the chain of early returns it is. */
  function Shown(s: DisplaySettings, m: MemberRecord): (keep: bool)
    ensures keep <==> (!s.showActiveOnly || m.status == Active) && m.region in s.allowedRegions
  {
    if s.showActiveOnly && m.status != Active then false
    else if m.region !in s.allowedRegions then false
    else true
  }

  /** The on-screen test under settings `s`, as a value to filter with. */
  function ShownGate(s: DisplaySettings): MemberRecord -> bool {
    (m: MemberRecord) => Shown(s, m)
  }

  /** `filteredMembers`: the members the map and the card navigation see, in
      directory order, each as often as the directory holds it. */
  function FilteredMembers(members: Directory, s: DisplaySettings): (r: Directory)
    ensures IsSubsequence(r, members)
    ensures |r| == Count(members, ShownGate(s))
    ensures forall i :: 0 <= i < |r| ==> (!s.showActiveOnly || r[i].status == Active) && r[i].region in s.allowedRegions
    ensures forall i :: (0 <= i < |members| && (!s.showActiveOnly || members[i].status == Active) &&
                         members[i].region in s.allowedRegions) ==> members[i] in r
  {
    Filter(members, ShownGate(s))
  }

  /** The view reads only the active-only switch and the allowed regions: settings
      that agree on those two show the same members, whatever their category gates
      and allowed types say. */
  lemma ViewIgnoresCategoryGates(members: Directory, s: DisplaySettings, t: DisplaySettings)
    requires s.showActiveOnly == t.showActiveOnly
    requires s.allowedRegions == t.allowedRegions
    ensures FilteredMembers(members, s) == FilteredMembers(members, t)
  {
    FilterCongruent(members, ShownGate(s), ShownGate(t));
  }

  /** A directory whose ids are distinct shows distinct ids. */
  lemma ViewKeepsIdsDistinct(members: Directory, s: DisplaySettings)
    requires DistinctMemberIds(members)
    ensures DistinctMemberIds(FilteredMembers(members, s))
  {
    var byId := (m: MemberRecord) => m.id;
    assert DistinctBy(members, byId);
    FilterDistinctBy(members, ShownGate(s), byId);
    var r := FilteredMembers(members, s);
    assert DistinctBy(r, byId);
  }

  /** `toggleRegion`: a region switched on is removed from the allowed list, one
      switched off is appended at its end. */
  function ToggleRegion(allowed: seq<Region>, r: Region): (next: seq<Region>)
    ensures r in next <==> r !in allowed
    ensures forall x :: x != r ==> (x in next <==> x in allowed)
    ensures r in allowed ==> IsSubsequence(next, allowed)
    ensures r !in allowed ==> |next| == |allowed| + 1 && next[..|allowed|] == allowed && next[|allowed|] == r
  {
    if r in allowed then Filter(allowed, x => x != r) else allowed + [r]
  }

  /** Switching a region on and off again restores the allowed list exactly. */
  lemma ToggleRegionOnOff(allowed: seq<Region>, r: Region)
    requires r !in allowed
    ensures ToggleRegion(ToggleRegion(allowed, r), r) == allowed
  {
    var keep := (x: Region) => x != r;
    FilterConcat(allowed, [r], keep);
    FilterKeepsAll(allowed, keep);
    assert Filter([r], keep) == [];
  }

  /** Switching a region off and on again moves it to the end of the list: the same
      regions, one order that can differ. */
  lemma ToggleRegionOffOn(allowed: seq<Region>, r: Region)
    requires r in allowed
    ensures var twice := ToggleRegion(ToggleRegion(allowed, r), r);
      && twice[|twice| - 1] == r
      && forall x :: x in twice <==> x in allowed
  {
  }

  const RegionUniverse: set<Region> := {Europe, AsiaPacific, Americas, Africa}

  lemma RegionUniverseSize()
    ensures |RegionUniverse| == 4
    ensures forall r: Region :: r in RegionUniverse
  {
    assert RegionUniverse == {Europe} + {AsiaPacific} + {Americas} + {Africa};
    forall r: Region ensures r in RegionUniverse {
      match r
      case Europe =>
      case AsiaPacific =>
      case Americas =>
      case Africa =>
    }
  }

  /** A list that repeats no region keeps repeating none after a toggle, so it never
      holds more than the four regions the panel's `n/4` counter shows. */
  lemma ToggleRegionBounded(allowed: seq<Region>, r: Region)
    requires NoDuplicates(allowed)
    ensures NoDuplicates(ToggleRegion(allowed, r))
    ensures |ToggleRegion(allowed, r)| <= 4
  {
    var next := ToggleRegion(allowed, r);
    var self := (x: Region) => x;
    if r in allowed {
      assert DistinctBy(allowed, self);
      FilterDistinctBy(allowed, x => x != r, self);
      assert DistinctBy(next, self);
    } else {
      forall i, j | 0 <= i < j < |next| ensures next[i] != next[j] {
        if j == |allowed| {
          assert next[i] == allowed[i];
        } else {
          assert next[i] == allowed[i] && next[j] == allowed[j];
        }
      }
    }
    RegionUniverseSize();
    NoDuplicatesBound(next, RegionUniverse);
  }

  /** `findIndex` by id: the first position holding `id`, or -1. */
  function FindIndex(s: Directory, id: string): (i: int)
    ensures -1 <= i < |s|
    ensures i == -1 <==> forall k :: 0 <= k < |s| ==> s[k].id != id
    ensures 0 <= i ==> s[i].id == id && forall k :: 0 <= k < i ==> s[k].id != id
    decreases |s|
  {
    if |s| == 0 then -1
    else if s[0].id == id then 0
    else
      var j := FindIndex(s[1..], id);
      if j == -1 then -1 else j + 1
  }

  /** `currentIndex`: where the selected member sits among the shown ones; -1 when
      nothing is selected or the selection is not shown. */
  function CurrentIndex(filtered: Directory, selected: Option<MemberRecord>): (i: int)
    ensures -1 <= i < |filtered|
    ensures selected.None? ==> i == -1
    ensures selected.Some? ==> (i == -1 <==> forall k :: 0 <= k < |filtered| ==> filtered[k].id != selected.value.id)
    ensures 0 <= i ==> filtered[i].id == selected.value.id
  {
    if selected.Some? then FindIndex(filtered, selected.value.id) else -1
  }

  /** Among distinct ids, the member at position `k` is found at `k`. */
  lemma IndexOfShown(filtered: Directory, k: int)
    requires DistinctMemberIds(filtered)
    requires 0 <= k < |filtered|
    ensures CurrentIndex(filtered, Some(filtered[k])) == k
  {
  }

  /** `handlePrev`: selects the previous shown member when there is one. */
  function HandlePrev(filtered: Directory, selected: Option<MemberRecord>): (next: Option<MemberRecord>)
    ensures next == selected || (next.Some? && next.value in filtered)
    ensures CurrentIndex(filtered, selected) <= 0 ==> next == selected
  {
    var idx := CurrentIndex(filtered, selected);
    if idx > 0 then Some(filtered[idx - 1]) else selected
  }

  /** `handleNext`: selects the next shown member when there is one. From no
      selection (index -1) that is the first shown member. */
  function HandleNext(filtered: Directory, selected: Option<MemberRecord>): (next: Option<MemberRecord>)
    ensures next == selected || (next.Some? && next.value in filtered)
    ensures CurrentIndex(filtered, selected) >= |filtered| - 1 ==> next == selected
  {
    var idx := CurrentIndex(filtered, selected);
    if idx < |filtered| - 1 then Some(filtered[idx + 1]) else selected
  }

  /** Among distinct ids, a step back moves the index down by one and a step forward
      moves it up by one, whenever a neighbour exists. */
  lemma StepsMoveByOne(filtered: Directory, selected: Option<MemberRecord>)
    requires DistinctMemberIds(filtered)
    ensures var i := CurrentIndex(filtered, selected);
      && (i > 0 ==> CurrentIndex(filtered, HandlePrev(filtered, selected)) == i - 1)
      && (i < |filtered| - 1 ==> CurrentIndex(filtered, HandleNext(filtered, selected)) == i + 1)
  {
    var i := CurrentIndex(filtered, selected);
    if i > 0 {
      IndexOfShown(filtered, i - 1);
    }
    if i < |filtered| - 1 {
      IndexOfShown(filtered, i + 1);
    }
  }

  /** With nothing selected, "next" opens the first shown member and "previous"
      does nothing. */
  lemma StepFromNothing(filtered: Directory)
    requires |filtered| > 0
    ensures HandleNext(filtered, None) == Some(filtered[0])
    ensures HandlePrev(filtered, None) == None
  {
  }

  /** Stepping forward and then back returns to the member at the starting index. */
  lemma NextThenPrev(filtered: Directory, selected: Option<MemberRecord>)
    requires DistinctMemberIds(filtered)
    requires 0 <= CurrentIndex(filtered, selected) < |filtered| - 1
    ensures HandlePrev(filtered, HandleNext(filtered, selected)) == Some(filtered[CurrentIndex(filtered, selected)])
  {
    StepsMoveByOne(filtered, selected);
  }

  /** The deck button of the export menu: `generatePPTX` is handed the whole
      directory `members`, not the shown list, and the menu closes. */
  function ExportPptxClicked(members: Directory, s: DisplaySettings, lang: Language,
                             coverDate: CalendarDate, fileDate: CalendarDate,
                             mercatorY: real -> real): (r: (Deck, bool))
    ensures r.0.markers == Markers(GetFilteredMembers(members, s), mercatorY)
    ensures r.0.regionSlides == RegionSlides(RegionGroups(GetFilteredMembers(members, s)), lang)
    ensures r.0.fileName == PptxFileName(FormatDate(fileDate))
    ensures !r.1
  {
    (GeneratePptx(members, s, lang, coverDate, fileDate, mercatorY), false)
  }

  /** The report button of the export menu: `generatePDF` is handed the whole
      directory `members`, and the menu closes. */
  function ExportPdfClicked(members: Directory, s: DisplaySettings, lang: Language,
                            generatedDate: CalendarDate, fileDate: CalendarDate,
                            tableEnd: (real, Table) -> real): (r: (PdfReport, bool))
    ensures r.0.sections == PdfSections(RegionGroups(GetFilteredMembers(members, s)), tableEnd)
    ensures r.0.fileName == PdfFileName(FormatDate(fileDate))
    ensures !r.1
  {
    (GeneratePdf(members, s, lang, generatedDate, fileDate, tableEnd), false)
  }

  /** A member the view hides but the export test admits still reaches the exported
      files: its marker is on the deck's map, and an association has its row on its
      region's slide and in its region's report section. */
  lemma ExportsSeeHiddenMembers(members: Directory, s: DisplaySettings, lang: Language, m: MemberRecord,
                                d1: CalendarDate, d2: CalendarDate, d3: CalendarDate, d4: CalendarDate,
                                mercatorY: real -> real, tableEnd: (real, Table) -> real)
    requires m in members && m !in FilteredMembers(members, s)
    requires ExportEligible(s, m)
    ensures var deck := ExportPptxClicked(members, s, lang, d1, d2, mercatorY).0;
      && MarkerFor(m, mercatorY) in deck.markers
      && (m.memberCategory == Association ==>
            exists k :: 0 <= k < |deck.regionSlides| && deck.regionSlides[k].region == m.region
                        && PptxRow(m, lang) in deck.regionSlides[k].table.rows)
    ensures var doc := ExportPdfClicked(members, s, lang, d3, d4, tableEnd).0;
      m.memberCategory == Association ==>
        exists k :: 0 <= k < |doc.sections| && doc.sections[k].heading == RegionName(m.region)
                    && PdfRow(m) in doc.sections[k].table.rows
  {
    EligibleMemberExported(members, s, lang, m, d1, d2, d3, d4, mercatorY, tableEnd);
  }

  /** A member of the directory is exported yet hidden on screen exactly when it
      passes the export test and its region is switched off: the export test already
      demands an active member, so only the region switches can hide it. */
  lemma ViewAndExportDiffer(members: Directory, s: DisplaySettings, m: MemberRecord)
    requires m in members
    ensures (m in GetFilteredMembers(members, s) && m !in FilteredMembers(members, s))
            <==> (ExportEligible(s, m) && m.region !in s.allowedRegions)
  {
    var i :| 0 <= i < |members| && members[i] == m;
    var e := GetFilteredMembers(members, s);
    if m in e {
      var j :| 0 <= j < |e| && e[j] == m;
    }
    var v := FilteredMembers(members, s);
    if m in v {
      var j :| 0 <= j < |v| && v[j] == m;
    }
  }

  /** The situation is reachable: an active association in a switched-off region is
      not shown, yet it is exported. */
  lemma HiddenYetExportedExample()
    ensures var m := InitMember(InitArgs("m1", "A", "甲", "A", Africa, "C", "丙", 0.0, 0.0, "D", "e", None), "t");
      var s := DisplaySettings(false, [Europe], [Member], true, true, true);
      && FilteredMembers([m], s) == []
      && GetFilteredMembers([m], s) == [m]
  {
    var m := InitMember(InitArgs("m1", "A", "甲", "A", Africa, "C", "丙", 0.0, 0.0, "D", "e", None), "t");
    var s := DisplaySettings(false, [Europe], [Member], true, true, true);
    assert !Shown(s, m);
    assert ExportEligible(s, m);
    assert [m][1..] == [];
  }
}
