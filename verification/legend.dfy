/** The map legend's counters (components/Legend.tsx): members per region and
    affiliates, both over the whole directory whatever the view shows. */
module Legend {
  import opened Types
  import opened Seqs

  /** A member the region counter counts: an active association of type `Member`. */
  predicate CountedIn(m: MemberRecord, r: Region) {
    m.status == Active && m.memberCategory == Association && m.memberType == Member && m.region == r
  }

  /** A member the affiliate counter counts. */
  predicate ActiveAffiliate(m: MemberRecord) {
    m.status == Active && m.memberType == Affiliate
  }

  predicate IsActive(m: MemberRecord) {
    m.status == Active
  }

  /** One step of the `reduce`: a counted member bumps its region's entry, which
      starts at 0 when the region has none yet. */
  function Tally(acc: map<Region, nat>, m: MemberRecord): (next: map<Region, nat>)
    ensures forall r :: r != m.region ==> (r in next <==> r in acc) && (r in acc ==> next[r] == acc[r])
    ensures CountedIn(m, m.region) ==> m.region in next && next[m.region] == (if m.region in acc then acc[m.region] else 0) + 1
    ensures !CountedIn(m, m.region) ==> next == acc
  {
    if m.status == Active && m.memberCategory == Association && m.memberType == Member then
      acc[m.region := (if m.region in acc then acc[m.region] else 0) + 1]
    else acc
  }

  /** `regionCounts`: the `reduce` from the empty record, visiting the members from
      the first to the last. */
  function RegionCounts(members: Directory): (counts: map<Region, nat>)
    decreases |members|
  {
    if |members| == 0 then map[]
    else Tally(RegionCounts(members[..|members| - 1]), members[|members| - 1])
  }

  /** The figure shown for a region: its entry, or 0 when it has none (`|| 0`). */
  function Displayed(counts: map<Region, nat>, r: Region): nat {
    if r in counts then counts[r] else 0
  }

  /** A region's entry exists exactly when some member is counted in it, and it then
      holds the number of such members; so the legend shows, for every region, the
      number of active association members of type `Member` in it. */
  lemma {:induction false} RegionCountsCorrect(members: Directory, r: Region)
    ensures r in RegionCounts(members) <==> Count(members, m => CountedIn(m, r)) > 0
    ensures Displayed(RegionCounts(members), r) == Count(members, m => CountedIn(m, r))
    decreases |members|
  {
    if |members| > 0 {
      var init := members[..|members| - 1];
      var last := members[|members| - 1];
      RegionCountsCorrect(init, r);
      assert members == init + [last];
      CountSnoc(init, last, m => CountedIn(m, r));
    }
  }

  /** `affiliateCount`: the active members of type `Affiliate`, of any category and
      region. */
  function AffiliateCount(members: Directory): (n: nat)
    ensures n == Count(members, ActiveAffiliate)
  {
    |Filter(members, ActiveAffiliate)|
  }

  /** The legend counts only active members: dropping the inactive ones first
      changes no figure. */
  lemma LegendIgnoresInactive(members: Directory, r: Region)
    ensures Displayed(RegionCounts(Filter(members, IsActive)), r) == Displayed(RegionCounts(members), r)
    ensures AffiliateCount(Filter(members, IsActive)) == AffiliateCount(members)
  {
    var active := IsActive;
    RegionCountsCorrect(members, r);
    RegionCountsCorrect(Filter(members, active), r);
    CountAfterFilter(members, active, m => CountedIn(m, r));
    CountAfterFilter(members, active, ActiveAffiliate);
  }

  /** No member is counted twice: the four region figures and the affiliate figure
      add up to at most the number of members. */
  lemma LegendTotalBounded(members: Directory)
    ensures Displayed(RegionCounts(members), Europe) + Displayed(RegionCounts(members), AsiaPacific)
          + Displayed(RegionCounts(members), Americas) + Displayed(RegionCounts(members), Africa)
          + AffiliateCount(members) <= |members|
  {
    var e := (m: MemberRecord) => CountedIn(m, Europe);
    var ap := (m: MemberRecord) => CountedIn(m, AsiaPacific);
    var am := (m: MemberRecord) => CountedIn(m, Americas);
    var af := (m: MemberRecord) => CountedIn(m, Africa);
    var aff := ActiveAffiliate;
    var e2 := (m: MemberRecord) => e(m) || ap(m);
    var e3 := (m: MemberRecord) => e2(m) || am(m);
    var e4 := (m: MemberRecord) => e3(m) || af(m);
    RegionCountsCorrect(members, Europe);
    RegionCountsCorrect(members, AsiaPacific);
    RegionCountsCorrect(members, Americas);
    RegionCountsCorrect(members, Africa);
    CountUnion(members, e, ap, e2);
    CountUnion(members, e2, am, e3);
    CountUnion(members, e3, af, e4);
    CountDisjoint(members, e4, aff);
  }
}
