/** The `GET /api/donors` route of the frontend: a fixed list of donors filtered by the
    optional `bloodGroup`, `location` and `availability` query parameters. */
module DonorsRoute {
  import opened Wrappers
  import opened Text
  import opened Sequences
  import FrontendCompatibility
  import BloodGroups

  /** The shape of the route's donor records. */
  datatype RouteDonor = RouteDonor(
    id: string,
    name: string,
    email: string,
    phone: string,
    bloodGroup: string,
    location: string,
    lastDonation: string,
    totalDonations: int,
    isAvailable: bool)

  /** The JSON body: the donors and their count. */
  datatype DonorsResponse = DonorsResponse(donors: seq<RouteDonor>, total: int)

  /** The route's fixed donor list. */
  const MockDonors: seq<RouteDonor> := [
    RouteDonor("1", "John Smith", "john.smith@email.com", "+1 (555) 123-4567", "O+", "Downtown", "2024-01-15", 12, true),
    RouteDonor("2", "Sarah Johnson", "sarah.j@email.com", "+1 (555) 987-6543", "A+", "Uptown", "2024-02-20", 8, true)
  ]

  function HasGroup(group: string): RouteDonor -> bool {
    (d: RouteDonor) => d.bloodGroup == group
  }

  function LocatedIn(location: string): RouteDonor -> bool {
    (d: RouteDonor) => Includes(Lower(d.location), Lower(location))
  }

  function IsAvailable(d: RouteDonor): bool { d.isAvailable }

  /** The filter chain of `GET` over a donor list. */
  function FilterDonors(donors: seq<RouteDonor>, bloodGroup: Option<string>, location: Option<string>,
                        availability: Option<string>): seq<RouteDonor>
  {
    var byGroup :=
      if Truthy(bloodGroup) && bloodGroup.value != "all" then Filter(donors, HasGroup(bloodGroup.value))
      else donors;
    var byLocation :=
      if Truthy(location) then Filter(byGroup, LocatedIn(location.value)) else byGroup;
    if availability == Some("available") then Filter(byLocation, IsAvailable) else byLocation
  }

  /** `GET(request)`: the filtered fixture and its length. */
  function Get(bloodGroup: Option<string>, location: Option<string>, availability: Option<string>): DonorsResponse {
    var donors := FilterDonors(MockDonors, bloodGroup, location, availability);
    DonorsResponse(donors, |donors|)
  }

  /** What a donor must satisfy to be returned. */
  predicate Selected(d: RouteDonor, bloodGroup: Option<string>, location: Option<string>, availability: Option<string>) {
    (Truthy(bloodGroup) && bloodGroup.value != "all" ==> d.bloodGroup == bloodGroup.value) &&
    (Truthy(location) ==> Contains(Lower(d.location), Lower(location.value))) &&
    (availability == Some("available") ==> d.isAvailable)
  }

  /** One filter step keeps, in order, the donors passing it. */
  lemma FilterStep(s: seq<RouteDonor>, full: seq<RouteDonor>, p: RouteDonor -> bool)
    requires SubsequenceOf(s, full)
    ensures SubsequenceOf(Filter(s, p), full)
    ensures forall d :: d in Filter(s, p) <==> d in s && p(d)
  {
    FilterIsSubsequence(s, p);
    SubsequenceTransitive(Filter(s, p), s, full);
    forall d
      ensures d in Filter(s, p) <==> d in s && p(d)
    {
      FilterMembership(s, p, d);
    }
  }

  /** The blood-group filter is exact equality, skipped when absent or "all"; the location
      filter is a case-insensitive substring test, skipped when absent; "available" keeps
      the donors flagged available, with no eligibility test. The result keeps the order
      of the input. */
  lemma FilterDonorsSelects(donors: seq<RouteDonor>, bloodGroup: Option<string>, location: Option<string>,
                            availability: Option<string>)
    ensures var r := FilterDonors(donors, bloodGroup, location, availability);
      SubsequenceOf(r, donors) &&
      forall d :: d in r <==> d in donors && Selected(d, bloodGroup, location, availability)
  {
    SubsequenceReflexive(donors);
    var byGroup :=
      if Truthy(bloodGroup) && bloodGroup.value != "all" then Filter(donors, HasGroup(bloodGroup.value))
      else donors;
    if Truthy(bloodGroup) && bloodGroup.value != "all" {
      FilterStep(donors, donors, HasGroup(bloodGroup.value));
    }
    var byLocation :=
      if Truthy(location) then Filter(byGroup, LocatedIn(location.value)) else byGroup;
    if Truthy(location) {
      FilterStep(byGroup, donors, LocatedIn(location.value));
    }
    if availability == Some("available") {
      FilterStep(byLocation, donors, IsAvailable);
    }
  }

  /** `total` is the number of donors returned, which come from the fixture in order. */
  lemma GetTotalCounts(bloodGroup: Option<string>, location: Option<string>, availability: Option<string>)
    ensures var r := Get(bloodGroup, location, availability);
      r.total == |r.donors| && r.total <= |MockDonors| && SubsequenceOf(r.donors, MockDonors)
  {
    FilterDonorsSelects(MockDonors, bloodGroup, location, availability);
    SubsequenceLength(Get(bloodGroup, location, availability).donors, MockDonors);
  }

  /** The route matches groups exactly: asking for AB+ returns nobody ... */
  lemma ExactGroupMatch()
    ensures Get(Some("AB+"), None, None).total == 0
  {
    var p := HasGroup("AB+");
    assert !p(MockDonors[0]) && !p(MockDonors[1]);
    assert MockDonors[1..][1..] == [];
    assert Filter(MockDonors[1..], p) == Filter(MockDonors[1..][1..], p);
  }

  /** ... although the compatibility table lets AB+ receive from both fixture donors. */
  lemma FixtureCompatibleWithABPositive()
    ensures forall d :: d in MockDonors ==>
              d.bloodGroup in FrontendCompatibility.GetCompatibleBloodGroups("AB+")
  {
    BloodGroups.CodeLiterals();
    FrontendCompatibility.TableMatchesRule(BloodGroups.OPos, BloodGroups.ABPos);
    FrontendCompatibility.TableMatchesRule(BloodGroups.APos, BloodGroups.ABPos);
    assert MockDonors[0].bloodGroup == BloodGroups.Code(BloodGroups.OPos);
    assert MockDonors[1].bloodGroup == BloodGroups.Code(BloodGroups.APos);
  }
}
