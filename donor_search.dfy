/** The donor search hook of the frontend: the donors it loads, the filter pipeline it
    applies (blood-group compatibility, location, availability) and the filter merge. */
module DonorSearch {
  import opened Wrappers
  import opened Text
  import opened Sequences
  import opened FrontendCompatibility
  import opened Dates
  import opened Eligibility
  import opened Records

  datatype Availability = AnyTime | Available | Upcoming

  /** `SearchFilters`; `bloodGroup` is a group code or `"all"`. */
  datatype SearchFilters = SearchFilters(bloodGroup: string, location: string, availability: Availability)

  /** `Partial<SearchFilters>`: a field is `None` when the key is absent. */
  datatype FilterUpdate = FilterUpdate(
    bloodGroup: Option<string>,
    location: Option<string>,
    availability: Option<Availability>)

  const DefaultFilters := SearchFilters("all", "", AnyTime)

  /** `loadDonors`: the stored users whose role is donor. */
  function LoadedDonors(slot: Stored<User>): seq<User> {
    Filter(GetAllUsers(slot), IsDonor)
  }

  function IsDonor(u: User): bool { u.role == Donor }

  /** `compatibleGroups.includes(donor.bloodGroup)`. */
  function InGroups(groups: seq<string>): User -> bool {
    (u: User) => u.bloodGroup in groups
  }

  /** `donor.location.toLowerCase().includes(location.toLowerCase())`. */
  function LocatedIn(location: string): User -> bool {
    (u: User) => Includes(Lower(u.location), Lower(location))
  }

  /** `donor.isAvailable && isEligibleToDonate(donor.lastDonation)`; the eligibility
      test is not reached for an unavailable donor. */
  function AvailableNow(today: Date): User -> Result<bool, JsError>
    requires Valid(today)
  {
    (u: User) => if !u.isAvailable then Ok(false) else IsEligibleToDonate(u.lastDonation, today)
  }

  /** `!isEligibleToDonate(donor.lastDonation)`. */
  function NotYetEligible(today: Date): User -> Result<bool, JsError>
    requires Valid(today)
  {
    (u: User) =>
      match IsEligibleToDonate(u.lastDonation, today)
      case Err(e) => Err(e)
      case Ok(b) => Ok(!b)
  }

  /** `filter` with a callback that may throw: the first throw ends the whole call. */
  function FilterOrThrow<T(!new), E>(s: seq<T>, p: T -> Result<bool, E>): (r: Result<seq<T>, E>)
    ensures r.Ok? ==> SubsequenceOf(r.value, s)
    ensures r.Ok? ==> forall x :: x in r.value <==> x in s && p(x) == Ok(true)
    ensures r.Ok? <==> forall i :: 0 <= i < |s| ==> p(s[i]).Ok?
  {
    if s == [] then Ok([])
    else
      match p(s[0])
      case Err(e) => Err(e)
      case Ok(keep) =>
        match FilterOrThrow(s[1..], p)
        case Err(e) => Err(e)
        case Ok(rest) =>
          assert forall i :: 1 <= i < |s| ==> s[i] == s[1..][i - 1];
          assert forall x :: x in s <==> x == s[0] || x in s[1..];
          SubsequenceSkip(rest, s[1..], s[0]);
          assert SubsequenceOf([s[0]] + rest, s) by {
            assert ([s[0]] + rest)[1..] == rest;
          }
          Ok(if keep then [s[0]] + rest else rest)
  }

  /** The blood-group and location steps of `applyFilters`, which cannot throw. */
  function ByGroupAndLocation(donors: seq<User>, filters: SearchFilters): seq<User> {
    var byGroup :=
      if filters.bloodGroup != "all" then Filter(donors, InGroups(GetCompatibleBloodGroups(filters.bloodGroup)))
      else donors;
    if filters.location != "" then Filter(byGroup, LocatedIn(filters.location)) else byGroup
  }

  /** `applyFilters()`: the donors left after the blood-group, location and
      availability steps, or the error an unreadable last-donation date throws. */
  function ApplyFilters(donors: seq<User>, filters: SearchFilters, today: Date): Result<seq<User>, JsError>
    requires Valid(today)
  {
    var filtered := ByGroupAndLocation(donors, filters);
    match filters.availability
    case AnyTime => Ok(filtered)
    case Available => FilterOrThrow(filtered, AvailableNow(today))
    case Upcoming => FilterOrThrow(filtered, NotYetEligible(today))
  }

  /** What a donor must satisfy to pass the blood-group and location steps. */
  predicate MatchesGroupAndLocation(u: User, filters: SearchFilters) {
    (filters.bloodGroup != "all" ==> u.bloodGroup in GetCompatibleBloodGroups(filters.bloodGroup)) &&
    (filters.location != "" ==> Contains(Lower(u.location), Lower(filters.location)))
  }

  /** The first two steps keep, in order, exactly the donors whose group the requested
      group can receive (unless it is "all") and whose location contains the filter text
      case-insensitively (unless it is empty). */
  lemma ByGroupAndLocationSelects(donors: seq<User>, filters: SearchFilters)
    ensures var r := ByGroupAndLocation(donors, filters);
      SubsequenceOf(r, donors) &&
      forall u :: u in r <==> u in donors && MatchesGroupAndLocation(u, filters)
  {
    var groups := GetCompatibleBloodGroups(filters.bloodGroup);
    var byGroup :=
      if filters.bloodGroup != "all" then Filter(donors, InGroups(groups)) else donors;
    if filters.bloodGroup != "all" {
      FilterIsSubsequence(donors, InGroups(groups));
      forall u
        ensures u in byGroup <==> u in donors && u.bloodGroup in groups
      {
        FilterMembership(donors, InGroups(groups), u);
      }
    } else {
      SubsequenceReflexive(donors);
    }
    if filters.location != "" {
      FilterIsSubsequence(byGroup, LocatedIn(filters.location));
      SubsequenceTransitive(Filter(byGroup, LocatedIn(filters.location)), byGroup, donors);
      forall u
        ensures u in Filter(byGroup, LocatedIn(filters.location)) <==>
                u in byGroup && Contains(Lower(u.location), Lower(filters.location))
      {
        FilterMembership(byGroup, LocatedIn(filters.location), u);
      }
    }
  }

  /** The filtered donors are an order-preserving subsequence of the loaded donors. */
  lemma ApplyFiltersIsSubsequence(donors: seq<User>, filters: SearchFilters, today: Date)
    requires Valid(today) && ApplyFilters(donors, filters, today).Ok?
    ensures SubsequenceOf(ApplyFilters(donors, filters, today).value, donors)
  {
    var filtered := ByGroupAndLocation(donors, filters);
    ByGroupAndLocationSelects(donors, filters);
    if filters.availability != AnyTime {
      SubsequenceTransitive(ApplyFilters(donors, filters, today).value, filtered, donors);
    }
  }

  /** "available" keeps the donors that are available and eligible; "upcoming" keeps
      the donors that are not eligible, whatever their availability flag. */
  lemma AvailabilitySelects(donors: seq<User>, filters: SearchFilters, today: Date)
    requires Valid(today) && ApplyFilters(donors, filters, today).Ok?
    ensures var r := ApplyFilters(donors, filters, today).value;
      forall u :: u in r <==>
        u in donors && MatchesGroupAndLocation(u, filters) &&
        match filters.availability
        case AnyTime => true
        case Available => u.isAvailable && IsEligibleToDonate(u.lastDonation, today) == Ok(true)
        case Upcoming => IsEligibleToDonate(u.lastDonation, today) == Ok(false)
  {
    ByGroupAndLocationSelects(donors, filters);
  }

  /** With the same donors, the "available" and "upcoming" results share no donor. */
  lemma AvailableAndUpcomingDisjoint(donors: seq<User>, group: string, location: string, today: Date)
    requires Valid(today)
    requires ApplyFilters(donors, SearchFilters(group, location, Available), today).Ok?
    requires ApplyFilters(donors, SearchFilters(group, location, Upcoming), today).Ok?
    ensures forall u ::
      !(u in ApplyFilters(donors, SearchFilters(group, location, Available), today).value &&
        u in ApplyFilters(donors, SearchFilters(group, location, Upcoming), today).value)
  {
    AvailabilitySelects(donors, SearchFilters(group, location, Available), today);
    AvailabilitySelects(donors, SearchFilters(group, location, Upcoming), today);
  }

  /** The initial filters select every loaded donor. */
  lemma DefaultFiltersKeepAll(donors: seq<User>, today: Date)
    requires Valid(today)
    ensures ApplyFilters(donors, DefaultFilters, today) == Ok(donors)
  {
  }

  /** An "upcoming" search throws when a matching donor's last donation is not a date. */
  lemma UnreadableDateBreaksUpcoming(donors: seq<User>, filters: SearchFilters, today: Date, i: int)
    requires Valid(today) && filters.availability == Upcoming
    requires 0 <= i < |donors| && MatchesGroupAndLocation(donors[i], filters)
    requires donors[i].lastDonation.Some? && donors[i].lastDonation.value != ""
    requires Parse(donors[i].lastDonation.value).None?
    ensures ApplyFilters(donors, filters, today).Err?
  {
    ByGroupAndLocationSelects(donors, filters);
    var filtered := ByGroupAndLocation(donors, filters);
    var u := donors[i];
    UnreadableDateThrows(u.lastDonation.value, today);
    assert NotYetEligible(today)(u).Err?;
    assert u in filtered;
    var j :| 0 <= j < |filtered| && filtered[j] == u;
    assert !NotYetEligible(today)(filtered[j]).Ok?;
  }

  /** `loadDonors` keeps exactly the stored users whose role is donor, in stored order. */
  lemma LoadedDonorsAreDonors(slot: Stored<User>)
    ensures var r := LoadedDonors(slot);
      SubsequenceOf(r, GetAllUsers(slot)) &&
      forall u :: u in r <==> u in GetAllUsers(slot) && u.role == Donor
  {
    FilterIsSubsequence(GetAllUsers(slot), IsDonor);
    forall u
      ensures u in LoadedDonors(slot) <==> u in GetAllUsers(slot) && u.role == Donor
    {
      FilterMembership(GetAllUsers(slot), IsDonor, u);
    }
  }

  /** `updateFilters(newFilters)`: `{ ...prev, ...newFilters }`. */
  function MergeFilters(prev: SearchFilters, update: FilterUpdate): (r: SearchFilters)
    ensures r.bloodGroup == (if update.bloodGroup.Some? then update.bloodGroup.value else prev.bloodGroup)
    ensures r.location == (if update.location.Some? then update.location.value else prev.location)
    ensures r.availability == (if update.availability.Some? then update.availability.value else prev.availability)
  {
    SearchFilters(
      if update.bloodGroup.Some? then update.bloodGroup.value else prev.bloodGroup,
      if update.location.Some? then update.location.value else prev.location,
      if update.availability.Some? then update.availability.value else prev.availability)
  }

  /** Merging the same update twice is merging it once, and an empty update changes
      nothing. */
  lemma MergeFiltersIdempotent(prev: SearchFilters, update: FilterUpdate)
    ensures MergeFilters(MergeFilters(prev, update), update) == MergeFilters(prev, update)
    ensures MergeFilters(prev, FilterUpdate(None, None, None)) == prev
  {
  }

  /** The hook's state: the loaded donors, the filtered donors shown and the filters. */
  class DonorSearchState {
    var donors: seq<User>
    var filteredDonors: seq<User>
    var filters: SearchFilters
    var isLoading: bool

    constructor ()
      ensures donors == [] && filteredDonors == [] && filters == DefaultFilters && isLoading
    {
      donors := [];
      filteredDonors := [];
      filters := DefaultFilters;
      isLoading := true;
    }

    /** The effect on `[donors, filters]` has caught up: the list shown is what
        `applyFilters` computes from the current donors and filters, unless that throws. */
    predicate Settled(today: Date)
      requires Valid(today)
      reads this
    {
      match ApplyFilters(donors, filters, today)
      case Ok(list) => filteredDonors == list
      case Err(_) => true
    }

    /** `applyFilters()`: on success the filtered donors are replaced; a throw leaves
        them as they were. */
    method ApplyFiltersNow(today: Date) returns (r: Result<(), JsError>)
      requires Valid(today)
      modifies this
      ensures donors == old(donors) && filters == old(filters) && isLoading == old(isLoading)
      ensures match ApplyFilters(old(donors), old(filters), today)
        case Ok(list) => r == Ok(()) && filteredDonors == list
        case Err(e) => r == Err(e) && filteredDonors == old(filteredDonors)
      ensures Settled(today)
    {
      var filtered := ApplyFilters(donors, filters, today);
      if filtered.Err? {
        return Err(filtered.error);
      }
      filteredDonors := filtered.value;
      return Ok(());
    }

    /** `loadDonors()`, then the effect that `setDonors` triggers. */
    method LoadDonors(slot: Stored<User>, today: Date) returns (r: Result<(), JsError>)
      requires Valid(today)
      modifies this
      ensures donors == LoadedDonors(slot) && !isLoading && filters == old(filters)
      ensures match ApplyFilters(LoadedDonors(slot), old(filters), today)
        case Ok(list) => r == Ok(()) && filteredDonors == list
        case Err(e) => r == Err(e) && filteredDonors == old(filteredDonors)
      ensures Settled(today)
    {
      isLoading := true;
      var allUsers := GetAllUsers(slot);
      var donorUsers := Filter(allUsers, IsDonor);
      donors := donorUsers;
      isLoading := false;
      r := ApplyFiltersNow(today);
    }

    /** `updateFilters(newFilters)`, then the effect that `setFilters` triggers. */
    method UpdateFilters(update: FilterUpdate, today: Date) returns (r: Result<(), JsError>)
      requires Valid(today)
      modifies this
      ensures filters == MergeFilters(old(filters), update)
      ensures donors == old(donors) && isLoading == old(isLoading)
      ensures match ApplyFilters(old(donors), MergeFilters(old(filters), update), today)
        case Ok(list) => r == Ok(()) && filteredDonors == list
        case Err(e) => r == Err(e) && filteredDonors == old(filteredDonors)
      ensures Settled(today)
    {
      filters := MergeFilters(filters, update);
      r := ApplyFiltersNow(today);
    }

    /** `searchDonors(searchFilters)`: the filters are replaced whole, then the effect
        runs. */
    method SearchDonors(searchFilters: SearchFilters, today: Date) returns (r: Result<(), JsError>)
      requires Valid(today)
      modifies this
      ensures filters == searchFilters
      ensures donors == old(donors) && isLoading == old(isLoading)
      ensures match ApplyFilters(old(donors), searchFilters, today)
        case Ok(list) => r == Ok(()) && filteredDonors == list
        case Err(e) => r == Err(e) && filteredDonors == old(filteredDonors)
      ensures Settled(today)
    {
      filters := searchFilters;
      r := ApplyFiltersNow(today);
    }
  }
}
