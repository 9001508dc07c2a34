/** The C++ REST server's in-memory donation list: `BloodDonationManager` and the
    vector of donations it creates, updates and deletes in place. */
module Server {
  import opened Sequences

  /** The server's donation record: every field is a string. */
  datatype Donation = Donation(
    id: string,
    donorId: string,
    date: string,
    location: string,
    status: string,
    recipient: string,
    notes: string)

  function IdOf(d: Donation): string { d.id }

  /** The list after `updateDonation(id, updated)`: the first donation with that id is
      replaced by `updated` carrying the original id; without one, nothing changes. */
  function UpdateFirst(s: seq<Donation>, id: string, updated: Donation): seq<Donation> {
    var i := IndexOfKey(s, IdOf, id);
    if i >= 0 then s[i := updated.(id := id)] else s
  }

  /** The list after `deleteDonation(id)`: the donations with another id, in order. */
  function RemoveId(s: seq<Donation>, id: string): seq<Donation> {
    Filter(s, Keeps(id))
  }

  /** The predicate `remove_if` negates: the donation has another id. */
  function Keeps(id: string): Donation -> bool {
    (d: Donation) => d.id != id
  }

  predicate HasId(s: seq<Donation>, id: string) {
    exists j :: 0 <= j < |s| && s[j].id == id
  }

  class BloodDonationManager {
    var donations: seq<Donation>

    constructor ()
      ensures donations == []
    {
      donations := [];
    }

    /** `getAllDonations()`: a copy of the list. */
    method GetAllDonations() returns (r: seq<Donation>)
      ensures r == donations
    {
      r := donations;
    }

    /** `createDonation(donation)`: the input with a fresh id (the clock's milliseconds,
        passed in) is pushed and returned. */
    method CreateDonation(donation: Donation, freshId: string) returns (r: Donation)
      modifies this
      ensures r == donation.(id := freshId)
      ensures donations == old(donations) + [r]
    {
      var newDonation := donation.(id := freshId);
      donations := donations + [newDonation];
      r := newDonation;
    }

    /** `updateDonation(id, updated)`: the range-for loop that overwrites the first
        donation with that id, keeping the id. */
    method UpdateDonation(id: string, updated: Donation) returns (found: bool)
      modifies this
      ensures found <==> HasId(old(donations), id)
      ensures donations == UpdateFirst(old(donations), id, updated)
    {
      var i := 0;
      while i < |donations|
        invariant 0 <= i <= |donations|
        invariant forall j :: 0 <= j < i ==> donations[j].id != id
      {
        if donations[i].id == id {
          donations := donations[i := updated.(id := id)];
          return true;
        }
        i := i + 1;
      }
      return false;
    }

    /** `deleteDonation(id)`: `remove_if` compacts the donations to keep, in order, and
        `erase` drops the tail; the answer is whether anything was dropped. */
    method DeleteDonation(id: string) returns (removed: bool)
      modifies this
      ensures removed <==> HasId(old(donations), id)
      ensures donations == RemoveId(old(donations), id)
    {
      var all := donations;
      var kept: seq<Donation> := [];
      var i := 0;
      while i < |all|
        invariant 0 <= i <= |all|
        invariant kept == RemoveId(all[..i], id)
      {
        FilterSnoc(all[..i], all[i], Keeps(id));
        assert all[..i + 1] == all[..i] + [all[i]];
        if all[i].id != id {
          kept := kept + [all[i]];
        }
        i := i + 1;
      }
      assert all[..i] == all;
      RemoveIdKeepsOthers(all, id);
      removed := |kept| != |all|;
      donations := kept;
    }
  }

  /** `updateDonation` changes only the first donation with the id: same length, the
      id kept at that place, everything else as it was. */
  lemma UpdateFirstChangesOne(s: seq<Donation>, id: string, updated: Donation)
    requires HasId(s, id)
    ensures var t := UpdateFirst(s, id, updated);
      var k := IndexOfKey(s, IdOf, id);
      0 <= k && |t| == |s| && t[k].id == id && t[k] == updated.(id := id) &&
      (forall j :: 0 <= j < k ==> s[j].id != id) &&
      forall j :: 0 <= j < |s| && j != k ==> t[j] == s[j]
  {
  }

  /** With an absent id `updateDonation` leaves the list as it was. */
  lemma UpdateAbsentIsNoOp(s: seq<Donation>, id: string, updated: Donation)
    requires !HasId(s, id)
    ensures UpdateFirst(s, id, updated) == s
  {
  }

  /** `deleteDonation` keeps exactly the donations with another id, in their order, and
      shortens the list exactly when the id was present. */
  lemma RemoveIdKeepsOthers(s: seq<Donation>, id: string)
    ensures var t := RemoveId(s, id);
      SubsequenceOf(t, s) &&
      (forall d :: d in t <==> d in s && d.id != id) &&
      (|t| < |s| <==> HasId(s, id))
  {
    var p := Keeps(id);
    FilterIsSubsequence(s, p);
    forall d
      ensures d in Filter(s, p) <==> d in s && d.id != id
    {
      FilterMembership(s, p, d);
    }
    FilterShorterIff(s, p);
  }
}
