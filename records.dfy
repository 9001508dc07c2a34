/** The frontend's browser-side record stores: donations and users kept as JSON lists
    in `localStorage`, read back whole, changed in place and written back. */
module Records {
  import opened Wrappers
  import opened Sequences

  datatype Role = Donor | Admin

  datatype User = User(
    id: string,
    name: string,
    email: string,
    phone: string,
    bloodGroup: string,
    location: string,
    lastDonation: Option<string>,
    totalDonations: int,
    role: Role,
    isAvailable: bool,
    createdAt: string)

  datatype DonationStatus = Completed | Scheduled | Cancelled

  datatype Donation = Donation(
    id: string,
    donorId: string,
    date: string,
    location: string,
    status: DonationStatus,
    recipient: Option<string>,
    notes: Option<string>)

  /** What a `localStorage` key holds: nothing (or the empty string), text that
      `JSON.parse` rejects, or a list it reads back. */
  datatype Stored<T> = Missing | Malformed | Parsed(items: seq<T>)

  /** `JSON.parse` on malformed text throws a `SyntaxError`. */
  datatype StorageError = SyntaxError

  function UserId(u: User): string { u.id }
  function UserEmail(u: User): string { u.email }
  function DonationId(d: Donation): string { d.id }

  /** The list a save writes back: the first element with the same key replaced by `x`,
      or `x` appended when no element has that key. */
  function Upsert<T, K(==)>(s: seq<T>, key: T -> K, x: T): seq<T> {
    var i := IndexOfKey(s, key, key(x));
    if i >= 0 then s[i := x] else s + [x]
  }

  /** When the key is present, only its first occurrence is replaced and the length
      stays the same. */
  lemma UpsertReplacesFirst<T, K>(s: seq<T>, key: T -> K, x: T, i: int)
    requires 0 <= i < |s| && key(s[i]) == key(x)
    ensures var k := IndexOfKey(s, key, key(x));
      0 <= k <= i && |Upsert(s, key, x)| == |s| && Upsert(s, key, x)[k] == x &&
      forall j :: 0 <= j < |s| && j != k ==> Upsert(s, key, x)[j] == s[j]
  {
  }

  /** When the key is absent, `x` is appended and the rest is untouched. */
  lemma UpsertAppends<T, K>(s: seq<T>, key: T -> K, x: T)
    requires forall j :: 0 <= j < |s| ==> key(s[j]) != key(x)
    ensures Upsert(s, key, x) == s + [x]
  {
  }

  /** Saving the same record twice is saving it once. */
  lemma UpsertIdempotent<T, K>(s: seq<T>, key: T -> K, x: T)
    ensures Upsert(Upsert(s, key, x), key, x) == Upsert(s, key, x)
  {
    var i := IndexOfKey(s, key, key(x));
    var t := Upsert(s, key, x);
    if i >= 0 {
      assert t == s[i := x] && t[i] == x;
      assert forall j :: 0 <= j < i ==> t[j] == s[j];
      assert IndexOfKey(t, key, key(x)) == i;
    } else {
      assert t == s + [x] && t[|s|] == x;
      assert forall j :: 0 <= j < |s| ==> t[j] == s[j];
      assert IndexOfKey(t, key, key(x)) == |s|;
    }
  }

  /** After a save, the first record with that key is the saved one. */
  lemma UpsertFindsSaved<T, K>(s: seq<T>, key: T -> K, x: T)
    ensures var t := Upsert(s, key, x);
      var k := IndexOfKey(t, key, key(x));
      0 <= k && t[k] == x
  {
    var i := IndexOfKey(s, key, key(x));
    var t := Upsert(s, key, x);
    if i >= 0 {
      assert t == s[i := x] && t[i] == x;
      assert forall j :: 0 <= j < i ==> t[j] == s[j];
      assert IndexOfKey(t, key, key(x)) == i;
    } else {
      assert t == s + [x] && t[|s|] == x;
      assert forall j :: 0 <= j < |s| ==> t[j] == s[j];
      assert IndexOfKey(t, key, key(x)) == |s|;
    }
  }

  /** `getDonations()`: an absent key reads as no donations; malformed text throws. */
  function GetDonations(slot: Stored<Donation>): (r: Result<seq<Donation>, StorageError>)
    ensures r.Err? <==> slot.Malformed?
    ensures slot.Parsed? ==> r == Ok(slot.items)
    ensures slot.Missing? ==> r == Ok([])
  {
    match slot
    case Missing => Ok([])
    case Malformed => Err(SyntaxError)
    case Parsed(items) => Ok(items)
  }

  /** `getAllUsers()`: an absent key and malformed text both read as no users. */
  function GetAllUsers(slot: Stored<User>): (r: seq<User>)
    ensures !slot.Parsed? ==> r == []
    ensures slot.Parsed? ==> r == slot.items
  {
    if slot.Parsed? then slot.items else []
  }

  /** `getDonationsByDonor(donorId)`. */
  function DonationsByDonor(slot: Stored<Donation>, donorId: string): Result<seq<Donation>, StorageError> {
    match GetDonations(slot)
    case Err(e) => Err(e)
    case Ok(ds) => Ok(Filter(ds, (d: Donation) => d.donorId == donorId))
  }

  /** A donor's donations are exactly the stored ones with that `donorId`, in stored
      order. */
  lemma DonationsByDonorSelects(slot: Stored<Donation>, donorId: string)
    requires !slot.Malformed?
    ensures var all := GetDonations(slot).value;
      var mine := DonationsByDonor(slot, donorId);
      mine.Ok? && SubsequenceOf(mine.value, all) &&
      forall d :: d in mine.value <==> d in all && d.donorId == donorId
  {
    var all := GetDonations(slot).value;
    var p := (d: Donation) => d.donorId == donorId;
    FilterIsSubsequence(all, p);
    forall d
      ensures d in Filter(all, p) <==> d in all && d.donorId == donorId
    {
      FilterMembership(all, p, d);
    }
  }

  /** `findUserByEmail(email)`: the first stored user whose email is exactly `email`,
      or `null` when none is. */
  function FindUserByEmail(slot: Stored<User>, email: string): (r: Option<User>)
    ensures var users := GetAllUsers(slot);
      (r.None? <==> forall j :: 0 <= j < |users| ==> users[j].email != email) &&
      (r.Some? ==> exists i :: 0 <= i < |users| && users[i] == r.value && r.value.email == email &&
                     forall j :: 0 <= j < i ==> users[j].email != email)
  {
    var users := GetAllUsers(slot);
    var i := IndexOfKey(users, UserEmail, email);
    if i < 0 then None else Some(users[i])
  }

  /** The browser's `localStorage`, holding the donations and the users. */
  class LocalStorage {
    var donations: Stored<Donation>
    var users: Stored<User>

    constructor (donations: Stored<Donation>, users: Stored<User>)
      ensures this.donations == donations && this.users == users
    {
      this.donations := donations;
      this.users := users;
    }

    /** `saveDonation(donation)`: read the list, replace the first donation with the same
        id in place or push the new one, and write the list back. Malformed stored text
        makes the read throw before anything is written. */
    method SaveDonation(donation: Donation) returns (r: Result<(), StorageError>)
      modifies this
      ensures users == old(users)
      ensures old(donations).Malformed? ==> r == Err(SyntaxError) && donations == old(donations)
      ensures !old(donations).Malformed? ==>
                r == Ok(()) && donations == Parsed(Upsert(GetDonations(old(donations)).value, DonationId, donation))
    {
      var loaded := GetDonations(donations);
      if loaded.Err? {
        return Err(loaded.error);
      }
      var list := loaded.value;
      var existingIndex := IndexOfKey(list, DonationId, donation.id);
      if existingIndex >= 0 {
        list := list[existingIndex := donation];
      } else {
        list := list + [donation];
      }
      donations := Parsed(list);
      return Ok(());
    }

    /** `saveUser(user)`: the same upsert by id on the users list. The read never throws:
        malformed stored text reads as no users, so it is overwritten by `[user]`. */
    method SaveUser(user: User)
      modifies this
      ensures donations == old(donations)
      ensures users == Parsed(Upsert(GetAllUsers(old(users)), UserId, user))
    {
      var list := GetAllUsers(users);
      var existingIndex := IndexOfKey(list, UserId, user.id);
      if existingIndex >= 0 {
        list := list[existingIndex := user];
      } else {
        list := list + [user];
      }
      users := Parsed(list);
    }
  }

  /** After `saveUser(user)` a user with that id is stored, and it is `user`. */
  lemma SavedUserIsPresent(slot: Stored<User>, user: User)
    ensures var after := Upsert(GetAllUsers(slot), UserId, user);
      exists i :: 0 <= i < |after| && after[i] == user && after[i].id == user.id
  {
    UpsertFindsSaved(GetAllUsers(slot), UserId, user);
  }

  /** Saving a user over malformed stored text leaves that user alone in the list. */
  lemma SaveUserOverMalformed(user: User)
    ensures Upsert(GetAllUsers(Malformed), UserId, user) == [user]
  {
  }
}
