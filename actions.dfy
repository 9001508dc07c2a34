/** The frontend's form actions: guard checks on the submitted fields, each failing
    check answering with its error message and a passing form echoed back. A field the
    form did not send reads as `null`; the artificial delays are left out. */
module Actions {
  import opened Wrappers
  import opened Text
  import opened Dates

  const RequiredCredentials := "Email and password are required"
  const InvalidCredentials := "Invalid credentials"
  const AllRequired := "All required fields must be filled"
  const PasswordTooShort := "Password must be at least 6 characters"
  const InvalidEmail := "Please enter a valid email address"
  const AllFieldsRequired := "All fields are required"
  const DateAndLocationRequired := "Date and location are required"
  const FutureDateRequired := "Please select a future date"

  /** The shortest accepted password, counted as JavaScript's `length` counts. */
  const MinPasswordLength := 6

  predicate LongEnough(password: string) {
    Utf16Length(password) >= MinPasswordLength
  }

  // ---------------------------------------------------------------------------
  // The email rule `^[^\s@]+@[^\s@]+\.[^\s@]+$`

  /** A character the class `[^\s@]` admits. */
  predicate Plain(c: char) {
    !IsJsSpace(c) && c != '@'
  }

  predicate AllPlain(t: string) {
    forall k :: 0 <= k < |t| ==> Plain(t[k])
  }

  /** The strings the pattern matches: a non-empty run of plain characters, '@', a
      non-empty run, '.', a non-empty run. */
  ghost predicate MatchesEmailPattern(s: string) {
    exists i, j :: SplitsAt(s, i, j)
  }

  /** `s` is the plain run before `i`, '@' at `i`, the plain run up to `j`, '.' at `j`
      and the plain run after it. */
  predicate SplitsAt(s: string, i: int, j: int) {
    0 < i && i + 1 < j < |s| - 1 && s[i] == '@' && s[j] == '.' &&
    AllPlain(s[..i]) && AllPlain(s[i + 1..j]) && AllPlain(s[j + 1..])
  }

  /** `emailRegex.test(email)`, decided by one scan: the first '@' must not open the
      string, nothing may be a space or a second '@', and after the '@' a '.' must
      follow some text and be followed by some. */
  function IsValidEmail(s: string): bool {
    var i := FirstIndexOf(s, '@');
    if i <= 0 then false
    else
      var domain := s[i + 1..];
      if domain == [] || !AllPlain(s[..i]) || !AllPlain(domain) then false
      else
        var j := FirstIndexOf(domain[1..], '.');
        0 <= j && j + 2 < |domain|
  }

  lemma AllPlainSlice(t: string, lo: int, hi: int)
    requires AllPlain(t) && 0 <= lo <= hi <= |t|
    ensures AllPlain(t[lo..hi])
  {
    assert forall k :: 0 <= k < hi - lo ==> t[lo..hi][k] == t[lo + k];
  }

  /** The scan accepts exactly the strings the pattern matches. */
  lemma EmailCheckMatchesPattern(s: string)
    ensures IsValidEmail(s) <==> MatchesEmailPattern(s)
  {
    if IsValidEmail(s) {
      ScanFindsPattern(s);
    }
    if MatchesEmailPattern(s) {
      var at, dot :| SplitsAt(s, at, dot);
      PatternPassesScan(s, at, dot);
    }
  }

  lemma ScanFindsPattern(s: string)
    requires IsValidEmail(s)
    ensures MatchesEmailPattern(s)
  {
    var i := FirstIndexOf(s, '@');
    var domain := s[i + 1..];
    var j := FirstIndexOf(domain[1..], '.');
    assert 0 < i && domain != [] && AllPlain(s[..i]) && AllPlain(domain) && 0 <= j && j + 2 < |domain|;
    DomainSplit(s, i, domain, j);
  }

  /** A '.' found at `j` in the domain after its first character splits the address. */
  lemma DomainSplit(s: string, i: int, domain: string, j: int)
    requires 0 < i < |s| && s[i] == '@' && AllPlain(s[..i]) && domain == s[i + 1..]
    requires AllPlain(domain) && 0 <= j && j + 2 < |domain| && domain[1..][j] == '.'
    ensures SplitsAt(s, i, i + 2 + j)
  {
    var dot := i + 2 + j;
    assert s[dot] == domain[1..][j];
    AllPlainSlice(domain, 0, j + 1);
    assert s[i + 1..dot] == domain[..j + 1];
    AllPlainSlice(domain, j + 2, |domain|);
    assert s[dot + 1..] == domain[j + 2..];
  }

  lemma PatternPassesScan(s: string, at: int, dot: int)
    requires SplitsAt(s, at, dot)
    ensures IsValidEmail(s)
  {
    assert forall k :: 0 <= k < at ==> s[..at][k] == s[k];
    assert '@' !in s[..at];
    FirstIndexOfIs(s, '@', at);
    var domain := s[at + 1..];
    forall k | 0 <= k < |domain|
      ensures Plain(domain[k])
    {
      if k < dot - at - 1 {
        assert domain[k] == s[at + 1..dot][k];
      } else if k > dot - at - 1 {
        assert domain[k] == s[dot + 1..][k - (dot - at)];
      }
    }
    assert domain[1..][dot - at - 2] == '.';
    var j := FirstIndexOf(domain[1..], '.');
    assert 0 <= j <= dot - at - 2;
  }

  /** What a matching address looks like: exactly one '@', not first, no white space
      anywhere, and a '.' inside the text after the '@'. */
  lemma ValidEmailShape(s: string)
    requires IsValidEmail(s)
    ensures exists i :: 0 < i < |s| && s[i] == '@' && forall k :: 0 <= k < |s| && s[k] == '@' ==> k == i
    ensures forall k :: 0 <= k < |s| ==> !IsJsSpace(s[k])
    ensures exists j :: 0 < j < |s| - 1 && s[j] == '.' && s[j - 1] != '@' && '@' in s[..j]
  {
    EmailCheckMatchesPattern(s);
    var i, j :| SplitsAt(s, i, j);
    forall k | 0 <= k < |s|
      ensures k != i ==> Plain(s[k])
    {
      if k < i {
        assert s[k] == s[..i][k];
      } else if i < k < j {
        assert s[k] == s[i + 1..j][k - i - 1];
      } else if j < k {
        assert s[k] == s[j + 1..][k - j - 1];
      }
    }
    assert s[j - 1] == s[i + 1..j][j - i - 2];
    assert s[..j][i] == '@';
  }

  /** An ordinary address passes. */
  lemma EmailAccepted()
    ensures IsValidEmail("jo@mail.com")
  {
    var s := "jo@mail.com";
    assert s[..2] == "jo" && s[3..7] == "mail" && s[8..] == "com";
    PatternPassesScan(s, 2, 7);
  }

  /** An address without a '.' after the '@' fails ... */
  lemma EmailWithoutDotRejected()
    ensures !IsValidEmail("jo@mail")
  {
    var s := "jo@mail";
    assert forall k :: 0 <= k < |s| ==> s[k] != '.';
    if IsValidEmail(s) {
      ValidEmailShape(s);
    }
  }

  /** ... and so does one with a second '@' ... */
  lemma EmailWithTwoAtSignsRejected()
    ensures !IsValidEmail("a@b@c.com")
  {
    var s := "a@b@c.com";
    assert s[1] == '@' && s[3] == '@';
    if IsValidEmail(s) {
      ValidEmailShape(s);
    }
  }

  /** ... or a space. */
  lemma EmailWithSpaceRejected()
    ensures !IsValidEmail("j o@mail.com")
  {
    var s := "j o@mail.com";
    assert IsJsSpace(s[1]);
    if IsValidEmail(s) {
      ValidEmailShape(s);
    }
  }

  // ---------------------------------------------------------------------------
  // signInAction

  /** `signInAction(formData)`: the email on success. */
  function SignIn(email: Option<string>, password: Option<string>): (r: Result<string, string>)
    ensures r.Ok? <==> Truthy(email) && Truthy(password) && LongEnough(password.value)
    ensures r.Ok? ==> r.value == email.value
    ensures !(Truthy(email) && Truthy(password)) ==> r == Err(RequiredCredentials)
    ensures Truthy(email) && Truthy(password) && !LongEnough(password.value) ==> r == Err(InvalidCredentials)
  {
    if !Truthy(email) || !Truthy(password) then Err(RequiredCredentials)
    else if Utf16Length(password.value) < MinPasswordLength then Err(InvalidCredentials)
    else Ok(email.value)
  }

  /** The length rule counts UTF-16 code units: six characters always pass, five
      characters of the Basic Multilingual Plane fail, and three characters outside it
      already make six units. */
  lemma SignInLengthBoundary(email: string, password: string)
    requires email != ""
    ensures |password| >= 6 ==> SignIn(Some(email), Some(password)) == Ok(email)
    ensures 0 < |password| < 6 && (forall k :: 0 <= k < |password| ==> password[k] as int <= 0xFFFF) ==>
              SignIn(Some(email), Some(password)) == Err(InvalidCredentials)
    ensures SignIn(Some(email), Some("\U{1F600}\U{1F600}\U{1F600}")) == Ok(email)
  {
    if 0 < |password| < 6 && (forall k :: 0 <= k < |password| ==> password[k] as int <= 0xFFFF) {
      Utf16LengthOfBmp(password);
    }
    var p := "\U{1F600}\U{1F600}\U{1F600}";
    assert p[1..][1..] == "\U{1F600}" && p[1..][1..][1..] == [];
  }

  lemma {:induction false} Utf16LengthOfBmp(s: string)
    requires forall k :: 0 <= k < |s| ==> s[k] as int <= 0xFFFF
    ensures Utf16Length(s) == |s|
  {
    if s != [] {
      Utf16LengthOfBmp(s[1..]);
    }
  }

  // ---------------------------------------------------------------------------
  // signUpAction

  datatype SignUpForm = SignUpForm(
    name: Option<string>,
    email: Option<string>,
    password: Option<string>,
    bloodGroup: Option<string>,
    lastDonation: Option<string>,
    role: Option<string>)

  /** The user object a successful sign-up returns. */
  datatype NewUser = NewUser(
    name: string,
    email: string,
    bloodGroup: string,
    lastDonation: Option<string>,
    role: string)

  predicate RequiredFilled(f: SignUpForm) {
    Truthy(f.name) && Truthy(f.email) && Truthy(f.password) && Truthy(f.bloodGroup) && Truthy(f.role)
  }

  /** `signUpAction(formData)`: missing fields first, then the password length, then
      the email rule. */
  function SignUp(f: SignUpForm): (r: Result<NewUser, string>)
    ensures !RequiredFilled(f) ==> r == Err(AllRequired)
    ensures RequiredFilled(f) && !LongEnough(f.password.value) ==> r == Err(PasswordTooShort)
    ensures RequiredFilled(f) && LongEnough(f.password.value) && !IsValidEmail(f.email.value) ==>
              r == Err(InvalidEmail)
    ensures r.Ok? <==> RequiredFilled(f) && LongEnough(f.password.value) && IsValidEmail(f.email.value)
    ensures r.Ok? ==> r.value.name == f.name.value && r.value.email == f.email.value &&
                      r.value.bloodGroup == f.bloodGroup.value && r.value.role == f.role.value
    ensures r.Ok? ==> (r.value.lastDonation.None? <==> !Truthy(f.lastDonation)) &&
                      (Truthy(f.lastDonation) ==> r.value.lastDonation == f.lastDonation)
  {
    if !RequiredFilled(f) then Err(AllRequired)
    else if Utf16Length(f.password.value) < MinPasswordLength then Err(PasswordTooShort)
    else if !IsValidEmail(f.email.value) then Err(InvalidEmail)
    else
      Ok(NewUser(f.name.value, f.email.value, f.bloodGroup.value,
                 if Truthy(f.lastDonation) then f.lastDonation else None, f.role.value))
  }

  /** Whoever signs up successfully can sign in with the same email and password, and
      their address has the pattern's shape. */
  lemma SignUpThenSignIn(f: SignUpForm)
    requires SignUp(f).Ok?
    ensures SignIn(f.email, f.password) == Ok(f.email.value)
    ensures MatchesEmailPattern(f.email.value)
  {
    EmailCheckMatchesPattern(f.email.value);
  }

  // ---------------------------------------------------------------------------
  // updateProfileAction

  datatype ProfileForm = ProfileForm(
    name: Option<string>,
    email: Option<string>,
    phone: Option<string>,
    location: Option<string>,
    bloodGroup: Option<string>)

  datatype Profile = Profile(name: string, email: string, phone: string, location: string, bloodGroup: string)

  /** `updateProfileAction(formData)`: all five fields are required and echoed; the
      email is not checked here. */
  function UpdateProfile(f: ProfileForm): (r: Result<Profile, string>)
    ensures r.Ok? <==> Truthy(f.name) && Truthy(f.email) && Truthy(f.phone) && Truthy(f.location) &&
                       Truthy(f.bloodGroup)
    ensures r.Err? ==> r.error == AllFieldsRequired
    ensures r.Ok? ==> r.value == Profile(f.name.value, f.email.value, f.phone.value, f.location.value,
                                         f.bloodGroup.value)
  {
    if !Truthy(f.name) || !Truthy(f.email) || !Truthy(f.phone) || !Truthy(f.location) || !Truthy(f.bloodGroup)
    then Err(AllFieldsRequired)
    else Ok(Profile(f.name.value, f.email.value, f.phone.value, f.location.value, f.bloodGroup.value))
  }

  // ---------------------------------------------------------------------------
  // scheduleDonationAction

  datatype ScheduledDonation = ScheduledDonation(date: string, location: string, notes: Option<string>)

  /** `selectedDate <= today`. `new Date(date)` reads a `YYYY-MM-DD` string as midnight
      UTC of that day, so it is at or before the current instant exactly when that day
      is not after the current UTC date `today`. A string it cannot read is an Invalid
      Date, and every comparison with an Invalid Date is false. */
  predicate NotAfterToday(selected: Option<Date>, today: Date) {
    selected.Some? && !Before(today, selected.value)
  }

  /** `scheduleDonationAction(formData)` as written. */
  function ScheduleDonationAsWritten(date: Option<string>, location: Option<string>, notes: Option<string>,
                                     today: Date): (r: Result<ScheduledDonation, string>)
    ensures r.Ok? <==> Truthy(date) && Truthy(location) && !NotAfterToday(Parse(date.value), today)
  {
    if !Truthy(date) || !Truthy(location) then Err(DateAndLocationRequired)
    else if NotAfterToday(Parse(date.value), today) then Err(FutureDateRequired)
    else Ok(ScheduledDonation(date.value, location.value, notes))
  }

  /** As written, a date that does not read as a date is accepted. */
  lemma UnreadableDateIsScheduled(today: Date)
    ensures Parse("soon").None?
    ensures ScheduleDonationAsWritten(Some("soon"), Some("Downtown"), None, today) ==
              Ok(ScheduledDonation("soon", "Downtown", None))
  {
  }

  /** `scheduleDonationAction(formData)` accepting only a readable date after today,
      which the error message asks for. */
  function ScheduleDonation(date: Option<string>, location: Option<string>, notes: Option<string>,
                            today: Date): (r: Result<ScheduledDonation, string>)
    ensures !(Truthy(date) && Truthy(location)) ==> r == Err(DateAndLocationRequired)
    ensures r.Ok? <==> Truthy(date) && Truthy(location) && Parse(date.value).Some? &&
                       Before(today, Parse(date.value).value)
    ensures r.Ok? ==> r.value == ScheduledDonation(date.value, location.value, notes)
  {
    if !Truthy(date) || !Truthy(location) then Err(DateAndLocationRequired)
    else
      match Parse(date.value)
      case None => Err(FutureDateRequired)
      case Some(selected) =>
        if !Before(today, selected) then Err(FutureDateRequired)
        else Ok(ScheduledDonation(date.value, location.value, notes))
  }

  /** The correction changes nothing for a date that reads as one. */
  lemma ScheduleAgreesOnReadableDates(date: string, location: Option<string>, notes: Option<string>, today: Date)
    requires Parse(date).Some?
    ensures ScheduleDonation(Some(date), location, notes, today) ==
            ScheduleDonationAsWritten(Some(date), location, notes, today)
  {
  }

  /** A scheduled donation's date is a valid calendar day later than today, so it
      prints back as the string that was submitted. */
  lemma ScheduledDateIsFuture(date: Option<string>, location: Option<string>, notes: Option<string>, today: Date)
    requires ScheduleDonation(date, location, notes, today).Ok?
    ensures var d := Parse(date.value).value;
      Valid(d) && Before(today, d) && Format(d) == date.value
  {
    FormatParse(date.value);
  }
}
