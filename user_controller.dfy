/** The account side of the job board's backend: registration with an
    emailed six-digit code, login, code verification, code re-issue and
    profile update, over a directory of user records.

    Collaborators are abstracted: the clock is the parameter `now`
    (milliseconds), the random code is the parameter `code`, bcrypt is an
    injective tag, the signed session cookie is the account id carried by a
    successful outcome, and uploads are the URL the media host returned. */
module UserController {

  import opened Optional
  import opened Strings

  // ---------------------------------------------------------------------------
  // Data model
  // ---------------------------------------------------------------------------

  /** How long an issued code stays valid: ten minutes in milliseconds. */
  const OtpValidityMs: int := 10 * 60 * 1000

  /** A stored password hash. bcrypt is modelled as an injective tag: the
      salt and work factor are left out, and comparison succeeds exactly
      for the password that was hashed. */
  datatype PasswordHash = Bcrypt(secret: string)

  function HashPassword(password: string): (h: PasswordHash)
    ensures PasswordMatches(password, h)
  {
    Bcrypt(password)
  }

  /** `bcrypt.compare(password, hash)`. */
  predicate PasswordMatches(password: string, h: PasswordHash)
  {
    h == Bcrypt(password)
  }

  /** A stored hash accepts the password it was made from and no other. */
  lemma HashAcceptsOnlyItsPassword(stored: string, attempt: string)
    ensures PasswordMatches(attempt, HashPassword(stored)) <==> attempt == stored
  {
  }

  datatype Profile = Profile(
    bio: string,
    skills: seq<string>,
    resume: string,
    resumeOriginalName: string,
    profilePhoto: string)

  /** One user record. An absent code or expiry (`undefined` after a
      successful verification) is `None`. */
  datatype Account = Account(
    fullname: string,
    email: string,
    phoneNumber: string,
    password: PasswordHash,
    role: string,
    isVerified: bool,
    verificationOtp: Option<string>,
    verificationOtpExpiry: Option<int>,
    profile: Profile)

  /** A code as issued: the decimal form of a number in [100000, 999999]. */
  predicate IsOtpCode(s: string)
  {
    |s| == 6 && AllDigits(s) && s[0] != '0'
  }

  /** The verification sub-state of a record is one of two shapes:
      unverified with exactly one pending code and its expiry, or verified
      with neither. */
  predicate VerificationConsistent(a: Account)
  {
    && (a.isVerified <==> a.verificationOtp.None?)
    && (a.verificationOtp.Some? <==> a.verificationOtpExpiry.Some?)
    && (a.verificationOtp.Some? ==> IsOtpCode(a.verificationOtp.value))
  }

  /** The HTTP answer an outcome is sent as. */
  datatype HttpReply = HttpReply(status: int, success: bool, message: string)

  // ---------------------------------------------------------------------------
  // Codes and e-mail addresses
  // ---------------------------------------------------------------------------

  /** `Math.floor(100000 + Math.random() * 900000).toString()`, for the
      integer the random draw produced. */
  function IssueCode(code: nat): (s: string)
    requires 100000 <= code <= 999999
    ensures IsOtpCode(s)
    ensures ParseDecimal(s) == code
  {
    assert Pow10(5) == 100000 && Pow10(6) == 1000000;
    DecimalLength(code, 6);
    NatToDecimal(code)
  }

  /** Distinct draws give distinct codes, so a re-issued code differs from
      the one it replaces unless the draw repeated. */
  lemma IssueCodeInjective(c1: nat, c2: nat)
    requires 100000 <= c1 <= 999999 && 100000 <= c2 <= 999999
    ensures IssueCode(c1) == IssueCode(c2) <==> c1 == c2
  {
  }

  /** An issued code has no surrounding whitespace, so trimming it (as
      the comparison does) leaves it unchanged. */
  lemma IssuedCodeIsTrimmed(s: string)
    requires IsOtpCode(s)
    ensures Trim(s) == s
  {
    assert IsDigit(s[0]) && IsDigit(s[5]);
    TrimOfTrimmed(s);
  }

  /** `email?.trim().toLowerCase()`: the lower-cased middle of the address
      once the whitespace around it is cut; empty exactly for a blank one. */
  function NormalizeEmail(email: string): (n: string)
    ensures exists i, j :: TrimmedAt(email, i, j) && n == ToLower(email[i..j])
    ensures forall i :: 0 <= i < |n| ==> !IsUpper(n[i])
    ensures n == [] || (!IsWhitespace(n[0]) && !IsWhitespace(n[|n| - 1]))
    ensures n == [] <==> forall k :: 0 <= k < |email| ==> IsWhitespace(email[k])
  {
    TrimEmptyIffBlank(email);
    ToLower(Trim(email))
  }

  /** Whitespace around an address and the case of its letters make no
      difference: every such variant normalises to the same address, so
      it reaches the same record (`Foo@Bar.com` and ` foo@bar.com `). */
  lemma NormalizeEmailVariants(pre: string, v: string, post: string, email: string)
    requires forall k :: 0 <= k < |pre| ==> IsWhitespace(pre[k])
    requires forall k :: 0 <= k < |post| ==> IsWhitespace(post[k])
    requires ToLower(v) == ToLower(email)
    ensures NormalizeEmail(pre + v + post) == NormalizeEmail(email)
  {
    TrimIgnoresPadding(pre, v, post);
    LowerCommutesWithTrim(v);
    LowerCommutesWithTrim(email);
  }

  /** Normalising an already normalised address changes nothing. */
  lemma NormalizeEmailIdempotent(email: string)
    ensures NormalizeEmail(NormalizeEmail(email)) == NormalizeEmail(email)
  {
    var n := NormalizeEmail(email);
    TrimOfTrimmed(n);
    ToLowerIdempotent(Trim(email));
  }

  /** An address holding an upper-case letter is never the normal form of
      any input, so a record whose e-mail was set to it can no longer be
      reached by verification or re-issue, which both normalise. */
  lemma UpperCaseEmailUnreachable(stored: string, input: string)
    requires exists i :: 0 <= i < |stored| && IsUpper(stored[i])
    ensures NormalizeEmail(input) != stored
  {
  }

  /** `User.findOne({ email })`: the first record, in insertion order,
      whose e-mail field equals `email` exactly. */
  function FindByEmail(accounts: seq<Account>, email: string): (r: Option<nat>)
    ensures r.Some? ==> r.value < |accounts| && accounts[r.value].email == email
    ensures r.Some? ==> forall j :: 0 <= j < r.value ==> accounts[j].email != email
    ensures r.None? <==> forall j :: 0 <= j < |accounts| ==> accounts[j].email != email
  {
    if accounts == [] then None
    else if accounts[0].email == email then Some(0)
    else
      match FindByEmail(accounts[1..], email)
      case None => None
      case Some(i) => Some(i + 1)
  }

  // ---------------------------------------------------------------------------
  // register
  // ---------------------------------------------------------------------------

  datatype RegisterRequest = RegisterRequest(
    fullname: string,
    email: string,
    phoneNumber: string,
    password: string,
    role: string)

  datatype RegisterOutcome =
    | RegisterMissingFields
    | EmailTaken
      /** 201: the record was created and a session cookie issued for `id`. */
    | Registered(id: nat)
  {
    /** 201 for a created account, 400 for either refusal. */
    function Reply(): (r: HttpReply)
      ensures r.success <==> Registered?
      ensures r.status == if Registered? then 201 else 400
    {
      match this
      case RegisterMissingFields => HttpReply(400, false, "Something is missing")
      case EmailTaken => HttpReply(400, false, "User already exists with this email.")
      case Registered(_) => HttpReply(201, true, "Account created successfully. Please verify your email with the OTP sent to your inbox.")
    }
  }

  /** A required field is falsy; the e-mail is judged after normalisation,
      so an address of only whitespace counts as missing. */
  predicate RegisterFieldsMissing(req: RegisterRequest): (b: bool)
    ensures b <==>
      || req.fullname == [] || req.phoneNumber == [] || req.password == [] || req.role == []
      || forall k :: 0 <= k < |req.email| ==> IsWhitespace(req.email[k])
  {
    || req.fullname == []
    || NormalizeEmail(req.email) == []
    || req.phoneNumber == []
    || req.password == []
    || req.role == []
  }

  /** The record `register` creates for a normalised e-mail, a drawn code,
      the current time and the uploaded photo's URL ("" when none). */
  function NewAccount(req: RegisterRequest, email: string, code: nat, now: int, photoUrl: string): (a: Account)
    requires 100000 <= code <= 999999
    ensures VerificationConsistent(a) && !a.isVerified
    ensures a.email == email && PasswordMatches(req.password, a.password)
    ensures a.verificationOtp == Some(IssueCode(code))
    ensures a.verificationOtpExpiry == Some(now + 600000)
  {
    Account(req.fullname, email, req.phoneNumber, HashPassword(req.password), req.role,
            false, Some(IssueCode(code)), Some(now + OtpValidityMs),
            Profile([], [], [], [], photoUrl))
  }

  // ---------------------------------------------------------------------------
  // login
  // ---------------------------------------------------------------------------

  datatype LoginOutcome =
    | LoginMissingFields
    | IncorrectCredentials
    | WrongRole
      /** 200: a session cookie is issued for `id`. */
    | LoggedIn(id: nat)
  {
    /** The greeting names the record that logged in. */
    function Reply(accounts: seq<Account>): (r: HttpReply)
      requires LoggedIn? ==> id < |accounts|
      ensures r.success <==> LoggedIn?
      ensures r.status == if LoggedIn? then 200 else 400
    {
      match this
      case LoginMissingFields => HttpReply(400, false, "Something is missing")
      case IncorrectCredentials => HttpReply(400, false, "Incorrect email or password.")
      case WrongRole => HttpReply(400, false, "Account doesn't exist with current role.")
      case LoggedIn(i) => HttpReply(200, true, "Welcome back " + accounts[i].fullname)
    }
  }

  /** `login`: the raw e-mail (not normalised) is looked up; an unknown
      address and a wrong password give the same outcome; the role is
      compared only after the password; the verification state is never
      looked at. */
  function LoginOutcomeOf(accounts: seq<Account>, email: string, password: string, role: string): (r: LoginOutcome)
    ensures r == LoginMissingFields <==> email == [] || password == [] || role == []
    ensures r == IncorrectCredentials <==>
      && email != [] && password != [] && role != []
      && (|| FindByEmail(accounts, email).None?
          || !PasswordMatches(password, accounts[FindByEmail(accounts, email).value].password))
    ensures r.LoggedIn? ==>
      && FindByEmail(accounts, email) == Some(r.id)
      && r.id < |accounts| && accounts[r.id].email == email
      && PasswordMatches(password, accounts[r.id].password)
      && accounts[r.id].role == role
    ensures r == WrongRole <==>
      && email != [] && password != [] && role != []
      && FindByEmail(accounts, email).Some?
      && PasswordMatches(password, accounts[FindByEmail(accounts, email).value].password)
      && accounts[FindByEmail(accounts, email).value].role != role
  {
    if email == [] || password == [] || role == [] then LoginMissingFields
    else match FindByEmail(accounts, email)
      case None => IncorrectCredentials
      case Some(i) =>
        if !PasswordMatches(password, accounts[i].password) then IncorrectCredentials
        else if role != accounts[i].role then WrongRole
        else LoggedIn(i)
  }

  /** Login gives the same answer whether or not the record is verified. */
  lemma LoginIgnoresVerification(accounts: seq<Account>, i: nat, verified: bool, email: string, password: string, role: string)
    requires i < |accounts|
    ensures LoginOutcomeOf(accounts[i := accounts[i].(isVerified := verified)], email, password, role)
         == LoginOutcomeOf(accounts, email, password, role)
  {
    var flipped := accounts[i := accounts[i].(isVerified := verified)];
    assert forall j :: 0 <= j < |accounts| ==> flipped[j].email == accounts[j].email;
    assert FindByEmail(flipped, email) == FindByEmail(accounts, email);
  }

  /** Registration stores normalised addresses while login looks up the raw
      one: an address typed with surrounding blanks or capitals logs into
      no record of a directory holding only normalised addresses. */
  lemma LoginWithUnnormalizedEmailFails(accounts: seq<Account>, email: string, password: string, role: string)
    requires forall j :: 0 <= j < |accounts| ==> accounts[j].email == NormalizeEmail(accounts[j].email)
    requires email != NormalizeEmail(email)
    requires password != [] && role != []
    ensures LoginOutcomeOf(accounts, email, password, role) == IncorrectCredentials
  {
    assert email != [];
    assert forall j :: 0 <= j < |accounts| ==> accounts[j].email != email;
  }

  // ---------------------------------------------------------------------------
  // verifyOTP
  // ---------------------------------------------------------------------------

  datatype VerifyOutcome =
    | VerifyMissingFields
    | VerifyUserNotFound
    | NoOtpFound
    | OtpExpired
    | OtpMismatch
    | Verified
  {
    /** Every failure is a 400; they differ only by message. */
    function Reply(): (r: HttpReply)
      ensures r.success <==> Verified?
      ensures r.status == if Verified? then 200 else 400
    {
      match this
      case VerifyMissingFields => HttpReply(400, false, "Email and OTP are required")
      case VerifyUserNotFound => HttpReply(400, false, "User not found")
      case NoOtpFound => HttpReply(400, false, "No OTP found. Please request a new one.")
      case OtpExpired => HttpReply(400, false, "OTP has expired. Please request a new one.")
      case OtpMismatch => HttpReply(400, false, "Invalid OTP. Please check and try again.")
      case Verified => HttpReply(200, true, "Email verified successfully!")
    }
  }

  /** `String(otp).trim()`: an absent code becomes the text "undefined". */
  function SubmittedCode(otp: Option<string>): (s: string)
    ensures otp.None? ==> s == "undefined"
    ensures otp.Some? ==> s == Trim(otp.value)
  {
    match otp
    case None => "undefined"
    case Some(text) => Trim(text)
  }

  /** The checks made on a record that was found, in the source's order:
      a pending code, then its expiry (strictly before `now` is expired),
      then equality of the trimmed codes. */
  function CheckCode(a: Account, submitted: string, now: int): (r: VerifyOutcome)
    ensures r != VerifyMissingFields && r != VerifyUserNotFound
    ensures r == NoOtpFound <==> a.verificationOtp.None? || a.verificationOtp.value == []
    ensures r == OtpExpired <==>
      && a.verificationOtp.Some? && a.verificationOtp.value != []
      && a.verificationOtpExpiry.Some? && a.verificationOtpExpiry.value < now
    ensures r == OtpMismatch <==>
      && a.verificationOtp.Some? && a.verificationOtp.value != []
      && !(a.verificationOtpExpiry.Some? && a.verificationOtpExpiry.value < now)
      && Trim(a.verificationOtp.value) != Trim(submitted)
    ensures r == Verified <==>
      && a.verificationOtp.Some? && a.verificationOtp.value != []
      && !(a.verificationOtpExpiry.Some? && a.verificationOtpExpiry.value < now)
      && Trim(a.verificationOtp.value) == Trim(submitted)
  {
    match a.verificationOtp
    case None => NoOtpFound
    case Some(stored) =>
      if stored == [] then NoOtpFound
      else if a.verificationOtpExpiry.Some? && a.verificationOtpExpiry.value < now then OtpExpired
      else if Trim(stored) != Trim(submitted) then OtpMismatch
      else Verified
  }

  /** `verifyOTP`'s decision for a whole directory. */
  function VerifyOutcomeOf(accounts: seq<Account>, email: string, otp: Option<string>, now: int): (r: VerifyOutcome)
    ensures r == VerifyMissingFields <==> NormalizeEmail(email) == [] || SubmittedCode(otp) == []
    ensures r == VerifyUserNotFound <==>
      NormalizeEmail(email) != [] && SubmittedCode(otp) != [] && FindByEmail(accounts, NormalizeEmail(email)).None?
    ensures r !in {VerifyMissingFields, VerifyUserNotFound} ==>
      && FindByEmail(accounts, NormalizeEmail(email)).Some?
      && r == CheckCode(accounts[FindByEmail(accounts, NormalizeEmail(email)).value], SubmittedCode(otp), now)
  {
    var e := NormalizeEmail(email);
    var code := SubmittedCode(otp);
    if e == [] || code == [] then VerifyMissingFields
    else match FindByEmail(accounts, e)
      case None => VerifyUserNotFound
      case Some(i) => CheckCode(accounts[i], code, now)
  }

  /** A request without a code is not rejected as incomplete: the absent
      code is compared as the text "undefined", which no issued code
      equals. */
  lemma AbsentCodeIsNotMissing(accounts: seq<Account>, email: string, now: int)
    requires NormalizeEmail(email) != []
    requires forall j :: 0 <= j < |accounts| ==> VerificationConsistent(accounts[j])
    ensures VerifyOutcomeOf(accounts, email, None, now) in {VerifyUserNotFound, NoOtpFound, OtpExpired, OtpMismatch}
  {
    var found := FindByEmail(accounts, NormalizeEmail(email));
    TrimOfTrimmed("undefined");
    if found.Some? && accounts[found.value].verificationOtp.Some? {
      var stored := accounts[found.value].verificationOtp.value;
      IssuedCodeIsTrimmed(stored);
      assert |Trim(stored)| != |Trim("undefined")|;
    }
  }

  /** The record after a successful verification: verified, code and
      expiry cleared, every other field as it was. */
  function MarkVerified(a: Account): (b: Account)
    ensures b.isVerified && b.verificationOtp.None? && b.verificationOtpExpiry.None?
    ensures VerificationConsistent(b)
    ensures b.(isVerified := a.isVerified, verificationOtp := a.verificationOtp,
               verificationOtpExpiry := a.verificationOtpExpiry) == a
  {
    a.(isVerified := true, verificationOtp := None, verificationOtpExpiry := None)
  }

  /** A freshly registered record accepts its own code at every instant up
      to and including the expiry (`expiry < now` is the rejection test),
      and rejects it as expired one millisecond later. */
  lemma CodeAcceptedUntilExpiry(req: RegisterRequest, email: string, code: nat, issuedAt: int, now: int)
    requires 100000 <= code <= 999999
    ensures var a := NewAccount(req, email, code, issuedAt, "");
            now <= issuedAt + OtpValidityMs ==> CheckCode(a, IssueCode(code), now) == Verified
    ensures var a := NewAccount(req, email, code, issuedAt, "");
            now > issuedAt + OtpValidityMs ==> CheckCode(a, IssueCode(code), now) == OtpExpired
  {
    IssuedCodeIsTrimmed(IssueCode(code));
  }

  /** A different code submitted in time is a mismatch. */
  lemma WrongCodeIsMismatch(a: Account, submitted: string, now: int)
    requires VerificationConsistent(a) && !a.isVerified
    requires now <= a.verificationOtpExpiry.value
    requires Trim(submitted) != a.verificationOtp.value
    ensures CheckCode(a, submitted, now) == OtpMismatch
  {
    IssuedCodeIsTrimmed(a.verificationOtp.value);
  }

  /** Once verified, a record has no code left, so repeating the same
      verification answers "No OTP found". */
  lemma RepeatVerifyFindsNoCode(a: Account, submitted: string, now: int)
    ensures CheckCode(MarkVerified(a), submitted, now) == NoOtpFound
  {
  }

  // ---------------------------------------------------------------------------
  // resendOTP
  // ---------------------------------------------------------------------------

  datatype ResendOutcome =
    | ResendMissingEmail
    | ResendUserNotFound
    | AlreadyVerified
    | OtpResent
  {
    /** 404 only for an unknown address, 200 only for a re-issued code. */
    function Reply(): (r: HttpReply)
      ensures r.success <==> OtpResent?
      ensures r.status == if OtpResent? then 200 else if ResendUserNotFound? then 404 else 400
    {
      match this
      case ResendMissingEmail => HttpReply(400, false, "Email is required")
      case ResendUserNotFound => HttpReply(404, false, "User not found")
      case AlreadyVerified => HttpReply(400, false, "Email is already verified")
      case OtpResent => HttpReply(200, true, "OTP sent successfully to your email")
    }
  }

  /** `resendOTP`'s decision. Delivery of the e-mail plays no part: the
      sender reports failure by returning `false`, which is not looked at. */
  function ResendOutcomeOf(accounts: seq<Account>, email: string): (r: ResendOutcome)
    ensures r == ResendMissingEmail <==> NormalizeEmail(email) == []
    ensures r == ResendUserNotFound <==> NormalizeEmail(email) != [] && FindByEmail(accounts, NormalizeEmail(email)).None?
    ensures r in {AlreadyVerified, OtpResent} ==> FindByEmail(accounts, NormalizeEmail(email)).Some?
    ensures r == OtpResent <==>
      && FindByEmail(accounts, NormalizeEmail(email)).Some? && NormalizeEmail(email) != []
      && !accounts[FindByEmail(accounts, NormalizeEmail(email)).value].isVerified
  {
    var e := NormalizeEmail(email);
    if e == [] then ResendMissingEmail
    else match FindByEmail(accounts, e)
      case None => ResendUserNotFound
      case Some(i) => if accounts[i].isVerified then AlreadyVerified else OtpResent
  }

  /** The record after a re-issue: only the code and its expiry change. */
  function Reissue(a: Account, code: nat, now: int): (b: Account)
    requires 100000 <= code <= 999999
    ensures b.verificationOtp == Some(IssueCode(code))
    ensures b.verificationOtpExpiry == Some(now + 600000)
    ensures b.(verificationOtp := a.verificationOtp, verificationOtpExpiry := a.verificationOtpExpiry) == a
    ensures !a.isVerified && VerificationConsistent(a) ==> VerificationConsistent(b)
  {
    a.(verificationOtp := Some(IssueCode(code)), verificationOtpExpiry := Some(now + OtpValidityMs))
  }

  /** After a re-issue with a different draw, the old code is a mismatch
      for the whole new window, while the new code is accepted. */
  lemma ReissueInvalidatesOldCode(a: Account, oldCode: nat, newCode: nat, issuedAt: int, now: int)
    requires 100000 <= oldCode <= 999999 && 100000 <= newCode <= 999999
    requires oldCode != newCode
    requires now <= issuedAt + OtpValidityMs
    ensures CheckCode(Reissue(a, newCode, issuedAt), IssueCode(oldCode), now) == OtpMismatch
    ensures CheckCode(Reissue(a, newCode, issuedAt), IssueCode(newCode), now) == Verified
  {
    IssuedCodeIsTrimmed(IssueCode(oldCode));
    IssuedCodeIsTrimmed(IssueCode(newCode));
    IssueCodeInjective(oldCode, newCode);
  }

  // ---------------------------------------------------------------------------
  // updateProfile
  // ---------------------------------------------------------------------------

  /** The text fields of a profile update; "" is an absent (falsy) field. */
  datatype ProfileUpdate = ProfileUpdate(
    fullname: string,
    email: string,
    phoneNumber: string,
    bio: string,
    skills: string)

  /** A résumé file that was uploaded: the media host's URL and the file's
      original name. */
  datatype Upload = Upload(url: string, originalName: string)

  datatype UpdateOutcome = UpdateUserNotFound | ProfileUpdated(id: nat)
  {
    function Reply(): (r: HttpReply)
      ensures r.success <==> ProfileUpdated?
      ensures r.status == if ProfileUpdated? then 200 else 400
    {
      match this
      case UpdateUserNotFound => HttpReply(400, false, "User not found.")
      case ProfileUpdated(_) => HttpReply(200, true, "Profile updated successfully.")
    }
  }

  /** The record after `updateProfile`: each truthy field overwrites its
      counterpart (the e-mail verbatim, skills split on ","), the résumé
      only when a file was uploaded; nothing else changes. */
  function ApplyProfileUpdate(a: Account, u: ProfileUpdate, resume: Option<Upload>): (b: Account)
    ensures b.fullname == (if u.fullname != [] then u.fullname else a.fullname)
    ensures b.email == (if u.email != [] then u.email else a.email)
    ensures b.phoneNumber == (if u.phoneNumber != [] then u.phoneNumber else a.phoneNumber)
    ensures b.profile.bio == (if u.bio != [] then u.bio else a.profile.bio)
    ensures u.skills != [] ==> b.profile.skills == Split(u.skills, ',')
    ensures u.skills != [] ==> JoinWith(b.profile.skills, ',') == u.skills
    ensures u.skills == [] ==> b.profile.skills == a.profile.skills
    ensures resume.Some? ==> b.profile.resume == resume.value.url && b.profile.resumeOriginalName == resume.value.originalName
    ensures resume.None? ==> b.profile.resume == a.profile.resume && b.profile.resumeOriginalName == a.profile.resumeOriginalName
    ensures b.password == a.password && b.role == a.role && b.profile.profilePhoto == a.profile.profilePhoto
    ensures b.isVerified == a.isVerified && b.verificationOtp == a.verificationOtp
    ensures b.verificationOtpExpiry == a.verificationOtpExpiry
  {
    var p := a.profile;
    var p := if u.bio != [] then p.(bio := u.bio) else p;
    var p := if u.skills != [] then p.(skills := Split(u.skills, ',')) else p;
    var p := if resume.Some? then p.(resume := resume.value.url, resumeOriginalName := resume.value.originalName) else p;
    a.(fullname := if u.fullname != [] then u.fullname else a.fullname,
       email := if u.email != [] then u.email else a.email,
       phoneNumber := if u.phoneNumber != [] then u.phoneNumber else a.phoneNumber,
       profile := p)
  }

  /** Submitting the same update twice leaves the record as one submission
      did. */
  lemma ProfileUpdateIdempotent(a: Account, u: ProfileUpdate, resume: Option<Upload>)
    ensures ApplyProfileUpdate(ApplyProfileUpdate(a, u, resume), u, resume) == ApplyProfileUpdate(a, u, resume)
  {
  }

  // ---------------------------------------------------------------------------
  // The directory
  // ---------------------------------------------------------------------------

  /** The user collection. A record's id is its position: records are only
      appended, never removed, by these operations. */
  class UserDirectory {
    var accounts: seq<Account>

    /** Every record is in one of the two verification shapes. */
    ghost predicate Valid()
      reads this
    {
      forall i :: 0 <= i < |accounts| ==> VerificationConsistent(accounts[i])
    }

    constructor ()
      ensures Valid() && accounts == []
    {
      accounts := [];
    }

    /** `register`. On either failure nothing is created (and no e-mail or
        cookie is sent); on success exactly one unverified record with a
        fresh code is appended. */
    method Register(req: RegisterRequest, code: nat, now: int, photoUrl: string) returns (r: RegisterOutcome)
      requires Valid()
      requires 100000 <= code <= 999999
      modifies this
      ensures Valid()
      ensures RegisterFieldsMissing(req) ==> r == RegisterMissingFields && accounts == old(accounts)
      ensures !RegisterFieldsMissing(req) && FindByEmail(old(accounts), NormalizeEmail(req.email)).Some? ==>
        r == EmailTaken && accounts == old(accounts)
      ensures !RegisterFieldsMissing(req) && FindByEmail(old(accounts), NormalizeEmail(req.email)).None? ==>
        && r == Registered(|old(accounts)|)
        && accounts == old(accounts) + [NewAccount(req, NormalizeEmail(req.email), code, now, photoUrl)]
    {
      var email := NormalizeEmail(req.email);
      if RegisterFieldsMissing(req) {
        return RegisterMissingFields;
      }
      if FindByEmail(accounts, email).Some? {
        return EmailTaken;
      }
      accounts := accounts + [NewAccount(req, email, code, now, photoUrl)];
      r := Registered(|accounts| - 1);
    }

    /** `login` reads the directory and changes nothing. */
    method Login(email: string, password: string, role: string) returns (r: LoginOutcome)
      ensures r == LoginOutcomeOf(accounts, email, password, role)
    {
      r := LoginOutcomeOf(accounts, email, password, role);
    }

    /** `verifyOTP`. Every failure leaves the directory as it was; success
        changes only the found record, into its verified form. */
    method VerifyOtp(email: string, otp: Option<string>, now: int) returns (r: VerifyOutcome)
      requires Valid()
      modifies this
      ensures Valid()
      ensures r == VerifyOutcomeOf(old(accounts), email, otp, now)
      ensures r != Verified ==> accounts == old(accounts)
      ensures r == Verified ==>
        var i := FindByEmail(old(accounts), NormalizeEmail(email)).value;
        accounts == old(accounts)[i := MarkVerified(old(accounts)[i])]
    {
      r := VerifyOutcomeOf(accounts, email, otp, now);
      if r == Verified {
        var i := FindByEmail(accounts, NormalizeEmail(email)).value;
        accounts := accounts[i := MarkVerified(accounts[i])];
      }
    }

    /** `resendOTP`. Unknown and verified records are left alone (no code,
        no e-mail); otherwise only the found record's code and expiry are
        overwritten. The outcome does not depend on `delivered`, the
        sender's report of whether the e-mail went out. */
    method ResendOtp(email: string, code: nat, now: int, delivered: bool) returns (r: ResendOutcome)
      requires Valid()
      requires 100000 <= code <= 999999
      modifies this
      ensures Valid()
      ensures r == ResendOutcomeOf(old(accounts), email)
      ensures r != OtpResent ==> accounts == old(accounts)
      ensures r == OtpResent ==>
        var i := FindByEmail(old(accounts), NormalizeEmail(email)).value;
        accounts == old(accounts)[i := Reissue(old(accounts)[i], code, now)]
    {
      r := ResendOutcomeOf(accounts, email);
      if r == OtpResent {
        var i := FindByEmail(accounts, NormalizeEmail(email)).value;
        accounts := accounts[i := Reissue(accounts[i], code, now)];
      }
    }

    /** `updateProfile` for the authenticated id. */
    method UpdateProfile(id: nat, u: ProfileUpdate, resume: Option<Upload>) returns (r: UpdateOutcome)
      requires Valid()
      modifies this
      ensures Valid()
      ensures id >= |old(accounts)| ==> r == UpdateUserNotFound && accounts == old(accounts)
      ensures id < |old(accounts)| ==>
        r == ProfileUpdated(id) && accounts == old(accounts)[id := ApplyProfileUpdate(old(accounts)[id], u, resume)]
    {
      if id >= |accounts| {
        return UpdateUserNotFound;
      }
      accounts := accounts[id := ApplyProfileUpdate(accounts[id], u, resume)];
      r := ProfileUpdated(id);
    }
  }

  // ---------------------------------------------------------------------------
  // Whole flows
  // ---------------------------------------------------------------------------

  /** Register, submit a wrong code, submit the right one, submit it again:
      mismatch, success, then "No OTP found". */
  method RegisterThenVerify(req: RegisterRequest, code: nat, wrongCode: nat, now: int)
    returns (wrong: VerifyOutcome, right: VerifyOutcome, again: VerifyOutcome)
    requires !RegisterFieldsMissing(req)
    requires 100000 <= code <= 999999 && 100000 <= wrongCode <= 999999 && code != wrongCode
    ensures wrong == OtpMismatch && right == Verified && again == NoOtpFound
  {
    var dir := new UserDirectory();
    var reg := dir.Register(req, code, now, "");
    var e := NormalizeEmail(req.email);
    NormalizeEmailIdempotent(req.email);
    IssuedCodeIsTrimmed(IssueCode(wrongCode));
    IssuedCodeIsTrimmed(IssueCode(code));
    IssueCodeInjective(code, wrongCode);
    wrong := dir.VerifyOtp(e, Some(IssueCode(wrongCode)), now + 1000);
    right := dir.VerifyOtp(e, Some(IssueCode(code)), now + 2000);
    again := dir.VerifyOtp(e, Some(IssueCode(code)), now + 3000);
  }

  /** Registering again under a case or whitespace variant of a registered
      address (`second.email` is `v` padded with whitespace, where `v`
      differs from the first address at most in case) is refused, and the
      first record (with its code) is kept. */
  method RegisterTwice(first: RegisterRequest, second: RegisterRequest, pre: string, v: string, post: string,
                       c1: nat, c2: nat, now: int)
    returns (r1: RegisterOutcome, r2: RegisterOutcome, kept: Option<string>)
    requires !RegisterFieldsMissing(first) && !RegisterFieldsMissing(second)
    requires forall k :: 0 <= k < |pre| ==> IsWhitespace(pre[k])
    requires forall k :: 0 <= k < |post| ==> IsWhitespace(post[k])
    requires ToLower(v) == ToLower(first.email) && second.email == pre + v + post
    requires 100000 <= c1 <= 999999 && 100000 <= c2 <= 999999
    ensures r1 == Registered(0) && r2 == EmailTaken
    ensures kept == Some(IssueCode(c1))
  {
    NormalizeEmailVariants(pre, v, post, first.email);
    var dir := new UserDirectory();
    r1 := dir.Register(first, c1, now, "");
    r2 := dir.Register(second, c2, now, "");
    kept := dir.accounts[0].verificationOtp;
  }

  /** Re-issue after registration: the first code becomes a mismatch and
      the second is accepted; a verified record then refuses re-issue. */
  method ResendThenVerify(req: RegisterRequest, c1: nat, c2: nat, c3: nat, now: int)
    returns (resent: ResendOutcome, stale: VerifyOutcome, current: VerifyOutcome, late: ResendOutcome)
    requires !RegisterFieldsMissing(req)
    requires 100000 <= c1 <= 999999 && 100000 <= c2 <= 999999 && 100000 <= c3 <= 999999 && c1 != c2
    ensures resent == OtpResent && stale == OtpMismatch && current == Verified && late == AlreadyVerified
  {
    var dir := new UserDirectory();
    var reg := dir.Register(req, c1, now, "");
    var e := NormalizeEmail(req.email);
    NormalizeEmailIdempotent(req.email);
    resent := dir.ResendOtp(e, c2, now + 60000, false);
    IssuedCodeIsTrimmed(IssueCode(c1));
    IssuedCodeIsTrimmed(IssueCode(c2));
    IssueCodeInjective(c1, c2);
    stale := dir.VerifyOtp(e, Some(IssueCode(c1)), now + 61000);
    current := dir.VerifyOtp(e, Some(IssueCode(c2)), now + 62000);
    late := dir.ResendOtp(e, c3, now + 63000, true);
  }
}
