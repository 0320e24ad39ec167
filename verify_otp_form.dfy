/** The code-entry page: six one-character slots, a countdown in seconds,
    and the rules for typing, pasting, submitting and resetting. */
module VerifyOtpForm {

  import opened Optional
  import opened Strings
  import opened Session
  import opened RouteGuards
  import UserController

  const SlotCount := 6
  /** Ten minutes, the lifetime the server gives a code. */
  const TimerStart := 600
  const EmptySlots: seq<string> := ["", "", "", "", "", ""]

  // ---------------------------------------------------------------------------
  // isNaN on a string: ECMAScript StringToNumber
  // ---------------------------------------------------------------------------

  predicate IsDigitRun(s: string)
  {
    s != [] && AllDigits(s)
  }

  predicate IsHexDigit(c: char)
  {
    IsDigit(c) || 'a' <= c <= 'f' || 'A' <= c <= 'F'
  }

  /** `0x1F`, `0o17`, `0b101`: no sign, at least one digit. */
  predicate IsNonDecimalInteger(t: string)
  {
    && |t| >= 3 && t[0] == '0'
    && (|| (t[1] in {'x', 'X'} && forall i :: 2 <= i < |t| ==> IsHexDigit(t[i]))
        || (t[1] in {'o', 'O'} && forall i :: 2 <= i < |t| ==> '0' <= t[i] <= '7')
        || (t[1] in {'b', 'B'} && forall i :: 2 <= i < |t| ==> '0' <= t[i] <= '1'))
  }

  /** Digits with at most one point and at least one digit: `5`, `5.`,
      `.5`, `5.25`. */
  predicate IsMantissa(m: string)
  {
    match IndexOfAny(m, {'.'})
    case None => IsDigitRun(m)
    case Some(d) => |m| >= 2 && AllDigits(m[..d]) && AllDigits(m[d + 1..])
  }

  /** The part after `e` or `E`: an optional sign and digits. */
  predicate IsExponent(x: string)
  {
    if x != [] && x[0] in {'+', '-'} then IsDigitRun(x[1..]) else IsDigitRun(x)
  }

  predicate IsUnsignedDecimal(t: string)
  {
    || t == "Infinity"
    || match IndexOfAny(t, {'e', 'E'})
       case None => IsMantissa(t)
       case Some(k) => IsMantissa(t[..k]) && IsExponent(t[k + 1..])
  }

  /** A trimmed string `Number` accepts; the empty string reads as 0. */
  predicate IsNumericLiteral(t: string)
  {
    || t == []
    || IsNonDecimalInteger(t)
    || (t[0] in {'+', '-'} && IsUnsignedDecimal(t[1..]))
    || IsUnsignedDecimal(t)
  }

  /** `isNaN(value)` for a string value: blank or all-digit text is always
      a number. */
  predicate IsNaN(value: string): (b: bool)
    ensures AllDigits(Trim(value)) ==> !b
  {
    !IsNumericLiteral(Trim(value))
  }

  /** A run of digits is a number, so typing a digit is accepted. */
  lemma DigitsAreNumbers(value: string)
    requires IsDigitRun(value)
    ensures !IsNaN(value)
  {
    assert IsDigit(value[0]) && IsDigit(value[|value| - 1]);
    TrimOfTrimmed(value);
  }

  /** The empty string and a lone space are numbers (zero), so clearing a
      slot, or typing a space into it, is accepted. */
  lemma BlankIsNumber()
    ensures !IsNaN("")
    ensures !IsNaN(" ")
  {
    TrimOfTrimmed("");
    TrimUnique(" ", 1, 1);
  }

  /** A single letter is not a number, so typing one changes nothing. */
  lemma LetterIsNaN(c: char)
    requires 'a' <= c <= 'z' || 'A' <= c <= 'Z'
    ensures IsNaN([c])
  {
    TrimOfTrimmed([c]);
    if c !in {'e', 'E'} {
      assert IndexOfAny([c], {'.'}).None?;
    } else {
      assert IndexOfAny([c], {'e', 'E'}) == Some(0);
    }
  }

  // ---------------------------------------------------------------------------
  // Pure parts of the page
  // ---------------------------------------------------------------------------

  /** The slots after a paste: the first six characters of the text, one
      per slot, whatever they are, then empty slots. */
  function PastedSlots(text: string): (r: seq<string>)
    ensures |r| == SlotCount
    ensures forall i :: 0 <= i < SlotCount && i < |text| ==> r[i] == [text[i]]
    ensures forall i :: |text| <= i < SlotCount ==> r[i] == ""
  {
    var kept := if |text| <= SlotCount then text else text[..SlotCount];
    seq(SlotCount, i requires 0 <= i < SlotCount => if i < |kept| then [kept[i]] else "")
  }

  /** One slot per character. */
  function Singles(s: string): (r: seq<string>)
    ensures |r| == |s|
    ensures forall i :: 0 <= i < |s| ==> r[i] == [s[i]]
  {
    seq(|s|, i requires 0 <= i < |s| => [s[i]])
  }

  lemma {:induction false} ConcatSingles(s: string)
    ensures Concat(Singles(s)) == s
  {
    if s != [] {
      assert Singles(s) == [[s[0]]] + Singles(s[1..]);
      ConcatSingles(s[1..]);
    }
  }

  lemma {:induction false} ConcatEmpties(n: nat)
    ensures Concat(seq(n, _ => "")) == ""
  {
    if n > 0 {
      assert seq(n, _ => "") == [""] + seq(n - 1, _ => "");
      ConcatEmpties(n - 1);
    }
  }

  /** Joining the slots after a paste gives back the pasted text, cut to
      six characters. */
  lemma PasteThenJoin(text: string)
    ensures |text| <= SlotCount ==> Concat(PastedSlots(text)) == text
    ensures |text| > SlotCount ==> Concat(PastedSlots(text)) == text[..SlotCount]
  {
    var kept := if |text| <= SlotCount then text else text[..SlotCount];
    assert PastedSlots(text) == Singles(kept) + seq(SlotCount - |kept|, _ => "");
    ConcatAppend(Singles(kept), seq(SlotCount - |kept|, _ => ""));
    ConcatSingles(kept);
    ConcatEmpties(SlotCount - |kept|);
  }

  /** `otp.join('')`, and the code sent only when it has six characters. */
  function SubmittedCode(slots: seq<string>): (code: Option<string>)
    ensures code.Some? ==> |code.value| == SlotCount
    ensures code.Some? <==> |Concat(slots)| == SlotCount
    ensures code.Some? ==> code.value == Concat(slots)
  {
    var joined := Concat(slots);
    if |joined| != SlotCount then None else Some(joined)
  }

  /** Slots holding at most one character each, one of them empty, never
      make a code to send. */
  lemma {:induction false} GapBlocksSubmit(slots: seq<string>, gap: nat)
    requires forall i :: 0 <= i < |slots| ==> |slots[i]| <= 1
    requires gap < |slots| && slots[gap] == ""
    ensures |Concat(slots)| < |slots|
  {
    if gap > 0 {
      GapBlocksSubmit(slots[1..], gap - 1);
    } else {
      AtMostOneEach(slots[1..]);
    }
  }

  lemma {:induction false} AtMostOneEach(slots: seq<string>)
    requires forall i :: 0 <= i < |slots| ==> |slots[i]| <= 1
    ensures |Concat(slots)| <= |slots|
  {
    if slots != [] {
      AtMostOneEach(slots[1..]);
    }
  }

  /** `t` is an `m:ss` clock text for `minutes` and `secs`: the minutes in
      decimal without a leading zero, a colon, and the seconds as exactly
      two digits. */
  predicate IsClockText(t: string, minutes: nat, secs: nat)
  {
    && |t| >= 4 && t[|t| - 3] == ':'
    && AllDigits(t[..|t| - 3]) && ParseDecimal(t[..|t| - 3]) == minutes
    && (|t| == 4 || t[0] != '0')
    && AllDigits(t[|t| - 2..]) && ParseDecimal(t[|t| - 2..]) == secs
  }

  /** `formatTime`: whole minutes, a colon, and the seconds padded to two
      digits. */
  function FormatTime(seconds: nat): (t: string)
    ensures IsClockText(t, seconds / 60, seconds % 60)
  {
    SecondsField(seconds % 60);
    ClockParts(NatToDecimal(seconds / 60), PadStart(NatToDecimal(seconds % 60), 2, '0'), seconds / 60, seconds % 60);
    NatToDecimal(seconds / 60) + ":" + PadStart(NatToDecimal(seconds % 60), 2, '0')
  }

  /** Minutes in decimal, a colon and two digits of seconds form a clock
      text. */
  lemma ClockParts(m: string, ss: string, minutes: nat, secs: nat)
    requires |m| >= 1 && AllDigits(m) && ParseDecimal(m) == minutes && (m[0] == '0' ==> m == "0")
    requires |ss| == 2 && AllDigits(ss) && ParseDecimal(ss) == secs
    ensures IsClockText(m + ":" + ss, minutes, secs)
  {
    var t := m + ":" + ss;
    assert t[..|t| - 3] == m;
    assert t[|t| - 2..] == ss;
    assert t[0] == m[0];
  }

  /** Seconds below a minute pad to exactly two digits that read back as
      the same number. */
  lemma SecondsField(n: nat)
    requires n < 60
    ensures |PadStart(NatToDecimal(n), 2, '0')| == 2
    ensures AllDigits(PadStart(NatToDecimal(n), 2, '0'))
    ensures ParseDecimal(PadStart(NatToDecimal(n), 2, '0')) == n
  {
    var s := NatToDecimal(n);
    assert Pow10(0) == 1 && Pow10(1) == 10 && Pow10(2) == 100;
    if n < 10 {
      DecimalLength(n, 1);
      var padded := PadStart(s, 2, '0');
      assert padded == "0" + s;
      assert padded[..1] == "0";
    } else {
      DecimalLength(n, 2);
    }
  }

  /** In digits, a colon and anything after, the first colon is the one
      after the digits. */
  lemma FirstColonAfterDigits(m: string, rest: string)
    requires AllDigits(m)
    ensures IndexOfAny(m + ":" + rest, {':'}) == Some(|m|)
  {
    var t := m + ":" + rest;
    assert t[|m|] == ':';
    forall j | 0 <= j < |m|
      ensures t[j] !in {':'}
    {
      assert t[j] == m[j] && IsDigit(m[j]);
    }
  }

  /** Reads `m:ss` back into seconds. */
  function ParseClock(t: string): (r: Option<nat>)
    ensures r.Some? ==> exists k :: 0 <= k < |t| && t[k] == ':'
  {
    match IndexOfAny(t, {':'})
    case None => None
    case Some(k) =>
      var mins := t[..k];
      var secs := t[k + 1..];
      if AllDigits(mins) && AllDigits(secs) && |secs| == 2 then
        Some(ParseDecimal(mins) * 60 + ParseDecimal(secs))
      else None
  }

  /** The countdown text reads back as the number of seconds left. */
  lemma FormatTimeRoundTrip(seconds: nat)
    ensures ParseClock(FormatTime(seconds)) == Some(seconds)
  {
    var m := NatToDecimal(seconds / 60);
    var padded := PadStart(NatToDecimal(seconds % 60), 2, '0');
    var t := m + ":" + padded;
    SecondsField(seconds % 60);
    FirstColonAfterDigits(m, padded);
    assert t[..|m|] == m;
    assert t[|m| + 1..] == padded;
  }

  /** The starting countdown shows ten minutes. */
  lemma TimerStartsAtTenMinutes()
    ensures FormatTime(TimerStart) == "10:00"
  {
    assert NatToDecimal(10) == "10" by {
      assert NatToDecimal(1) == "1";
    }
    assert NatToDecimal(0) == "0";
  }

  /** What the countdown area shows. */
  function TimerLabel(timer: int): (shown: string)
    ensures timer > 0 ==> shown == "OTP expires in " + FormatTime(timer)
    ensures timer <= 0 ==> shown == "OTP has expired!"
  {
    if timer > 0 then "OTP expires in " + FormatTime(timer) else "OTP has expired!"
  }

  /** The page's mount effect: a user already verified is sent home. */
  function MountRedirect(u: AuthUser): (n: Navigation)
    ensures n == NavigateTo("/") <==> u.Present? && u.user.isVerified
    ensures n != NavigateTo("/") ==> n == Stay
  {
    if u.Present? && u.user.isVerified then NavigateTo("/") else Stay
  }

  /** Where a successful verification sends the user, by the role the page
      held before the update. */
  function AfterVerifyPath(u: AuthUser): (path: string)
    ensures path == "/admin/companies" <==> u.HasRole("recruiter")
    ensures path != "/admin/companies" ==> path == "/"
  {
    if u.HasRole("recruiter") then "/admin/companies" else "/"
  }

  /** After verifying, the page goes where the login and signup pages would
      send the now-verified user. */
  lemma AfterVerifyMatchesLanding(user: User)
    ensures AfterVerifyPath(Present(user)) == SignedInLanding(user.(isVerified := true))
  {
  }

  /** Pasting the code the server issued, before it expires, submits that
      code and the server accepts it. */
  lemma PastedIssuedCodeIsAccepted(a: UserController.Account, code: nat, now: int)
    requires 100000 <= code <= 999999
    requires a.verificationOtp == Some(UserController.IssueCode(code))
    requires a.verificationOtpExpiry.Some? && now <= a.verificationOtpExpiry.value
    ensures SubmittedCode(PastedSlots(UserController.IssueCode(code))) == Some(UserController.IssueCode(code))
    ensures UserController.CheckCode(a, UserController.SubmittedCode(Some(UserController.IssueCode(code))), now)
      == UserController.Verified
  {
    var s := UserController.IssueCode(code);
    PasteThenJoin(s);
    UserController.IssuedCodeIsTrimmed(s);
  }

  // ---------------------------------------------------------------------------
  // The page's state
  // ---------------------------------------------------------------------------

  /** The `otp` slot array and the `timer` state of the page. */
  class OtpEntry {
    var slots: seq<string>
    var timer: int

    ghost predicate Valid()
      reads this
    {
      |slots| == SlotCount && 0 <= timer <= TimerStart
    }

    constructor ()
      ensures Valid()
      ensures slots == EmptySlots && timer == TimerStart
    {
      slots := EmptySlots;
      timer := TimerStart;
    }

    /** `handleChange(index, value)`: a value `isNaN` rejects changes
        nothing; any other value replaces slot `index` and no other. */
    method HandleChange(index: nat, value: string)
      requires Valid() && index < SlotCount
      modifies this
      ensures Valid() && timer == old(timer)
      ensures IsNaN(value) ==> slots == old(slots)
      ensures !IsNaN(value) ==> slots == old(slots)[index := value]
    {
      if IsNaN(value) {
        return;
      }
      slots := slots[index := value];
    }

    /** `handlePaste`: the slots become the pasted text's first six
        characters, padded with empty slots. */
    method HandlePaste(text: string)
      requires Valid()
      modifies this
      ensures Valid() && timer == old(timer)
      ensures slots == PastedSlots(text)
    {
      slots := PastedSlots(text);
    }

    /** One second of the countdown; it stops at zero. */
    method Tick()
      requires Valid()
      modifies this
      ensures Valid() && slots == old(slots)
      ensures old(timer) > 0 ==> timer == old(timer) - 1
      ensures old(timer) == 0 ==> timer == 0
    {
      timer := if timer > 0 then timer - 1 else 0;
    }

    /** A successful resend restarts the countdown and clears the slots. */
    method ResendSucceeded()
      requires Valid()
      modifies this
      ensures Valid()
      ensures slots == EmptySlots && timer == TimerStart
    {
      timer := TimerStart;
      slots := EmptySlots;
    }

    /** A rejected verification clears the slots; the countdown runs on. */
    method VerificationFailed()
      requires Valid()
      modifies this
      ensures Valid() && timer == old(timer)
      ensures slots == EmptySlots
    {
      slots := EmptySlots;
    }

    /** The code a submit would send, if any. */
    method Submit() returns (code: Option<string>)
      requires Valid()
      ensures code == SubmittedCode(slots)
      ensures code.Some? <==> |Concat(slots)| == SlotCount
    {
      var joined := Concat(slots);
      if |joined| != SlotCount {
        return None;
      }
      return Some(joined);
    }

    /** The submit button: disabled while a request is in flight and once
        the countdown reaches zero. */
    function SubmitDisabled(loading: bool): (disabled: bool)
      reads this
      ensures !loading ==> (disabled <==> timer == 0)
      ensures loading ==> disabled
    {
      loading || timer == 0
    }
  }

  /** Cleared slots never submit, so a failed verification or a resend
      leaves nothing to send until the user types again. */
  lemma ClearedSlotsDoNotSubmit()
    ensures SubmittedCode(EmptySlots) == None
  {
    assert Concat(EmptySlots) == "" by {
      assert EmptySlots == seq(SlotCount, _ => "");
      ConcatEmpties(SlotCount);
    }
  }
}
