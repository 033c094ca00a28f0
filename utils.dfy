/** The helpers of frontend/src/utils/index.js that the guest-account views
    rely on: expiry and status, the e-mail and admin-password patterns,
    text truncation, status colours, password generation and date
    arithmetic. The current time `new Date()` is the parameter `now`. */
module Utils {
  import opened Text
  import opened Calendar
  import opened Expiration
  import opened GuestStore

  // --------------------------------------------------------------- status

  /** Milliseconds since midnight. */
  function TimeOfDay(t: DateTime): int {
    t.hours * MsPerHour + t.minutes * MsPerMinute + t.seconds * MsPerSecond + t.millis
  }

  /** isExpired: the expiry lies strictly before the current time, that is
      on an earlier calendar day, or on the same day at an earlier time of
      day. */
  predicate IsExpired(expiresAt: DateTime, now: DateTime): (r: bool)
    requires Normalized(expiresAt) && Normalized(now)
    ensures r <==> DayNumber(expiresAt) < DayNumber(now)
                   || (DayNumber(expiresAt) == DayNumber(now) && TimeOfDay(expiresAt) < TimeOfDay(now))
  {
    TimeValue(expiresAt) < TimeValue(now)
  }

  /** getUserStatus: an expired account is 'expired' whatever its flag;
      otherwise the flag decides between 'inactive' and 'active'. */
  function GetUserStatus(user: GuestView, now: DateTime): (r: string)
    requires Normalized(user.expiresAt) && Normalized(now)
    ensures r in {"expired", "inactive", "active"}
    ensures r == "expired" <==> IsExpired(user.expiresAt, now)
    ensures r == "inactive" <==> !IsExpired(user.expiresAt, now) && !user.isActive
    ensures r == "active" <==> !IsExpired(user.expiresAt, now) && user.isActive
  {
    if IsExpired(user.expiresAt, now) then "expired"
    else if !user.isActive then "inactive"
    else "active"
  }

  /** At the very instant of its expiry an account is not yet expired, and
      once expired it stays expired as time goes on. */
  lemma ExpiryIsStrict(expiresAt: DateTime, now: DateTime, later: DateTime)
    requires Normalized(expiresAt) && Normalized(now) && Normalized(later)
    requires TimeValue(now) <= TimeValue(later)
    ensures !IsExpired(expiresAt, expiresAt)
    ensures IsExpired(expiresAt, now) ==> IsExpired(expiresAt, later)
  {
  }

  /** The account createGuestUser inserts is 'active' at the moment of its
      creation: its expiry lies after the creation time. */
  lemma {:induction false} NewGuestIsActive(id: nat, admin: Admin, req: CreateRequest, now: DateTime, salt: nat)
    requires Normalized(now) && '@' in admin.email && req.password.Some? && req.expiration.Some?
    requires CheckDuration(req.expiration.value) == Accepted
    ensures Readable(req.expiration.value)
    ensures GetUserStatus(View(NewGuest(id, admin, req, now, salt)), now) == "active"
  {
    CheckAcceptsIff(req.expiration.value);
    AcceptedExpirationIsLater(now, req.expiration.value);
  }

  const ActiveColor := "text-emerald-700 dark:text-emerald-300 bg-emerald-50 dark:bg-emerald-900/20 border-emerald-200 dark:border-emerald-800"
  const InactiveColor := "text-slate-700 dark:text-slate-300 bg-slate-50 dark:bg-slate-900/20 border-slate-200 dark:border-slate-700"
  const ExpiredColor := "text-red-700 dark:text-red-300 bg-red-50 dark:bg-red-900/20 border-red-200 dark:border-red-800"

  /** getStatusColor: the three statuses get three different class lists;
      anything else is drawn like 'inactive'. */
  function GetStatusColor(status: string): (r: string)
    ensures r in {ActiveColor, InactiveColor, ExpiredColor}
    ensures r == ActiveColor <==> status == "active"
    ensures r == ExpiredColor <==> status == "expired"
    ensures status != "active" && status != "expired" ==> r == InactiveColor
  {
    if status == "active" then ActiveColor
    else if status == "inactive" then InactiveColor
    else if status == "expired" then ExpiredColor
    else InactiveColor
  }

  // ------------------------------------------------------------- patterns

  /** A character of the class `[^\s@]`. */
  predicate Plain(c: char) {
    !IsSpace(c) && c != '@'
  }

  predicate AllPlain(t: string) {
    forall j :: 0 <= j < |t| ==> Plain(t[j])
  }

  /** `/^[^\s@]+@[^\s@]+\.[^\s@]+$/` read as a shape: a non-empty local
      part, an '@', a non-empty name, a '.', a non-empty rest, none of the
      three holding white space or '@'. */
  ghost predicate EmailShape(s: string) {
    exists i, k :: 0 < i && i + 1 < k && k + 1 < |s| && s[i] == '@' && s[k] == '.'
      && AllPlain(s[..i]) && AllPlain(s[i + 1..k]) && AllPlain(s[k + 1..])
  }

  /** The pattern decided in one pass: the text before the first '@' and
      the text after it are plain, and the latter has a '.' that is neither
      its first nor its last character. */
  predicate EmailScan(email: string) {
    var i := IndexOf(email, '@');
    && 0 < i < |email|
    && AllPlain(email[..i])
    && var domain := email[i + 1..];
       && AllPlain(domain) && |domain| >= 3 && '.' in domain[1..|domain| - 1]
  }

  /** isValidEmail. */
  function IsValidEmail(email: string): (r: bool)
    ensures r <==> EmailShape(email)
  {
    EmailScanMatchesPattern(email);
    EmailScan(email)
  }

  /** isValidAdminEmail tests the same pattern as isValidEmail. */
  function IsValidAdminEmail(email: string): (r: bool)
    ensures r <==> EmailShape(email)
  {
    IsValidEmail(email)
  }

  /** The one-pass decision agrees with the pattern on every string. */
  lemma {:induction false} EmailScanMatchesPattern(s: string)
    ensures EmailScan(s) <==> EmailShape(s)
  {
    if EmailScan(s) {
      ValidEmailHasShape(s);
    }
    if EmailShape(s) {
      var i, k :| 0 < i && i + 1 < k && k + 1 < |s| && s[i] == '@' && s[k] == '.'
        && AllPlain(s[..i]) && AllPlain(s[i + 1..k]) && AllPlain(s[k + 1..]);
      ShapedEmailIsValid(s, i, k);
    }
  }

  lemma ValidEmailHasShape(s: string)
    requires EmailScan(s)
    ensures EmailShape(s)
  {
    var i := IndexOf(s, '@');
    var d := s[i + 1..];
    var j :| 0 <= j < |d| - 2 && d[1..|d| - 1][j] == '.';
    var k := i + 2 + j;
    assert s[k] == d[j + 1] == '.';
    var middle := s[i + 1..k];
    assert AllPlain(middle) by {
      forall n | 0 <= n < |middle| ensures Plain(middle[n]) {
        assert middle[n] == d[n];
      }
    }
    var rest := s[k + 1..];
    assert AllPlain(rest) by {
      forall n | 0 <= n < |rest| ensures Plain(rest[n]) {
        assert rest[n] == d[j + 2 + n];
      }
    }
  }

  lemma ShapedEmailIsValid(s: string, i: nat, k: nat)
    requires 0 < i && i + 1 < k && k + 1 < |s| && s[i] == '@' && s[k] == '.'
    requires AllPlain(s[..i]) && AllPlain(s[i + 1..k]) && AllPlain(s[k + 1..])
    ensures EmailScan(s)
  {
    AtFirstAt(s, i);
    var d := s[i + 1..];
    assert AllPlain(d) by {
      forall n | 0 <= n < |d| ensures Plain(d[n]) {
        if n < k - i - 1 {
          assert d[n] == s[i + 1..k][n];
        } else if n > k - i - 1 {
          assert d[n] == s[k + 1..][n - (k - i)];
        }
      }
    }
    assert d[1..|d| - 1][k - i - 2] == '.';
  }

  /** A position holding '@' with no '@' before it is the first '@'. */
  lemma AtFirstAt(s: string, i: nat)
    requires i < |s| && s[i] == '@' && AllPlain(s[..i])
    ensures IndexOf(s, '@') == i
  {
  }

  predicate IsAsciiLetter(c: char) {
    'a' <= c <= 'z' || 'A' <= c <= 'Z'
  }

  predicate IsDigit(c: char) {
    '0' <= c <= '9'
  }

  predicate AllLetters(t: string) {
    forall j :: 0 <= j < |t| ==> IsAsciiLetter(t[j])
  }

  predicate AllDigits(t: string) {
    forall j :: 0 <= j < |t| ==> IsDigit(t[j])
  }

  /** `/^[a-zA-Z]+@\d+$/` read as a shape: one or more ASCII letters, an
      '@', one or more decimal digits, nothing else. */
  ghost predicate AdminPasswordShape(s: string) {
    exists i :: 0 < i < |s| - 1 && s[i] == '@' && AllLetters(s[..i]) && AllDigits(s[i + 1..])
  }

  /** The pattern decided at the first '@'. */
  predicate AdminPasswordScan(password: string) {
    var i := IndexOf(password, '@');
    0 < i < |password| - 1 && AllLetters(password[..i]) && AllDigits(password[i + 1..])
  }

  /** isValidAdminPassword. */
  function IsValidAdminPassword(password: string): (r: bool)
    ensures r <==> AdminPasswordShape(password)
  {
    AdminPasswordScanMatchesPattern(password);
    AdminPasswordScan(password)
  }

  /** The decision at the first '@' agrees with the pattern on every
      string. */
  lemma {:induction false} AdminPasswordScanMatchesPattern(s: string)
    ensures AdminPasswordScan(s) <==> AdminPasswordShape(s)
  {
    if AdminPasswordShape(s) {
      var i :| 0 < i < |s| - 1 && s[i] == '@' && AllLetters(s[..i]) && AllDigits(s[i + 1..]);
      LettersBeforeFirstAt(s, i);
    }
  }

  /** A position holding '@' after letters only is the first '@'. */
  lemma LettersBeforeFirstAt(s: string, i: nat)
    requires i < |s| && s[i] == '@' && AllLetters(s[..i])
    ensures IndexOf(s, '@') == i
  {
  }

  // ----------------------------------------------------------------- text

  /** truncateText: text no longer than `maxLength` comes back as it is;
      longer text is cut to its first `maxLength` characters (none when
      `maxLength` is negative, as substr does) and "..." is appended. */
  function TruncateText(text: string, maxLength: int): (r: string)
    ensures |text| <= maxLength ==> r == text
    ensures |text| > maxLength ==>
      && |r| == (if maxLength < 0 then 0 else maxLength) + 3
      && r[..|r| - 3] == text[..|r| - 3]
      && r[|r| - 3..] == "..."
  {
    if |text| <= maxLength then text
    else
      var kept := if maxLength < 0 then 0 else maxLength;
      var r := text[..kept] + "...";
      assert r[..kept] == text[..kept];
      r
  }

  /** Truncating what truncateText returned changes nothing. */
  lemma {:induction false} TruncateIdempotent(text: string, maxLength: int)
    ensures TruncateText(TruncateText(text, maxLength), maxLength) == TruncateText(text, maxLength)
  {
    var r := TruncateText(text, maxLength);
    if |text| > maxLength {
      var kept := if maxLength < 0 then 0 else maxLength;
      var again := TruncateText(r, maxLength);
      assert r[..kept] == text[..kept];
      assert again == r[..kept] + "...";
      assert r == r[..kept] + r[kept..];
    }
  }

  // ------------------------------------------------------------- password

  const PasswordAlphabet := "ABCDEFGHIJKLMNOPQRSTUVWXYZabcdefghijklmnopqrstuvwxyz0123456789!@#$%"
  const PasswordLength: nat := 12

  /** Each draw picks a position in the alphabet
      (`Math.floor(Math.random() * chars.length)`). */
  predicate ValidDraws(draws: seq<nat>) {
    |draws| == PasswordLength && forall i :: 0 <= i < |draws| ==> draws[i] < |PasswordAlphabet|
  }

  /** The password the draws spell. */
  function Spell(draws: seq<nat>): (p: string)
    requires forall i :: 0 <= i < |draws| ==> draws[i] < |PasswordAlphabet|
    ensures |p| == |draws|
  {
    seq(|draws|, i requires 0 <= i < |draws| => PasswordAlphabet[draws[i]])
  }

  /** generatePassword: twelve characters appended one at a time, each the
      alphabet character at the next draw. */
  method GeneratePassword(draws: seq<nat>) returns (password: string)
    requires ValidDraws(draws)
    ensures |password| == PasswordLength
    ensures forall i :: 0 <= i < |password| ==> password[i] in PasswordAlphabet
    ensures password == Spell(draws)
  {
    password := "";
    for i := 0 to PasswordLength
      invariant |password| == i
      invariant forall k :: 0 <= k < i ==> password[k] == PasswordAlphabet[draws[k]]
    {
      password := password + [PasswordAlphabet[draws[i]]];
    }
  }

  /** Every twelve-character string over the alphabet is a possible
      password: some draws spell it. */
  lemma {:induction false} EveryPasswordPossible(p: string)
    requires |p| == PasswordLength && forall i :: 0 <= i < |p| ==> p[i] in PasswordAlphabet
    ensures exists draws :: ValidDraws(draws) && Spell(draws) == p
  {
    var draws := seq(|p|, i requires 0 <= i < |p| => IndexOf(PasswordAlphabet, p[i]));
    assert ValidDraws(draws);
    assert Spell(draws) == p;
  }

  // ----------------------------------------------------------------- dates

  /** addDaysToDate: a copy of the date moved by `days` calendar days; the
      argument is left as it was. */
  method AddDaysToDate(date: Date, days: int) returns (result: Date)
    requires date.Valid()
    ensures fresh(result) && result.Valid()
    ensures result.local == WithDate(date.local, date.local.day + days)
    ensures TimeValue(result.local) == TimeValue(date.local) + days * MsPerDay
  {
    result := new Date.At(date.local);
    result.SetDate(result.GetDate() + days);
    WithDateTimeValue(date.local, date.local.day + days);
  }
}
