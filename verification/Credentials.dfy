/** Short-lived TURN usernames of the form `<expiry>:<subject>`, after section 2.2 of
    draft-uberti-behave-turn-rest-00. Text is a sequence of bytes, one `char` each; time is in
    nanoseconds since the epoch. */
module Credentials {
  import opened Basics

  const MIN_INT64 := -0x8000_0000_0000_0000
  const MAX_INT64 := 0x7fff_ffff_ffff_ffff
  const SECOND := 1_000_000_000
  const HOUR := 3600 * SECOND

  predicate IsInt64(v: int) { MIN_INT64 <= v <= MAX_INT64 }

  /** Whole seconds, rounded towards the past. */
  function Unix(t: int): int { t / SECOND }

  // ---- decimal text ----

  predicate IsDigit(c: char) { '0' <= c <= '9' }

  function Digit(n: nat): char
    requires n < 10
  {
    '0' + n as char
  }

  function Digits(n: nat): string {
    if n < 10 then [Digit(n)] else Digits(n / 10) + [Digit(n % 10)]
  }

  function FormatInt(v: int): string {
    if v < 0 then "-" + Digits(-v) else Digits(v)
  }

  predicate AllDigits(s: string) { forall c | c in s :: IsDigit(c) }

  function Value(s: string): nat
    requires AllDigits(s)
  {
    if s == "" then 0
    else
      assert IsDigit(s[|s| - 1]);
      10 * Value(s[..|s| - 1]) + (s[|s| - 1] - '0') as nat
  }

  /** An optional sign, at least one digit, and a result within 64 bits. */
  function ParseInt(s: string): Option<int> {
    var signed := s != "" && (s[0] == '+' || s[0] == '-');
    var rest := if signed then s[1..] else s;
    if rest == "" || !AllDigits(rest) then None
    else
      var n: int := Value(rest);
      var v := if signed && s[0] == '-' then -n else n;
      if IsInt64(v) then Some(v) else None
  }

  lemma {:induction false} ValueOfDigits(n: nat)
    ensures Digits(n) != "" && AllDigits(Digits(n)) && Value(Digits(n)) == n
  {
    if n >= 10 {
      ValueOfDigits(n / 10);
      var front := Digits(n / 10);
      assert Digits(n)[..|front|] == front;
    }
  }

  /** Printing and parsing are inverse on exactly the 64-bit integers. */
  lemma FormatParse(v: int)
    ensures ParseInt(FormatInt(v)) == if IsInt64(v) then Some(v) else None
    ensures ':' !in FormatInt(v)
  {
    hide Digits, Value;
    ValueOfDigits(if v < 0 then -v else v);
    if v < 0 {
      assert FormatInt(v)[1..] == Digits(-v);
    } else {
      assert IsDigit(FormatInt(v)[0]);
    }
  }

  // ---- usernames ----

  /** Position of the first colon, or the length. */
  function FirstColon(s: string): (i: nat)
    ensures i <= |s| && ':' !in s[..i] && (i < |s| ==> s[i] == ':')
  {
    if s == "" || s[0] == ':' then 0
    else
      var i := 1 + FirstColon(s[1..]);
      assert s[..i] == [s[0]] + s[1..][..i - 1];
      i
  }

  function Username(expiry: int, subject: string): string { FormatInt(expiry) + ":" + subject }

  /** What the text says: the expiry in front of the first colon and the subject behind it. */
  function ReadUsername(username: string): Option<(int, string)> {
    var i := FirstColon(username);
    var expiry := ParseInt(username[..i]);
    if i < |username| && expiry.Some? && username[i + 1..] != "" then Some((expiry.value, username[i + 1..])) else None
  }

  predicate ValidUsername(username: string, now: int) {
    var read := ReadUsername(username);
    read.Some? && |username| <= 128 && Unix(now) < read.value.0 <= Unix(now + HOUR)
  }

  /** Round trip: an issued username is read back as its expiry and its subject, colons in the
      subject included. */
  lemma UsernameRoundTrip(expiry: int, subject: string)
    ensures ReadUsername(Username(expiry, subject)) == if IsInt64(expiry) && subject != "" then Some((expiry, subject)) else None
  {
    FormatParse(expiry);
    var head, u := FormatInt(expiry), Username(expiry, subject);
    var i := FirstColon(u);
    assert u[|head|] == ':';
    assert u[..|head|] == head && u[|head| + 1..] == subject;
    assert i == |head|;
  }

  // ---- issuing ----

  datatype Provider = Provider(secret: string, ttl: int)

  datatype Issued = Refused | Issued(username: string, expiresAt: int)

  function Configuration(p: Provider, subject: string, now: int): Issued {
    if |p.secret| < 32 || p.ttl <= 0 || p.ttl > HOUR || subject == "" || ':' in subject then Refused
    else Issued(Username(Unix(now + p.ttl), subject), now + p.ttl)
  }

  /** Credentials are issued for exactly the sound settings: a secret of at least 32 bytes, a lifetime
      of more than nothing and at most an hour, and a subject without a colon. */
  lemma IssuedExactlyWhenSound(p: Provider, subject: string, now: int)
    ensures Configuration(p, subject, now).Issued? <==>
      |p.secret| >= 32 && 0 < p.ttl <= 3_600_000_000_000 && subject != "" && ':' !in subject
    ensures Configuration(p, subject, now).Issued? ==>
      var c := Configuration(p, subject, now);
      c.expiresAt == now + p.ttl && (IsInt64(c.expiresAt / 1_000_000_000) ==>
        ReadUsername(c.username) == Some((c.expiresAt / 1_000_000_000, subject)))
  {
    UsernameRoundTrip(Unix(now + p.ttl), subject);
    hide ReadUsername, Username;
  }

  /** Only an optional sign and digits are read. */
  lemma ParseAccepts(s: string, i: nat)
    requires ParseInt(s).Some? && i < |s|
    ensures '0' <= s[i] <= '9' || (i == 0 && s[0] in {'+', '-'})
  {
    hide Value;
    if s[0] == '+' || s[0] == '-' {
      if i > 0 { assert s[1..][i - 1] in s[1..]; }
    } else {
      assert s[i] in s;
    }
  }

  /** A plus sign and leading zeros make no difference. */
  lemma ParseIgnores(s: string)
    requires s != "" && AllDigits(s)
    ensures ParseInt("+" + s) == ParseInt(s) && ParseInt("0" + s) == ParseInt(s)
  {
    hide Value;
    LeadingZero(s);
    assert ("+" + s)[1..] == s && IsDigit(s[0]);
  }

  lemma {:induction false} LeadingZero(s: string)
    requires AllDigits(s)
    ensures AllDigits("0" + s) && Value("0" + s) == Value(s)
  {
    if s != "" {
      assert ("0" + s)[..|s|] == "0" + s[..|s| - 1];
      LeadingZero(s[..|s| - 1]);
    } else {
      assert "0" + s == "0" && "0"[..0] == "";
    }
  }

  /** At whatever time it is presented, an issued username is valid exactly within 128 bytes, in a
      second before the one of its expiry, and not more than an hour ahead of it. */
  lemma IssuedIsValid(p: Provider, subject: string, now: int, t: int)
    requires Configuration(p, subject, now).Issued? && IsInt64(Unix(now + p.ttl))
    ensures var c := Configuration(p, subject, now);
      && c.expiresAt == now + p.ttl
      && (ValidUsername(c.username, t) <==> |c.username| <= 128 && Unix(t) < Unix(c.expiresAt) <= Unix(t + HOUR))
  {
    hide ReadUsername, Username;
    UsernameRoundTrip(Unix(now + p.ttl), subject);
  }

  /** From its issue on, a username of at most 128 bytes is valid exactly until the second of its
      expiry begins; a longer one never is. */
  lemma ValidUntilExpiry(p: Provider, subject: string, now: int, t: int)
    requires Configuration(p, subject, now).Issued? && IsInt64(Unix(now + p.ttl)) && now <= t
    ensures var c := Configuration(p, subject, now);
      ValidUsername(c.username, t) <==> |c.username| <= 128 && Unix(t) < Unix(c.expiresAt)
  {
    IssuedIsValid(p, subject, now, t);
  }

  /** A username is usable at the moment it is issued exactly when it fits and its lifetime
      reaches into another second, as every lifetime of a second or more does. */
  lemma UsableAtIssue(p: Provider, subject: string, now: int)
    requires Configuration(p, subject, now).Issued? && IsInt64(Unix(now + p.ttl))
    ensures var c := Configuration(p, subject, now);
      && (ValidUsername(c.username, now) <==> |c.username| <= 128 && now % SECOND + p.ttl >= SECOND)
      && (p.ttl >= SECOND ==> (ValidUsername(c.username, now) <==> |c.username| <= 128))
  {
    ValidUntilExpiry(p, subject, now, now);
  }

  /** Any text at all is accepted within a single stretch of less than an hour of whole seconds. */
  lemma AcceptedForAnHourAtMost(username: string, first: int, t: int, last: int)
    requires ValidUsername(username, first) && ValidUsername(username, last) && first <= t <= last
    ensures ValidUsername(username, t) && Unix(last) - Unix(first) < 3600
  {
    assert Unix(first) <= Unix(t) <= Unix(last) && Unix(first + HOUR) <= Unix(t + HOUR);
    assert Unix(first + HOUR) == Unix(first) + 3600;
  }

  /** Different expiries or subjects never share a username. */
  lemma UsernamesAreDistinct(expiry: int, subject: string, other: int, second: string)
    requires IsInt64(expiry) && IsInt64(other) && subject != "" && second != ""
    requires Username(expiry, subject) == Username(other, second)
    ensures expiry == other && subject == second
  {
    UsernameRoundTrip(expiry, subject);
    UsernameRoundTrip(other, second);
  }
}
